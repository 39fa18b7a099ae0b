/**
  The shape interpreter of a rebuilt trace.  It remembers: a replay overwrites every shape, but a value
  folded earlier stays in place wherever the replay computes a shape alone.
 */
module TraceReplay {
  import opened Basics

  type Shape = seq<nat>

  datatype Dim = Size(n: nat) | Symbol(name: string)

  type Report = Option<seq<Dim>>

  datatype Tensor = Tensor(shape: Shape, data: seq<real>)

  /** What an operator makes of its operands: a folded value, or a shape alone. */
  datatype Effect = Fold(value: Tensor) | Infer(shape: Report)

  /** A recorded node; its current edges live outside, in the array the repair rewires. */
  datatype Record = Record(name: string, broadcasts: bool, elementwise: bool, constant: bool, orig: seq<string>, out: string)

  type Edges = seq<seq<string>>

  type Kernel = (nat, seq<Option<Tensor>>, seq<Report>) -> Effect

  /** A trace: its records, which record produced a unique name, the producers of each original name in emission order, and what its operators compute. */
  datatype Trace = Trace(records: seq<Record>, recByOut: map<string, nat>, producers: map<string, seq<string>>, kernel: Kernel)
  {
    /** Index of the producing record, -1 for a graph input or initializer. */
    function Idx(u: string): int {
      if u in recByOut then recByOut[u] else -1
    }

    /** A constant keeps the value it was given; a record without an output writes nothing. */
    predicate Writes(n: nat) {
      n < |records| && !records[n].constant && records[n].out != ""
    }

    ghost predicate Fits(edges: Edges) {
      && |edges| == |records|
      && (forall u | u in recByOut :: recByOut[u] < |records|)
      && (forall n: nat | Writes(n) :: Idx(records[n].out) == n)
    }

    /** Every edge points at an earlier record. */
    ghost predicate Ordered(edges: Edges) {
      forall n, pos | 0 <= n < |edges| && 0 <= pos < |edges[n]| && edges[n][pos] != "" :: Idx(edges[n][pos]) < n
    }
  }

  function Lookup<V>(m: map<string, V>, u: string): Option<V> {
    if u in m then Some(m[u]) else None
  }

  /** The interpreter's two dictionaries. */
  datatype Memory = Memory(val: map<string, Tensor>, shp: map<string, Report>)
  {
    function Value(u: string): Option<Tensor> {
      if u == "" then None else Lookup(val, u)
    }

    function Shape(u: string): Report {
      if u != "" && u in shp then shp[u] else None
    }
  }

  function Values(m: Memory, ins: seq<string>): seq<Option<Tensor>> {
    seq(|ins|, k requires 0 <= k < |ins| => m.Value(ins[k]))
  }

  function Reports(m: Memory, ins: seq<string>): seq<Report> {
    seq(|ins|, k requires 0 <= k < |ins| => m.Shape(ins[k]))
  }

  function Sizes(s: Shape): seq<Dim> {
    seq(|s|, k requires 0 <= k < |s| => Size(s[k]))
  }

  function EffectOf(t: Trace, m: Memory, n: nat, ins: seq<string>): Effect {
    t.kernel(n, Values(m, ins), Reports(m, ins))
  }

  function Written(m: Memory, out: string, e: Effect): Memory {
    match e
    case Fold(v) => Memory(m.val[out := v], m.shp[out := Some(Sizes(v.shape))])
    case Infer(s) => Memory(m.val, m.shp[out := s])
  }

  function RunRecord(t: Trace, m: Memory, n: nat, ins: seq<string>): Memory {
    if t.Writes(n) then Written(m, t.records[n].out, EffectOf(t, m, n, ins)) else m
  }

  /** The first `n` records, in order. */
  function ReplayTo(t: Trace, m: Memory, edges: Edges, n: nat): Memory
    requires n <= |edges|
  {
    if n == 0 then m else RunRecord(t, ReplayTo(t, m, edges, n - 1), n - 1, edges[n - 1])
  }

  function Replay(t: Trace, m: Memory, edges: Edges): Memory {
    ReplayTo(t, m, edges, |edges|)
  }

  class Interp {
    var val: map<string, Tensor>
    var shp: map<string, Report>

    function Now(): Memory
      reads this
    {
      Memory(val, shp)
    }

    constructor (val: map<string, Tensor>, shp: map<string, Report>)
      ensures Now() == Memory(val, shp)
    {
      this.val, this.shp := val, shp;
    }

    /** One record: a folded value goes into both dictionaries, a shape into its own. */
    method Run(t: Trace, n: nat, ins: seq<string>)
      requires t.Writes(n)
      modifies this
      ensures Now() == RunRecord(t, old(Now()), n, ins)
    {
      var out := t.records[n].out;
      match t.kernel(n, Values(Now(), ins), Reports(Now(), ins))
      case Fold(v) =>
        val := val[out := v];
        shp := shp[out := Some(Sizes(v.shape))];
      case Infer(s) =>
        shp := shp[out := s];
    }

    method ReplayAll(t: Trace, edges: array<seq<string>>)
      requires edges.Length == |t.records|
      modifies this
      ensures Now() == Replay(t, old(Now()), edges[..])
    {
      var n := 0;
      while n < edges.Length
        invariant 0 <= n <= edges.Length && Now() == ReplayTo(t, old(Now()), edges[..], n)
      {
        if t.Writes(n) {
          Run(t, n, edges[n]);
        }
        n := n + 1;
      }
    }
  }

  // ---- what a replay reads -----------------------------------------------------------

  /** Record n or a later one will write `u`. */
  predicate Pending(t: Trace, u: string, n: nat) {
    var k := t.Idx(u);
    n <= k && t.Writes(k) && t.records[k].out == u
  }

  predicate SameAt(a: Memory, b: Memory, u: string) {
    Lookup(a.val, u) == Lookup(b.val, u) && Lookup(a.shp, u) == Lookup(b.shp, u)
  }

  /** The two memories agree wherever record n and the later ones may read. */
  ghost predicate SameFrom(t: Trace, a: Memory, b: Memory, n: nat) {
    forall u | !Pending(t, u, n) :: SameAt(a, b, u)
  }

  lemma SameEffect(t: Trace, a: Memory, b: Memory, edges: Edges, n: nat)
    requires t.Fits(edges) && t.Ordered(edges) && n < |edges| && SameFrom(t, a, b, n)
    ensures EffectOf(t, a, n, edges[n]) == EffectOf(t, b, n, edges[n])
  {
    forall k | 0 <= k < |edges[n]|
      ensures a.Value(edges[n][k]) == b.Value(edges[n][k]) && a.Shape(edges[n][k]) == b.Shape(edges[n][k])
    {
      assert edges[n][k] != "" ==> !Pending(t, edges[n][k], n);
    }
    assert Values(a, edges[n]) == Values(b, edges[n]);
    assert Reports(a, edges[n]) == Reports(b, edges[n]);
  }

  /** A name that waits for its record, or has none, is untouched. */
  lemma {:induction false} Untouched(t: Trace, m: Memory, edges: Edges, n: nat, u: string)
    requires t.Fits(edges) && n <= |edges| && (Pending(t, u, n) || !Pending(t, u, 0))
    ensures SameAt(ReplayTo(t, m, edges, n), m, u)
  {
    if n > 0 {
      hide EffectOf;
      Untouched(t, m, edges, n - 1, u);
    }
  }

  /** And once its record has run it does not change again. */
  lemma {:induction false} Final(t: Trace, m: Memory, edges: Edges, n: nat, k: nat)
    requires t.Fits(edges) && n <= k <= |edges|
    ensures SameFrom(t, ReplayTo(t, m, edges, n), ReplayTo(t, m, edges, k), n)
    decreases k - n
  {
    if n < k {
      hide EffectOf;
      Final(t, m, edges, n, k - 1);
    }
  }

  // ---- when a replay depends on what went before ------------------------------------------

  /** Replayed from `m`, record n folds a value. */
  predicate Folds(t: Trace, m: Memory, edges: Edges, n: nat)
    requires n < |edges|
  {
    t.Writes(n) && EffectOf(t, ReplayTo(t, m, edges, n), n, edges[n]).Fold?
  }

  /** What a replay of `e` leaves as the value of an output that a replay of `next` does not fold is what stood there. */
  ghost predicate NothingCarried(t: Trace, m: Memory, e: Edges, next: Edges) {
    forall n: nat | n < |next| && t.Writes(n) && !Folds(t, m, next, n) ::
      Lookup(Replay(t, m, e).val, t.records[n].out) == Lookup(m.val, t.records[n].out)
  }

  lemma FoldsOrKeeps(t: Trace, m: Memory, edges: Edges, n: nat)
    requires t.Fits(edges) && n < |edges| && t.Writes(n)
    ensures
      Lookup(Replay(t, m, edges).val, t.records[n].out) ==
      if Folds(t, m, edges, n) then Some(EffectOf(t, ReplayTo(t, m, edges, n), n, edges[n]).value)
      else Lookup(m.val, t.records[n].out)
  {
    hide EffectOf;
    var out := t.records[n].out;
    Untouched(t, m, edges, n, out);
    Final(t, m, edges, n + 1, |edges|);
    assert SameAt(ReplayTo(t, m, edges, n + 1), Replay(t, m, edges), out);
  }

  /** The values of `j` on what a replay of `edges` does not fold are those of `m`. */
  ghost predicate SameUnfolded(t: Trace, m: Memory, j: Memory, edges: Edges) {
    forall n: nat | n < |edges| && t.Writes(n) && !Folds(t, m, edges, n) ::
      Lookup(j.val, t.records[n].out) == Lookup(m.val, t.records[n].out)
  }

  lemma {:induction false} ReplaysAgree(t: Trace, m: Memory, j: Memory, edges: Edges, n: nat)
    requires t.Fits(edges) && t.Ordered(edges) && n <= |edges|
    requires SameFrom(t, m, j, 0) && SameUnfolded(t, m, j, edges)
    ensures SameFrom(t, ReplayTo(t, m, edges, n), ReplayTo(t, j, edges, n), n)
  {
    if n > 0 {
      hide EffectOf, SameFrom;
      ReplaysAgree(t, m, j, edges, n - 1);
      var a, b := ReplayTo(t, m, edges, n - 1), ReplayTo(t, j, edges, n - 1);
      SameEffect(t, a, b, edges, n - 1);
      if t.Writes(n - 1) {
        var out := t.records[n - 1].out;
        Untouched(t, m, edges, n - 1, out);
        Untouched(t, j, edges, n - 1, out);
        WriteAgrees(t, a, b, n - 1, EffectOf(t, a, n - 1, edges[n - 1]));
      } else {
        NoWriteAgrees(t, a, b, n - 1);
      }
    }
  }

  lemma WriteAgrees(t: Trace, a: Memory, b: Memory, n: nat, e: Effect)
    requires t.Writes(n) && t.Idx(t.records[n].out) == n && SameFrom(t, a, b, n)
    requires e.Infer? ==> Lookup(a.val, t.records[n].out) == Lookup(b.val, t.records[n].out)
    ensures SameFrom(t, Written(a, t.records[n].out, e), Written(b, t.records[n].out, e), n + 1)
  {
    forall u | !Pending(t, u, n + 1) ensures SameAt(Written(a, t.records[n].out, e), Written(b, t.records[n].out, e), u) {
      assert u != t.records[n].out ==> !Pending(t, u, n);
    }
  }

  lemma NoWriteAgrees(t: Trace, a: Memory, b: Memory, n: nat)
    requires !t.Writes(n) && SameFrom(t, a, b, n)
    ensures SameFrom(t, a, b, n + 1)
  {
    assert forall u | !Pending(t, u, n + 1) :: !Pending(t, u, n);
  }

  lemma AgreeIsEqual(t: Trace, a: Memory, b: Memory)
    requires forall u | u in t.recByOut :: t.recByOut[u] < |t.records|
    ensures SameFrom(t, a, b, |t.records|) <==> a == b
  {
    if SameFrom(t, a, b, |t.records|) {
      assert forall u :: SameAt(a, b, u);
      assert forall u :: u in a.val <==> u in b.val by {
        forall u ensures u in a.val <==> u in b.val {
          assert SameAt(a, b, u);
        }
      }
      assert forall u :: u in a.shp <==> u in b.shp by {
        forall u ensures u in a.shp <==> u in b.shp {
          assert SameAt(a, b, u);
        }
      }
      assert forall u | u in a.val :: a.val[u] == b.val[u] by {
        forall u | u in a.val ensures a.val[u] == b.val[u] {
          assert SameAt(a, b, u);
        }
      }
      assert forall u | u in a.shp :: a.shp[u] == b.shp[u] by {
        forall u | u in a.shp ensures a.shp[u] == b.shp[u] {
          assert SameAt(a, b, u);
        }
      }
      assert a.val == b.val && a.shp == b.shp;
    }
  }

  lemma RootsAgree(t: Trace, m: Memory, e: Edges)
    requires t.Fits(e)
    ensures SameFrom(t, m, Replay(t, m, e), 0)
  {
    forall u | !Pending(t, u, 0) ensures SameAt(m, Replay(t, m, e), u) {
      Untouched(t, m, e, |e|, u);
    }
  }

  /** The same replay from two memories, compared at the end: equal effects all along. */
  lemma EqualEffects(t: Trace, m: Memory, j: Memory, edges: Edges, n: nat)
    requires t.Fits(edges) && t.Ordered(edges) && n < |edges| && Replay(t, m, edges) == Replay(t, j, edges)
    ensures EffectOf(t, ReplayTo(t, m, edges, n), n, edges[n]) == EffectOf(t, ReplayTo(t, j, edges, n), n, edges[n])
  {
    hide EffectOf;
    Final(t, m, edges, n, |edges|);
    Final(t, j, edges, n, |edges|);
    SameEffect(t, ReplayTo(t, m, edges, n), Replay(t, m, edges), edges, n);
    SameEffect(t, ReplayTo(t, j, edges, n), Replay(t, m, edges), edges, n);
  }

  /**
    A replay of `next` after one of `e` ends as it would have without it, exactly when nothing is carried
    over: when what `e` leaves as the value of every output `next` does not fold is what stood there.
   */
  lemma ReplayAfterExact(t: Trace, m: Memory, e: Edges, next: Edges)
    requires t.Fits(e) && t.Fits(next) && t.Ordered(next)
    ensures Replay(t, Replay(t, m, e), next) == Replay(t, m, next) <==> NothingCarried(t, m, e, next)
  {
    hide EffectOf;
    var j := Replay(t, m, e);
    RootsAgree(t, m, e);
    if NothingCarried(t, m, e, next) {
      ReplaysAgree(t, m, j, next, |next|);
      AgreeIsEqual(t, Replay(t, m, next), Replay(t, j, next));
    }
    if Replay(t, j, next) == Replay(t, m, next) {
      forall n: nat | n < |next| && t.Writes(n) && !Folds(t, m, next, n)
        ensures Lookup(j.val, t.records[n].out) == Lookup(m.val, t.records[n].out)
      {
        EqualEffects(t, m, j, next, n);
        FoldsOrKeeps(t, m, next, n);
        FoldsOrKeeps(t, j, next, n);
      }
    }
  }

  /** A second replay of the same edges changes nothing. */
  lemma ReplayTwice(t: Trace, m: Memory, edges: Edges)
    requires t.Fits(edges) && t.Ordered(edges)
    ensures Replay(t, Replay(t, m, edges), edges) == Replay(t, m, edges)
  {
    ReplayAfterExact(t, m, edges, edges);
    forall n: nat | n < |edges| && t.Writes(n) && !Folds(t, m, edges, n)
      ensures Lookup(Replay(t, m, edges).val, t.records[n].out) == Lookup(m.val, t.records[n].out)
    {
      FoldsOrKeeps(t, m, edges, n);
    }
  }

  // ---- a run of replays ---------------------------------------------------------------------

  /** The memory after replaying the first `k` bindings of a run, one after the other. */
  function Carried(t: Trace, m: Memory, run: seq<Edges>, k: nat): Memory
    requires k <= |run|
  {
    if k == 0 then m else Replay(t, Carried(t, m, run, k - 1), run[k - 1])
  }

  /** Every replay of the run ends as it would have from the entry memory. */
  ghost predicate AsFromEntry(t: Trace, m: Memory, run: seq<Edges>, k: nat)
    requires k <= |run|
  {
    forall i | 0 < i <= k :: Carried(t, m, run, i) == Replay(t, m, run[i - 1])
  }

  /** Every replay of a run ends as it would have from the entry memory exactly when each carries nothing into the next. */
  lemma {:induction false} CarriedRunExact(t: Trace, m: Memory, run: seq<Edges>, k: nat)
    requires k <= |run| && forall i | 0 <= i < |run| :: t.Fits(run[i]) && t.Ordered(run[i])
    ensures AsFromEntry(t, m, run, k) <==> forall i | 0 < i < k :: NothingCarried(t, m, run[i - 1], run[i])
  {
    hide Replay, NothingCarried;
    if k > 0 {
      CarriedRunExact(t, m, run, k - 1);
      assert Carried(t, m, run, k) == Replay(t, Carried(t, m, run, k - 1), run[k - 1]);
      if k > 1 {
        ReplayAfterExact(t, m, run[k - 2], run[k - 1]);
        assert AsFromEntry(t, m, run, k - 1) ==> Carried(t, m, run, k - 1) == Replay(t, m, run[k - 2]);
      }
    }
  }

  ghost predicate Distinct<T>(s: seq<T>) {
    forall i, j | 0 <= i < j < |s| :: s[i] != s[j]
  }

  /** What is tested on a memory and the edges it was replayed from. */
  type Test = (Memory, Edges) -> bool

  /** Some replay of the run passes, each made from the entry memory. */
  ghost predicate SomePasses(t: Trace, m: Memory, run: seq<Edges>, test: Test) {
    exists k :: 0 <= k < |run| && test(Replay(t, m, run[k]), run[k])
  }

  /** Some replay of the run passes, each made in the memory the one before left. */
  ghost predicate SomePassesInTurn(t: Trace, m: Memory, run: seq<Edges>, test: Test) {
    exists k :: 0 <= k < |run| && test(Carried(t, m, run, k + 1), run[k])
  }

  /**
    Trying bindings in turn finds one whenever there is one, whatever is tested, exactly when each replay
    carries nothing into the next.
   */
  lemma InTurnExact(t: Trace, m: Memory, run: seq<Edges>)
    requires Distinct(run) && forall i | 0 <= i < |run| :: t.Fits(run[i]) && t.Ordered(run[i])
    ensures (forall test: Test | SomePasses(t, m, run, test) :: SomePassesInTurn(t, m, run, test))
            <==> forall i | 0 < i < |run| :: NothingCarried(t, m, run[i - 1], run[i])
  {
    hide Replay, NothingCarried, Carried;
    CarriedRunExact(t, m, run, |run|);
    if AsFromEntry(t, m, run, |run|) {
      forall test: Test | SomePasses(t, m, run, test) ensures SomePassesInTurn(t, m, run, test) {
        var k :| 0 <= k < |run| && test(Replay(t, m, run[k]), run[k]);
        assert Carried(t, m, run, k + 1) == Replay(t, m, run[k + 1 - 1]);
      }
    } else {
      var i :| 0 < i <= |run| && Carried(t, m, run, i) != Replay(t, m, run[i - 1]);
      var r := Replay(t, m, run[i - 1]);
      var test: Test := (memory: Memory, e: Edges) => memory == r && e == run[i - 1];
      assert test(Replay(t, m, run[i - 1]), run[i - 1]);
      assert SomePasses(t, m, run, test);
      assert !SomePassesInTurn(t, m, run, test);
    }
  }
}
