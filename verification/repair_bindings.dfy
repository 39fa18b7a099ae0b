/**
  Repair of mis-bound edges: a provable broadcast clash sends a search up the operand
  chains, trying other producers of the names it passes and undoing what does not help.
 */
module RepairBindings {
  import opened Basics
  import opened TraceReplay

  // ---- broadcastability ------------------------------------------------------------------

  /** Dimension k of a shape counted from the right, 1 past its rank. */
  function DimFromRight(s: Shape, k: nat): nat
    requires k > 0
  {
    if |s| >= k then s[|s| - k] else 1
  }

  /** NumPy broadcasting: any two shapes agree in every dimension, up to ones. */
  ghost predicate Broadcastable(shapes: seq<Shape>) {
    forall i, j, k: nat | 0 <= i < |shapes| && 0 <= j < |shapes| && k > 0 :: Agree(shapes[i], shapes[j], k)
  }

  ghost predicate Agree(a: Shape, b: Shape, k: nat)
    requires k > 0
  {
    DimFromRight(a, k) == DimFromRight(b, k) || DimFromRight(a, k) == 1 || DimFromRight(b, k) == 1
  }

  function MaxRank(shapes: seq<Shape>): (n: nat)
    ensures forall i | 0 <= i < |shapes| :: |shapes[i]| <= n
  {
    if shapes == [] then 0
    else
      var rest := MaxRank(shapes[..|shapes| - 1]);
      var last := |shapes[|shapes| - 1]|;
      assert forall i | 0 <= i < |shapes| - 1 :: shapes[i] == shapes[..|shapes| - 1][i];
      if last > rest then last else rest
  }

  /** The check by dimension sets: at most one size other than 1 per dimension. */
  method BcastOk(shapes: seq<Shape>) returns (ok: bool)
    ensures ok <==> Broadcastable(shapes)
  {
    var n := MaxRank(shapes);
    var k := 1;
    while k <= n
      invariant 1 <= k <= n + 1
      invariant forall i, j, d: nat | 0 <= i < |shapes| && 0 <= j < |shapes| && 0 < d < k :: Agree(shapes[i], shapes[j], d)
    {
      var dims := DimsAt(shapes, k);
      if exists a, b | a in dims && b in dims :: a != b {
        ghost var a, b :| a in dims && b in dims && a != b;
        ghost var i :| 0 <= i < |shapes| && DimFromRight(shapes[i], k) == a;
        ghost var j :| 0 <= j < |shapes| && DimFromRight(shapes[j], k) == b;
        assert !Agree(shapes[i], shapes[j], k);
        return false;
      }
      forall i, j | 0 <= i < |shapes| && 0 <= j < |shapes|
        ensures Agree(shapes[i], shapes[j], k)
      {
        if DimFromRight(shapes[i], k) != 1 && DimFromRight(shapes[j], k) != 1 {
          assert DimFromRight(shapes[i], k) in dims && DimFromRight(shapes[j], k) in dims;
        }
      }
      k := k + 1;
    }
    return true;
  }

  /** Sizes other than 1 in dimension k from the right. */
  method DimsAt(shapes: seq<Shape>, k: nat) returns (dims: set<nat>)
    requires k > 0
    ensures forall d :: d in dims <==> d != 1 && exists i :: 0 <= i < |shapes| && DimFromRight(shapes[i], k) == d
  {
    dims := {};
    var i := 0;
    while i < |shapes|
      invariant 0 <= i <= |shapes|
      invariant forall d :: d in dims <==> d != 1 && exists j :: 0 <= j < i && DimFromRight(shapes[j], k) == d
    {
      if |shapes[i]| >= k && shapes[i][|shapes[i]| - k] != 1 {
        dims := dims + {shapes[i][|shapes[i]| - k]};
      }
      i := i + 1;
    }
  }

  // ---- clashes -------------------------------------------------------------------------------

  /** The sizes of a shape without symbols. */
  function AllSizes(dims: seq<Dim>): (s: Option<Shape>)
    ensures s.Some? <==> forall k | 0 <= k < |dims| :: dims[k].Size?
    ensures s.Some? ==> Sizes(s.value) == dims
  {
    if dims == [] then Some([])
    else
      var n := |dims| - 1;
      var rest := AllSizes(dims[..n]);
      assert dims == dims[..n] + [dims[n]];
      if rest.None? || dims[n].Symbol? then None else Some(rest.value + [dims[n].n])
  }

  function Concrete(r: Report): (s: Option<Shape>)
    ensures s.Some? <==> r.Some? && forall k | 0 <= k < |r.value| :: r.value[k].Size?
    ensures s.Some? ==> Some(Sizes(s.value)) == r
  {
    if r.None? then None else AllSizes(r.value)
  }

  /** The operands that are there. */
  function Present(ins: seq<string>): (r: seq<string>)
    ensures forall u :: u in r <==> u in ins && u != ""
  {
    if ins == [] then []
    else
      var n := |ins| - 1;
      assert ins == ins[..n] + [ins[n]];
      Present(ins[..n]) + if ins[n] == "" then [] else [ins[n]]
  }

  /** They come in the order of the operands, each as often as it is listed. */
  lemma {:induction false} PresentInOrder(a: seq<string>, b: seq<string>, u: string)
    ensures Present(a + b) == Present(a) + Present(b)
    ensures Present([u]) == if u == "" then [] else [u]
    decreases |b|
  {
    assert [u][..0] == [];
    if b == [] {
      assert a + b == a;
    } else {
      var k := |b| - 1;
      PresentInOrder(a, b[..k], u);
      assert (a + b)[..|a + b| - 1] == a + b[..k];
    }
  }

  ghost predicate Known(m: Memory, u: string) {
    var r := m.Shape(u);
    r.Some? && forall k | 0 <= k < |r.value| :: r.value[k].Size?
  }

  /** Shapes of a record's present operands; None exactly when one is unknown. */
  function OperandShapes(m: Memory, ins: seq<string>): (r: Option<seq<Shape>>)
    ensures r.Some? <==> forall u | u in ins && u != "" :: Known(m, u)
    ensures r.Some? ==> && |r.value| == |Present(ins)|
                        && forall k | 0 <= k < |r.value| :: m.Shape(Present(ins)[k]) == Some(Sizes(r.value[k]))
  {
    if ins == [] then Some([])
    else
      var n := |ins| - 1;
      var rest := OperandShapes(m, ins[..n]);
      assert ins == ins[..n] + [ins[n]] && ins[n] in ins;
      if ins[n] == "" || rest.None? then rest
      else match Concrete(m.Shape(ins[n]))
           case None => assert !Known(m, ins[n]); None
           case Some(s) => Some(rest.value + [s])
  }

  /** In this memory all operand shapes of record n are known and broadcast. */
  ghost predicate Settled(m: Memory, edges: Edges, n: nat)
    requires n < |edges|
  {
    var shapes := OperandShapes(m, edges[n]);
    shapes.Some? && Broadcastable(shapes.value)
  }

  /** In this memory record n provably clashes. */
  ghost predicate Clashes(t: Trace, m: Memory, edges: Edges, n: nat)
    requires n < |edges| && n < |t.records|
  {
    var shapes := OperandShapes(m, edges[n]);
    t.records[n].broadcasts && shapes.Some? && |shapes.value| >= 2 && !Broadcastable(shapes.value)
  }

  // ---- candidates and rewirings ------------------------------------------------------------

  /** The producers other than `u` that precede record n, in emission order. */
  function Others(t: Trace, all: seq<string>, u: string, n: nat): (r: seq<string>)
    ensures forall c | c in r :: c in all && c != u && t.Idx(c) < n
  {
    if all == [] then []
    else
      var k := |all| - 1;
      Others(t, all[..k], u, n) + if all[k] != u && t.Idx(all[k]) < n then [all[k]] else []
  }

  function Reversed(s: seq<string>): (r: seq<string>)
    ensures |r| == |s| && forall k | 0 <= k < |s| :: r[k] == s[|s| - 1 - k]
  {
    if s == [] then [] else [s[|s| - 1]] + Reversed(s[..|s| - 1])
  }

  lemma OneOther(t: Trace, all: seq<string>, c: string, u: string, n: nat)
    ensures Others(t, all + [c], u, n) == Others(t, all, u, n) + if c != u && t.Idx(c) < n then [c] else []
    ensures Others(t, [], u, n) == []
  {
    assert (all + [c])[..|all|] == all;
  }

  /** Exactly the legal alternatives, in emission order. */
  lemma {:induction false} OthersInOrder(t: Trace, a: seq<string>, b: seq<string>, u: string, n: nat)
    ensures Others(t, a + b, u, n) == Others(t, a, u, n) + Others(t, b, u, n)
    decreases |b|
  {
    hide Others;
    if b == [] {
      OneOther(t, a, "", u, n);
      assert a + b == a;
    } else {
      var most, c := b[..|b| - 1], b[|b| - 1];
      OthersInOrder(t, a, most, u, n);
      OneOther(t, a + most, c, u, n);
      OneOther(t, most, c, u, n);
      assert a + most + [c] == a + b && most + [c] == b;
    }
  }

  /** With five or more alternatives the last four in emission order, with fewer all of them; the last one first. */
  lemma CandidatesAreLatest(t: Trace, n: nat, pos: nat, u: string)
    requires n < |t.records| && pos < |t.records[n].orig| && t.records[n].orig[pos] in t.producers
    ensures
      var others := Others(t, t.producers[t.records[n].orig[pos]], u, n);
      var cands := Candidates(t, n, pos, u);
      && |cands| == (if |others| < 4 then |others| else 4)
      && forall k | 0 <= k < |cands| :: cands[k] == others[|others| - 1 - k]
  {
  }

  /** The last four other producers of an edge's original name that precede the record, nearest first. */
  function Candidates(t: Trace, n: nat, pos: nat, u: string): (r: seq<string>)
    requires n < |t.records|
    ensures forall c | c in r :: IsAlternative(t, n, pos, c) && c != u && t.Idx(c) < n
  {
    if pos < |t.records[n].orig| && t.records[n].orig[pos] in t.producers then
      var others := Others(t, t.producers[t.records[n].orig[pos]], u, n);
      Reversed(if |others| > 4 then others[|others| - 4..] else others)
    else []
  }

  ghost predicate IsAlternative(t: Trace, n: nat, pos: nat, u: string) {
    n < |t.records| && pos < |t.records[n].orig| && t.records[n].orig[pos] in t.producers && u in t.producers[t.records[n].orig[pos]]
  }

  function Rewired(edges: Edges, n: nat, pos: nat, c: string): Edges
    requires n < |edges| && pos < |edges[n]|
  {
    edges[n := edges[n][pos := c]]
  }

  /** `c` may replace the edge at `pos` of record n. */
  ghost predicate May(t: Trace, edges: Edges, n: nat, pos: nat, c: string) {
    && n < |edges| && n < |t.records| && pos < |edges[n]| && edges[n][pos] != ""
    && c in Candidates(t, n, pos, edges[n][pos])
  }

  /** Replayed from this memory, rewiring that edge settles the clash. */
  ghost predicate Settles(t: Trace, m: Memory, edges: Edges, clash: nat, n: nat, pos: nat, c: string)
    requires May(t, edges, n, pos, c) && clash < |edges|
  {
    Settled(Replay(t, m, Rewired(edges, n, pos, c)), Rewired(edges, n, pos, c), clash)
  }

  lemma RewiringKeepsOrder(t: Trace, edges: Edges, n: nat, pos: nat, c: string)
    requires t.Ordered(edges) && May(t, edges, n, pos, c)
    ensures t.Ordered(Rewired(edges, n, pos, c))
  {
    hide Candidates;
  }

  // ---- what the search reaches ---------------------------------------------------------------

  /** An operand produced by an elementwise record: the search climbs to it. */
  predicate Climbs(t: Trace, u: string) {
    u != "" && u in t.recByOut && t.recByOut[u] < |t.records| && t.records[t.recByOut[u]].elementwise
  }

  /** Record n is at most `d` elementwise producers above the clash. */
  ghost predicate Reachable(t: Trace, edges: Edges, clash: nat, n: nat, d: nat)
    decreases d
  {
    n == clash || (d > 0 && exists m: nat, pos: nat :: Above(t, edges, m, pos, n) && Reachable(t, edges, clash, m, d - 1))
  }

  ghost predicate Above(t: Trace, edges: Edges, m: nat, pos: nat, n: nat) {
    m < |edges| && pos < |edges[m]| && Climbs(t, edges[m][pos]) && t.recByOut[edges[m][pos]] == n
  }

  /** Replayed from this memory, no single rewiring within reach of the clash settles it. */
  ghost predicate Hopeless(t: Trace, m: Memory, edges: Edges, clash: nat, maxDepth: nat)
    requires clash < |edges|
  {
    forall n: nat, pos: nat, c | Reachable(t, edges, clash, n, maxDepth) && May(t, edges, n, pos, c) ::
      !Settles(t, m, edges, clash, n, pos, c)
  }

  // ---- the trials of a search, in order --------------------------------------------------------

  datatype Trial = Trial(n: nat, pos: nat, c: string)

  type Queue = seq<(nat, nat)>

  function EdgeTrials(t: Trace, edges: Edges, n: nat, pos: nat): (r: seq<Trial>)
    requires t.Fits(edges) && n < |edges| && pos < |edges[n]|
    ensures edges[n][pos] != "" ==> |r| == |Candidates(t, n, pos, edges[n][pos])|
    ensures forall x | x in r :: x.n == n && x.pos == pos && May(t, edges, n, pos, x.c)
    ensures forall c | May(t, edges, n, pos, c) :: Trial(n, pos, c) in r
  {
    if edges[n][pos] == "" then []
    else
      var cands := Candidates(t, n, pos, edges[n][pos]);
      var r := seq(|cands|, k requires 0 <= k < |cands| => Trial(n, pos, cands[k]));
      assert forall k | 0 <= k < |cands| :: r[k] == Trial(n, pos, cands[k]);
      r
  }

  /** Of one record, from operand `pos` on. */
  function NodeTrials(t: Trace, edges: Edges, n: nat, pos: nat): (r: seq<Trial>)
    requires t.Fits(edges) && n < |edges| && pos <= |edges[n]|
    ensures forall x | x in r :: x.n == n && May(t, edges, x.n, x.pos, x.c)
    ensures forall k: nat, c | k >= pos && May(t, edges, n, k, c) :: Trial(n, k, c) in r
    decreases |edges[n]| - pos
  {
    hide Candidates, EdgeTrials;
    if pos == |edges[n]| then [] else EdgeTrials(t, edges, n, pos) + NodeTrials(t, edges, n, pos + 1)
  }

  /** The elementwise producers of a record's operands from `pos` on, one level further up. */
  function Climb(t: Trace, edges: Edges, n: nat, pos: nat, d: nat): (r: Queue)
    requires t.Fits(edges) && n < |edges| && pos <= |edges[n]|
    ensures forall e | e in r :: e.0 < |edges|
    decreases |edges[n]| - pos
  {
    if pos == |edges[n]| then []
    else (if Climbs(t, edges[n][pos]) then [(t.recByOut[edges[n][pos]], d + 1)] else []) + Climb(t, edges, n, pos + 1, d)
  }

  function Search(t: Trace, edges: Edges, maxDepth: nat, queue: Queue, seen: set<nat>): (r: seq<Trial>)
    requires t.Fits(edges) && forall e | e in queue :: e.0 < |edges|
    ensures forall x | x in r :: May(t, edges, x.n, x.pos, x.c)
    decreases Below(|edges|) - seen, |queue|
  {
    hide May, Climbs;
    if queue == [] then []
    else
      var (n, d) := queue[0];
      assert queue[0].0 == n && n in Below(|edges|);
      if n in seen || d > maxDepth then Search(t, edges, maxDepth, queue[1..], seen)
      else
        assert n in Below(|edges|) - seen;
        NodeTrials(t, edges, n, 0) + Search(t, edges, maxDepth, queue[1..] + Climb(t, edges, n, 0, d), seen + {n})
  }

  /** Breadth first from the clash, edge by edge, nearest candidate first. */
  function Trials(t: Trace, edges: Edges, clash: nat, maxDepth: nat): (r: seq<Trial>)
    requires t.Fits(edges) && clash < |edges|
    ensures forall x | x in r :: May(t, edges, x.n, x.pos, x.c)
    ensures forall k | 0 <= k < |r| :: Inside(edges, r[k])
  {
    hide Candidates;
    Search(t, edges, maxDepth, [(clash, 0)], {})
  }

  predicate Inside(edges: Edges, x: Trial) {
    x.n < |edges| && x.pos < |edges[x.n]|
  }

  function Made(edges: Edges, x: Trial): Edges
    requires Inside(edges, x)
  {
    Rewired(edges, x.n, x.pos, x.c)
  }

  /** The edges each trial makes. */
  function Bindings(edges: Edges, trials: seq<Trial>): (run: seq<Edges>)
    requires forall k | 0 <= k < |trials| :: Inside(edges, trials[k])
    ensures |run| == |trials|
    ensures forall k | 0 <= k < |run| :: run[k] == Made(edges, trials[k])
  {
    seq(|trials|, k requires 0 <= k < |trials| => Made(edges, trials[k]))
  }

  // ---- breadth-first bookkeeping -------------------------------------------------------------

  ghost predicate Waiting(queue: Queue, m: nat, d: nat) {
    exists k :: 0 <= k < |queue| && queue[k].0 == m && queue[k].1 <= d
  }

  /** The producers above the first `k` operands of a visited record are visited or waiting, at most one level up. */
  ghost predicate Covered(t: Trace, edges: Edges, maxDepth: nat, depth: map<nat, nat>, queue: Queue, n: nat, k: nat)
    requires n in depth
  {
    depth[n] < maxDepth ==>
      forall pos: nat, m: nat | pos < k && Above(t, edges, n, pos, m) ::
        (m in depth && depth[m] <= depth[n] + 1) || Waiting(queue, m, depth[n] + 1)
  }

  /** Everything visited lies no deeper than what waits, and what waits spans two levels in order. */
  ghost predicate Band(depth: map<nat, nat>, queue: Queue, level: nat) {
    && (forall n | n in depth :: depth[n] <= level)
    && (forall k | 0 <= k < |queue| :: level <= queue[k].1 <= level + 1)
    && (forall j, k | 0 <= j < k < |queue| :: queue[j].1 <= queue[k].1)
  }

  ghost predicate Found(t: Trace, edges: Edges, clash: nat, depth: map<nat, nat>, queue: Queue) {
    && (forall n | n in depth :: n < |edges| && Reachable(t, edges, clash, n, depth[n]))
    && (forall k | 0 <= k < |queue| :: queue[k].0 < |edges| && Reachable(t, edges, clash, queue[k].0, queue[k].1))
  }

  lemma PopCovers(t: Trace, edges: Edges, maxDepth: nat, depth: map<nat, nat>, after: map<nat, nat>, queue: Queue, n: nat, k: nat)
    requires queue != [] && n in depth && Covered(t, edges, maxDepth, depth, queue, n, k)
    requires forall m | m in depth :: m in after && after[m] == depth[m]
    requires depth[n] < maxDepth && queue[0].1 <= depth[n] + 1 ==> queue[0].0 in after && after[queue[0].0] <= queue[0].1
    ensures n in after && Covered(t, edges, maxDepth, after, queue[1..], n, k)
  {
    forall pos: nat, m: nat | depth[n] < maxDepth && pos < k && Above(t, edges, n, pos, m)
      ensures (m in after && after[m] <= after[n] + 1) || Waiting(queue[1..], m, after[n] + 1)
    {
      if !(m in depth && depth[m] <= depth[n] + 1) {
        var j :| 0 <= j < |queue| && queue[j].0 == m && queue[j].1 <= depth[n] + 1;
        if j > 0 {
          assert queue[1..][j - 1] == queue[j];
        }
      }
    }
  }

  lemma PushCovers(t: Trace, edges: Edges, maxDepth: nat, depth: map<nat, nat>, queue: Queue, e: (nat, nat), n: nat, k: nat)
    requires n in depth && Covered(t, edges, maxDepth, depth, queue, n, k)
    ensures Covered(t, edges, maxDepth, depth, queue + [e], n, k)
  {
    forall m, d | Waiting(queue, m, d) ensures Waiting(queue + [e], m, d) {
      var j :| 0 <= j < |queue| && queue[j].0 == m && queue[j].1 <= d;
      assert (queue + [e])[j] == queue[j];
    }
  }

  /** One more operand looked at: its producer, if it is to be climbed to, now waits. */
  lemma OperandCovers(t: Trace, edges: Edges, maxDepth: nat, depth: map<nat, nat>, queue: Queue, n: nat, pos: nat)
    requires n in depth && n < |edges| && pos < |edges[n]| && Covered(t, edges, maxDepth, depth, queue, n, pos)
    requires Climbs(t, edges[n][pos]) ==> queue != [] && queue[|queue| - 1] == (t.recByOut[edges[n][pos]], depth[n] + 1)
    ensures Covered(t, edges, maxDepth, depth, queue, n, pos + 1)
  {
  }

  lemma {:induction false} AllReached(t: Trace, edges: Edges, clash: nat, maxDepth: nat, depth: map<nat, nat>, n: nat, d: nat)
    requires clash in depth && depth[clash] == 0
    requires forall m | m in depth :: m < |edges| && Covered(t, edges, maxDepth, depth, [], m, |edges[m]|)
    requires d <= maxDepth && Reachable(t, edges, clash, n, d)
    ensures n in depth && depth[n] <= d
    decreases d
  {
    if n != clash {
      var m: nat, pos: nat :| Above(t, edges, m, pos, n) && Reachable(t, edges, clash, m, d - 1);
      AllReached(t, edges, clash, maxDepth, depth, m, d - 1);
      assert Covered(t, edges, maxDepth, depth, [], m, |edges[m]|);
      assert !Waiting([], n, depth[m] + 1);
    }
  }

  lemma Starts(t: Trace, edges: Edges, clash: nat)
    requires clash < |edges|
    ensures Found(t, edges, clash, map[], [(clash, 0)]) && Band(map[], [(clash, 0)], 0)
  {
  }

  lemma FrontIsLevel(depth: map<nat, nat>, queue: Queue, level: nat)
    requires queue != [] && Band(depth, queue, level)
    ensures Band(depth, queue, queue[0].1)
  {
  }

  lemma {:induction false} Deeper(t: Trace, edges: Edges, clash: nat, n: nat, d: nat, e: nat)
    requires Reachable(t, edges, clash, n, d) && d <= e
    ensures Reachable(t, edges, clash, n, e)
    decreases d
  {
    if n != clash {
      var m: nat, pos: nat :| Above(t, edges, m, pos, n) && Reachable(t, edges, clash, m, d - 1);
      Deeper(t, edges, clash, m, d - 1, e - 1);
    }
  }

  lemma VisitKeeps(t: Trace, edges: Edges, clash: nat, maxDepth: nat, depth: map<nat, nat>, queue: Queue, node: nat, level: nat)
    requires queue != [] && queue[0] == (node, level) && node !in depth
    requires Found(t, edges, clash, depth, queue) && Band(depth, queue, level)
    requires forall n | n in depth :: Covered(t, edges, maxDepth, depth, queue, n, |edges[n]|)
    ensures node < |edges| && Reachable(t, edges, clash, node, level)
    ensures Found(t, edges, clash, depth[node := level], queue[1..]) && Band(depth[node := level], queue[1..], level)
    ensures forall n | n in depth :: Covered(t, edges, maxDepth, depth[node := level], queue[1..], n, |edges[n]|)
    ensures Covered(t, edges, maxDepth, depth[node := level], queue[1..], node, 0)
  {
    forall n | n in depth ensures Covered(t, edges, maxDepth, depth[node := level], queue[1..], n, |edges[n]|) {
      PopCovers(t, edges, maxDepth, depth, depth[node := level], queue, n, |edges[n]|);
    }
    hide Reachable;
  }

  lemma SkipKeeps(t: Trace, edges: Edges, clash: nat, maxDepth: nat, depth: map<nat, nat>, queue: Queue, level: nat)
    requires queue != [] && queue[0].1 == level && (queue[0].0 in depth || level > maxDepth)
    requires Found(t, edges, clash, depth, queue) && Band(depth, queue, level)
    requires forall n | n in depth :: Covered(t, edges, maxDepth, depth, queue, n, |edges[n]|)
    ensures Found(t, edges, clash, depth, queue[1..]) && Band(depth, queue[1..], level)
    ensures forall n | n in depth :: Covered(t, edges, maxDepth, depth, queue[1..], n, |edges[n]|)
  {
    forall n | n in depth ensures Covered(t, edges, maxDepth, depth, queue[1..], n, |edges[n]|) {
      PopCovers(t, edges, maxDepth, depth, depth, queue, n, |edges[n]|);
    }
    hide Reachable;
  }

  lemma PushKeeps(t: Trace, edges: Edges, clash: nat, maxDepth: nat, depth: map<nat, nat>, queue: Queue, level: nat, node: nat, pos: nat)
    requires t.Fits(edges) && node in depth && depth[node] == level && node < |edges| && pos < |edges[node]| && Climbs(t, edges[node][pos])
    requires Found(t, edges, clash, depth, queue) && Band(depth, queue, level)
    requires forall n | n in depth && n != node :: Covered(t, edges, maxDepth, depth, queue, n, |edges[n]|)
    requires Covered(t, edges, maxDepth, depth, queue, node, pos)
    ensures
      var more := queue + [(t.recByOut[edges[node][pos]], level + 1)];
      && Found(t, edges, clash, depth, more) && Band(depth, more, level)
      && (forall n | n in depth && n != node :: Covered(t, edges, maxDepth, depth, more, n, |edges[n]|))
      && Covered(t, edges, maxDepth, depth, more, node, pos + 1)
  {
    var m := t.recByOut[edges[node][pos]];
    var more := queue + [(m, level + 1)];
    assert Above(t, edges, node, pos, m);
    assert Reachable(t, edges, clash, m, level + 1);
    forall n | n in depth && n != node ensures Covered(t, edges, maxDepth, depth, more, n, |edges[n]|) {
      PushCovers(t, edges, maxDepth, depth, queue, (m, level + 1), n, |edges[n]|);
    }
    PushCovers(t, edges, maxDepth, depth, queue, (m, level + 1), node, pos);
    hide Reachable;
    OperandCovers(t, edges, maxDepth, depth, more, node, pos);
  }

  /** All operands of a visited record looked at: the producers to climb to wait. */
  lemma {:induction false} ClimbKeeps(t: Trace, edges: Edges, clash: nat, maxDepth: nat, depth: map<nat, nat>, queue: Queue, level: nat, node: nat, pos: nat)
    requires t.Fits(edges) && node in depth && depth[node] == level && node < |edges| && pos <= |edges[node]|
    requires Found(t, edges, clash, depth, queue) && Band(depth, queue, level)
    requires forall n | n in depth && n != node :: Covered(t, edges, maxDepth, depth, queue, n, |edges[n]|)
    requires Covered(t, edges, maxDepth, depth, queue, node, pos)
    ensures
      var more := queue + Climb(t, edges, node, pos, level);
      && Found(t, edges, clash, depth, more) && Band(depth, more, level)
      && (forall n | n in depth :: Covered(t, edges, maxDepth, depth, more, n, |edges[n]|))
    decreases |edges[node]| - pos
  {
    hide Found, Band, Covered, Climb, NodeTrials, EdgeTrials;
    if pos == |edges[node]| {
      NoOperandLeft(t, edges, node, level);
      assert queue + [] == queue;
      return;
    }
    NextOperand(t, edges, node, pos, level);
    if Climbs(t, edges[node][pos]) {
      var e := (t.recByOut[edges[node][pos]], level + 1);
      PushKeeps(t, edges, clash, maxDepth, depth, queue, level, node, pos);
      ClimbKeeps(t, edges, clash, maxDepth, depth, queue + [e], level, node, pos + 1);
      assert queue + [e] + Climb(t, edges, node, pos + 1, level) == queue + Climb(t, edges, node, pos, level);
    } else {
      OperandCovers(t, edges, maxDepth, depth, queue, node, pos);
      ClimbKeeps(t, edges, clash, maxDepth, depth, queue, level, node, pos + 1);
      assert [] + Climb(t, edges, node, pos + 1, level) == Climb(t, edges, node, pos + 1, level);
    }
  }

  lemma {:induction false} SearchReaches(t: Trace, edges: Edges, clash: nat, maxDepth: nat, depth: map<nat, nat>, queue: Queue, level: nat)
    requires t.Fits(edges) && clash < |edges| && Found(t, edges, clash, depth, queue) && Band(depth, queue, level)
    requires forall n | n in depth :: Covered(t, edges, maxDepth, depth, queue, n, |edges[n]|)
    requires if clash in depth then depth[clash] == 0 else queue != [] && queue[0] == (clash, 0)
    ensures forall e | e in queue :: e.0 < |edges|
    ensures forall x | x in Search(t, edges, maxDepth, queue, depth.Keys) :: Reachable(t, edges, clash, x.n, maxDepth)
    ensures forall n: nat, pos: nat, c | n !in depth && Reachable(t, edges, clash, n, maxDepth) && May(t, edges, n, pos, c) ::
              Trial(n, pos, c) in Search(t, edges, maxDepth, queue, depth.Keys)
    decreases Below(|edges|) - depth.Keys, |queue|
  {
    hide Covered, May, Band, NodeTrials, Climb, Reachable;
    assert forall e | e in queue :: e.0 < |edges|;
    if queue == [] {
      forall n: nat | Reachable(t, edges, clash, n, maxDepth) ensures n in depth {
        AllReached(t, edges, clash, maxDepth, depth, n, maxDepth);
      }
    } else {
      var (node, d) := queue[0];
      assert queue[0] == (node, d) && node in Below(|edges|);
      FrontIsLevel(depth, queue, level);
      if node in depth || d > maxDepth {
        SkipKeeps(t, edges, clash, maxDepth, depth, queue, d);
        SearchReaches(t, edges, clash, maxDepth, depth, queue[1..], d);
      } else {
        VisitKeeps(t, edges, clash, maxDepth, depth, queue, node, d);
        var visited, more := depth[node := d], queue[1..] + Climb(t, edges, node, 0, d);
        ClimbKeeps(t, edges, clash, maxDepth, visited, queue[1..], d, node, 0);
        assert node in Below(|edges|) - depth.Keys && visited.Keys == depth.Keys + {node};
        SearchReaches(t, edges, clash, maxDepth, visited, more, d);
        Deeper(t, edges, clash, node, d, maxDepth);
      }
    }
  }

  /** The trials are exactly the rewirings allowed at the records within reach of the clash. */
  lemma TrialsExact(t: Trace, edges: Edges, clash: nat, maxDepth: nat, x: Trial)
    requires t.Fits(edges) && clash < |edges|
    ensures x in Trials(t, edges, clash, maxDepth) <==> Reachable(t, edges, clash, x.n, maxDepth) && May(t, edges, x.n, x.pos, x.c)
  {
    hide Reachable, May, Search;
    Starts(t, edges, clash);
    var none: map<nat, nat> := map[];
    SearchReaches(t, edges, clash, maxDepth, none, [(clash, 0)], 0);
    assert none.Keys == {};
    assert x == Trial(x.n, x.pos, x.c);
  }

  // ---- no two trials make the same edges -------------------------------------------------------

  ghost predicate DistinctProducers(t: Trace) {
    forall name | name in t.producers :: Distinct(t.producers[name])
  }

  lemma {:induction false} OthersDistinct(t: Trace, all: seq<string>, u: string, n: nat)
    requires Distinct(all)
    ensures Distinct(Others(t, all, u, n))
  {
    if all != [] {
      OthersDistinct(t, all[..|all| - 1], u, n);
    }
  }

  lemma CandidatesDistinct(t: Trace, n: nat, pos: nat, u: string)
    requires n < |t.records| && DistinctProducers(t)
    ensures Distinct(Candidates(t, n, pos, u))
  {
    if pos < |t.records[n].orig| && t.records[n].orig[pos] in t.producers {
      OthersDistinct(t, t.producers[t.records[n].orig[pos]], u, n);
    }
  }

  lemma Joined(a: seq<Trial>, b: seq<Trial>)
    requires Distinct(a) && Distinct(b) && forall x | x in a :: x !in b
    ensures Distinct(a + b)
  {
    forall i, j | 0 <= i < j < |a + b| ensures (a + b)[i] != (a + b)[j] {
      if i < |a| <= j {
        assert a[i] in a && b[j - |a|] in b;
      }
    }
  }

  lemma {:induction false} NodeTrialsDistinct(t: Trace, edges: Edges, n: nat, pos: nat)
    requires t.Fits(edges) && n < |edges| && pos <= |edges[n]| && DistinctProducers(t)
    ensures Distinct(NodeTrials(t, edges, n, pos)) && forall x | x in NodeTrials(t, edges, n, pos) :: x.pos >= pos
    decreases |edges[n]| - pos
  {
    hide Candidates, May;
    if pos < |edges[n]| {
      NodeTrialsDistinct(t, edges, n, pos + 1);
      if edges[n][pos] != "" {
        CandidatesDistinct(t, n, pos, edges[n][pos]);
      }
      Joined(EdgeTrials(t, edges, n, pos), NodeTrials(t, edges, n, pos + 1));
    }
  }

  lemma {:induction false} SearchDistinct(t: Trace, edges: Edges, maxDepth: nat, queue: Queue, seen: set<nat>)
    requires t.Fits(edges) && DistinctProducers(t) && forall e | e in queue :: e.0 < |edges|
    ensures Distinct(Search(t, edges, maxDepth, queue, seen))
    ensures forall x | x in Search(t, edges, maxDepth, queue, seen) :: x.n !in seen
    decreases Below(|edges|) - seen, |queue|
  {
    hide Search, NodeTrials, Climb, May;
    if queue == [] {
      SearchEnds(t, edges, maxDepth, seen);
    } else {
      var (n, d) := queue[0];
      assert queue[0].0 == n && n in Below(|edges|);
      SearchStep(t, edges, maxDepth, queue, seen);
      if n in seen || d > maxDepth {
        SearchDistinct(t, edges, maxDepth, queue[1..], seen);
      } else {
        SearchDistinct(t, edges, maxDepth, queue[1..] + Climb(t, edges, n, 0, d), seen + {n});
        NodeTrialsDistinct(t, edges, n, 0);
        Joined(NodeTrials(t, edges, n, 0), Search(t, edges, maxDepth, queue[1..] + Climb(t, edges, n, 0, d), seen + {n}));
      }
    }
  }

  lemma BindingsDistinct(t: Trace, edges: Edges, clash: nat, maxDepth: nat)
    requires t.Fits(edges) && clash < |edges| && DistinctProducers(t)
    ensures Distinct(Bindings(edges, Trials(t, edges, clash, maxDepth)))
  {
    hide Search, Trials;
    SearchDistinct(t, edges, maxDepth, [(clash, 0)], {});
    var trials := Trials(t, edges, clash, maxDepth);
    SearchBegins(t, Memory(map[], map[]), edges, clash, maxDepth);
    assert trials[0..] == trials;
    var run := Bindings(edges, trials);
    forall i, j | 0 <= i < j < |run| ensures run[i] != run[j] {
      var x, y := trials[i], trials[j];
      assert x in trials && y in trials;
      assert x.c != edges[x.n][x.pos];
      assert x == Trial(x.n, x.pos, x.c) && y == Trial(y.n, y.pos, y.c);
      assert Made(edges, x)[x.n][x.pos] == x.c;
    }
  }

  // ---- the outcome of a search ---------------------------------------------------------------

  /** The edges a search replays, in order, when no trial settles the clash; the first edges come last. */
  function SearchRun(t: Trace, edges: Edges, clash: nat, maxDepth: nat): (run: seq<Edges>)
    requires t.Fits(edges) && clash < |edges|
    ensures |run| == |Trials(t, edges, clash, maxDepth)| + 1
    ensures forall k | 0 <= k < |run| :: |run[k]| == |edges|
  {
    Bindings(edges, Trials(t, edges, clash, maxDepth)) + [edges]
  }

  /** The memory in which trial k is judged. */
  function JudgedIn(t: Trace, m: Memory, edges: Edges, clash: nat, maxDepth: nat, k: nat): Memory
    requires t.Fits(edges) && clash < |edges| && k < |SearchRun(t, edges, clash, maxDepth)|
  {
    Carried(t, m, SearchRun(t, edges, clash, maxDepth), k + 1)
  }

  /** Trial k settles the clash, as the search judges it. */
  ghost predicate Passes(t: Trace, m: Memory, edges: Edges, clash: nat, maxDepth: nat, k: nat)
    requires t.Fits(edges) && clash < |edges| && k < |Trials(t, edges, clash, maxDepth)|
  {
    Settled(JudgedIn(t, m, edges, clash, maxDepth, k), SearchRun(t, edges, clash, maxDepth)[k], clash)
  }

  /**
    A search that stopped at trial k: no earlier one passed; k passed and stays, or there was none left and
    the edges are as they were, replayed once more.
   */
  ghost predicate Stops(t: Trace, m: Memory, edges: Edges, clash: nat, maxDepth: nat, k: nat, after: Edges, memory: Memory) {
    && t.Fits(edges) && clash < |edges| && k < |SearchRun(t, edges, clash, maxDepth)|
    && (forall j | 0 <= j < k :: !Passes(t, m, edges, clash, maxDepth, j))
    && (k < |Trials(t, edges, clash, maxDepth)| ==> Passes(t, m, edges, clash, maxDepth, k))
    && after == SearchRun(t, edges, clash, maxDepth)[k]
    && memory == JudgedIn(t, m, edges, clash, maxDepth, k)
  }

  lemma RunIsFit(t: Trace, edges: Edges, clash: nat, maxDepth: nat, k: nat)
    requires t.Fits(edges) && t.Ordered(edges) && clash < |edges| && k < |SearchRun(t, edges, clash, maxDepth)|
    ensures t.Fits(SearchRun(t, edges, clash, maxDepth)[k]) && t.Ordered(SearchRun(t, edges, clash, maxDepth)[k])
  {
    hide Trials, May;
    var trials := Trials(t, edges, clash, maxDepth);
    if k < |trials| {
      var x := trials[k];
      assert x in trials;
      RewiringKeepsOrder(t, edges, x.n, x.pos, x.c);
    }
  }

  /** Candidate `i` of an edge, as a trial of the search. */
  lemma TrialAt(t: Trace, m: Memory, edges: Edges, clash: nat, maxDepth: nat, n: nat, pos: nat, j: nat, i: nat)
    requires t.Fits(edges) && t.Ordered(edges) && clash < |edges| && n < |edges| && pos < |edges[n]| && edges[n][pos] != ""
    requires i < |EdgeTrials(t, edges, n, pos)|
    requires j + |EdgeTrials(t, edges, n, pos)| <= |Trials(t, edges, clash, maxDepth)|
    requires Trials(t, edges, clash, maxDepth)[j..j + |EdgeTrials(t, edges, n, pos)|] == EdgeTrials(t, edges, n, pos)
    ensures
      var run := SearchRun(t, edges, clash, maxDepth);
      && run[j + i] == Rewired(edges, n, pos, Candidates(t, n, pos, edges[n][pos])[i])
      && t.Fits(run[j + i]) && t.Ordered(run[j + i])
      && Carried(t, m, run, j + i + 1) == JudgedIn(t, m, edges, clash, maxDepth, j + i) == Replay(t, Carried(t, m, run, j + i), run[j + i])
      && (Passes(t, m, edges, clash, maxDepth, j + i) <==> Settled(JudgedIn(t, m, edges, clash, maxDepth, j + i), run[j + i], clash))
  {
    hide Candidates, Trials, Replay, May, Settled;
    RunIsFit(t, edges, clash, maxDepth, j + i);
    var all := Trials(t, edges, clash, maxDepth);
    assert all[j + i] == all[j..j + |EdgeTrials(t, edges, n, pos)|][i] == EdgeTrials(t, edges, n, pos)[i];
  }

  /** No trial carries a value into the next, nor the last into the final replay. */
  ghost predicate Undisturbed(t: Trace, m: Memory, edges: Edges, clash: nat, maxDepth: nat)
    requires t.Fits(edges) && clash < |edges|
  {
    var run := SearchRun(t, edges, clash, maxDepth);
    forall k | 0 < k < |run| :: NothingCarried(t, m, run[k - 1], run[k])
  }

  /** Every replay of a search ends as it would have from the memory the search began with exactly when it is undisturbed. */
  lemma SearchRunExact(t: Trace, m: Memory, edges: Edges, clash: nat, maxDepth: nat)
    requires t.Fits(edges) && t.Ordered(edges) && clash < |edges|
    ensures
      (forall k: nat | k < |SearchRun(t, edges, clash, maxDepth)| ::
         JudgedIn(t, m, edges, clash, maxDepth, k) == Replay(t, m, SearchRun(t, edges, clash, maxDepth)[k]))
      <==> Undisturbed(t, m, edges, clash, maxDepth)
  {
    hide SearchRun, Replay, Carried, NothingCarried;
    var run := SearchRun(t, edges, clash, maxDepth);
    forall k | 0 <= k < |run| ensures t.Fits(run[k]) && t.Ordered(run[k]) {
      RunIsFit(t, edges, clash, maxDepth, k);
    }
    CarriedRunExact(t, m, run, |run|);
    if forall k: nat | k < |run| :: JudgedIn(t, m, edges, clash, maxDepth, k) == Replay(t, m, run[k]) {
      forall i | 0 < i <= |run| ensures Carried(t, m, run, i) == Replay(t, m, run[i - 1]) {
        assert JudgedIn(t, m, edges, clash, maxDepth, i - 1) == Replay(t, m, run[i - 1]);
      }
    }
  }

  /**
    The trials of a search, judged in turn, find a rewiring whenever there is one, whatever it is tested for,
    exactly when no trial carries a value into the next.
   */
  lemma TrialsInTurnExact(t: Trace, m: Memory, edges: Edges, clash: nat, maxDepth: nat)
    requires t.Fits(edges) && t.Ordered(edges) && clash < |edges| && DistinctProducers(t)
    ensures
      var run := Bindings(edges, Trials(t, edges, clash, maxDepth));
      (forall test: Test | SomePasses(t, m, run, test) :: SomePassesInTurn(t, m, run, test))
      <==> forall k | 0 < k < |run| :: NothingCarried(t, m, run[k - 1], run[k])
  {
    hide Replay, NothingCarried, Trials, SomePasses, SomePassesInTurn;
    var run := Bindings(edges, Trials(t, edges, clash, maxDepth));
    BindingsDistinct(t, edges, clash, maxDepth);
    forall k | 0 <= k < |run| ensures t.Fits(run[k]) && t.Ordered(run[k]) {
      RunIsFit(t, edges, clash, maxDepth, k);
    }
    InTurnExact(t, m, run);
  }

  /**
    An undisturbed search gives up exactly when no single rewiring within reach, replayed from the memory it
    began with, settles the clash; and it leaves the memory that replaying its final edges would have left.
   */
  lemma UndisturbedStops(t: Trace, m: Memory, edges: Edges, clash: nat, maxDepth: nat, k: nat, after: Edges, memory: Memory)
    requires t.Fits(edges) && t.Ordered(edges) && Stops(t, m, edges, clash, maxDepth, k, after, memory)
    requires Undisturbed(t, m, edges, clash, maxDepth)
    ensures k == |Trials(t, edges, clash, maxDepth)| <==> Hopeless(t, m, edges, clash, maxDepth)
    ensures memory == Replay(t, m, after)
  {
    hide Replay, Reachable, May, Trials, Settled, Undisturbed, JudgedIn;
    SearchRunExact(t, m, edges, clash, maxDepth);
    var trials := Trials(t, edges, clash, maxDepth);
    if k < |trials| {
      var x := trials[k];
      TrialsExact(t, edges, clash, maxDepth, x);
      assert Settles(t, m, edges, clash, x.n, x.pos, x.c);
    } else {
      forall n: nat, pos: nat, c | Reachable(t, edges, clash, n, maxDepth) && May(t, edges, n, pos, c)
        ensures !Settles(t, m, edges, clash, n, pos, c)
      {
        TrialsExact(t, edges, clash, maxDepth, Trial(n, pos, c));
        var j :| 0 <= j < |trials| && trials[j] == Trial(n, pos, c);
        assert !Passes(t, m, edges, clash, maxDepth, j);
      }
    }
  }

  /** Disturbed or not, what a search leaves is one allowed rewiring within reach, or nothing. */
  lemma StopsWithin(t: Trace, m: Memory, edges: Edges, clash: nat, maxDepth: nat, k: nat, after: Edges, memory: Memory)
    requires t.Fits(edges) && t.Ordered(edges) && Stops(t, m, edges, clash, maxDepth, k, after, memory)
    ensures t.Fits(after) && t.Ordered(after)
    ensures k == |Trials(t, edges, clash, maxDepth)| ==> after == edges
    ensures k < |Trials(t, edges, clash, maxDepth)| ==>
              var x := Trials(t, edges, clash, maxDepth)[k];
              && Reachable(t, edges, clash, x.n, maxDepth) && May(t, edges, x.n, x.pos, x.c)
              && after == Rewired(edges, x.n, x.pos, x.c) && Settled(memory, after, clash)
  {
    hide Replay, Reachable, May, Trials, Settled, Carried;
    RunIsFit(t, edges, clash, maxDepth, k);
    if k < |Trials(t, edges, clash, maxDepth)| {
      TrialsExact(t, edges, clash, maxDepth, Trials(t, edges, clash, maxDepth)[k]);
      assert Passes(t, m, edges, clash, maxDepth, k);
    }
  }

  lemma WhatStopped(t: Trace, m: Memory, edges: Edges, clash: nat, maxDepth: nat, k: nat, after: Edges, memory: Memory)
    requires t.Fits(edges) && t.Ordered(edges) && clash < |edges| && Stops(t, m, edges, clash, maxDepth, k, after, memory)
    ensures |after| == |edges| && k <= |Trials(t, edges, clash, maxDepth)|
    ensures if k < |Trials(t, edges, clash, maxDepth)| then Settled(memory, after, clash) else after == edges
    ensures Undisturbed(t, m, edges, clash, maxDepth) ==>
              (k < |Trials(t, edges, clash, maxDepth)| <==> !Hopeless(t, m, edges, clash, maxDepth))
  {
    hide Stops, Settled, Undisturbed, Hopeless, Trials, May, Reachable;
    StopsInside(t, m, edges, clash, maxDepth, k, after, memory);
    StopsWithin(t, m, edges, clash, maxDepth, k, after, memory);
    if Undisturbed(t, m, edges, clash, maxDepth) {
      UndisturbedStops(t, m, edges, clash, maxDepth, k, after, memory);
    }
  }

  // ---- the repair ------------------------------------------------------------------------------

  /** State between two rounds: the edges, the clashes given up on, the interpreter's memory. */
  datatype State = State(edges: Edges, skip: set<nat>, memory: Memory)

  /** The first clash not given up on. */
  ghost predicate FirstClash(t: Trace, m: Memory, edges: Edges, skip: set<nat>, clash: nat) {
    && clash < |edges| && clash < |t.records| && clash !in skip && Clashes(t, m, edges, clash)
    && forall n: nat | n < clash && n < |edges| && n < |t.records| && n !in skip :: !Clashes(t, m, edges, n)
  }

  /** One round: the edges are replayed, and the first clash is searched; given up on when no trial passes. */
  ghost predicate Round(t: Trace, maxDepth: nat, a: State, b: State) {
    exists clash: nat, k: nat :: RoundAt(t, maxDepth, a, b, clash, k)
  }

  ghost predicate RoundAt(t: Trace, maxDepth: nat, a: State, b: State, clash: nat, k: nat) {
    var m := Replay(t, a.memory, a.edges);
    && FirstClash(t, m, a.edges, a.skip, clash)
    && Stops(t, m, a.edges, clash, maxDepth, k, b.edges, b.memory)
    && b.skip == if k < |Trials(t, a.edges, clash, maxDepth)| then a.skip else a.skip + {clash}
  }

  /** An undisturbed round gives its clash up exactly when nothing within reach settles it, and then leaves the memory of its first replay. */
  lemma UndisturbedRound(t: Trace, maxDepth: nat, a: State, b: State, clash: nat, k: nat)
    requires t.Fits(a.edges) && t.Ordered(a.edges) && RoundAt(t, maxDepth, a, b, clash, k)
    requires Undisturbed(t, Replay(t, a.memory, a.edges), a.edges, clash, maxDepth)
    ensures clash in b.skip <==> Hopeless(t, Replay(t, a.memory, a.edges), a.edges, clash, maxDepth)
    ensures clash in b.skip ==> b.edges == a.edges && b.memory == Replay(t, a.memory, a.edges)
    ensures clash !in b.skip ==> b.skip == a.skip && Settled(Replay(t, Replay(t, a.memory, a.edges), b.edges), b.edges, clash)
  {
    hide Replay, Hopeless, Undisturbed, Stops, Trials, Settled, Reachable, May, Clashes;
    var m := Replay(t, a.memory, a.edges);
    UndisturbedStops(t, m, a.edges, clash, maxDepth, k, b.edges, b.memory);
    StopsWithin(t, m, a.edges, clash, maxDepth, k, b.edges, b.memory);
    ReplayTwice(t, a.memory, a.edges);
    StopsInside(t, m, a.edges, clash, maxDepth, k, b.edges, b.memory);
  }

  lemma StopsInside(t: Trace, m: Memory, edges: Edges, clash: nat, maxDepth: nat, k: nat, after: Edges, memory: Memory)
    requires Stops(t, m, edges, clash, maxDepth, k, after, memory)
    ensures t.Fits(edges) && clash < |edges| && k <= |Trials(t, edges, clash, maxDepth)|
  {
  }

  class Repair {
    const t: Trace
    const edges: array<seq<string>>
    const interp: Interp

    ghost predicate Valid()
      reads this, edges
    {
      t.Fits(edges[..]) && t.Ordered(edges[..])
    }

    constructor (t: Trace, edges: array<seq<string>>, interp: Interp)
      requires t.Fits(edges[..]) && t.Ordered(edges[..])
      ensures Valid() && this.t == t && this.edges == edges && this.interp == interp
    {
      this.t, this.edges, this.interp := t, edges, interp;
    }

    /** Tries the candidates of one edge, nearest first; what does not settle the clash is undone. */
    method TryEdge(clash: nat, maxDepth: nat, n: nat, pos: nat, ghost m: Memory, ghost j: nat) returns (fixed: bool, ghost k: nat)
      requires Valid() && clash < edges.Length && n < edges.Length && pos < |edges[n]| && edges[n][pos] != ""
      requires j + |EdgeTrials(t, edges[..], n, pos)| <= |Trials(t, edges[..], clash, maxDepth)|
      requires Trials(t, edges[..], clash, maxDepth)[j..j + |EdgeTrials(t, edges[..], n, pos)|] == EdgeTrials(t, edges[..], n, pos)
      requires interp.Now() == Carried(t, m, SearchRun(t, edges[..], clash, maxDepth), j)
      modifies edges, interp
      ensures Valid() && j <= k <= j + |EdgeTrials(t, old(edges[..]), n, pos)|
      ensures forall i | j <= i < k :: !Passes(t, m, old(edges[..]), clash, maxDepth, i)
      ensures !fixed ==> && edges[..] == old(edges[..]) && k == j + |EdgeTrials(t, edges[..], n, pos)|
                         && interp.Now() == Carried(t, m, SearchRun(t, edges[..], clash, maxDepth), k)
      ensures fixed ==> && k < |Trials(t, old(edges[..]), clash, maxDepth)| && Passes(t, m, old(edges[..]), clash, maxDepth, k)
                        && edges[..] == SearchRun(t, old(edges[..]), clash, maxDepth)[k]
                        && interp.Now() == JudgedIn(t, m, old(edges[..]), clash, maxDepth, k)
    {
      hide Candidates, Broadcastable, Trials, Replay, May, SearchRun, EdgeTrials, Passes, Carried;
      ghost var before := edges[..];
      ghost var run := SearchRun(t, before, clash, maxDepth);
      var cands := Candidates(t, n, pos, edges[n][pos]);
      var i := 0;
      k := j;
      while i < |cands|
        invariant 0 <= i <= |cands| && k == j + i && edges[..] == before
        invariant interp.Now() == Carried(t, m, run, k)
        invariant forall l | j <= l < k :: !Passes(t, m, before, clash, maxDepth, l)
      {
        var old_ := edges[n];
        TrialAt(t, m, before, clash, maxDepth, n, pos, j, i);
        edges[n] := old_[pos := cands[i]];
        assert edges[..] == run[k];
        interp.ReplayAll(t, edges);
        var shapes := OperandShapes(interp.Now(), edges[clash]);
        if shapes.Some? {
          var ok := BcastOk(shapes.value);
          if ok {
            return true, k;
          }
        }
        edges[n] := old_;
        assert edges[..] == before;
        i, k := i + 1, k + 1;
      }
      fixed := false;
    }

    /** One visited record: its operands in order, each tried and then climbed. */
    method TryNode(clash: nat, maxDepth: nat, node: nat, d: nat, queue: Queue, ghost m: Memory, ghost j: nat)
      returns (fixed: bool, waiting: Queue, ghost k: nat)
      requires Valid() && clash < edges.Length && node < edges.Length
      requires j + |NodeTrials(t, edges[..], node, 0)| <= |Trials(t, edges[..], clash, maxDepth)|
      requires Trials(t, edges[..], clash, maxDepth)[j..j + |NodeTrials(t, edges[..], node, 0)|] == NodeTrials(t, edges[..], node, 0)
      requires interp.Now() == Carried(t, m, SearchRun(t, edges[..], clash, maxDepth), j)
      modifies edges, interp
      ensures Valid() && j <= k <= |Trials(t, old(edges[..]), clash, maxDepth)|
      ensures forall i | j <= i < k :: !Passes(t, m, old(edges[..]), clash, maxDepth, i)
      ensures !fixed ==> && edges[..] == old(edges[..]) && k == j + |NodeTrials(t, edges[..], node, 0)|
                         && waiting == queue + Climb(t, edges[..], node, 0, d)
                         && interp.Now() == Carried(t, m, SearchRun(t, edges[..], clash, maxDepth), k)
      ensures fixed ==> && k < |Trials(t, old(edges[..]), clash, maxDepth)| && Passes(t, m, old(edges[..]), clash, maxDepth, k)
                        && edges[..] == SearchRun(t, old(edges[..]), clash, maxDepth)[k]
                        && interp.Now() == JudgedIn(t, m, old(edges[..]), clash, maxDepth, k)
    {
      hide May, Replay, NodeTrials, Climb, EdgeTrials, Passes, Carried, SearchRun, JudgedIn, Candidates, Trials;
      ghost var es := edges[..];
      ghost var trials, run, end := Trials(t, es, clash, maxDepth), SearchRun(t, es, clash, maxDepth), j + |NodeTrials(t, es, node, 0)|;
      waiting, k := queue, j;
      var pos := 0;
      while pos < |edges[node]|
        invariant Valid() && edges[..] == es && 0 <= pos <= |es[node]| && j <= k <= end
        invariant waiting + Climb(t, es, node, pos, d) == queue + Climb(t, es, node, 0, d)
        invariant trials[..end][k..] == NodeTrials(t, es, node, pos)
        invariant interp.Now() == Carried(t, m, run, k)
        invariant forall i | j <= i < k :: !Passes(t, m, es, clash, maxDepth, i)
      {
        var u := edges[node][pos];
        NextOperand(t, es, node, pos, d);
        TrialsSplit(trials[..end], k, EdgeTrials(t, es, node, pos), NodeTrials(t, es, node, pos + 1));
        if u != "" {
          fixed, k := TryEdge(clash, maxDepth, node, pos, m, k);
          if fixed {
            return;
          }
        }
        if u in t.recByOut && Climbs(t, u) {
          waiting := waiting + [(t.recByOut[u], d + 1)];
        }
        pos := pos + 1;
      }
      NoOperandLeft(t, es, node, d);
      fixed := false;
    }

    /**
      Breadth-first search from the clash up the elementwise producers, trial by trial, each judged in the
      memory the earlier ones left.  False: every edge is as it was.  True: the first trial that passed stays.
      Undisturbed, it gives up exactly when nothing within reach would have settled the clash.
     */
    method TryFix(clash: nat, maxDepth: nat) returns (fixed: bool, ghost k: nat)
      requires Valid() && clash < edges.Length
      modifies edges, interp
      ensures Valid()
      ensures Stops(t, old(interp.Now()), old(edges[..]), clash, maxDepth, k, edges[..], interp.Now())
      ensures fixed <==> k < |Trials(t, old(edges[..]), clash, maxDepth)|
      ensures if fixed then Settled(interp.Now(), edges[..], clash) else edges[..] == old(edges[..])
      ensures Undisturbed(t, old(interp.Now()), old(edges[..]), clash, maxDepth) ==>
                (fixed <==> !Hopeless(t, old(interp.Now()), old(edges[..]), clash, maxDepth))
    {
      hide May, Replay, NodeTrials, Climb, EdgeTrials, Passes, Candidates, Stops, Settled, Undisturbed, Hopeless, SearchRun, JudgedIn, Carried, Trials, Search;
      ghost var es, m := edges[..], interp.Now();
      ghost var trials, run := Trials(t, es, clash, maxDepth), SearchRun(t, es, clash, maxDepth);
      var seen: set<nat> := {};
      var queue: Queue := [(clash, 0)];
      k := 0;
      SearchBegins(t, m, es, clash, maxDepth);
      while queue != []
        invariant Valid() && edges[..] == es && seen <= Below(edges.Length)
        invariant forall e | e in queue :: e.0 < |es|
        invariant k <= |trials| && trials[k..] == Search(t, es, maxDepth, queue, seen)
        invariant interp.Now() == Carried(t, m, run, k)
        invariant forall i | 0 <= i < k :: !Passes(t, m, es, clash, maxDepth, i)
        decreases Below(edges.Length) - seen, |queue|
      {
        var (node, d) := queue[0];
        assert queue[0].0 == node && node in Below(edges.Length);
        SearchStep(t, es, maxDepth, queue, seen);
        if node !in seen && d <= maxDepth {
          seen := seen + {node};
          TrialsSplit(trials, k, NodeTrials(t, es, node, 0), Search(t, es, maxDepth, queue[1..] + Climb(t, es, node, 0, d), seen));
          fixed, queue, k := TryNode(clash, maxDepth, node, d, queue[1..], m, k);
          if fixed {
            StopsAt(t, m, es, clash, maxDepth, k);
            WhatStopped(t, m, es, clash, maxDepth, k, edges[..], interp.Now());
            return;
          }
        } else {
          queue := queue[1..];
        }
      }
      SearchEnds(t, es, maxDepth, seen);
      interp.ReplayAll(t, edges);
      StopsAtEnd(t, m, es, clash, maxDepth, k);
      WhatStopped(t, m, es, clash, maxDepth, k, edges[..], interp.Now());
      return false, k;
    }

    /** The first clash not given up on. */
    method FindClash(skip: set<nat>) returns (found: Option<nat>)
      requires Valid()
      ensures found.None? ==> forall n: nat | n < edges.Length && n !in skip :: !Clashes(t, interp.Now(), edges[..], n)
      ensures found.Some? ==> FirstClash(t, interp.Now(), edges[..], skip, found.value)
    {
      hide Broadcastable;
      var n := 0;
      while n < edges.Length
        invariant 0 <= n <= edges.Length
        invariant forall k: nat | k < n && k !in skip :: !Clashes(t, interp.Now(), edges[..], k)
      {
        if n !in skip && t.records[n].broadcasts {
          var shapes := OperandShapes(interp.Now(), edges[n]);
          if shapes.Some? && |shapes.value| >= 2 {
            var ok := BcastOk(shapes.value);
            if !ok {
              return Some(n);
            }
          }
        }
        n := n + 1;
      }
      return None;
    }

    /**
      The repair, as the run of rounds it makes: the trace stays topologically ordered and only ever reads
      producers of the original names; it stops when no clash is left that was not given up on, or after
      `maxFixes` rounds.
     */
    method RepairMisbindings(maxFixes: nat, maxDepth: nat) returns (skip: set<nat>, settled: bool, ghost run: seq<State>)
      requires Valid()
      modifies edges, interp
      ensures Valid()
      ensures Legal(t, old(edges[..]), edges[..])
      ensures run != [] && run[0] == State(old(edges[..]), {}, old(interp.Now()))
      ensures run[|run| - 1].edges == edges[..] && run[|run| - 1].skip == skip
      ensures forall i | 0 <= i < |run| - 1 :: Round(t, maxDepth, run[i], run[i + 1])
      ensures interp.Now() == if settled then Replay(t, run[|run| - 1].memory, edges[..]) else run[|run| - 1].memory
      ensures settled ==> forall n: nat | n < edges.Length && n !in skip :: !Clashes(t, interp.Now(), edges[..], n)
      ensures if settled then |run| <= maxFixes else |run| == maxFixes + 1
    {
      hide Stops, FirstClash, Clashes, Trials, Replay;
      skip, settled := {}, false;
      run := [State(edges[..], skip, interp.Now())];
      var round := 0;
      while round < maxFixes
        invariant Valid() && Legal(t, old(edges[..]), edges[..])
        invariant 0 <= round <= maxFixes && |run| == round + 1
        invariant run[0] == State(old(edges[..]), {}, old(interp.Now())) && run[round] == State(edges[..], skip, interp.Now())
        invariant forall i | 0 <= i < round :: Round(t, maxDepth, run[i], run[i + 1])
      {
        ghost var a := State(edges[..], skip, interp.Now());
        interp.ReplayAll(t, edges);
        ghost var m := interp.Now();
        var clash := FindClash(skip);
        if clash.None? {
          return skip, true, run;
        }
        ClashInside(t, m, a.edges, skip, clash.value);
        ghost var k;
        var fixed;
        fixed, k := TryFix(clash.value, maxDepth);
        StopKeepsLegal(t, old(edges[..]), m, a.edges, clash.value, maxDepth, k, edges[..], interp.Now());
        if !fixed {
          skip := skip + {clash.value};
        }
        assert RoundAt(t, maxDepth, a, State(edges[..], skip, interp.Now()), clash.value, k);
        run := run + [State(edges[..], skip, interp.Now())];
        round := round + 1;
      }
    }
  }

  lemma SearchBegins(t: Trace, m: Memory, edges: Edges, clash: nat, maxDepth: nat)
    requires t.Fits(edges) && clash < |edges|
    ensures Trials(t, edges, clash, maxDepth)[0..] == Search(t, edges, maxDepth, [(clash, 0)], {})
    ensures Carried(t, m, SearchRun(t, edges, clash, maxDepth), 0) == m
  {
    hide Search;
  }

  lemma SearchStep(t: Trace, edges: Edges, maxDepth: nat, queue: Queue, seen: set<nat>)
    requires t.Fits(edges) && queue != [] && forall e | e in queue :: e.0 < |edges|
    ensures
      var (n, d) := queue[0];
      if n in seen || d > maxDepth then Search(t, edges, maxDepth, queue, seen) == Search(t, edges, maxDepth, queue[1..], seen)
      else Search(t, edges, maxDepth, queue, seen)
           == NodeTrials(t, edges, n, 0) + Search(t, edges, maxDepth, queue[1..] + Climb(t, edges, n, 0, d), seen + {n})
  {
    hide NodeTrials, Climb, May;
  }

  lemma SearchEnds(t: Trace, edges: Edges, maxDepth: nat, seen: set<nat>)
    requires t.Fits(edges)
    ensures Search(t, edges, maxDepth, [], seen) == []
  {
  }

  lemma TrialsSplit(trials: seq<Trial>, k: nat, mine: seq<Trial>, rest: seq<Trial>)
    requires k <= |trials| && trials[k..] == mine + rest
    ensures k + |mine| <= |trials| && trials[k..k + |mine|] == mine && trials[k + |mine|..] == rest
  {
    assert trials[k..k + |mine|] == trials[k..][..|mine|];
    assert trials[k + |mine|..] == trials[k..][|mine|..];
  }

  lemma StopsAt(t: Trace, m: Memory, edges: Edges, clash: nat, maxDepth: nat, k: nat)
    requires t.Fits(edges) && clash < |edges| && k < |Trials(t, edges, clash, maxDepth)|
    requires Passes(t, m, edges, clash, maxDepth, k) && forall j | 0 <= j < k :: !Passes(t, m, edges, clash, maxDepth, j)
    ensures Stops(t, m, edges, clash, maxDepth, k, SearchRun(t, edges, clash, maxDepth)[k], JudgedIn(t, m, edges, clash, maxDepth, k))
  {
    hide Trials, Passes, Replay;
  }

  lemma StopsAtEnd(t: Trace, m: Memory, edges: Edges, clash: nat, maxDepth: nat, k: nat)
    requires t.Fits(edges) && clash < |edges| && k == |Trials(t, edges, clash, maxDepth)|
    requires forall j | 0 <= j < k :: !Passes(t, m, edges, clash, maxDepth, j)
    ensures Stops(t, m, edges, clash, maxDepth, k, edges, Replay(t, Carried(t, m, SearchRun(t, edges, clash, maxDepth), k), edges))
  {
    hide Trials, Passes, Replay;
  }

  lemma NextOperand(t: Trace, edges: Edges, n: nat, pos: nat, d: nat)
    requires t.Fits(edges) && n < |edges| && pos < |edges[n]|
    ensures NodeTrials(t, edges, n, pos) == EdgeTrials(t, edges, n, pos) + NodeTrials(t, edges, n, pos + 1)
    ensures edges[n][pos] == "" ==> EdgeTrials(t, edges, n, pos) == []
    ensures Climb(t, edges, n, pos, d) ==
            (if Climbs(t, edges[n][pos]) then [(t.recByOut[edges[n][pos]], d + 1)] else []) + Climb(t, edges, n, pos + 1, d)
  {
  }

  lemma NoOperandLeft(t: Trace, edges: Edges, n: nat, d: nat)
    requires t.Fits(edges) && n < |edges|
    ensures NodeTrials(t, edges, n, |edges[n]|) == [] && Climb(t, edges, n, |edges[n]|, d) == []
  {
  }

  lemma ClashInside(t: Trace, m: Memory, edges: Edges, skip: set<nat>, clash: nat)
    requires FirstClash(t, m, edges, skip, clash)
    ensures clash < |edges| && clash !in skip
  {
  }

  lemma MayInside(t: Trace, edges: Edges, n: nat, pos: nat, c: string)
    requires May(t, edges, n, pos, c)
    ensures n < |edges| && pos < |edges[n]| && IsAlternative(t, n, pos, c)
  {
  }

  /** Every edge still has its first binding, or points at some producer of its original name. */
  ghost predicate Legal(t: Trace, before: Edges, after: Edges) {
    && |before| == |after|
    && (forall n | 0 <= n < |before| :: |after[n]| == |before[n]|)
    && (forall n, pos | 0 <= n < |before| && 0 <= pos < |before[n]| && after[n][pos] != before[n][pos] :: IsAlternative(t, n, pos, after[n][pos]))
  }

  lemma StopKeepsLegal(t: Trace, before: Edges, m: Memory, mid: Edges, clash: nat, maxDepth: nat, k: nat, after: Edges, memory: Memory)
    requires t.Fits(mid) && t.Ordered(mid) && Legal(t, before, mid) && Stops(t, m, mid, clash, maxDepth, k, after, memory)
    ensures Legal(t, before, after) && k <= |Trials(t, mid, clash, maxDepth)|
  {
    hide Settled, Reachable, May, Trials, Stops;
    StopsWithin(t, m, mid, clash, maxDepth, k, after, memory);
    StopsInside(t, m, mid, clash, maxDepth, k, after, memory);
    if k < |Trials(t, mid, clash, maxDepth)| {
      var x := Trials(t, mid, clash, maxDepth)[k];
      MayInside(t, mid, x.n, x.pos, x.c);
    }
  }
}
