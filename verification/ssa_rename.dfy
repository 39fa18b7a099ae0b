/**
  SSA renaming of a recorded trace that reuses tensor names: every output gets a name of
  its own, every read is bound to the nearest producer before it.
 */
module SsaRename {
  import opened Basics
  import opened Decimals

  type Value = int
  type Env = map<string, Value>

  datatype TraceNode = TraceNode(op: int, ins: seq<string>, outs: seq<string>)

  /** The operators: value of output k of an op on its argument values (absent or unbound inputs are None). */
  type Ops = (int, seq<Option<Value>>, nat) -> Value

  // ---- running a trace -----------------------------------------------------------

  function Lookup(env: Env, name: string): Option<Value> {
    if name != "" && name in env then Some(env[name]) else None
  }

  function Reads(env: Env, ins: seq<string>): (args: seq<Option<Value>>)
    ensures |args| == |ins|
  {
    seq(|ins|, k requires 0 <= k < |ins| => Lookup(env, ins[k]))
  }

  /** Writes the first `n` outputs of a node; an empty name is no output, a repeated one overwrites. */
  function Write(ops: Ops, env: Env, op: int, args: seq<Option<Value>>, outs: seq<string>, n: nat): Env
    requires n <= |outs|
  {
    if n == 0 then env
    else
      var before := Write(ops, env, op, args, outs, n - 1);
      if outs[n - 1] == "" then before else before[outs[n - 1] := ops(op, args, n - 1)]
  }

  function StepNode(ops: Ops, env: Env, node: TraceNode): Env {
    Write(ops, env, node.op, Reads(env, node.ins), node.outs, |node.outs|)
  }

  /** Environment after the first `n` nodes. */
  function RunTrace(ops: Ops, env: Env, nodes: seq<TraceNode>, n: nat): Env
    requires n <= |nodes|
  {
    if n == 0 then env else StepNode(ops, RunTrace(ops, env, nodes, n - 1), nodes[n - 1])
  }

  // ---- fresh names ----------------------------------------------------------------

  /** The unique name of output `o` of node `i`. */
  function Fresh(o: string, i: nat): (name: string)
    ensures name != ""
  {
    o + "__n" + Decimal(i)
  }

  ghost predicate IsFresh(name: string) {
    exists o, i: nat :: name == Fresh(o, i)
  }

  /** Unique names are unique: they determine both the original name and the node. */
  lemma FreshInjective(o: string, i: nat, p: string, j: nat)
    requires Fresh(o, i) == Fresh(p, j)
    ensures o == p && i == j
  {
    var x, a, b := Fresh(o, i), Decimal(i), Decimal(j);
    assert x[|x| - |a| - 1] == 'n' && x[|x| - |b| - 1] == 'n';
    assert forall k | |x| - |a| <= k < |x| :: IsDigit(x[k]);
    assert forall k | |x| - |b| <= k < |x| :: IsDigit(x[k]);
    assert |a| == |b|;
    assert a == x[|x| - |a|..] && b == x[|x| - |b|..];
    assert o == x[..|x| - |a| - 3] && p == x[..|x| - |b| - 3];
    ParseDecimal(i);
    ParseDecimal(j);
  }

  // ---- the renaming pass ------------------------------------------------------------

  /** Nearest producer of a name: itself when nothing produced it. */
  function Bind(latest: map<string, string>, name: string): string {
    if name != "" && name in latest then latest[name] else name
  }

  function BindAll(latest: map<string, string>, ins: seq<string>): (r: seq<string>)
    ensures |r| == |ins|
  {
    seq(|ins|, k requires 0 <= k < |ins| => Bind(latest, ins[k]))
  }

  function FreshOuts(outs: seq<string>, i: nat): (r: seq<string>)
    ensures |r| == |outs|
  {
    seq(|outs|, k requires 0 <= k < |outs| => if outs[k] == "" then "" else Fresh(outs[k], i))
  }

  /** Producers after the first `n` outputs of node `i`. */
  function Produce(latest: map<string, string>, outs: seq<string>, i: nat, n: nat): map<string, string>
    requires n <= |outs|
  {
    if n == 0 then latest
    else
      var before := Produce(latest, outs, i, n - 1);
      if outs[n - 1] == "" then before else before[outs[n - 1] := Fresh(outs[n - 1], i)]
  }

  function Roots(names: set<string>): map<string, string> {
    map name | name in names :: name
  }

  /** Nearest producers before node `n`. */
  function Latest(names: set<string>, nodes: seq<TraceNode>, n: nat): map<string, string>
    requires n <= |nodes|
  {
    if n == 0 then Roots(names) else Produce(Latest(names, nodes, n - 1), nodes[n - 1].outs, n - 1, |nodes[n - 1].outs|)
  }

  function RenamedNode(names: set<string>, nodes: seq<TraceNode>, i: nat): TraceNode
    requires i < |nodes|
  {
    TraceNode(nodes[i].op, BindAll(Latest(names, nodes, i), nodes[i].ins), FreshOuts(nodes[i].outs, i))
  }

  function Renamed(names: set<string>, nodes: seq<TraceNode>): (r: seq<TraceNode>)
    ensures |r| == |nodes|
    ensures forall i | 0 <= i < |nodes| :: r[i] == RenamedNode(names, nodes, i)
  {
    seq(|nodes|, i requires 0 <= i < |nodes| => RenamedNode(names, nodes, i))
  }

  /** The producers table holds, per name, its producers in emission order; the nearest is the last. */
  ghost predicate Tabulates(producers: map<string, seq<string>>, latest: map<string, string>) {
    && producers.Keys == latest.Keys
    && forall name | name in producers :: producers[name] != [] && producers[name][|producers[name]| - 1] == latest[name]
  }

  /** The outputs of node `i` join their names' producers. */
  method RecordOuts(before: map<string, seq<string>>, outs: seq<string>, i: nat, ghost latest: map<string, string>)
    returns (producers: map<string, seq<string>>)
    requires Tabulates(before, latest)
    ensures Tabulates(producers, Produce(latest, outs, i, |outs|))
  {
    hide Fresh;
    producers := before;
    var k := 0;
    while k < |outs|
      invariant 0 <= k <= |outs|
      invariant Tabulates(producers, Produce(latest, outs, i, k))
    {
      var o := outs[k];
      if o != "" {
        producers := producers[o := (if o in producers then producers[o] else []) + [Fresh(o, i)]];
      }
      k := k + 1;
    }
  }

  /** The forward pass over the trace, with its table of producers. */
  method RenameTrace(names: set<string>, nodes: seq<TraceNode>) returns (newNodes: seq<TraceNode>, producers: map<string, seq<string>>)
    ensures newNodes == Renamed(names, nodes)
    ensures Tabulates(producers, Latest(names, nodes, |nodes|))
  {
    producers := map name | name in names :: [name];
    assert Tabulates(producers, Latest(names, nodes, 0));
    hide Tabulates, Produce, BindAll, FreshOuts;
    newNodes := [];
    var i := 0;
    while i < |nodes|
      invariant 0 <= i <= |nodes| && |newNodes| == i
      invariant forall k | 0 <= k < i :: newNodes[k] == RenamedNode(names, nodes, k)
      invariant Tabulates(producers, Latest(names, nodes, i))
    {
      var nd := nodes[i];
      var newIn := BindInputs(producers, nd.ins, Latest(names, nodes, i));
      newNodes := newNodes + [TraceNode(nd.op, newIn, FreshOuts(nd.outs, i))];
      producers := RecordOuts(producers, nd.outs, i, Latest(names, nodes, i));
      i := i + 1;
    }
  }

  method BindInputs(producers: map<string, seq<string>>, ins: seq<string>, ghost latest: map<string, string>) returns (newIn: seq<string>)
    requires Tabulates(producers, latest)
    ensures newIn == BindAll(latest, ins)
  {
    newIn := [];
    var pos := 0;
    while pos < |ins|
      invariant 0 <= pos <= |ins| && |newIn| == pos
      invariant forall k | 0 <= k < pos :: newIn[k] == Bind(latest, ins[k])
    {
      var s := ins[pos];
      var u := if s != "" && s in producers then producers[s][|producers[s]| - 1] else s;
      newIn := newIn + [u];
      pos := pos + 1;
    }
  }

  // ---- meaning --------------------------------------------------------------------------

  /** Unique names given to the first `n` outputs of node i. */
  function OutNames(outs: seq<string>, i: nat, n: nat): set<string>
    requires n <= |outs|
  {
    if n == 0 then {} else OutNames(outs, i, n - 1) + if outs[n - 1] == "" then {} else {Fresh(outs[n - 1], i)}
  }

  /** Unique names emitted before node n. */
  function Emitted(nodes: seq<TraceNode>, n: nat): set<string>
    requires n <= |nodes|
  {
    if n == 0 then {} else Emitted(nodes, n - 1) + OutNames(nodes[n - 1].outs, n - 1, |nodes[n - 1].outs|)
  }

  /**
    A read before node n is captured: it is bound to a graph input or initializer, or to nothing, and an
    earlier node has been given that very name as a unique one.
   */
  predicate Captured(names: set<string>, nodes: seq<TraceNode>, n: nat, s: string)
    requires n <= |nodes|
  {
    s != "" && (s !in Latest(names, nodes, n) || Latest(names, nodes, n)[s] == s) && s in Emitted(nodes, n)
  }

  ghost predicate NoCapture(names: set<string>, nodes: seq<TraceNode>, n: nat)
    requires n <= |nodes|
  {
    forall i, k | 0 <= i < n && 0 <= k < |nodes[i].ins| :: !Captured(names, nodes, i, nodes[i].ins[k])
  }

  /** `u` is the unique name of an output `s` of a node before i. */
  ghost predicate Stems(s: string, u: string, i: nat) {
    exists j: nat :: j < i && u == Fresh(s, j)
  }

  /**
    The overwriting environment, seen through the nearest-producer table, is the single-assignment one;
    roots keep their values outside the emitted names `em`.
   */
  ghost predicate Mirrors(env0: Env, env: Env, renamed: Env, latest: map<string, string>, em: set<string>, i: nat) {
    && env.Keys == latest.Keys && env0.Keys <= latest.Keys
    && (forall s | s in latest ::
          || (latest[s] == s && s in env0 && env[s] == env0[s])
          || (Stems(s, latest[s], i) && latest[s] in em && latest[s] in renamed && renamed[latest[s]] == env[s]))
    && (forall x | x !in em :: (x in renamed <==> x in env0) && (x in env0 ==> renamed[x] == env0[x]))
  }

  lemma MirrorsOutput(env0: Env, env: Env, renamed: Env, latest: map<string, string>, em: set<string>, i: nat, o: string, value: Value)
    requires Mirrors(env0, env, renamed, latest, em, i + 1)
    ensures Mirrors(env0, env[o := value], renamed[Fresh(o, i) := value], latest[o := Fresh(o, i)], em + {Fresh(o, i)}, i + 1)
  {
    hide Fresh;
    var x := Fresh(o, i);
    forall s | s in latest && s != o && Stems(s, latest[s], i + 1)
      ensures latest[s] != x
    {
      var j: nat :| j < i + 1 && latest[s] == Fresh(s, j);
      if latest[s] == x {
        FreshInjective(s, j, o, i);
      }
    }
    assert Stems(o, x, i + 1);
  }

  lemma {:induction false} MirrorsWrite(ops: Ops, env0: Env, env: Env, renamed: Env, latest: map<string, string>, em: set<string>, i: nat,
                                        op: int, args: seq<Option<Value>>, outs: seq<string>, n: nat)
    requires Mirrors(env0, env, renamed, latest, em, i + 1) && n <= |outs|
    ensures Mirrors(env0, Write(ops, env, op, args, outs, n), Write(ops, renamed, op, args, FreshOuts(outs, i), n),
                    Produce(latest, outs, i, n), em + OutNames(outs, i, n), i + 1)
    decreases n
  {
    hide Mirrors, Fresh;
    if n == 0 {
      assert em + {} == em;
    } else {
      MirrorsWrite(ops, env0, env, renamed, latest, em, i, op, args, outs, n - 1);
      var before := em + OutNames(outs, i, n - 1);
      if outs[n - 1] != "" {
        MirrorsOutput(env0, Write(ops, env, op, args, outs, n - 1), Write(ops, renamed, op, args, FreshOuts(outs, i), n - 1),
                      Produce(latest, outs, i, n - 1), before, i, outs[n - 1], ops(op, args, n - 1));
        assert em + OutNames(outs, i, n) == before + {Fresh(outs[n - 1], i)};
      } else {
        assert em + OutNames(outs, i, n) == before;
      }
    }
  }

  lemma MirrorsLater(env0: Env, env: Env, renamed: Env, latest: map<string, string>, em: set<string>, i: nat)
    requires Mirrors(env0, env, renamed, latest, em, i)
    ensures Mirrors(env0, env, renamed, latest, em, i + 1)
  {
    hide Fresh;
  }

  /** A read that is not captured sees the same value through its binding. */
  lemma MirrorsRead(env0: Env, env: Env, renamed: Env, latest: map<string, string>, em: set<string>, i: nat, s: string)
    requires Mirrors(env0, env, renamed, latest, em, i)
    requires !(s != "" && (s !in latest || latest[s] == s) && s in em)
    ensures Lookup(env, s) == Lookup(renamed, Bind(latest, s))
  {
    if s != "" && s in latest && latest[s] != s {
      var j: nat :| j < i && latest[s] == Fresh(s, j);
    }
  }

  /** Node i reads the same values in both traces. */
  ghost predicate SameReads(ops: Ops, env0: Env, nodes: seq<TraceNode>, i: nat)
    requires i < |nodes|
  {
    Reads(RunTrace(ops, env0, nodes, i), nodes[i].ins)
    == Reads(RunTrace(ops, env0, Renamed(env0.Keys, nodes), i), Renamed(env0.Keys, nodes)[i].ins)
  }

  /** Before node n the two environments mirror each other. */
  ghost predicate Mirrored(ops: Ops, env0: Env, nodes: seq<TraceNode>, n: nat)
    requires n <= |nodes|
  {
    Mirrors(env0, RunTrace(ops, env0, nodes, n), RunTrace(ops, env0, Renamed(env0.Keys, nodes), n),
            Latest(env0.Keys, nodes, n), Emitted(nodes, n), n)
  }

  /**
    Renaming preserves meaning: while no read is captured the single-assignment environment
    mirrors the overwriting one, so every read of every node sees the value it saw before.
   */
  lemma {:induction false} RenamingPreservesReads(ops: Ops, env0: Env, nodes: seq<TraceNode>, n: nat)
    requires n <= |nodes| && NoCapture(env0.Keys, nodes, n)
    ensures Mirrored(ops, env0, nodes, n)
    ensures forall i | 0 <= i < n :: SameReads(ops, env0, nodes, i)
    decreases n
  {
    hide SameReads, Mirrored, Captured;
    if n == 0 {
      RootsMirrored(ops, env0, nodes);
    } else {
      RenamingPreservesReads(ops, env0, nodes, n - 1);
      NodeMirrors(ops, env0, nodes, n - 1);
    }
  }

  lemma RootsMirrored(ops: Ops, env0: Env, nodes: seq<TraceNode>)
    ensures Mirrored(ops, env0, nodes, 0)
  {
  }

  lemma NodeMirrors(ops: Ops, env0: Env, nodes: seq<TraceNode>, i: nat)
    requires i < |nodes| && Mirrored(ops, env0, nodes, i)
    requires forall k | 0 <= k < |nodes[i].ins| :: !Captured(env0.Keys, nodes, i, nodes[i].ins[k])
    ensures SameReads(ops, env0, nodes, i)
    ensures Mirrored(ops, env0, nodes, i + 1)
  {
    hide Mirrors, Produce, OutNames, Write;
    var env, renamed := RunTrace(ops, env0, nodes, i), RunTrace(ops, env0, Renamed(env0.Keys, nodes), i);
    var latest := Latest(env0.Keys, nodes, i);
    forall k | 0 <= k < |nodes[i].ins|
      ensures Lookup(env, nodes[i].ins[k]) == Lookup(renamed, BindAll(latest, nodes[i].ins)[k])
    {
      assert !Captured(env0.Keys, nodes, i, nodes[i].ins[k]);
      MirrorsRead(env0, env, renamed, latest, Emitted(nodes, i), i, nodes[i].ins[k]);
    }
    assert Reads(env, nodes[i].ins) == Reads(renamed, BindAll(latest, nodes[i].ins));
    MirrorsLater(env0, env, renamed, latest, Emitted(nodes, i), i);
    MirrorsWrite(ops, env0, env, renamed, latest, Emitted(nodes, i), i, nodes[i].op, Reads(env, nodes[i].ins), nodes[i].outs, |nodes[i].outs|);
  }

  // ---- exactly when ------------------------------------------------------------------------

  /** Roots worth 7, every output worth 1. */
  function Sevens(names: set<string>): Env {
    map name | name in names :: 7
  }

  function Ones(): Ops {
    (op: int, args: seq<Option<Value>>, k: nat) => 1
  }

  /** After n nodes: a root not overwritten is still 7, a unique name emitted is 1. */
  ghost predicate Told(names: set<string>, nodes: seq<TraceNode>, n: nat)
    requires n <= |nodes|
  {
    var env, renamed := RunTrace(Ones(), Sevens(names), nodes, n), RunTrace(Ones(), Sevens(names), Renamed(names, nodes), n);
    && env.Keys == Latest(names, nodes, n).Keys
    && (forall s | s in env && Latest(names, nodes, n)[s] == s :: env[s] == 7)
    && (forall x | x in Emitted(nodes, n) :: x in renamed && renamed[x] == 1)
  }

  lemma {:induction false} OnesOverwrite(env: Env, latest: map<string, string>, op: int, args: seq<Option<Value>>, outs: seq<string>, i: nat, n: nat)
    requires n <= |outs| && env.Keys == latest.Keys && forall s | s in env && latest[s] == s :: env[s] == 7
    ensures
      var after, later := Write(Ones(), env, op, args, outs, n), Produce(latest, outs, i, n);
      after.Keys == later.Keys && forall s | s in after && later[s] == s :: after[s] == 7
    decreases n
  {
    if n > 0 {
      OnesOverwrite(env, latest, op, args, outs, i, n - 1);
      assert |Fresh(outs[n - 1], i)| > |outs[n - 1]|;
    }
  }

  lemma {:induction false} OnesEmit(env: Env, em: set<string>, op: int, args: seq<Option<Value>>, outs: seq<string>, i: nat, n: nat)
    requires n <= |outs| && forall x | x in em :: x in env && env[x] == 1
    ensures
      var after := Write(Ones(), env, op, args, FreshOuts(outs, i), n);
      forall x | x in em + OutNames(outs, i, n) :: x in after && after[x] == 1
    decreases n
  {
    hide Fresh;
    if n > 0 {
      OnesEmit(env, em, op, args, outs, i, n - 1);
      var before, last := Write(Ones(), env, op, args, FreshOuts(outs, i), n - 1), FreshOuts(outs, i)[n - 1];
      assert last == if outs[n - 1] == "" then "" else Fresh(outs[n - 1], i);
      assert Ones()(op, args, n - 1) == 1;
      var after := Write(Ones(), env, op, args, FreshOuts(outs, i), n);
      assert after == if last == "" then before else before[last := 1];
      forall x | x in em + OutNames(outs, i, n) ensures x in after && after[x] == 1 {
        assert x in em + OutNames(outs, i, n - 1) || x == last;
      }
    }
  }

  lemma {:induction false} AllTold(names: set<string>, nodes: seq<TraceNode>, n: nat)
    requires n <= |nodes|
    ensures Told(names, nodes, n)
    decreases n
  {
    if n > 0 {
      hide Write, Produce, OutNames, FreshOuts;
      AllTold(names, nodes, n - 1);
      var env, renamed := RunTrace(Ones(), Sevens(names), nodes, n - 1), RunTrace(Ones(), Sevens(names), Renamed(names, nodes), n - 1);
      var node, new_ := nodes[n - 1], Renamed(names, nodes)[n - 1];
      OnesOverwrite(env, Latest(names, nodes, n - 1), node.op, Reads(env, node.ins), node.outs, n - 1, |node.outs|);
      OnesEmit(renamed, Emitted(nodes, n - 1), new_.op, Reads(renamed, new_.ins), node.outs, n - 1, |node.outs|);
    }
  }

  /** A captured read sees different values: 7 or nothing before, 1 after. */
  lemma CaptureShows(names: set<string>, nodes: seq<TraceNode>, n: nat, s: string)
    requires n <= |nodes| && Captured(names, nodes, n, s)
    ensures Lookup(RunTrace(Ones(), Sevens(names), nodes, n), s)
         != Lookup(RunTrace(Ones(), Sevens(names), Renamed(names, nodes), n), Bind(Latest(names, nodes, n), s))
  {
    AllTold(names, nodes, n);
  }

  /** Renaming keeps every read, for all operators and all values of the roots, exactly when no read is captured. */
  lemma RenamingExact(names: set<string>, nodes: seq<TraceNode>)
    ensures
      (forall ops: Ops, env0: Env, i | env0.Keys == names && 0 <= i < |nodes| :: SameReads(ops, env0, nodes, i))
      <==> NoCapture(names, nodes, |nodes|)
  {
    hide SameReads, Captured, Renamed, Latest;
    if NoCapture(names, nodes, |nodes|) {
      forall ops: Ops, env0: Env, i | env0.Keys == names && 0 <= i < |nodes| ensures SameReads(ops, env0, nodes, i) {
        RenamingPreservesReads(ops, env0, nodes, |nodes|);
      }
    } else {
      var i, k :| 0 <= i < |nodes| && 0 <= k < |nodes[i].ins| && Captured(names, nodes, i, nodes[i].ins[k]);
      CaptureShows(names, nodes, i, nodes[i].ins[k]);
      CaptureDiffers(names, nodes, i, k);
      assert Sevens(names).Keys == names;
    }
  }

  lemma CaptureDiffers(names: set<string>, nodes: seq<TraceNode>, i: nat, k: nat)
    requires i < |nodes| && k < |nodes[i].ins| && Captured(names, nodes, i, nodes[i].ins[k])
    ensures !SameReads(Ones(), Sevens(names), nodes, i)
  {
    CaptureShows(names, nodes, i, nodes[i].ins[k]);
    assert Sevens(names).Keys == names;
    var env, renamed := RunTrace(Ones(), Sevens(names), nodes, i), RunTrace(Ones(), Sevens(names), Renamed(names, nodes), i);
    assert Reads(env, nodes[i].ins)[k] != Reads(renamed, Renamed(names, nodes)[i].ins)[k];
  }

  /** Every declared output that is not captured has its value through its last producer. */
  lemma RenamingPreservesOutputs(ops: Ops, env0: Env, nodes: seq<TraceNode>, output: string)
    requires NoCapture(env0.Keys, nodes, |nodes|) && !Captured(env0.Keys, nodes, |nodes|, output)
    ensures Lookup(RunTrace(ops, env0, nodes, |nodes|), output)
         == Lookup(RunTrace(ops, env0, Renamed(env0.Keys, nodes), |nodes|), Bind(Latest(env0.Keys, nodes, |nodes|), output))
  {
    RenamingPreservesReads(ops, env0, nodes, |nodes|);
    hide Mirrors, Latest, Emitted, Renamed;
    MirrorsRead(env0, RunTrace(ops, env0, nodes, |nodes|), RunTrace(ops, env0, Renamed(env0.Keys, nodes), |nodes|),
                Latest(env0.Keys, nodes, |nodes|), Emitted(nodes, |nodes|), |nodes|, output);
  }

  /** With no read captured, a declared output is kept, for all operators and values, exactly when it is not captured itself. */
  lemma OutputExact(names: set<string>, nodes: seq<TraceNode>, output: string)
    requires NoCapture(names, nodes, |nodes|)
    ensures
      (forall ops: Ops, env0: Env | env0.Keys == names ::
         Lookup(RunTrace(ops, env0, nodes, |nodes|), output)
         == Lookup(RunTrace(ops, env0, Renamed(names, nodes), |nodes|), Bind(Latest(names, nodes, |nodes|), output)))
      <==> !Captured(names, nodes, |nodes|, output)
  {
    hide Captured, Renamed, Latest;
    if Captured(names, nodes, |nodes|, output) {
      CaptureShows(names, nodes, |nodes|, output);
      assert Sevens(names).Keys == names;
    } else {
      forall ops: Ops, env0: Env | env0.Keys == names
        ensures Lookup(RunTrace(ops, env0, nodes, |nodes|), output)
             == Lookup(RunTrace(ops, env0, Renamed(names, nodes), |nodes|), Bind(Latest(names, nodes, |nodes|), output))
      {
        RenamingPreservesOutputs(ops, env0, nodes, output);
      }
    }
  }

  /** The renamed trace assigns every name once, and a root only when a root is spelled like that very name. */
  lemma RenamedSingleAssignment(names: set<string>, nodes: seq<TraceNode>, i: nat, k: nat, j: nat, l: nat)
    requires i < |nodes| && j < |nodes| && k < |nodes[i].outs| && l < |nodes[j].outs|
    requires nodes[i].outs[k] != "" && nodes[j].outs[l] != ""
    ensures Renamed(names, nodes)[i].outs[k] in names <==> Fresh(nodes[i].outs[k], i) in names
    ensures Renamed(names, nodes)[i].outs[k] == Renamed(names, nodes)[j].outs[l] <==> i == j && nodes[i].outs[k] == nodes[j].outs[l]
  {
    var x, y := Renamed(names, nodes)[i].outs[k], Renamed(names, nodes)[j].outs[l];
    assert x == Fresh(nodes[i].outs[k], i) && y == Fresh(nodes[j].outs[l], j);
    if x == y {
      FreshInjective(nodes[i].outs[k], i, nodes[j].outs[l], j);
    }
  }

  /** A capture: an input named like a unique name reads from the node that owns the name. */
  lemma PlainNamesNeeded() returns (ops: Ops, env0: Env, nodes: seq<TraceNode>)
    ensures |nodes| == 2 && IsFresh("a__n0") && env0.Keys == {"a__n0"}
    ensures Reads(RunTrace(ops, env0, nodes, 1), nodes[1].ins) == [Some(7)]
    ensures Reads(RunTrace(ops, env0, Renamed(env0.Keys, nodes), 1), Renamed(env0.Keys, nodes)[1].ins) == [Some(1)]
  {
    ops := (op: int, args: seq<Option<Value>>, k: nat) => 1;
    env0 := map["a__n0" := 7];
    nodes := [TraceNode(0, [], ["a"]), TraceNode(0, ["a__n0"], [])];
    assert Fresh("a", 0) == "a__n0";
    var r := Renamed(env0.Keys, nodes);
    var empty := Latest(env0.Keys, nodes, 0);
    assert r[0] == TraceNode(0, [], ["a__n0"]);
    assert RunTrace(ops, env0, nodes, 0) == env0;
    assert Write(ops, env0, 0, [], ["a"], 0) == env0;
    assert RunTrace(ops, env0, nodes, 1) == Write(ops, env0, 0, Reads(env0, []), ["a"], 1) == env0["a" := 1];
    assert RunTrace(ops, env0, r, 0) == env0;
    assert Write(ops, env0, 0, [], ["a__n0"], 0) == env0;
    assert RunTrace(ops, env0, r, 1) == Write(ops, env0, 0, Reads(env0, []), ["a__n0"], 1) == env0["a__n0" := 1];
    assert Produce(empty, ["a"], 0, 0) == empty;
    assert Latest(env0.Keys, nodes, 1) == Produce(empty, ["a"], 0, 1) == empty["a" := "a__n0"];
    assert r[1].ins == ["a__n0"];
  }
}
