/**
  Dead-node elimination by a backward worklist from the declared graph outputs.
 */
module PruneDead {
  import opened Basics
  import opened SsaRename

  // ---- which nodes are live ---------------------------------------------------------

  predicate Produces(node: TraceNode, name: string) {
    name != "" && name in node.outs
  }

  /** The last node that produces `name`, or -1. */
  function ProducerOf(nodes: seq<TraceNode>, name: string): (i: int)
    ensures -1 <= i < |nodes|
    ensures i >= 0 ==> Produces(nodes[i], name)
    ensures forall j | i < j < |nodes| :: !Produces(nodes[j], name)
  {
    if nodes == [] then -1
    else if Produces(nodes[|nodes| - 1], name) then |nodes| - 1
    else
      var i := ProducerOf(nodes[..|nodes| - 1], name);
      assert forall j | 0 <= j < |nodes| - 1 :: nodes[..|nodes| - 1][j] == nodes[j];
      i
  }

  /** Node `i` produces one of `names`. */
  ghost predicate Serves(nodes: seq<TraceNode>, names: seq<string>, i: nat) {
    exists k :: 0 <= k < |names| && ProducerOf(nodes, names[k]) == i
  }

  /** A backward path from a declared output: each node serves the one before. */
  ghost predicate LivePath(nodes: seq<TraceNode>, outputs: seq<string>, path: seq<nat>) {
    && path != [] && path[|path| - 1] < |nodes|
    && if |path| == 1 then Serves(nodes, outputs, path[0])
       else var rest := path[..|path| - 1];
            LivePath(nodes, outputs, rest) && Serves(nodes, nodes[rest[|rest| - 1]].ins, path[|path| - 1])
  }

  ghost predicate Live(nodes: seq<TraceNode>, outputs: seq<string>, i: nat) {
    exists path :: LivePath(nodes, outputs, path) && path[|path| - 1] == i
  }

  lemma ServingOutputIsLive(nodes: seq<TraceNode>, outputs: seq<string>, i: nat)
    requires i < |nodes| && Serves(nodes, outputs, i)
    ensures Live(nodes, outputs, i)
  {
    assert LivePath(nodes, outputs, [i]);
  }

  lemma ServingLiveIsLive(nodes: seq<TraceNode>, outputs: seq<string>, j: nat, i: nat)
    requires j < |nodes| && i < |nodes| && Live(nodes, outputs, j) && Serves(nodes, nodes[j].ins, i)
    ensures Live(nodes, outputs, i)
  {
    var path :| LivePath(nodes, outputs, path) && path[|path| - 1] == j;
    assert (path + [i])[..|path|] == path;
    assert LivePath(nodes, outputs, path + [i]);
  }

  /** The producer of `name`, if there is one, is kept. */
  ghost predicate Supplied(nodes: seq<TraceNode>, keep: set<nat>, name: string) {
    var i := ProducerOf(nodes, name);
    i >= 0 ==> i as nat in keep
  }

  /** Kept nodes are closed under producers of what they read and of the declared outputs. */
  ghost predicate Closed(nodes: seq<TraceNode>, outputs: seq<string>, keep: set<nat>) {
    && (forall i | i in keep :: i < |nodes|)
    && (forall name | name in outputs :: Supplied(nodes, keep, name))
    && (forall j, name | j in keep && name in nodes[j].ins :: Supplied(nodes, keep, name))
  }

  lemma {:induction false} LivePathKept(nodes: seq<TraceNode>, outputs: seq<string>, keep: set<nat>, path: seq<nat>)
    requires Closed(nodes, outputs, keep) && LivePath(nodes, outputs, path)
    ensures path[|path| - 1] in keep
    decreases |path|
  {
    var i := path[|path| - 1];
    if |path| == 1 {
      var k :| 0 <= k < |outputs| && ProducerOf(nodes, outputs[k]) == i;
      assert Supplied(nodes, keep, outputs[k]);
    } else {
      var rest := path[..|path| - 1];
      LivePathKept(nodes, outputs, keep, rest);
      var j := rest[|rest| - 1];
      var k :| 0 <= k < |nodes[j].ins| && ProducerOf(nodes, nodes[j].ins[k]) == i;
      assert Supplied(nodes, keep, nodes[j].ins[k]);
    }
  }

  // ---- the worklist --------------------------------------------------------------------

  ghost predicate Tabulated(nodes: seq<TraceNode>, byOut: map<string, nat>) {
    forall name :: if name in byOut then ProducerOf(nodes, name) == byOut[name] else ProducerOf(nodes, name) == -1
  }

  /** One node's outputs override the producers before it. */
  ghost predicate Overrides(after: map<string, nat>, before: map<string, nat>, outs: seq<string>, i: nat) {
    && (forall name :: name in after <==> name in before || (name != "" && name in outs))
    && (forall name | name in after :: after[name] == if name != "" && name in outs then i else before[name])
  }

  method TabulateNode(before: map<string, nat>, outs: seq<string>, i: nat) returns (byOut: map<string, nat>)
    ensures Overrides(byOut, before, outs, i)
  {
    byOut := before;
    var k := 0;
    while k < |outs|
      invariant 0 <= k <= |outs|
      invariant Overrides(byOut, before, outs[..k], i)
    {
      var o := outs[k];
      assert outs[..k + 1] == outs[..k] + [o];
      if o != "" {
        byOut := byOut[o := i];
      }
      k := k + 1;
    }
    assert outs[..k] == outs;
  }

  lemma OneMoreNode(nodes: seq<TraceNode>, i: nat, before: map<string, nat>, after: map<string, nat>)
    requires i < |nodes| && Tabulated(nodes[..i], before) && Overrides(after, before, nodes[i].outs, i)
    ensures Tabulated(nodes[..i + 1], after)
  {
    assert nodes[..i + 1][..i] == nodes[..i];
  }

  method TabulateProducers(nodes: seq<TraceNode>) returns (byOut: map<string, nat>)
    ensures Tabulated(nodes, byOut)
  {
    byOut := map[];
    assert Tabulated(nodes[..0], byOut);
    hide Tabulated, Overrides;
    var i := 0;
    while i < |nodes|
      invariant 0 <= i <= |nodes|
      invariant Tabulated(nodes[..i], byOut)
    {
      ghost var before := byOut;
      byOut := TabulateNode(byOut, nodes[i].outs, i);
      OneMoreNode(nodes, i, before, byOut);
      i := i + 1;
    }
    assert nodes[..i] == nodes;
  }

  /** Names whose producer is kept, or that are still to be visited. */
  ghost predicate Frontier(nodes: seq<TraceNode>, outputs: seq<string>, keep: set<nat>, stack: seq<string>) {
    && (forall i | i in keep :: i < |nodes| && Live(nodes, outputs, i))
    && (forall name | name in stack :: Wanted(nodes, outputs, keep, name))
    && (forall name | name in outputs :: name in stack || Supplied(nodes, keep, name))
    && (forall j, name | j in keep && name in nodes[j].ins :: name in stack || Supplied(nodes, keep, name))
  }

  /** A declared output, or something a kept node reads. */
  ghost predicate Wanted(nodes: seq<TraceNode>, outputs: seq<string>, keep: set<nat>, name: string) {
    name in outputs || exists j :: j in keep && j < |nodes| && name in nodes[j].ins
  }

  lemma WantedProducerIsLive(nodes: seq<TraceNode>, outputs: seq<string>, keep: set<nat>, name: string)
    requires Wanted(nodes, outputs, keep, name) && ProducerOf(nodes, name) >= 0
    requires forall i | i in keep :: i < |nodes| && Live(nodes, outputs, i)
    ensures Live(nodes, outputs, ProducerOf(nodes, name))
  {
    hide Live, LivePath;
    var i := ProducerOf(nodes, name);
    if name in outputs {
      var k :| 0 <= k < |outputs| && outputs[k] == name;
      assert ProducerOf(nodes, outputs[k]) == i;
      ServingOutputIsLive(nodes, outputs, i);
    } else {
      var j :| j in keep && j < |nodes| && name in nodes[j].ins;
      var k :| 0 <= k < |nodes[j].ins| && nodes[j].ins[k] == name;
      assert ProducerOf(nodes, nodes[j].ins[k]) == i;
      ServingLiveIsLive(nodes, outputs, j, i);
    }
  }

  /** Visiting a name moves its producer into the kept set and that node's inputs onto the stack. */
  lemma VisitKeepsFrontier(nodes: seq<TraceNode>, outputs: seq<string>, keep: set<nat>, rest: seq<string>, name: string, inputs: seq<string>)
    requires Frontier(nodes, outputs, keep, rest + [name]) && ProducerOf(nodes, name) >= 0
    requires forall s | s in nodes[ProducerOf(nodes, name)].ins && s != "" :: s in inputs
    requires forall s | s in inputs :: s in nodes[ProducerOf(nodes, name)].ins
    ensures Frontier(nodes, outputs, keep + {ProducerOf(nodes, name)}, rest + inputs)
  {
    hide Live, Wanted, Supplied;
    var i := ProducerOf(nodes, name);
    assert name in rest + [name];
    WantedProducerIsLive(nodes, outputs, keep, name);
    forall s | s in rest + inputs
      ensures Wanted(nodes, outputs, keep + {i}, s)
    {
      VisitWants(nodes, outputs, keep, rest, name, i, inputs, s);
    }
    forall s | s in outputs
      ensures s in rest + inputs || Supplied(nodes, keep + {i}, s)
    {
      VisitSupplies(nodes, keep, rest, name, i, inputs, s);
    }
    forall j, s | j in keep + {i} && s in nodes[j].ins
      ensures s in rest + inputs || Supplied(nodes, keep + {i}, s)
    {
      if j in keep {
        VisitSupplies(nodes, keep, rest, name, i, inputs, s);
      } else if s == "" {
        NothingProducesEmpty(nodes, keep + {i});
      }
    }
  }

  lemma VisitWants(nodes: seq<TraceNode>, outputs: seq<string>, keep: set<nat>, rest: seq<string>, name: string, i: nat, inputs: seq<string>, s: string)
    requires i < |nodes| && s in rest + inputs && (forall t | t in inputs :: t in nodes[i].ins)
    requires forall t | t in rest + [name] :: Wanted(nodes, outputs, keep, t)
    ensures Wanted(nodes, outputs, keep + {i}, s)
  {
    if s in rest {
      assert s in rest + [name];
    } else {
      assert i in keep + {i};
    }
  }

  lemma VisitSupplies(nodes: seq<TraceNode>, keep: set<nat>, rest: seq<string>, name: string, i: nat, inputs: seq<string>, s: string)
    requires ProducerOf(nodes, name) == i && (s in rest + [name] || Supplied(nodes, keep, s))
    ensures s in rest + inputs || Supplied(nodes, keep + {i}, s)
  {
    assert s in rest + [name] ==> s in rest || s == name;
  }

  lemma NothingProducesEmpty(nodes: seq<TraceNode>, keep: set<nat>)
    ensures Supplied(nodes, keep, "")
  {
    assert ProducerOf(nodes, "") == -1;
  }

  lemma SkipKeepsFrontier(nodes: seq<TraceNode>, outputs: seq<string>, keep: set<nat>, rest: seq<string>, name: string)
    requires Frontier(nodes, outputs, keep, rest + [name]) && Supplied(nodes, keep, name)
    ensures Frontier(nodes, outputs, keep, rest)
  {
    hide Live;
    assert forall s | s in rest :: s in rest + [name];
    assert forall s | s in rest + [name] :: s in rest || s == name;
  }

  method MarkLive(nodes: seq<TraceNode>, outputs: seq<string>) returns (keep: set<nat>)
    ensures Closed(nodes, outputs, keep)
    ensures forall i | i in keep :: Live(nodes, outputs, i)
  {
    hide Live;
    var byOut := TabulateProducers(nodes);
    keep := {};
    var stack := outputs;
    while stack != []
      invariant Frontier(nodes, outputs, keep, stack)
      decreases Below(|nodes|) - keep, |stack|
    {
      var name, rest := stack[|stack| - 1], stack[..|stack| - 1];
      assert stack == rest + [name];
      if name !in byOut || byOut[name] in keep {
        SkipKeepsFrontier(nodes, outputs, keep, rest, name);
        stack := rest;
      } else {
        var i := byOut[name];
        var inputs := NonEmpty(nodes[i].ins);
        VisitKeepsFrontier(nodes, outputs, keep, rest, name, inputs);
        assert i in Below(|nodes|) - keep;
        keep, stack := keep + {i}, rest + inputs;
      }
    }
  }

  method NonEmpty(ins: seq<string>) returns (inputs: seq<string>)
    ensures forall s | s in ins && s != "" :: s in inputs
    ensures forall s | s in inputs :: s in ins
  {
    inputs := [];
    var k := 0;
    while k < |ins|
      invariant 0 <= k <= |ins|
      invariant forall s | s in ins[..k] && s != "" :: s in inputs
      invariant forall s | s in inputs :: s in ins
    {
      if ins[k] != "" {
        inputs := inputs + [ins[k]];
      }
      k := k + 1;
    }
    assert ins[..k] == ins;
  }

  /** The kept nodes of the first `n`, in order. */
  function Kept(nodes: seq<TraceNode>, keep: set<nat>, n: nat): seq<TraceNode>
    requires n <= |nodes|
  {
    if n == 0 then [] else Kept(nodes, keep, n - 1) + if n - 1 in keep then [nodes[n - 1]] else []
  }

  /** A closed set of live nodes is the set of all live nodes. */
  lemma ClosedLiveIsAll(nodes: seq<TraceNode>, outputs: seq<string>, keep: set<nat>, i: nat)
    requires Closed(nodes, outputs, keep) && Live(nodes, outputs, i)
    ensures i in keep
  {
    var path :| LivePath(nodes, outputs, path) && path[|path| - 1] == i;
    LivePathKept(nodes, outputs, keep, path);
  }

  /** The live nodes of the first `n`, in order. */
  ghost function LiveNodes(nodes: seq<TraceNode>, outputs: seq<string>, n: nat): seq<TraceNode>
    requires n <= |nodes|
  {
    if n == 0 then [] else LiveNodes(nodes, outputs, n - 1) + if Live(nodes, outputs, n - 1) then [nodes[n - 1]] else []
  }

  /** Keeps exactly the live nodes, in order. */
  method Prune(nodes: seq<TraceNode>, outputs: seq<string>) returns (kept: seq<TraceNode>, ghost keep: set<nat>)
    ensures kept == LiveNodes(nodes, outputs, |nodes|)
    ensures Closed(nodes, outputs, keep) && kept == Kept(nodes, keep, |nodes|)
    ensures forall i: nat :: i in keep <==> Live(nodes, outputs, i)
  {
    hide Closed, Live;
    var marked := MarkLive(nodes, outputs);
    keep := marked;
    forall i: nat | Live(nodes, outputs, i)
      ensures i in keep
    {
      ClosedLiveIsAll(nodes, outputs, keep, i);
    }
    kept := [];
    var n := 0;
    while n < |nodes|
      invariant 0 <= n <= |nodes|
      invariant kept == Kept(nodes, keep, n) == LiveNodes(nodes, outputs, n)
    {
      if n in marked {
        kept := kept + [nodes[n]];
      }
      n := n + 1;
    }
  }

  // ---- meaning ------------------------------------------------------------------------------

  /** No name is produced by two nodes: the trace is in SSA form. */
  ghost predicate SingleProducer(nodes: seq<TraceNode>) {
    forall i, name | 0 <= i < |nodes| && Produces(nodes[i], name) :: ProducerOf(nodes, name) == i
  }

  lemma {:induction false} RunPrefix(ops: Ops, env: Env, a: seq<TraceNode>, b: seq<TraceNode>, n: nat)
    requires n <= |a|
    ensures RunTrace(ops, env, a + b, n) == RunTrace(ops, env, a, n)
    decreases n
  {
    if n > 0 {
      RunPrefix(ops, env, a, b, n - 1);
      assert (a + b)[n - 1] == a[n - 1];
    }
  }

  lemma {:induction false} WriteLookup(ops: Ops, env: Env, env': Env, op: int, args: seq<Option<Value>>, outs: seq<string>, n: nat, name: string)
    requires n <= |outs| && Lookup(env, name) == Lookup(env', name)
    ensures Lookup(Write(ops, env, op, args, outs, n), name) == Lookup(Write(ops, env', op, args, outs, n), name)
    decreases n
  {
    if n > 0 {
      WriteLookup(ops, env, env', op, args, outs, n - 1, name);
    }
  }

  lemma {:induction false} WriteElsewhere(ops: Ops, env: Env, op: int, args: seq<Option<Value>>, outs: seq<string>, n: nat, name: string)
    requires n <= |outs| && (name == "" || name !in outs)
    ensures Lookup(Write(ops, env, op, args, outs, n), name) == Lookup(env, name)
    decreases n
  {
    if n > 0 {
      WriteElsewhere(ops, env, op, args, outs, n - 1, name);
    }
  }

  /** Pruning preserves meaning: at every point every wanted name has the value the full trace gives it. */
  lemma {:induction false} PruningPreserves(ops: Ops, env: Env, nodes: seq<TraceNode>, outputs: seq<string>, keep: set<nat>, n: nat, name: string)
    requires SingleProducer(nodes) && Closed(nodes, outputs, keep) && n <= |nodes| && Wanted(nodes, outputs, keep, name)
    ensures Lookup(RunTrace(ops, env, nodes, n), name)
         == Lookup(RunTrace(ops, env, Kept(nodes, keep, n), |Kept(nodes, keep, n)|), name)
    decreases n
  {
    if n > 0 {
      var i := n - 1;
      hide Lookup, Write;
      PruningPreserves(ops, env, nodes, outputs, keep, i, name);
      if i in keep {
        forall k | 0 <= k < |nodes[i].ins|
          ensures Lookup(RunTrace(ops, env, nodes, i), nodes[i].ins[k])
               == Lookup(RunTrace(ops, env, Kept(nodes, keep, i), |Kept(nodes, keep, i)|), nodes[i].ins[k])
        {
          assert nodes[i].ins[k] in nodes[i].ins;
          PruningPreserves(ops, env, nodes, outputs, keep, i, nodes[i].ins[k]);
        }
        assert Reads(RunTrace(ops, env, nodes, i), nodes[i].ins) == Reads(RunTrace(ops, env, Kept(nodes, keep, i), |Kept(nodes, keep, i)|), nodes[i].ins);
        KeptNode(ops, env, nodes, keep, i, name);
      } else {
        assert !Produces(nodes[i], name) by {
          assert Supplied(nodes, keep, name);
        }
        var full := RunTrace(ops, env, nodes, i);
        WriteElsewhere(ops, full, nodes[i].op, Reads(full, nodes[i].ins), nodes[i].outs, |nodes[i].outs|, name);
        assert Kept(nodes, keep, n) == Kept(nodes, keep, i);
      }
    }
  }

  /** A kept node that reads the same values writes the same values. */
  lemma KeptNode(ops: Ops, env: Env, nodes: seq<TraceNode>, keep: set<nat>, i: nat, name: string)
    requires i < |nodes| && i in keep
    requires Reads(RunTrace(ops, env, nodes, i), nodes[i].ins) == Reads(RunTrace(ops, env, Kept(nodes, keep, i), |Kept(nodes, keep, i)|), nodes[i].ins)
    requires Lookup(RunTrace(ops, env, nodes, i), name) == Lookup(RunTrace(ops, env, Kept(nodes, keep, i), |Kept(nodes, keep, i)|), name)
    ensures Lookup(RunTrace(ops, env, nodes, i + 1), name)
         == Lookup(RunTrace(ops, env, Kept(nodes, keep, i + 1), |Kept(nodes, keep, i + 1)|), name)
  {
    var kept, node := Kept(nodes, keep, i), nodes[i];
    var full, part := RunTrace(ops, env, nodes, i), RunTrace(ops, env, kept, |kept|);
    hide Lookup, Write;
    RunPrefix(ops, env, kept, [node], |kept|);
    WriteLookup(ops, full, part, node.op, Reads(full, node.ins), node.outs, |node.outs|, name);
  }

  /** In particular every declared output keeps its value. */
  lemma PrunedOutputs(ops: Ops, env: Env, nodes: seq<TraceNode>, outputs: seq<string>, keep: set<nat>, output: string)
    requires SingleProducer(nodes) && Closed(nodes, outputs, keep) && output in outputs
    ensures Lookup(RunTrace(ops, env, nodes, |nodes|), output)
         == Lookup(RunTrace(ops, env, Kept(nodes, keep, |nodes|), |Kept(nodes, keep, |nodes|)|), output)
  {
    PruningPreserves(ops, env, nodes, outputs, keep, |nodes|, output);
  }

  /** A renamed trace has one producer per name. */
  lemma RenamedSingleProducer(names: set<string>, nodes: seq<TraceNode>)
    ensures SingleProducer(Renamed(names, nodes))
  {
    var r := Renamed(names, nodes);
    forall i, name | 0 <= i < |r| && Produces(r[i], name)
      ensures ProducerOf(r, name) == i
    {
      var j := ProducerOf(r, name);
      var k :| 0 <= k < |r[i].outs| && r[i].outs[k] == name;
      var l :| 0 <= l < |r[j].outs| && r[j].outs[l] == name;
      assert name == Fresh(nodes[i].outs[k], i) == Fresh(nodes[j].outs[l], j);
      FreshInjective(nodes[i].outs[k], i, nodes[j].outs[l], j);
    }
  }

  /** The recorded trace, renamed and pruned, still computes every declared output. */
  lemma RenamedAndPrunedOutputs(ops: Ops, env0: Env, nodes: seq<TraceNode>, declared: seq<string>, keep: set<nat>, output: string)
    requires NoCapture(env0.Keys, nodes, |nodes|) && output in declared && !Captured(env0.Keys, nodes, |nodes|, output)
    requires Closed(Renamed(env0.Keys, nodes), BindAll(Latest(env0.Keys, nodes, |nodes|), declared), keep)
    ensures Lookup(RunTrace(ops, env0, nodes, |nodes|), output)
         == Lookup(RunTrace(ops, env0, Kept(Renamed(env0.Keys, nodes), keep, |nodes|), |Kept(Renamed(env0.Keys, nodes), keep, |nodes|)|),
                   Bind(Latest(env0.Keys, nodes, |nodes|), output))
  {
    var latest := Latest(env0.Keys, nodes, |nodes|);
    RenamingPreservesOutputs(ops, env0, nodes, output);
    RenamedSingleProducer(env0.Keys, nodes);
    var k :| 0 <= k < |declared| && declared[k] == output;
    assert BindAll(latest, declared)[k] == Bind(latest, output);
    hide *;
    PrunedOutputs(ops, env0, Renamed(env0.Keys, nodes), BindAll(latest, declared), keep, Bind(latest, output));
  }
}
