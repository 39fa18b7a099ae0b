/**
  A trace on which the search for a rewiring gives up although one would do: a value folded under a trial that
  was undone outlives it, and the later trial is judged by it.
 */
module StaleValues {
  import opened Basics
  import opened TraceReplay
  import opened RepairBindings

  /** Three producers of `t` - a Relu, an Identity of an initializer, a Relu - read by Neg, Neg and an Add. */
  const A: string := "t__n0"
  const B: string := "t__n1"
  const D: string := "t__n2"
  const U: string := "u__n3"
  const O: string := "o__n4"
  const S: string := "s__n5"

  function Negated(v: Tensor): (r: Tensor)
    ensures r.shape == v.shape
  {
    Tensor(v.shape, seq(|v.data|, k requires 0 <= k < |v.data| => 0.0 - v.data[k]))
  }

  function DimAt(s: seq<Dim>, k: nat): Dim
    requires k > 0
  {
    if |s| >= k then s[|s| - k] else Size(1)
  }

  function Joined(a: Dim, b: Dim): Dim {
    if a.Symbol? || b.Symbol? then Symbol("")
    else if a.n == 1 then b
    else if b.n == 1 || a.n > b.n then a
    else b
  }

  /** The sum's shape while one operand's value is unknown: xb's is, for it is a graph input. */
  function Summed(a: Report, b: Report): Report {
    if a.None? || b.None? then None
    else
      var n := if |a.value| >= |b.value| then |a.value| else |b.value|;
      var dims := seq(n, i requires 0 <= i < n => Joined(DimAt(a.value, n - i), DimAt(b.value, n - i)));
      if Symbol("") in dims then None else Some(dims)
  }

  function Operators(n: nat, vals: seq<Option<Tensor>>, shps: seq<Report>): Effect {
    if |vals| == 0 || |shps| == 0 then Infer(None)
    else if n == 1 && vals[0].Some? then Fold(vals[0].value)
    else if (n == 3 || n == 4) && vals[0].Some? then Fold(Negated(vals[0].value))
    else if n == 5 && |shps| == 2 then Infer(Summed(shps[0], shps[1]))
    else Infer(shps[0])
  }

  function Recorded(): Trace {
    Trace([Record("a", false, true, false, ["xa"], A), Record("b", false, true, false, ["w"], B), Record("c", false, true, false, ["xc"], D),
           Record("u", false, true, false, ["t"], U), Record("o", false, true, false, ["u"], O), Record("s", true, true, false, ["o", "xb"], S)],
          map[A := 0, B := 1, D := 2, U := 3, O := 4, S := 5],
          map["t" := [A, B, D], "u" := [U], "o" := [O], "s" := [S]],
          Operators)
  }

  /** The first Neg reads `c`. */
  function Reading(c: string): Edges {
    [["xa"], ["w"], ["xc"], [c], [U], [O, "xb"]]
  }

  function Seed(): Memory {
    Memory(map["w" := Tensor([5], [1.0, 1.0, 1.0, 1.0, 1.0])],
           map["w" := Some([Size(5)]), "xa" := Some([Size(4)]), "xc" := Some([Size(7)]), "xb" := Some([Size(4)])])
  }

  /** Only the first Neg's value is left open. */
  ghost predicate Seeded(m: Memory) {
    && m.Value("w").Some? && m.Value("w").value.shape == [5]
    && m.Shape("xa") == Some([Size(4)]) && m.Shape("xc") == Some([Size(7)]) && m.Shape("xb") == Some([Size(4)])
    && A !in m.val && D !in m.val
    && (m.Value(U).Some? ==> m.Value(U).value.shape == [5])
  }

  lemma FitsHere(c: string)
    requires c in {A, B, D}
    ensures |Reading(c)| == 6 && Recorded().Fits(Reading(c)) && Recorded().Ordered(Reading(c))
  {
  }

  /** The unique names differ in their last letter, and from the roots in length. */
  lemma Names()
    ensures |A| == |B| == |D| == |U| == |O| == |S| == 5
    ensures Sizes([5]) == [Size(5)]
    ensures A[4] == '0' && B[4] == '1' && D[4] == '2' && U[4] == '3' && O[4] == '4' && S[4] == '5'
  {
  }

  lemma Unary(m: Memory, n: nat, x: string)
    requires n < 5
    ensures
      RunRecord(Recorded(), m, n, [x]) ==
      Written(m, Recorded().records[n].out,
              if (n == 1 || n >= 3) && m.Value(x).Some? then Fold(if n == 1 then m.Value(x).value else Negated(m.Value(x).value)) else Infer(m.Shape(x)))
  {
    assert Values(m, [x]) == [m.Value(x)];
    assert Reports(m, [x]) == [m.Shape(x)];
  }

  lemma Binary(m: Memory)
    ensures RunRecord(Recorded(), m, 5, [O, "xb"]) == Written(m, S, Infer(Summed(m.Shape(O), m.Shape("xb"))))
  {
    assert Values(m, [O, "xb"]) == [m.Value(O), m.Value("xb")];
    assert Reports(m, [O, "xb"]) == [m.Shape(O), m.Shape("xb")];
  }

  lemma Unfolded(t: Trace, m: Memory, e: Edges, n: nat)
    requires n < |e|
    ensures ReplayTo(t, m, e, n + 1) == RunRecord(t, ReplayTo(t, m, e, n), n, e[n])
    ensures ReplayTo(t, m, e, 0) == m
  {
  }

  /** The three producers report their shapes, and the middle one its value. */
  lemma Produced(m: Memory, c: string)
    requires Seeded(m) && c in {A, B, D}
    ensures
      var r := ReplayTo(Recorded(), m, Reading(c), 3);
      && Seeded(r) && r.Value(U) == m.Value(U)
      && r.Shape(A) == Some([Size(4)]) && r.Shape(B) == Some([Size(5)]) && r.Shape(D) == Some([Size(7)])
      && r.Value(B).Some? && r.Value(B).value.shape == [5]
  {
    var t, e := Recorded(), Reading(c);
    hide RunRecord, ReplayTo, Summed, Negated;
    Names();
    Unfolded(t, m, e, 0);
    Unary(m, 0, "xa");
    var m1 := ReplayTo(t, m, e, 1);
    Unfolded(t, m, e, 1);
    Unary(m1, 1, "w");
    var m2 := ReplayTo(t, m, e, 2);
    Unfolded(t, m, e, 2);
    Unary(m2, 2, "xc");
  }

  lemma FirstNeg(m: Memory, c: string)
    requires Seeded(m) && c in {A, B, D}
    ensures
      var r := ReplayTo(Recorded(), m, Reading(c), 4);
      && Seeded(r) && (r.Value(U).Some? <==> c == B || m.Value(U).Some?)
      && r.Shape(U) == Some([Size(if c == B then 5 else if c == A then 4 else 7)])
  {
    hide RunRecord, ReplayTo, Summed, Negated;
    Names();
    Produced(m, c);
    Unfolded(Recorded(), m, Reading(c), 3);
    Unary(ReplayTo(Recorded(), m, Reading(c), 3), 3, c);
  }

  /** What the last operand reports: five elements once the first Neg has a value, whatever it now reads. */
  lemma Reported(m: Memory, c: string)
    requires Seeded(m) && c in {A, B, D}
    ensures
      var r, stuck := Replay(Recorded(), m, Reading(c)), c == B || m.Value(U).Some?;
      && Seeded(r) && (r.Value(U).Some? <==> stuck)
      && r.Shape(O) == Some([Size(if stuck then 5 else if c == A then 4 else 7)])
  {
    var t, e := Recorded(), Reading(c);
    hide RunRecord, ReplayTo, Summed, Negated;
    Names();
    FirstNeg(m, c);
    var m4 := ReplayTo(t, m, e, 4);
    Unfolded(t, m, e, 4);
    Unary(m4, 4, U);
    var m5 := ReplayTo(t, m, e, 5);
    Unfolded(t, m, e, 5);
    Binary(m5);
    assert Replay(t, m, e) == ReplayTo(t, m, e, 6);
  }

  // ---- the search on it --------------------------------------------------------------------

  lemma Alone(n: nat, out: string)
    requires (n == 5 && out == O) || (n == 4 && out == U)
    ensures Candidates(Recorded(), n, 0, out) == []
  {
    hide Others;
    Names();
    OneOther(Recorded(), [], out, out, n);
    assert [] + [out] == [out];
  }

  lemma OtherProducers()
    ensures Candidates(Recorded(), 3, 0, D) == [B, A]
  {
    hide Others, Reversed;
    var t := Recorded();
    Names();
    OneOther(t, [], A, D, 3);
    OneOther(t, [A], B, D, 3);
    OneOther(t, [A, B], D, D, 3);
    assert [] + [A] == [A] && [A] + [B] == [A, B] && [A, B] + [D] == [A, B, D];
    assert Others(t, [A, B, D], D, 3) == [A, B];
    assert Reversed([A, B]) == [B, A];
  }

  lemma CandidatesHere()
    ensures Candidates(Recorded(), 5, 0, O) == [] && Candidates(Recorded(), 5, 1, "xb") == []
    ensures Candidates(Recorded(), 4, 0, U) == [] && Candidates(Recorded(), 2, 0, "xc") == []
    ensures Candidates(Recorded(), 3, 0, D) == [B, A]
  {
    Alone(5, O);
    Alone(4, U);
    OtherProducers();
  }

  lemma TrialsHere()
    ensures Recorded().Fits(Reading(D)) && Recorded().Ordered(Reading(D))
    ensures Trials(Recorded(), Reading(D), 5, 8) == [Trial(3, 0, B), Trial(3, 0, A)]
  {
    hide Candidates, Search, Recorded, Reading;
    FitsHere(D);
    StepHere(5, 0, {});
    StepHere(4, 1, {5});
    StepHere(3, 2, {5, 4});
    StepHere(2, 3, {5, 4, 3});
    assert {} + {5} == {5} && {5} + {4} == {5, 4} && {5, 4} + {3} == {5, 4, 3};
    SearchEnds(Recorded(), Reading(D), 8, {5, 4, 3} + {2});
  }

  /** The search visits the sum, the two Negs and the Relu, one operand each worth climbing. */
  lemma StepHere(n: nat, d: nat, seen: set<nat>)
    requires 2 <= n <= 5 && n !in seen && d <= 8
    ensures |Reading(D)| == 6 && Recorded().Fits(Reading(D))
    ensures Search(Recorded(), Reading(D), 8, [(n, d)], seen) ==
            (if n == 3 then [Trial(3, 0, B), Trial(3, 0, A)] else [])
            + Search(Recorded(), Reading(D), 8, if n == 2 then [] else [(n - 1, d + 1)], seen + {n})
  {
    hide Search, NodeTrials, Climb, Recorded, Candidates;
    FitsHere(D);
    NodeHere(n, d);
    var t, e, queue := Recorded(), Reading(D), [(n, d)];
    assert forall q | q in queue :: q.0 < |e|;
    SearchStep(t, e, 8, queue, seen);
    assert queue[1..] + Climb(t, e, n, 0, d) == Climb(t, e, n, 0, d);
  }

  lemma OperandHere(n: nat, pos: nat, d: nat)
    requires 2 <= n <= 5 && pos <= n / 5
    ensures Recorded().Fits(Reading(D)) && |Reading(D)[n]| == 1 + n / 5
    ensures EdgeTrials(Recorded(), Reading(D), n, pos) == if n == 3 then [Trial(3, 0, B), Trial(3, 0, A)] else []
    ensures Climbs(Recorded(), Reading(D)[n][pos]) <==> n > 2 && pos == 0
    ensures n > 2 && pos == 0 ==> Recorded().recByOut[Reading(D)[n][pos]] == n - 1
  {
    hide Candidates;
    Names();
    FitsHere(D);
    CandidatesHere();
  }

  lemma NodeHere(n: nat, d: nat)
    requires 2 <= n <= 5
    ensures Recorded().Fits(Reading(D))
    ensures NodeTrials(Recorded(), Reading(D), n, 0) == if n == 3 then [Trial(3, 0, B), Trial(3, 0, A)] else []
    ensures Climb(Recorded(), Reading(D), n, 0, d) == if n == 2 then [] else [(n - 1, d + 1)]
  {
    hide EdgeTrials, NodeTrials, Climb, Climbs, Recorded, Reading;
    var t, e := Recorded(), Reading(D);
    FitsHere(D);
    OperandHere(n, 0, d);
    NextOperand(t, e, n, 0, d);
    if n == 5 {
      OperandHere(n, 1, d);
      NextOperand(t, e, n, 1, d);
    }
    NoOperandLeft(t, e, n, d);
  }

  // ---- giving up too soon --------------------------------------------------------------------

  /** The memory a round's first replay leaves: nothing has been tried, and the sum clashes. */
  function Entry(): Memory {
    Replay(Recorded(), Seed(), Reading(D))
  }

  lemma EntryClashes()
    ensures Recorded().Fits(Reading(D)) && Recorded().Ordered(Reading(D)) && Seeded(Entry()) && Entry().Value(U).None?
    ensures FirstClash(Recorded(), Entry(), Reading(D), {}, 5)
    ensures Entry().Shape(O) == Some([Size(7)])
  {
    hide Replay;
    FitsHere(D);
    Names();
    Reported(Seed(), D);
    Operands(Entry(), D, 7);
  }

  lemma OneSize(n: nat)
    ensures Concrete(Some([Size(n)])) == Some([n])
  {
    var dims := [Size(n)];
    assert dims[..0] == [];
    assert AllSizes(dims[..0]) == Some([]);
    assert [] + [n] == [n];
  }

  lemma NoOperands(m: Memory)
    ensures OperandShapes(m, []) == Some([])
  {
  }

  lemma OneMore(m: Memory, ins: seq<string>, u: string, n: nat)
    requires u != "" && m.Shape(u) == Some([Size(n)]) && OperandShapes(m, ins).Some?
    ensures OperandShapes(m, ins + [u]) == Some(OperandShapes(m, ins).value + [[n]])
  {
    OneSize(n);
    assert (ins + [u])[..|ins|] == ins;
  }

  /** The sum's operands, of `n` and four elements, broadcast only when `n` is four. */
  lemma Operands(m: Memory, c: string, n: nat)
    requires Seeded(m) && m.Shape(O) == Some([Size(n)]) && n > 1
    ensures Settled(m, Reading(c), 5) <==> n == 4
    ensures Clashes(Recorded(), m, Reading(c), 5) <==> n != 4
  {
    hide OperandShapes;
    Names();
    NoOperands(m);
    assert [] + [O] == [O] && [O] + ["xb"] == [O, "xb"];
    OneMore(m, [], O, n);
    OneMore(m, [O], "xb", 4);
    var shapes: seq<Shape> := [[n], [4]];
    assert [] + [[n]] == [[n]] && [[n]] + [[4]] == shapes;
    assert OperandShapes(m, [O, "xb"]) == Some(shapes);
    if n != 4 {
      assert !Agree(shapes[0], shapes[1], 1);
    }
  }

  /**
    The search from that memory tries the Identity and then the Relu next to it, finds both wanting and gives
    up; yet from the same memory the Relu alone settles the clash.  Replayed, the first edges now report five
    elements where they reported seven, and the two trials are not undisturbed.
   */
  lemma GivesUpTooSoon(k: nat, after: Edges, memory: Memory)
    requires Stops(Recorded(), Entry(), Reading(D), 5, 8, k, after, memory)
    ensures k == |Trials(Recorded(), Reading(D), 5, 8)| == 2 && after == Reading(D)
    ensures !Hopeless(Recorded(), Entry(), Reading(D), 5, 8)
    ensures Entry().Shape(O) == Some([Size(7)]) && memory.Shape(O) == Some([Size(5)])
    ensures !Undisturbed(Recorded(), Entry(), Reading(D), 5, 8)
  {
    hide Replay, Trials, Entry, Undisturbed, Settled, Recorded, Reachable, May, Candidates;
    var t, e, m := Recorded(), Reading(D), Entry();
    EntryClashes();
    TrialsHere();
    var run := SearchRun(t, e, 5, 8);
    assert e[3][0 := B] == [B] && e[3][0 := A] == [A];
    assert run[0] == Rewired(e, 3, 0, B) == Reading(B);
    assert run[1] == Rewired(e, 3, 0, A) == Reading(A);
    assert run[2] == e;
    var m1 := Replay(t, m, Reading(B));
    var m2 := Replay(t, m1, Reading(A));
    var m3 := Replay(t, m2, e);
    Reported(m, B);
    Operands(m1, B, 5);
    Reported(m1, A);
    Operands(m2, A, 5);
    Reported(m2, D);
    assert Carried(t, m, run, 1) == m1 && Carried(t, m, run, 2) == m2 && Carried(t, m, run, 3) == m3;
    assert !Passes(t, m, e, 5, 8, 0) && !Passes(t, m, e, 5, 8, 1);
    Reported(m, A);
    Operands(Replay(t, m, Reading(A)), A, 4);
    TrialsExact(t, e, 5, 8, Trial(3, 0, A));
    assert Settles(t, m, e, 5, 3, 0, A);
    if Undisturbed(t, m, e, 5, 8) {
      UndisturbedStops(t, m, e, 5, 8, k, after, memory);
    }
  }
}
