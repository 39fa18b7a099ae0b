/**
  The re-seed protocol as a machine over the two copies of the cache: which contents a run
  reaches, and exactly where a dropped re-seed, a link failure or a failed run loses the
  conversation.
 */
module Reseeding {
  import opened DecoderModel
  import opened IoLink
  import opened GraphPass
  import opened Engine
  import opened Draft
  import opened ChatConfig
  import opened ChatSteps
  import opened ChatStream
  import opened ChatTranscript
  import opened ChatGuard

  // ---- runs ------------------------------------------------------------------------

  /** A batched pass on the host copy, a linked step, a conversation reset (the app only). */
  datatype Move = Window(toks: seq<Token>) | Decode(tok: Token) | Reset

  datatype Point = Point(hist: seq<Token>, v: Copies)

  function Blank(n: nat): (rows: seq<Row>)
    ensures |rows| == n && forall k | 0 <= k < n :: rows[k] == Row([])
  {
    seq(n, _ => Row([]))
  }

  /** The driver's start: everything zero, links up, nothing owed. */
  function Start(C: nat, R: nat): Point {
    Point([], Copies(Blank(C), Resident(Blank(C), Blank(R)), true, false, false, true))
  }

  predicate Shaped(pt: Point, C: nat, R: nat) {
    C > 0 && R > 0 && |pt.v.host| == C && |pt.v.dec.past| == C && |pt.v.dec.present| == R
  }

  /** The output of a linked step on these copies. */
  function StepOut(m: Model, C: nat, pt: Point, tok: Token): Out
    requires Sized(pt.v, C) && Armable(pt.v.dec, StepArm(pt.v, |pt.hist|, C))
  {
    m.forward(Base(pt.v.dec, StepBinding(pt.v), StepArm(pt.v, |pt.hist|, C))[..Min(|pt.hist|, C)], |pt.hist|, tok)
  }

  /** What a batched pass binds: a dirty resident copy comes home first. */
  function HostRows(pt: Point, C: nat, R: nat): (rows: seq<Row>)
    requires Shaped(pt, C, R)
    ensures |rows| == C
  {
    if pt.v.dirty then Materialized(pt.v, |pt.hist|, C) else pt.v.host
  }

  /** One move; a batched pass that would cross `edge` is not made. */
  function Next(m: Model, C: nat, edge: nat, R: nat, pt: Point, mv: Move): (after: Point)
    requires Shaped(pt, C, R) && edge <= C
    ensures Shaped(after, C, R)
  {
    var p := |pt.hist|;
    match mv
    case Window(toks) =>
      if toks == [] || p + |toks| > edge then pt
      else
        var host := HostRows(pt, C, R);
        FeedLength(m, host[..p], toks);
        Point(pt.hist + toks, pt.v.(host := FoldRows(host, Feed(m, host[..p], toks)[p..], 0, p, |toks|), reseed := true, dirty := false))
    case Decode(tok) =>
      var arm := StepArm(pt.v, p, C);
      var out := StepOut(m, C, pt, tok);
      Point(pt.hist + [tok], Copies(pt.v.host, Resident(Base(pt.v.dec, StepBinding(pt.v), arm), Blank(R - 1) + [out.row]), true, true, false, true))
    case Reset => Point([], pt.v.(host := Blank(C), reseed := true, dirty := false))
  }

  lemma {:induction false} FeedLength(m: Model, seen: seq<Row>, toks: seq<Token>)
    ensures |Feed(m, seen, toks)| == |seen| + |toks|
    decreases |toks|
  {
    if toks != [] {
      FeedLength(m, seen + [m.forward(seen, |seen|, toks[0]).row], toks[1..]);
    }
  }

  function After(m: Model, C: nat, edge: nat, R: nat, moves: seq<Move>): (pt: Point)
    requires C > 0 && R > 0 && edge <= C
    ensures Shaped(pt, C, R)
    decreases |moves|
  {
    if moves == [] then Start(C, R)
    else Next(m, C, edge, R, After(m, C, edge, R, moves[..|moves| - 1]), moves[|moves| - 1])
  }

  /** A window's forward through the bucket leaves the rows the move folds, whatever the padding. */
  lemma WindowMove(m: Model, C: nat, host: seq<Row>, p: nat, S: nat, toks: seq<Token>, ids: seq<Token>, pos: seq<nat>, mask: seq<int>)
    requires |host| == C && p + |toks| <= C && IsWindow(p, C, S, toks, ids, pos, mask)
    ensures |Feed(m, host[..p], toks)| == p + |toks|
    ensures Feed(m, host[..p], toks)[p..] == RowsOf(Forward(m, host, ids, pos, mask)[..|toks|])
  {
    WindowFeeds(m, host[..p], host, S, toks, ids, pos, mask);
  }

  /** A step's forward through the bucket computes the move's output. */
  lemma DecodeMove(m: Model, C: nat, R: nat, pt: Point, tok: Token, ids: seq<Token>, pos: seq<nat>, mask: seq<int>)
    requires Shaped(pt, C, R) && IsWindow(|pt.hist|, C, 1, [tok], ids, pos, mask)
    ensures Forward(m, Base(pt.v.dec, StepBinding(pt.v), StepArm(pt.v, |pt.hist|, C)), ids, pos, mask) == [StepOut(m, C, pt, tok)]
  {
    var base := Base(pt.v.dec, StepBinding(pt.v), StepArm(pt.v, |pt.hist|, C));
    AttendedPrefix(base, mask[..C], Min(|pt.hist|, C));
    var cols := WindowColumns(ids, pos, mask[C..]);
    assert cols == [Column(tok, |pt.hist|, true)];
    var seen := base[..Min(|pt.hist|, C)];
    var o := m.forward(seen, |pt.hist|, tok);
    assert Columns(m, seen, cols) == [o] + Columns(m, seen + [o.row], cols[1..]);
  }

  // ---- every run keeps one logical cache -----------------------------------------------

  /** What holds between moves. */
  ghost predicate Tidy(m: Model, C: nat, edge: nat, R: nat, pt: Point) {
    && Shaped(pt, C, R) && pt.v.linked && pt.v.pending && Coherent(m, C, pt.hist, pt.v)
    && (pt.v.reseed ==> |pt.hist| <= edge)
  }

  lemma WindowTidy(m: Model, C: nat, edge: nat, R: nat, pt: Point, toks: seq<Token>)
    requires Tidy(m, C, edge, R, pt) && edge <= C && toks != [] && |pt.hist| + |toks| <= edge
    ensures Tidy(m, C, edge, R, Next(m, C, edge, R, pt, Window(toks)))
  {
    hide Live, Feed, Materialized;
    var p, host := |pt.hist|, HostRows(pt, C, R);
    assert Holds(host, Live(m, C, pt.hist));
    FeedIsLive(m, C, pt.hist, toks);
    FeedLength(m, host[..p], toks);
    var rows := Feed(m, host[..p], toks)[p..];
    LivePrefix(m, C, pt.hist, toks);
    var folded := FoldRows(host, rows, 0, p, |toks|);
    assert folded[..p + |toks|] == host[..p] + rows == Live(m, C, pt.hist + toks);
  }

  lemma DecodeTidy(m: Model, C: nat, edge: nat, R: nat, pt: Point, tok: Token)
    requires Tidy(m, C, edge, R, pt) && edge <= C
    ensures Tidy(m, C, edge, R, Next(m, C, edge, R, pt, Decode(tok)))
    ensures StepOut(m, C, pt, tok) == Last(m, C, pt.hist + [tok])
  {
    hide Live;
    var arm := StepArm(pt.v, |pt.hist|, C);
    StepBaseHolds(m, C, pt.hist, pt.v);
    FeedOne(m, C, pt.hist, tok);
    var base := Base(pt.v.dec, StepBinding(pt.v), arm);
    var present := Blank(R - 1) + [StepOut(m, C, pt, tok).row];
    FoldHoldsStep(m, C, pt.hist, tok, base, present, R - 1);
  }

  lemma {:induction false} AfterTidy(m: Model, C: nat, edge: nat, R: nat, moves: seq<Move>)
    requires C > 0 && R > 0 && edge <= C
    ensures Tidy(m, C, edge, R, After(m, C, edge, R, moves))
    decreases |moves|
  {
    if moves != [] {
      hide Coherent, Next;
      AfterTidy(m, C, edge, R, moves[..|moves| - 1]);
      MoveTidy(m, C, edge, R, After(m, C, edge, R, moves[..|moves| - 1]), moves[|moves| - 1]);
    }
  }

  lemma MoveTidy(m: Model, C: nat, edge: nat, R: nat, pt: Point, mv: Move)
    requires Tidy(m, C, edge, R, pt) && edge <= C
    ensures Tidy(m, C, edge, R, Next(m, C, edge, R, pt, mv))
  {
    match mv
    case Window(toks) =>
      if toks != [] && |pt.hist| + |toks| <= edge {
        hide Coherent;
        WindowTidy(m, C, edge, R, pt, toks);
      }
    case Decode(tok) =>
      hide Coherent;
      DecodeTidy(m, C, edge, R, pt, tok);
    case Reset =>
  }

  // ---- a reachable stale resident copy ---------------------------------------------------

  /** A model whose every row differs from the blank one; its logits tell whether the first row seen is blank. */
  function Marking(): Model {
    Model((seen: seq<Row>, pos: nat, t: Token) =>
            Out(Row([[1]]), if seen != [] && seen[0] == Row([[1]]) then [0.0, 1.0] else [1.0, 0.0]))
  }

  lemma {:induction false} MarkedRows(C: nat, hist: seq<Token>)
    requires C > 0
    ensures forall k | 0 <= k < |Live(Marking(), C, hist)| :: Live(Marking(), C, hist)[k] == Row([[1]])
    decreases |hist|
  {
    if hist != [] {
      var most, t := hist[..|hist| - 1], hist[|hist| - 1];
      MarkedRows(C, most);
      assert hist == most + [t];
      FeedOne(Marking(), C, most, t);
    }
  }

  /** One prompt in one window: the host has the conversation, the resident copy was never written. */
  lemma FirstPrompt(C: nat, edge: nat, R: nat, hist: seq<Token>)
    requires C > 0 && R > 0 && edge <= C && hist != [] && |hist| <= edge
    ensures
      var pt := After(Marking(), C, edge, R, [Window(hist)]);
      && pt.hist == hist && pt.v.reseed && !pt.v.dirty && pt.v.linked && pt.v.pending
      && pt.v.dec == Resident(Blank(C), Blank(R)) && Coherent(Marking(), C, hist, pt.v)
      && !Holds(Materialized(pt.v, |hist|, C), Live(Marking(), C, hist))
  {
    hide Live, Feed;
    AfterTidy(Marking(), C, edge, R, [Window(hist)]);
    assert [Window(hist)][..0] == [];
    assert After(Marking(), C, edge, R, []) == Start(C, R);
    var pt := After(Marking(), C, edge, R, [Window(hist)]);
    assert [] + hist == hist;
    MarkedRows(C, hist);
    assert Materialized(pt.v, |hist|, C)[0] == Row([]);
    assert Materialized(pt.v, |hist|, C)[..|hist|][0] != Live(Marking(), C, hist)[0];
  }

  /** No re-seed is owed, or there is nothing to lose; past the edge none is ever owed. */
  predicate NothingOwed(edge: nat, hist: seq<Token>, reseed: bool) {
    !reseed || hist == [] || |hist| > edge
  }

  /**
    A prompt phase that consumed nothing clears the re-seed flag.  On every run of every model that keeps
    the copies coherent exactly when nothing was owed.
   */
  lemma DroppedReseedExact(C: nat, edge: nat, R: nat, hist: seq<Token>, reseed: bool)
    requires C > 0 && R > 0 && edge <= C
    ensures
      (forall m, moves | Reset !in moves && After(m, C, edge, R, moves).hist == hist && After(m, C, edge, R, moves).v.reseed == reseed ::
         Coherent(m, C, hist, After(m, C, edge, R, moves).v.(reseed := false)))
      <==> NothingOwed(edge, hist, reseed)
  {
    if NothingOwed(edge, hist, reseed) {
      forall m, moves | After(m, C, edge, R, moves).hist == hist && After(m, C, edge, R, moves).v.reseed == reseed
        ensures Coherent(m, C, hist, After(m, C, edge, R, moves).v.(reseed := false))
      {
        AfterTidy(m, C, edge, R, moves);
        var v := After(m, C, edge, R, moves).v;
        assert !reseed ==> v.(reseed := false) == v;
      }
    } else {
      FirstPrompt(C, edge, R, hist);
      var v := After(Marking(), C, edge, R, [Window(hist)]).v;
      assert !Coherent(Marking(), C, hist, v.(reseed := false));
    }
  }

  function Resynced(v: Copies, p: nat, C: nat): Copies
    requires Sized(v, C)
  {
    v.(host := Materialized(v, p, C), linked := false)
  }

  /** A link failure copies the resident copy over the host and drops the links: exact when nothing was owed. */
  lemma ResyncExact(C: nat, edge: nat, R: nat, hist: seq<Token>, reseed: bool)
    requires C > 0 && R > 0 && edge <= C
    ensures
      (forall m, moves | Reset !in moves && After(m, C, edge, R, moves).hist == hist && After(m, C, edge, R, moves).v.reseed == reseed ::
         Coherent(m, C, hist, Resynced(After(m, C, edge, R, moves).v, |hist|, C)))
      <==> NothingOwed(edge, hist, reseed)
  {
    if NothingOwed(edge, hist, reseed) {
      forall m, moves | After(m, C, edge, R, moves).hist == hist && After(m, C, edge, R, moves).v.reseed == reseed
        ensures Coherent(m, C, hist, Resynced(After(m, C, edge, R, moves).v, |hist|, C))
      {
        AfterTidy(m, C, edge, R, moves);
      }
    } else {
      FirstPrompt(C, edge, R, hist);
      var v := After(Marking(), C, edge, R, [Window(hist)]).v;
      assert !Coherent(Marking(), C, hist, Resynced(v, |hist|, C));
    }
  }

  /** A failed linked run: its fold or its binding may have been applied, the flags changed, the present did not. */
  function FailedRun(v: Copies, p: nat, C: nat, touched: bool): Copies
    requires Sized(v, C) && Armable(v.dec, StepArm(v, p, C))
  {
    var dec := if touched then v.dec.(past := Base(v.dec, StepBinding(v), StepArm(v, p, C))) else v.dec;
    Copies(v.host, dec, true, true, false, true)
  }

  /** A failed linked run keeps the conversation, on every run of every model and however it failed, exactly when nothing was owed. */
  lemma FailedRunExact(C: nat, edge: nat, R: nat, hist: seq<Token>, rebind: bool)
    requires C > 0 && R > 0 && edge <= C
    ensures
      (forall m, moves, touched | After(m, C, edge, R, moves).hist == hist && After(m, C, edge, R, moves).v.reseed == rebind ::
         Coherent(m, C, hist, FailedRun(After(m, C, edge, R, moves).v, |hist|, C, touched)))
      <==> NothingOwed(edge, hist, rebind)
  {
    if NothingOwed(edge, hist, rebind) {
      forall m, moves, touched | After(m, C, edge, R, moves).hist == hist && After(m, C, edge, R, moves).v.reseed == rebind
        ensures Coherent(m, C, hist, FailedRun(After(m, C, edge, R, moves).v, |hist|, C, touched))
      {
        AfterTidy(m, C, edge, R, moves);
        var v := After(m, C, edge, R, moves).v;
        FailedRunKeeps(m, C, hist, v, FailedRun(v, |hist|, C, touched).dec);
      }
    } else {
      FirstPrompt(C, edge, R, hist);
      var v := After(Marking(), C, edge, R, [Window(hist)]).v;
      assert !Coherent(Marking(), C, hist, FailedRun(v, |hist|, C, false));
    }
  }

  /** A failed run that owed nothing leaves the logical cache alone: its fold is idempotent. */
  lemma FailedRunKeeps(m: Model, C: nat, hist: seq<Token>, v: Copies, after: Resident)
    requires Sized(v, C) && v.linked && v.pending && Coherent(m, C, hist, v) && (v.reseed ==> hist == [])
    requires |after.past| == C && after.present == v.dec.present
    requires !v.reseed ==> after.past == v.dec.past || after.past == Materialized(v, |hist|, C)
    ensures Coherent(m, C, hist, Copies(v.host, after, true, true, false, true))
  {
    hide Live;
    assert hist == [] ==> Live(m, C, hist) == [];
    FoldTwice(v.dec.past, v.dec.present, |v.dec.present| - 1, KvFoldSlot(|hist|, C), 1);
  }

  /**
    A refused readback may have overwritten the host buffers with anything: no harm, whatever it left
    there, exactly while the resident copy alone is the true one or nothing has been fed.
   */
  lemma RefusedResyncExact(m: Model, C: nat, hist: seq<Token>, v: Copies)
    requires Sized(v, C) && v.linked && Coherent(m, C, hist, v)
    ensures
      (forall torn: seq<Row> | |torn| == C :: Coherent(m, C, hist, v.(host := torn)))
      <==> (v.dirty && !v.reseed) || hist == []
  {
    hide Live;
    var live := Live(m, C, hist);
    if hist != [] && !(v.dirty && !v.reseed) {
      var torn := seq(C, _ => Row(live[0].heads + [[]]));
      assert torn[..|live|][0] != live[0];
      assert !Coherent(m, C, hist, v.(host := torn));
    }
  }

  // ---- a conversation that goes wrong --------------------------------------------------------

  /** A compiled model with a context of two slots, a whole-window bucket of two, and end-of-stream id 0. */
  function Narrow(): Config {
    Config(Marking(), 2, 2, 0, 1, true, false, 1, 2, 2, 0, 0, 0, false, 0, false, 0)
  }

  /**
    A conversation the dropped re-seed changes.  From the empty start, prompt [0] goes through a window
    and its first id is end-of-stream, so the re-seed stays owed; prompt [0, 0] crosses the context edge,
    the flag is cleared, and two linked steps feed it.  The plain loop then prints 1; the driver sees 0,
    its end-of-stream, and prints nothing.
   */
  lemma DroppedReseedChangesId()
    ensures Narrow().Valid() && !KeepsReseeds(Narrow(), false, [], false, [[0], [0, 0]])
    ensures
      var m, pt := Marking(), After(Marking(), 2, 2, 1, [Window([0])]);
      var dropped := Point(pt.hist, pt.v.(reseed := false));
      var fed := Next(m, 2, 2, 1, dropped, Decode(0));
      && Reply(Narrow(), [0]) == [] && pt.hist == [0] && pt.v.reseed
      && fed.hist == [0, 0] && Armable(fed.v.dec, StepArm(fed.v, 2, 2))
      && ArgMax(StepOut(m, 2, fed, 0).logits) == 0 == Narrow().eos
      && Reply(Narrow(), [0, 0, 0]) == [1]
  {
    var m, pt := Marking(), After(Marking(), 2, 2, 1, [Window([0])]);
    MarkedChoice([0]);
    MarkedChoice([0, 0, 0]);
    assert Reply(Narrow(), [0]) == [];
    assert [0, 0, 0] + [1] == [0, 0, 0, 1];
    FirstPrompt(2, 2, 1, [0]);
    var dropped := Point(pt.hist, pt.v.(reseed := false));
    StaleSteps(dropped);
    RunsIntoTheEdge();
  }

  lemma LogitChoices()
    ensures ArgMax([1.0, 0.0]) == 0 && ArgMax([0.0, 1.0]) == 1
  {
    assert IsFirstMax([1.0, 0.0], ArgMax([1.0, 0.0]));
    assert IsFirstMax([0.0, 1.0], ArgMax([0.0, 1.0]));
    assert [1.0, 0.0][0] > [1.0, 0.0][1] && [0.0, 1.0][1] > [0.0, 1.0][0];
  }

  /** The reference's choice is 0 after one token and 1 after more. */
  lemma MarkedChoice(hist: seq<Token>)
    requires hist != []
    ensures NextToken(Marking(), 2, hist) == if |hist| == 1 then 0 else 1
  {
    hide Live;
    var most, t := hist[..|hist| - 1], hist[|hist| - 1];
    assert hist == most + [t];
    FeedOne(Marking(), 2, most, t);
    MarkedRows(2, most);
    LogitChoices();
  }

  /** Two linked steps on a blank resident copy: both see a blank first row. */
  lemma StaleSteps(pt: Point)
    requires |pt.hist| == 1 && pt.v.dec == Resident(Blank(2), Blank(1)) && Shaped(pt, 2, 1) && !pt.v.reseed && pt.v.pending
    ensures
      var fed := Next(Marking(), 2, 2, 1, pt, Decode(0));
      && fed.hist == pt.hist + [0] && Armable(fed.v.dec, StepArm(fed.v, 2, 2))
      && ArgMax(StepOut(Marking(), 2, fed, 0).logits) == 0
  {
    LogitChoices();
    var base := Base(pt.v.dec, StepBinding(pt.v), StepArm(pt.v, 1, 2));
    assert base[0] == Row([]);
    var fed := Next(Marking(), 2, 2, 1, pt, Decode(0));
    var then_ := Base(fed.v.dec, StepBinding(fed.v), StepArm(fed.v, 2, 2));
    assert then_[0] == Row([]);
  }

  lemma RunsIntoTheEdge()
    ensures !KeepsReseeds(Narrow(), false, [], false, [[0], [0, 0]])
  {
    var input := [[0], [0, 0]];
    MarkedChoice([0]);
    assert [] + input[0] == [0];
    assert Reply(Narrow(), [0]) == [] && [0] + [] == [0];
    assert input[1..][0] == [0, 0];
    assert !KeepsReseeds(Narrow(), false, [0], true, input[1..]);
  }
}
