/**
  The facts the interactive decode driver rests on: its configuration, what each kind of
  forward leaves in the cache, how printed ids relate to the plain greedy loop, and which
  inputs never lose an owed re-seed.
 */
module ChatConfig {
  import opened DecoderModel
  import opened SpecDecode

  /** A compiled model and the driver's switches.  A bucket width of zero means the bucket is absent. */
  datatype Config = Config(m: Model, C: nat, vocab: nat, eos: Token, maxTokens: int, linked: bool, gpuArgmax: bool,
                           presRows: nat, prefillS: nat, prefillPresRows: nat, chunkS: nat, chunkPresRows: nat, chunkPadId: Token,
                           specActive: bool, specPresRows: nat, chainActive: bool, chainSteps: int)
  {
    /** What start-up validates before the first turn. */
    predicate Valid() {
      && C > 0 && presRows > 0
      && prefillPresRows >= prefillS && chunkPresRows >= chunkS
      && (chunkS > 0 ==> linked)
      && (specActive ==> linked && !chainActive && specPresRows >= SPEC_VERIFY_TOKENS)
      && (chainActive ==> linked && gpuArgmax && chainSteps > 1)
    }

    /** Some route of this configuration leaves the conversation in the host buffers and owes the decode bucket a re-seed. */
    predicate Reseeds() {
      prefillS > 0 || chunkS > 0 || specActive
    }
  }

  /** One line of standard output. */
  datatype Line = Id(tok: Token) | End

  function Ids(toks: seq<Token>): (lines: seq<Line>)
    ensures |lines| == |toks|
    ensures forall i | 0 <= i < |toks| :: lines[i] == Id(toks[i])
  {
    seq(|toks|, i requires 0 <= i < |toks| => Id(toks[i]))
  }
}

module ChatSteps {
  import opened DecoderModel
  import opened IoLink
  import opened GraphPass
  import opened Engine

  /** A step on the host loop. */
  lemma HostStepHolds(m: Model, C: nat, hist: seq<Token>, tok: Token, host: seq<Row>, present: seq<Row>, outs: seq<Out>,
                      ids: seq<Token>, pos: seq<nat>, mask: seq<int>)
    requires C > 0 && |host| == C && Holds(host, Live(m, C, hist)) && IsWindow(|hist|, C, 1, [tok], ids, pos, mask)
    requires outs == Forward(m, host, ids, pos, mask) && |present| > 0 && present[|present| - 1..] == RowsOf(outs)
    ensures outs == [Last(m, C, hist + [tok])]
    ensures Holds(FoldRows(host, present, |present| - 1, KvFoldSlot(|hist| + 1, C), 1), Live(m, C, hist + [tok]))
  {
    hide Live, Last, Forward;
    StepIsLast(m, C, hist, host, tok, ids, pos, mask);
    assert present[|present| - 1..][0] == present[|present| - 1];
    FoldHoldsStep(m, C, hist, tok, host, present, |present| - 1);
  }

  /** A window run on rows that hold the history leaves present rows whose fold holds the longer history. */
  lemma WindowLeaves(m: Model, C: nat, hist: seq<Token>, past: seq<Row>, S: nat, toks: seq<Token>, ids: seq<Token>, pos: seq<nat>, mask: seq<int>,
                     outs: seq<Out>, present: seq<Row>)
    requires C > 0 && |past| == C && 0 < |toks| <= S <= |present| && |hist| + |toks| <= C
    requires Holds(past, Live(m, C, hist)) && IsWindow(|hist|, C, S, toks, ids, pos, mask)
    requires outs == Forward(m, past, ids, pos, mask) && present[|present| - S..] == RowsOf(outs)
    ensures AreSteps(m, C, hist, toks, outs)
    ensures outs[|toks| - 1] == Last(m, C, hist + toks)
    ensures Holds(FoldRows(past, present, |present| - S, |hist|, |toks|), Live(m, C, hist + toks))
  {
    hide Live, Last, Forward;
    WindowIsSteps(m, C, hist, past, S, toks, ids, pos, mask);
    var at := |present| - S;
    assert present[at..at + |toks|] == present[at..][..|toks|] == RowsOf(outs[..|toks|]);
    assert toks[..|toks|] == toks;
    FoldHoldsWindow(m, C, hist, toks, outs, past, present, at);
  }

  /** A window run on a linked pair; its real rows are left pending. */
  method LinkedWindow(granted: bool, m: Model, C: nat, r: Resident, bind: Binding, arm: Arm, p: nat, S: nat, presRows: nat, toks: seq<Token>,
                      pad: Token, ghost hist: seq<Token>, ghost sound: bool)
    returns (after: Resident, out: Out)
    requires C > 0 && |r.past| == C && p == |hist| && 0 < |toks| <= S <= presRows && p + |toks| <= C
    requires (bind.Bind? ==> |bind.rows| == C) && Armable(r, arm)
    requires sound ==> Holds(Base(r, bind, arm), Live(m, C, hist))
    ensures |after.past| == C && (!granted ==> |after.present| == |r.present|)
    ensures granted ==> after.past == Base(r, bind, arm) && |after.present| == presRows
    ensures granted && sound ==> Holds(Folded(after, Arm(presRows - S, p, |toks|)), Live(m, C, hist + toks)) && out == Last(m, C, hist + toks)
  {
    hide Live, Last, Forward, AreSteps, Holds, FoldRows, Base;
    var ids, pos, mask := BuildWindow(p, C, S, toks, pad);
    var outs;
    after, outs := Run(granted, m, r, bind, arm, ids, pos, mask, presRows);
    if granted && sound {
      WindowLeaves(m, C, hist, after.past, S, toks, ids, pos, mask, outs, after.present);
    }
    out := if granted then outs[|toks| - 1] else Out(Row([]), [0.0]);
  }

  /** A whole-window run on the host copy, and the fold of its real rows. */
  method HostWindow(m: Model, C: nat, host: seq<Row>, p: nat, S: nat, presRows: nat, toks: seq<Token>, ghost hist: seq<Token>, ghost sound: bool)
    returns (after: seq<Row>, out: Out)
    requires C > 0 && |host| == C && p == |hist| && 0 < |toks| <= S <= presRows && p + |toks| <= C
    requires sound ==> Holds(host, Live(m, C, hist))
    ensures |after| == C && (sound ==> Holds(after, Live(m, C, hist + toks)) && out == Last(m, C, hist + toks))
  {
    hide Live, Last, Forward, AreSteps, Holds, FoldRows;
    var ids, pos, mask := BuildWindow(p, C, S, toks, 0);
    var present, outs := RunHost(m, host, ids, pos, mask, presRows);
    if sound {
      WindowLeaves(m, C, hist, host, S, toks, ids, pos, mask, outs, present);
    }
    after := FoldRows(host, present, presRows - S, p, |toks|);
    out := outs[|toks| - 1];
  }

  lemma NothingArmed(r: Resident, a: Arm)
    requires a.rows <= 0
    ensures Folded(r, a) == r.past
  {
  }

  /** Folds at or past `start` leave the slots below it as they were. */
  lemma BaseBelow(r: Resident, bind: Binding, a: Arm, host: seq<Row>, start: nat)
    requires start <= |host| == |r.past| && Armable(r, a)
    requires bind == Keep && a.slot >= start && r.past[..start] == host[..start]
    ensures Base(r, bind, a)[..start] == host[..start]
  {
  }

  /** The arm of a linked step: the pending fold, or nothing when a re-seed binds the host rows instead. */
  function StepArm(v: Copies, p: nat, C: nat): Arm
    requires |v.dec.present| > 0
  {
    Arm(|v.dec.present| - 1, if !v.reseed && v.pending then KvFoldSlot(p, C) else -1, 1)
  }

  function StepBinding(v: Copies): Binding {
    if v.reseed then Bind(v.host) else Keep
  }

  /** Whichever copy is true, the run computes on the history's rows. */
  lemma StepBaseHolds(m: Model, C: nat, hist: seq<Token>, v: Copies)
    requires Sized(v, C) && v.linked && Coherent(m, C, hist, v)
    ensures Armable(v.dec, StepArm(v, |hist|, C))
    ensures Holds(Base(v.dec, StepBinding(v), StepArm(v, |hist|, C)), Live(m, C, hist))
  {
    hide Live;
  }

  /** A linked step leaves its own row pending; resident plus pending is again the history's rows. */
  lemma LinkedStepHolds(m: Model, C: nat, hist: seq<Token>, tok: Token, v: Copies, after: Resident, outs: seq<Out>,
                        ids: seq<Token>, pos: seq<nat>, mask: seq<int>)
    requires Sized(v, C) && Holds(after.past, Live(m, C, hist)) && IsWindow(|hist|, C, 1, [tok], ids, pos, mask)
    requires |after.past| == C && |after.present| > 0
    requires outs == Forward(m, after.past, ids, pos, mask) && after.present[|after.present| - 1..] == RowsOf(outs)
    ensures outs == [Last(m, C, hist + [tok])]
    ensures Coherent(m, C, hist + [tok], Copies(v.host, after, true, true, false, true))
  {
    hide Live, Last, Forward;
    HostStepHolds(m, C, hist, tok, after.past, after.present, outs, ids, pos, mask);
  }
}

module ChatChain {
  import opened DecoderModel
  import opened IoLink
  import opened GraphPass
  import opened Engine
  import opened SpecDecode
  import opened ChatSteps

  /** The tokens a chain feeds: the given one, then its own choices but the last. */
  function ChainFed(tok: Token, ids: seq<Token>): (fed: seq<Token>)
    requires ids != []
    ensures |fed| == |ids|
  {
    [tok] + ids[..|ids| - 1]
  }

  /** A device chain left the reference behind: greedy ids, every fed row folded but the last, the last row pending. */
  ghost predicate ChainLeft(m: Model, C: nat, hist: seq<Token>, tok: Token, ids: seq<Token>, after: Resident)
    requires C > 0
  {
    && ids != [] && |after.past| == C && |after.present| > 0
    && GreedyRun(m, C, hist + [tok], ids)
    && Holds(after.past, Live(m, C, hist + ChainFed(tok, ids)[..|ids| - 1]))
    && after.present[|after.present| - 1] == Last(m, C, hist + ChainFed(tok, ids)).row
  }

  /** The feedback between iterations: the next id, position and valid mask slot. */
  method Feedback(p: nat, C: nat, tok: Token, next: Token, ids: seq<Token>, pos: seq<nat>, mask: seq<int>)
    returns (ids': seq<Token>, pos': seq<nat>, mask': seq<int>)
    requires IsWindow(p, C, 1, [tok], ids, pos, mask)
    ensures IsWindow(p + 1, C, 1, [next], ids', pos', mask')
  {
    ids', pos' := [next], [pos[0] + 1];
    mask' := if p < C then mask[p := 1] else mask;
  }

  lemma FirstIteration(m: Model, C: nat, hist: seq<Token>, tok: Token, after: Resident, outs: seq<Out>,
                       ids: seq<Token>, pos: seq<nat>, mask: seq<int>)
    requires C > 0 && |after.past| == C && |after.present| > 0 && Holds(after.past, Live(m, C, hist))
    requires IsWindow(|hist|, C, 1, [tok], ids, pos, mask)
    requires outs == Forward(m, after.past, ids, pos, mask) && after.present[|after.present| - 1..] == RowsOf(outs)
    ensures outs != [] && ChainLeft(m, C, hist, tok, [ArgMax(outs[0].logits)], after)
  {
    hide Live, Last, Forward;
    StepIsLast(m, C, hist, after.past, tok, ids, pos, mask);
    assert after.present[|after.present| - 1..][0] == after.present[|after.present| - 1];
    var one := [ArgMax(outs[0].logits)];
    assert hist + ChainFed(tok, one)[..0] == hist && ChainFed(tok, one) == [tok];
    assert hist + [tok] + one[..0] == hist + [tok];
  }

  /** One more iteration keeps the chain on the reference, at every position. */
  lemma NextIteration(m: Model, C: nat, hist: seq<Token>, tok: Token, done: seq<Token>, before: Resident, after: Resident, outs: seq<Out>,
                      ids: seq<Token>, pos: seq<nat>, mask: seq<int>)
    requires C > 0 && ChainLeft(m, C, hist, tok, done, before)
    requires Armable(before, Arm(|before.present| - 1, KvFoldSlot(|hist| + |done|, C), 1))
    requires after.past == Folded(before, Arm(|before.present| - 1, KvFoldSlot(|hist| + |done|, C), 1))
    requires IsWindow(|hist| + |done|, C, 1, [done[|done| - 1]], ids, pos, mask)
    requires outs == Forward(m, after.past, ids, pos, mask)
    requires |after.present| > 0 && after.present[|after.present| - 1..] == RowsOf(outs)
    ensures outs != [] && ChainLeft(m, C, hist, tok, done + [ArgMax(outs[0].logits)], after)
  {
    hide Live, Last, Forward;
    var fed := ChainFed(tok, done);
    var n := |done| - 1;
    assert fed[..n] + [fed[n]] == fed;
    assert hist + fed == (hist + fed[..n]) + [fed[n]];
    FoldHoldsStep(m, C, hist + fed[..n], fed[n], before.past, before.present, |before.present| - 1);
    StepIsLast(m, C, hist + fed, after.past, done[n], ids, pos, mask);
    assert after.present[|after.present| - 1..][0] == after.present[|after.present| - 1];
    var more := done + [ArgMax(outs[0].logits)];
    assert more[..|done|] == done;
    assert ChainFed(tok, more) == fed + [done[n]] == [tok] + done;
    assert ChainFed(tok, more)[..|done|] == fed;
    assert hist + ChainFed(tok, more) == hist + fed + [done[n]] == hist + [tok] + done;
    GreedyRunGrows(m, C, hist + [tok], done, ArgMax(outs[0].logits));
  }

  lemma GreedyRunGrows(m: Model, C: nat, hist: seq<Token>, ids: seq<Token>, next: Token)
    requires C > 0 && hist != [] && GreedyRun(m, C, hist, ids) && next == NextToken(m, C, hist + ids)
    ensures GreedyRun(m, C, hist, ids + [next])
  {
    hide NextToken;
    var more := ids + [next];
    forall i | 0 <= i < |more|
      ensures more[i] == NextToken(m, C, hist + more[..i])
    {
      assert more[..i] == ids[..i];
      if i == |ids| {
        assert ids[..i] == ids;
      }
    }
  }

  /** A full chain advance leaves resident plus the pending row as the history's rows. */
  lemma ChainAdvance(m: Model, C: nat, hist: seq<Token>, tok: Token, ids: seq<Token>, v: Copies)
    requires Sized(v, C) && ChainLeft(m, C, hist, tok, ids, v.dec) && v.linked && v.dirty && !v.reseed && v.pending
    ensures Coherent(m, C, hist + ChainFed(tok, ids), v)
  {
    hide Live, Last;
    var fed := ChainFed(tok, ids);
    var n := |fed| - 1;
    assert fed[..n] + [fed[n]] == fed;
    assert hist + fed == (hist + fed[..n]) + [fed[n]];
    FoldHoldsStep(m, C, hist + fed[..n], fed[n], v.dec.past, v.dec.present, |v.dec.present| - 1);
  }

  /**
    An end-of-stream trim after `k` fed tokens, k short of the whole chain: the first
    overshoot iteration has already folded row k, so nothing pends, and the overshoot rows
    sit past the trimmed history.
   */
  lemma ChainTrim(m: Model, C: nat, hist: seq<Token>, tok: Token, ids: seq<Token>, k: nat, v: Copies)
    requires Sized(v, C) && ChainLeft(m, C, hist, tok, ids, v.dec) && v.linked && v.dirty && !v.reseed && !v.pending
    requires k < |ids| && |hist| + |ids| <= C
    ensures Coherent(m, C, hist + ChainFed(tok, ids)[..k], v)
  {
    hide Live, Last;
    var folded := ChainFed(tok, ids)[..|ids| - 1];
    assert ChainFed(tok, ids)[..k] == folded[..k];
    assert (hist + folded[..k]) + folded[k..] == hist + folded;
    LivePrefix(m, C, hist + folded[..k], folded[k..]);
    assert Live(m, C, hist + folded)[..|hist| + k] == v.dec.past[..|hist| + k];
  }

  /** After an end-of-stream at id f, a fold pends exactly when f was the chain's last id. */
  lemma ChainCut(m: Model, C: nat, hist: seq<Token>, tok: Token, ids: seq<Token>, f: nat, v: Copies)
    requires Sized(v, C) && ChainLeft(m, C, hist, tok, ids, v.dec) && v.linked && v.dirty && !v.reseed && v.pending
    requires f < |ids| && (|hist| + |ids| <= C || |ids| == 1)
    ensures Coherent(m, C, hist + ChainFed(tok, ids)[..f + 1], v.(pending := f == |ids| - 1))
  {
    hide Coherent, ChainLeft;
    if f == |ids| - 1 {
      assert ChainFed(tok, ids)[..f + 1] == ChainFed(tok, ids);
      ChainAdvance(m, C, hist, tok, ids, v);
    } else {
      ChainTrim(m, C, hist, tok, ids, f + 1, v.(pending := false));
    }
  }

  /** The given token and the chain's choices after it, cut anywhere, are a greedy run. */
  lemma ChainIsRun(m: Model, C: nat, hist: seq<Token>, tok: Token, ids: seq<Token>, k: nat)
    requires C > 0 && hist != [] && tok == NextToken(m, C, hist) && GreedyRun(m, C, hist + [tok], ids) && k <= |ids|
    ensures GreedyRun(m, C, hist, [tok] + ids[..k])
  {
    hide NextToken;
    var run := [tok] + ids[..k];
    forall i | 0 <= i < |run|
      ensures run[i] == NextToken(m, C, hist + run[..i])
    {
      if i == 0 {
        assert hist + run[..0] == hist;
      } else {
        assert hist + run[..i] == hist + [tok] + ids[..i - 1];
      }
    }
  }

  /** Inside the context no iteration's fold slot is clamped: iteration i folds into the slot of position p+i-1. */
  lemma ChainUnclamped(p: nat, C: nat, steps: nat, i: nat)
    requires 0 < i < steps && p + steps <= C
    ensures KvFoldSlot(p + i, C) == p + i - 1 < C - 1
  {
  }
}

module ChatStream {
  import opened DecoderModel
  import opened SpecDecode
  import opened ChatConfig

  /** What the plain greedy loop prints for a turn whose prompt ends at history `h0`. */
  function Reply(cfg: Config, h0: seq<Token>): seq<Token>
    requires cfg.Valid() && h0 != []
  {
    Greedy(cfg.m, cfg.C, h0, cfg.eos, cfg.maxTokens)
  }

  /** Mid-turn: everything since `h0` is printed, `unfed` is printed but not fed, and the rest of the reply may take `left` more ids. */
  ghost predicate OnStream(cfg: Config, h0: seq<Token>, s0: seq<Line>, hist: seq<Token>, lines: seq<Line>, unfed: seq<Token>, left: int) {
    && cfg.Valid() && h0 != [] && h0 <= hist
    && lines == s0 + Ids(hist[|h0|..] + unfed)
    && Reply(cfg, h0) == hist[|h0|..] + unfed + Greedy(cfg.m, cfg.C, hist + unfed, cfg.eos, left)
  }

  /** The turn is complete: the reply is printed and fed. */
  ghost predicate Replied(cfg: Config, h0: seq<Token>, s0: seq<Line>, hist: seq<Token>, lines: seq<Line>) {
    cfg.Valid() && h0 != [] && hist == h0 + Reply(cfg, h0) && lines == s0 + Ids(Reply(cfg, h0))
  }

  /** Nothing beyond the reply has been printed. */
  ghost predicate WithinReply(cfg: Config, h0: seq<Token>, s0: seq<Line>, lines: seq<Line>) {
    cfg.Valid() && h0 != [] && s0 <= lines && lines <= s0 + Ids(Reply(cfg, h0))
  }

  lemma StreamStarts(cfg: Config, h0: seq<Token>, s0: seq<Line>)
    requires cfg.Valid() && h0 != []
    ensures OnStream(cfg, h0, s0, h0, s0, [], cfg.maxTokens)
  {
    assert h0 + [] == h0 && s0 + Ids([]) == s0;
  }

  /** The next id is printed. */
  lemma StreamPrints(cfg: Config, h0: seq<Token>, s0: seq<Line>, hist: seq<Token>, lines: seq<Line>, left: int, next: Token)
    requires OnStream(cfg, h0, s0, hist, lines, [], left) && left > 0
    requires next == NextToken(cfg.m, cfg.C, hist) && next != cfg.eos
    ensures OnStream(cfg, h0, s0, hist, lines + [Id(next)], [next], left - 1)
  {
    hide NextToken;
    assert hist + [] == hist;
    assert Ids(hist[|h0|..] + [next]) == Ids(hist[|h0|..] + []) + [Id(next)];
  }

  /** What is printed is fed. */
  lemma StreamFeeds(cfg: Config, h0: seq<Token>, s0: seq<Line>, hist: seq<Token>, lines: seq<Line>, unfed: seq<Token>, left: int)
    requires OnStream(cfg, h0, s0, hist, lines, unfed, left)
    ensures OnStream(cfg, h0, s0, hist + unfed, lines, [], left)
  {
    hide Greedy;
    assert (hist + unfed)[|h0|..] == hist[|h0|..] + unfed;
    assert hist + unfed + [] == hist + unfed;
  }

  /** A greedy run, cut by the two stopping rules, is printed. */
  lemma StreamPrintsRun(cfg: Config, h0: seq<Token>, s0: seq<Line>, hist: seq<Token>, lines: seq<Line>, left: int, run: seq<Token>, n: nat)
    requires OnStream(cfg, h0, s0, hist, lines, [], left) && left >= 0
    requires GreedyRun(cfg.m, cfg.C, hist, run) && IsEmittedCount(run, cfg.eos, left, n)
    ensures n == |run| ==> OnStream(cfg, h0, s0, hist, lines + Ids(run), run, left - n)
    ensures n < |run| ==> Replied(cfg, h0, s0, hist + run[..n], lines + Ids(run[..n]))
  {
    hide GreedyRun, Greedy;
    TruncatedRunIsGreedy(cfg.m, cfg.C, hist, run, cfg.eos, left, n);
    var e := hist[|h0|..];
    assert hist + [] == hist && e + [] == e;
    assert Ids(e + run[..n]) == Ids(e) + Ids(run[..n]);
    if n == |run| {
      assert run[..n] == run;
    } else {
      assert Reply(cfg, h0) == e + run[..n];
      assert h0 + (e + run[..n]) == hist + run[..n];
    }
  }

  /** One verified round's share of the reply, for every draft. */
  lemma StreamPrintsRound(cfg: Config, h0: seq<Token>, s0: seq<Line>, hist: seq<Token>, lines: seq<Line>, left: int,
                          next: Token, drafts: seq<Token>, outs: seq<Out>, n: nat)
    requires cfg.Valid() && OnStream(cfg, h0, s0, hist, lines, [], left) && left >= 0 && hist != []
    requires next == NextToken(cfg.m, cfg.C, hist) && |outs| == |drafts| + 1 && AreSteps(cfg.m, cfg.C, hist, [next] + drafts, outs)
    requires IsEmittedCount([next] + drafts[..Accepted(drafts, ArgMaxes(outs))], cfg.eos, left, n)
    ensures var j := Accepted(drafts, ArgMaxes(outs));
            var out := ([next] + drafts[..j])[..n];
            && (n <= j ==> Replied(cfg, h0, s0, hist + out, lines + Ids(out)))
            && (n == j + 1 ==> && OnStream(cfg, h0, s0, hist + out, lines + Ids(out), [], left - n)
                               && ArgMaxes(outs)[j] == NextToken(cfg.m, cfg.C, hist + out))
  {
    hide AreSteps, OnStream, Replied, NextToken, GreedyRun, ArgMaxes;
    var committed := [next] + drafts[..Accepted(drafts, ArgMaxes(outs))];
    RoundCommitsGreedyRun(cfg.m, cfg.C, hist, next, drafts, outs);
    StreamPrintsRun(cfg, h0, s0, hist, lines, left, committed, n);
    if n == |committed| {
      assert committed[..n] == committed;
      StreamFeeds(cfg, h0, s0, hist, lines + Ids(committed), committed, left - n);
    }
  }

  /** A complete turn is a stream with nothing left. */
  lemma RepliedStreams(cfg: Config, h0: seq<Token>, s0: seq<Line>, hist: seq<Token>, lines: seq<Line>)
    requires Replied(cfg, h0, s0, hist, lines)
    ensures OnStream(cfg, h0, s0, hist, lines, [], 0)
  {
    assert hist[|h0|..] == Reply(cfg, h0);
    assert hist + [] == hist && hist[|h0|..] + [] + [] == hist[|h0|..];
  }

  /** The stream ends: the budget is spent or the next id is end-of-stream. */
  lemma StreamEnds(cfg: Config, h0: seq<Token>, s0: seq<Line>, hist: seq<Token>, lines: seq<Line>, left: int)
    requires OnStream(cfg, h0, s0, hist, lines, [], left)
    requires left <= 0 || NextToken(cfg.m, cfg.C, hist) == cfg.eos
    ensures Replied(cfg, h0, s0, hist, lines)
  {
    hide NextToken;
    assert hist + [] == hist;
    assert hist[|h0|..] + [] == hist[|h0|..];
    assert h0 + hist[|h0|..] == hist;
  }

  lemma StreamWithin(cfg: Config, h0: seq<Token>, s0: seq<Line>, hist: seq<Token>, lines: seq<Line>, unfed: seq<Token>, left: int)
    requires OnStream(cfg, h0, s0, hist, lines, unfed, left)
    ensures WithinReply(cfg, h0, s0, lines)
  {
    hide Greedy;
    var printed, rest := hist[|h0|..] + unfed, Greedy(cfg.m, cfg.C, hist + unfed, cfg.eos, left);
    assert Ids(printed + rest) == Ids(printed) + Ids(rest);
  }

  lemma RepliedWithin(cfg: Config, h0: seq<Token>, s0: seq<Line>, hist: seq<Token>, lines: seq<Line>)
    requires Replied(cfg, h0, s0, hist, lines)
    ensures WithinReply(cfg, h0, s0, lines)
  {
  }
}

module ChatTranscript {
  import opened DecoderModel
  import opened ChatConfig
  import opened ChatStream

  predicate InVocab(cfg: Config, prompt: seq<Token>) {
    forall i | 0 <= i < |prompt| :: 0 <= prompt[i] < cfg.vocab
  }

  /** What the plain greedy decoder prints for a whole conversation, one input line per turn. */
  function Transcript(cfg: Config, hist: seq<Token>, input: seq<seq<Token>>): seq<Line>
    requires cfg.Valid()
    decreases |input|
  {
    if input == [] then []
    else if input[0] == [] then Transcript(cfg, hist, input[1..])
    else if !InVocab(cfg, input[0]) then [End] + Transcript(cfg, hist, input[1..])
    else
      var h0 := hist + input[0];
      Ids(Reply(cfg, h0)) + [End] + Transcript(cfg, h0 + Reply(cfg, h0), input[1..])
  }
}

module ChatGuard {
  import opened DecoderModel
  import opened ChatConfig
  import opened ChatStream
  import opened ChatTranscript

  /**
    The batched phase a turn takes first at position p - chunks when their bucket is up and the prompt is
    longer than the whole window, else whole windows - cannot consume one token of the prompt.
   */
  predicate Drops(cfg: Config, chunkUp: bool, p: nat, prompt: nat) {
    if chunkUp && !(cfg.prefillS > 0 && prompt <= cfg.prefillS) then p + Min(prompt, cfg.chunkS) > cfg.C
    else cfg.prefillS > 0 && p + Min(prompt, cfg.prefillS) > cfg.C
  }

  /** With the links up, a prompt phase that consumed the whole prompt in batches owes a re-seed. */
  predicate OwesAfterPrompt(cfg: Config, chunkUp: bool, p: nat, prompt: nat) {
    (cfg.prefillS > 0 || chunkUp) && p + prompt <= cfg.C
  }

  /** No line of the input meets an owed re-seed with a batched phase that consumes nothing. */
  predicate KeepsReseeds(cfg: Config, chunkUp: bool, hist: seq<Token>, owes: bool, input: seq<seq<Token>>)
    requires cfg.Valid()
    decreases |input|
  {
    if input == [] then true
    else if input[0] == [] || !InVocab(cfg, input[0]) then KeepsReseeds(cfg, chunkUp, hist, owes, input[1..])
    else
      var p, n, h0 := |hist|, |input[0]|, hist + input[0];
      var reply := Reply(cfg, h0);
      && !(owes && Drops(cfg, chunkUp, p, n))
      && KeepsReseeds(cfg, chunkUp, h0 + reply, cfg.specActive || (OwesAfterPrompt(cfg, chunkUp, p, n) && reply == []), input[1..])
  }

  /** How a turn was decoded: whether speculative rounds were entered, and how many tokens were fed one by one outside them. */
  datatype Exit = Exit(rounds: bool, tail: nat)
  {
    /** A turn that fed nothing one by one leaves a re-seed owed after rounds, or if its prompt left one. */
    predicate Owes(afterPrompt: bool) {
      tail == 0 && (rounds || afterPrompt)
    }
  }

  /** No line of the input meets an owed re-seed with a batched phase that consumes nothing, the turns being decoded as `exits` say. */
  predicate KeepsVia(cfg: Config, chunkUp: bool, hist: seq<Token>, owes: bool, input: seq<seq<Token>>, exits: seq<Exit>)
    requires cfg.Valid()
    decreases |input|
  {
    if input == [] then true
    else if input[0] == [] || !InVocab(cfg, input[0]) then KeepsVia(cfg, chunkUp, hist, owes, input[1..], exits)
    else if exits == [] then true
    else
      var p, n, h0 := |hist|, |input[0]|, hist + input[0];
      && !(owes && Drops(cfg, chunkUp, p, n))
      && KeepsVia(cfg, chunkUp, h0 + Reply(cfg, h0), exits[0].Owes(OwesAfterPrompt(cfg, chunkUp, p, n)), input[1..], exits[1..])
  }

  /** Lines of the input that are turns. */
  function Turns(cfg: Config, input: seq<seq<Token>>): nat {
    if input == [] then 0
    else (if input[0] == [] || !InVocab(cfg, input[0]) then 0 else 1) + Turns(cfg, input[1..])
  }

  /** One line of the input: what it takes of the exits, whether it loses the conversation, and what it leaves. */
  ghost predicate LineTakes(cfg: Config, chunkUp: bool, hist: seq<Token>, owes: bool, input: seq<seq<Token>>, taken: seq<Exit>,
                            lost: bool, hist': seq<Token>, owes': bool)
    requires cfg.Valid() && input != []
  {
    if input[0] == [] || !InVocab(cfg, input[0]) then taken == [] && !lost && hist' == hist && owes' == owes
    else
      && |taken| == 1 && (taken[0].rounds ==> cfg.specActive)
      && (lost <==> owes && Drops(cfg, chunkUp, |hist|, |input[0]|))
      && (!lost ==> && hist' == hist + input[0] + Reply(cfg, hist + input[0])
                    && (!taken[0].rounds ==> taken[0].tail == |Reply(cfg, hist + input[0])|)
                    && owes' == taken[0].Owes(OwesAfterPrompt(cfg, chunkUp, |hist|, |input[0]|)))
  }

  /** The exits so far decide the guard up to what is left of the input. */
  ghost predicate SoFar(cfg: Config, chunkUp: bool, h0: seq<Token>, owes0: bool, input: seq<seq<Token>>, exits: seq<Exit>,
                        lost: bool, hist: seq<Token>, owes: bool, rest: seq<seq<Token>>)
    requires cfg.Valid()
  {
    forall more :: KeepsVia(cfg, chunkUp, h0, owes0, input, exits + more) <==> !lost && KeepsVia(cfg, chunkUp, hist, owes, rest, more)
  }

  lemma NothingSoFar(cfg: Config, chunkUp: bool, hist: seq<Token>, owes: bool, input: seq<seq<Token>>)
    requires cfg.Valid()
    ensures SoFar(cfg, chunkUp, hist, owes, input, [], false, hist, owes, input)
  {
    forall more: seq<Exit> ensures [] + more == more {
    }
  }

  lemma LineKeeps(cfg: Config, chunkUp: bool, hist: seq<Token>, owes: bool, input: seq<seq<Token>>, taken: seq<Exit>,
                  lost: bool, hist': seq<Token>, owes': bool, more: seq<Exit>)
    requires cfg.Valid() && input != [] && LineTakes(cfg, chunkUp, hist, owes, input, taken, lost, hist', owes')
    ensures KeepsVia(cfg, chunkUp, hist, owes, input, taken + more) <==> !lost && KeepsVia(cfg, chunkUp, hist', owes', input[1..], more)
  {
    hide Drops, OwesAfterPrompt, Reply, InVocab;
    if taken == [] {
      assert [] + more == more;
    } else {
      assert (taken + more)[1..] == more && (taken + more)[0] == taken[0];
    }
  }

  lemma OneLineMore(cfg: Config, chunkUp: bool, h0: seq<Token>, owes0: bool, input: seq<seq<Token>>, exits: seq<Exit>, lost: bool,
                    hist: seq<Token>, owes: bool, rest: seq<seq<Token>>, taken: seq<Exit>, lost': bool, hist': seq<Token>, owes': bool)
    requires cfg.Valid() && rest != [] && SoFar(cfg, chunkUp, h0, owes0, input, exits, lost, hist, owes, rest)
    requires if lost then lost' else LineTakes(cfg, chunkUp, hist, owes, rest, taken, lost', hist', owes')
    ensures SoFar(cfg, chunkUp, h0, owes0, input, exits + taken, lost', hist', owes', rest[1..])
  {
    hide KeepsVia, LineTakes;
    forall more: seq<Exit>
      ensures KeepsVia(cfg, chunkUp, h0, owes0, input, exits + taken + more) <==> !lost' && KeepsVia(cfg, chunkUp, hist', owes', rest[1..], more)
    {
      assert exits + taken + more == exits + (taken + more);
      if !lost {
        LineKeeps(cfg, chunkUp, hist, owes, rest, taken, lost', hist', owes', more);
      }
    }
  }

  lemma AllDone(cfg: Config, chunkUp: bool, h0: seq<Token>, owes0: bool, input: seq<seq<Token>>, exits: seq<Exit>,
                lost: bool, hist: seq<Token>, owes: bool)
    requires cfg.Valid() && SoFar(cfg, chunkUp, h0, owes0, input, exits, lost, hist, owes, [])
    ensures lost <==> !KeepsVia(cfg, chunkUp, h0, owes0, input, exits)
  {
    assert exits + [] == exits;
  }

  /** Every turn's first batched window fits before the context edge, whichever bucket it goes through. */
  predicate WindowsFit(cfg: Config, hist: seq<Token>, input: seq<seq<Token>>)
    requires cfg.Valid()
    decreases |input|
  {
    if input == [] then true
    else if input[0] == [] || !InVocab(cfg, input[0]) then WindowsFit(cfg, hist, input[1..])
    else
      && !Drops(cfg, false, |hist|, |input[0]|)
      && (cfg.chunkS > 0 ==> !Drops(cfg, true, |hist|, |input[0]|))
      && WindowsFit(cfg, hist + input[0] + Reply(cfg, hist + input[0]), input[1..])
  }

  /** Owing less loses less. */
  lemma {:induction false} OwingLess(cfg: Config, chunkUp: bool, hist: seq<Token>, owes: bool, input: seq<seq<Token>>)
    requires cfg.Valid() && KeepsReseeds(cfg, chunkUp, hist, true, input)
    ensures KeepsReseeds(cfg, chunkUp, hist, owes, input)
    decreases |input|
  {
    if input != [] && (input[0] == [] || !InVocab(cfg, input[0])) {
      OwingLess(cfg, chunkUp, hist, owes, input[1..]);
    }
  }

  /** A lost line breaks every guard. */
  lemma LossBreaks(cfg: Config, chunkUp: bool, hist: seq<Token>, owes: bool, input: seq<seq<Token>>)
    requires cfg.Valid() && input != [] && input[0] != [] && InVocab(cfg, input[0])
    requires owes && Drops(cfg, chunkUp, |hist|, |input[0]|) && (chunkUp ==> cfg.chunkS > 0)
    ensures !KeepsReseeds(cfg, chunkUp, hist, owes, input) && !WindowsFit(cfg, hist, input)
  {
    hide Reply, InVocab;
  }

  /** One line carries the guards on the input over to the rest of it. */
  lemma LineReseeds(cfg: Config, chunkUp: bool, hist: seq<Token>, owes: bool, input: seq<seq<Token>>, taken: seq<Exit>,
                    lost: bool, hist': seq<Token>, owes': bool)
    requires cfg.Valid() && input != [] && LineTakes(cfg, chunkUp, hist, owes, input, taken, lost, hist', owes')
    requires chunkUp ==> cfg.chunkS > 0
    ensures WindowsFit(cfg, hist, input) ==> !lost && WindowsFit(cfg, hist', input[1..])
    ensures KeepsReseeds(cfg, chunkUp, hist, owes, input) ==> !lost && KeepsReseeds(cfg, chunkUp, hist', owes', input[1..])
    ensures !cfg.specActive && !KeepsReseeds(cfg, chunkUp, hist, owes, input) ==> lost || !KeepsReseeds(cfg, chunkUp, hist', owes', input[1..])
  {
    hide Drops, OwesAfterPrompt, Reply, InVocab;
    if input[0] != [] && InVocab(cfg, input[0]) {
      if lost {
        LossBreaks(cfg, chunkUp, hist, owes, input);
      } else if cfg.specActive && KeepsReseeds(cfg, chunkUp, hist, owes, input) {
        OwingLess(cfg, chunkUp, hist', owes', input[1..]);
      }
    }
  }

  /** What is known of every guard on `input` once the turns up to `rest` are read, the links still up. */
  ghost predicate Guarded(cfg: Config, chunk0: bool, h0: seq<Token>, owes0: bool, input: seq<seq<Token>>, exits: seq<Exit>,
                          chunkUp: bool, lost: bool, hist: seq<Token>, owes: bool, rest: seq<seq<Token>>)
    requires cfg.Valid()
  {
    && (WindowsFit(cfg, h0, input) ==> !lost && WindowsFit(cfg, hist, rest))
    && (chunkUp == chunk0 ==>
          && (KeepsReseeds(cfg, chunk0, h0, owes0, input) ==> !lost && KeepsReseeds(cfg, chunk0, hist, owes, rest))
          && (!cfg.specActive && !KeepsReseeds(cfg, chunk0, h0, owes0, input) ==> lost || !KeepsReseeds(cfg, chunk0, hist, owes, rest))
          && SoFar(cfg, chunk0, h0, owes0, input, exits, lost, hist, owes, rest))
  }

  lemma GuardedBegins(cfg: Config, chunkUp: bool, hist: seq<Token>, owes: bool, input: seq<seq<Token>>)
    requires cfg.Valid()
    ensures Guarded(cfg, chunkUp, hist, owes, input, [], chunkUp, false, hist, owes, input)
  {
    NothingSoFar(cfg, chunkUp, hist, owes, input);
  }

  lemma GuardedLine(cfg: Config, chunk0: bool, h0: seq<Token>, owes0: bool, input: seq<seq<Token>>, exits: seq<Exit>,
                    chunkUp: bool, lost: bool, hist: seq<Token>, owes: bool, rest: seq<seq<Token>>,
                    taken: seq<Exit>, chunkUp': bool, lost': bool, hist': seq<Token>, owes': bool)
    requires cfg.Valid() && rest != [] && Guarded(cfg, chunk0, h0, owes0, input, exits, chunkUp, lost, hist, owes, rest)
    requires (chunkUp' ==> chunkUp) && (chunkUp ==> chunk0) && (chunk0 ==> cfg.chunkS > 0)
    requires if lost then lost' else LineTakes(cfg, chunkUp', hist, owes, rest, taken, lost', hist', owes')
    ensures Guarded(cfg, chunk0, h0, owes0, input, exits + taken, chunkUp', lost', hist', owes', rest[1..])
  {
    hide KeepsReseeds, WindowsFit, SoFar, LineTakes;
    if !lost {
      LineReseeds(cfg, chunkUp', hist, owes, rest, taken, lost', hist', owes');
    }
    if chunkUp' == chunk0 {
      OneLineMore(cfg, chunk0, h0, owes0, input, exits, lost, hist, owes, rest, taken, lost', hist', owes');
    }
  }

  /** A run that died on a lost line. */
  lemma GuardedLoss(cfg: Config, chunk0: bool, h0: seq<Token>, owes0: bool, input: seq<seq<Token>>, exits: seq<Exit>,
                    chunkUp: bool, lost: bool, hist: seq<Token>, owes: bool, rest: seq<seq<Token>>, chunkUp': bool)
    requires cfg.Valid() && rest != [] && Guarded(cfg, chunk0, h0, owes0, input, exits, chunkUp, lost, hist, owes, rest)
    requires (chunkUp' ==> chunkUp) && (chunkUp ==> chunk0) && (chunk0 ==> cfg.chunkS > 0)
    requires lost || (rest[0] != [] && InVocab(cfg, rest[0]) && owes && Drops(cfg, chunkUp', |hist|, |rest[0]|))
    ensures !WindowsFit(cfg, h0, input) && (chunkUp' == chunk0 ==> !KeepsReseeds(cfg, chunk0, h0, owes0, input))
  {
    hide KeepsReseeds, WindowsFit, SoFar, Drops;
    if !lost {
      LossBreaks(cfg, chunkUp', hist, owes, rest);
    }
  }

  lemma GuardedEnds(cfg: Config, chunk0: bool, h0: seq<Token>, owes0: bool, input: seq<seq<Token>>, exits: seq<Exit>,
                    chunkUp: bool, lost: bool, hist: seq<Token>, owes: bool)
    requires cfg.Valid() && Guarded(cfg, chunk0, h0, owes0, input, exits, chunkUp, lost, hist, owes, [])
    ensures WindowsFit(cfg, h0, input) ==> !lost
    ensures chunkUp == chunk0 && KeepsReseeds(cfg, chunk0, h0, owes0, input) ==> !lost
    ensures chunkUp == chunk0 && !cfg.specActive ==> (lost <==> !KeepsReseeds(cfg, chunk0, h0, owes0, input))
    ensures chunkUp == chunk0 ==> (lost <==> !KeepsVia(cfg, chunk0, h0, owes0, input, exits))
  {
    if chunkUp == chunk0 {
      hide SoFar;
      AllDone(cfg, chunk0, h0, owes0, input, exits, lost, hist, owes);
    }
  }
}
