/**
  The app's vision-language decoder: its additive attention matrix, and the two-copy cache
  protocol that survives every failure.
 */
module AppVlm {
  import opened DecoderModel
  import opened IoLink
  import opened GraphPass
  import opened Engine

  /** Row q of the additive mask: 1 where the score is left alone, 0 where it is filled out. */
  type MaskRow = seq<int>

  function CausalBit(p: nat, C: nat, q: nat, c: nat): int {
    if c < C then (if c < p then 1 else 0) else if c - C <= q then 1 else 0
  }

  ghost predicate IsCausalRow(row: MaskRow, p: nat, C: nat, S: nat, q: nat) {
    |row| == C + S && forall c | 0 <= c < C + S :: row[c] == CausalBit(p, C, q, c)
  }

  /** The matrix lets row q see the past slots below p and the new columns up to its own. */
  ghost predicate IsCausalMatrix(mask: seq<MaskRow>, p: nat, C: nat, S: nat) {
    |mask| == S && forall q | 0 <= q < S :: IsCausalRow(mask[q], p, C, S, q)
  }

  method BuildMatrix(p: nat, C: nat, S: nat) returns (mask: seq<MaskRow>)
    ensures IsCausalMatrix(mask, p, C, S)
  {
    mask := [];
    var q := 0;
    while q < S
      invariant 0 <= q <= S && |mask| == q
      invariant forall k | 0 <= k < q :: IsCausalRow(mask[k], p, C, S, k)
    {
      var row := [];
      var c := 0;
      while c < C + S
        invariant 0 <= c <= C + S && |row| == c
        invariant forall k | 0 <= k < c :: row[k] == CausalBit(p, C, q, k)
      {
        row := row + [if c < C then (if c < p then 1 else 0) else if c - C <= q then 1 else 0];
        c := c + 1;
      }
      mask := mask + [row];
      q := q + 1;
    }
  }

  /** The graph under an arbitrary mask matrix: outputs of the first `n` columns. */
  function MatrixForward(m: Model, past: seq<Row>, ids: seq<Token>, pos: seq<nat>, mask: seq<MaskRow>, n: nat): (outs: seq<Out>)
    requires |ids| == |pos| == |mask| && n <= |ids|
    requires forall q | 0 <= q < |mask| :: |mask[q]| == |past| + |ids|
    ensures |outs| == n
    decreases n
  {
    if n == 0 then []
    else
      var q := n - 1;
      var before := MatrixForward(m, past, ids, pos, mask, q);
      var seen := Attended(past, mask[q][..|past|]) + Attended(RowsOf(before), mask[q][|past|..|past| + q]);
      before + [m.forward(seen, pos[q], ids[q])]
  }

  /** A prompt's columns: real ids at their positions, pads clamped to the last one. */
  ghost predicate IsPrompt(p: nat, S: nat, toks: seq<Token>, ids: seq<Token>, pos: seq<nat>) {
    && 0 < |toks| <= S && |ids| == |pos| == S && ids[..|toks|] == toks
    && (forall q | 0 <= q < S :: pos[q] == p + if q < |toks| then q else |toks| - 1)
  }

  method BuildPrompt(p: nat, S: nat, toks: seq<Token>, padId: Token) returns (ids: seq<Token>, pos: seq<nat>)
    requires 0 < |toks| <= S
    ensures IsPrompt(p, S, toks, ids, pos)
  {
    ids := toks + seq(S - |toks|, _ => padId);
    pos := [];
    var q := 0;
    while q < S
      invariant 0 <= q <= S && |pos| == q
      invariant forall k | 0 <= k < q :: pos[k] == p + if k < |toks| then k else |toks| - 1
    {
      pos := pos + [p + if q < |toks| then q else |toks| - 1];
      q := q + 1;
    }
  }

  /** What row q sees: the live rows, then the rows of the columns before it. */
  lemma CausalSees(live: seq<Row>, past: seq<Row>, before: seq<Row>, row: MaskRow, S: nat, q: nat)
    requires q < S && |before| == q && Holds(past, live) && IsCausalRow(row, |live|, |past|, S, q)
    ensures Attended(past, row[..|past|]) + Attended(before, row[|past|..|past| + q]) == live + before
  {
    AttendedPrefix(past, row[..|past|], |live|);
    AttendedPrefix(before, row[|past|..|past| + q], q);
    assert before[..q] == before;
  }

  /** One causal column extends the reference by one token. */
  lemma CausalColumn(m: Model, C: nat, hist: seq<Token>, toks: seq<Token>, before: seq<Out>, seen: seq<Row>, q: nat)
    requires C > 0 && |hist| + |toks| <= C && q < |toks| && |before| == q
    requires AreSteps(m, C, hist, toks[..q], before) && seen == Live(m, C, hist) + RowsOf(before)
    ensures m.forward(seen, |hist| + q, toks[q]) == Last(m, C, hist + toks[..q + 1])
  {
    hide Live, Last, AreSteps;
    assert before[..q] == before;
    StepsAppendRows(m, C, hist, toks[..q], before);
    FeedOne(m, C, hist + toks[..q], toks[q]);
    Snoc(hist, toks, q);
  }

  lemma {:induction false} MatrixIsSteps(m: Model, C: nat, hist: seq<Token>, past: seq<Row>, S: nat, toks: seq<Token>,
                                         ids: seq<Token>, pos: seq<nat>, mask: seq<MaskRow>, n: nat)
    requires C > 0 && |past| == C && |hist| + |toks| <= C && n <= |toks|
    requires Holds(past, Live(m, C, hist)) && IsPrompt(|hist|, S, toks, ids, pos) && IsCausalMatrix(mask, |hist|, C, S)
    ensures AreSteps(m, C, hist, toks[..n], MatrixForward(m, past, ids, pos, mask, n))
    decreases n
  {
    hide Live, Last, Attended;
    if n > 0 {
      var q := n - 1;
      MatrixIsSteps(m, C, hist, past, S, toks, ids, pos, mask, q);
      var before, outs := MatrixForward(m, past, ids, pos, mask, q), MatrixForward(m, past, ids, pos, mask, n);
      CausalSees(Live(m, C, hist), past, RowsOf(before), mask[q], S, q);
      CausalColumn(m, C, hist, toks, before, Live(m, C, hist) + RowsOf(before), q);
      assert ids[q] == ids[..|toks|][q] == toks[q];
      assert outs == before + [outs[q]];
      forall i | 0 <= i < n
        ensures outs[i] == Last(m, C, hist + toks[..n][..i + 1])
      {
        assert toks[..n][..i + 1] == toks[..i + 1];
        if i < q {
          assert toks[..q][..i + 1] == toks[..i + 1];
        }
      }
    }
  }

  /** More columns after the first `n` do not change their outputs. */
  lemma {:induction false} MatrixPrefix(m: Model, past: seq<Row>, ids: seq<Token>, pos: seq<nat>, mask: seq<MaskRow>, n: nat, k: nat)
    requires |ids| == |pos| == |mask| && n <= k <= |ids|
    requires forall q | 0 <= q < |mask| :: |mask[q]| == |past| + |ids|
    ensures MatrixForward(m, past, ids, pos, mask, k)[..n] == MatrixForward(m, past, ids, pos, mask, n)
    decreases k
  {
    if n < k {
      MatrixPrefix(m, past, ids, pos, mask, n, k - 1);
    }
  }

  /** A padded prompt under the causal matrix computes the token-by-token outputs, whatever the pads. */
  lemma PromptIsSteps(m: Model, C: nat, hist: seq<Token>, past: seq<Row>, S: nat, toks: seq<Token>, ids: seq<Token>, pos: seq<nat>, mask: seq<MaskRow>)
    requires C > 0 && |past| == C && |hist| + |toks| <= C
    requires Holds(past, Live(m, C, hist)) && IsPrompt(|hist|, S, toks, ids, pos) && IsCausalMatrix(mask, |hist|, C, S)
    ensures AreSteps(m, C, hist, toks, MatrixForward(m, past, ids, pos, mask, S))
  {
    hide Live, Last, Attended;
    var n, outs := |toks|, MatrixForward(m, past, ids, pos, mask, S);
    MatrixIsSteps(m, C, hist, past, S, toks, ids, pos, mask, n);
    MatrixPrefix(m, past, ids, pos, mask, n, S);
    assert toks[..n] == toks;
    assert forall i | 0 <= i < n :: outs[i] == outs[..n][i];
  }

  class Vlm {
    const m: Model
    const C: nat
    const prefillS: nat
    const answers: Answers
    var calls: nat  // requests made of the session
    var host: seq<Row>
    var dev: Resident
    var p: nat
    var decodeLinked: bool
    var cacheOnDevice: bool
    var rebindPastNextStep: bool
    var pendingSlot: int
    var last: Out
    ghost var hist: seq<Token>

    /** The device copy with its pending fold; this decoder's present carries the one produced row. */
    ghost function OnDevice(): seq<Row>
      reads this
      requires |dev.past| == C && |dev.present| == 1 && pendingSlot < C
    {
      FoldRows(dev.past, dev.present, 0, pendingSlot, 1)
    }

    /** One logical cache through every call: on the device when `cacheOnDevice`, in the host buffers otherwise. */
    ghost predicate Valid()
      reads this
    {
      && C > 0 && |host| == C && |dev.past| == C && |dev.present| == 1
      && p == |hist| <= C - 1 && pendingSlot < C
      && (rebindPastNextStep ==> !cacheOnDevice) && (cacheOnDevice ==> decodeLinked)
      && Holds(if cacheOnDevice then OnDevice() else host, Live(m, C, hist))
    }

    constructor (m: Model, C: nat, prefillS: nat, linked: bool, answers: Answers)
      requires C > 0
      ensures Valid() && hist == [] && this.answers == answers && calls == 0
    {
      this.m, this.C, this.prefillS, this.answers, calls := m, C, prefillS, answers, 0;
      host := seq(C, _ => Row([]));
      dev := Resident(seq(C, _ => Row([])), [Row([])]);
      p, decodeLinked, cacheOnDevice, rebindPastNextStep, pendingSlot := 0, linked, false, false, -1;
      last := Out(Row([]), [0.0]);
      hist := [];
    }

    /** A link update, a run or a readback: the session grants or refuses it. */
    method Ask() returns (ok: bool)
      modifies this`calls
      ensures calls == old(calls) + 1 && ok == answers(old(calls))
    {
      ok, calls := answers(calls), calls + 1;
    }

    method Reset()
      requires Valid()
      modifies this
      ensures Valid() && hist == [] && decodeLinked == old(decodeLinked)
      ensures forall row | row in host :: row == Row([])
    {
      p := 0;
      host := seq(C, _ => Row([]));
      cacheOnDevice, rebindPastNextStep, pendingSlot := false, decodeLinked, -1;
      hist := [];
    }

    /** Device cache and pending row to the host; a refusal may leave the host buffers torn, the device copy stays true. */
    method MaterializeDeviceCache() returns (ok: bool)
      requires Valid() && cacheOnDevice
      modifies this`host, this`pendingSlot, this`calls
      ensures |host| == C
      ensures ok ==> host == old(OnDevice()) && pendingSlot == -1
      ensures !ok ==> pendingSlot == old(pendingSlot)
      ensures calls >= old(calls) && (Granted(answers, old(calls), calls) ==> ok)
    {
      ok := Ask();
      if ok {
        host := FoldRows(dev.past, dev.present, 0, pendingSlot, 1);
        pendingSlot := -1;
      } else {
        var torn: seq<Row> := *;
        host := if |torn| == C then torn else host;
      }
    }

    /** Rows 0..n-1 of a present into slots startSlot..; a missing output may leave some layers folded. */
    method FoldPresent(present: seq<Row>, n: nat, startSlot: nat) returns (ok: bool)
      requires |host| == C && n <= |present| && startSlot + n <= C
      modifies this`host, this`calls
      ensures |host| == C && host[..startSlot] == old(host)[..startSlot]
      ensures ok ==> host == FoldRows(old(host), present, 0, startSlot, n)
      ensures calls >= old(calls) && (Granted(answers, old(calls), calls) ==> ok)
    {
      ok := Ask();
      if ok {
        host := FoldRows(host, present, 0, startSlot, n);
      } else {
        var torn: seq<Row> := *;
        if |torn| == C && torn[..startSlot] == host[..startSlot] {
          host := torn;
        }
      }
    }

    /** A turn boundary: the cache comes back from the device, and the next decode step re-seeds it. */
    method BringToHost() returns (ok: bool)
      requires Valid()
      modifies this`host, this`pendingSlot, this`cacheOnDevice, this`rebindPastNextStep, this`calls
      ensures Valid() && (ok ==> !cacheOnDevice)
      ensures calls >= old(calls) && (Granted(answers, old(calls), calls) ==> ok)
    {
      hide Live;
      ok := true;
      if decodeLinked && cacheOnDevice {
        ok := MaterializeDeviceCache();
        if ok {
          cacheOnDevice, rebindPastNextStep := false, true;
        }
      }
    }

    /**
      Prefills a prompt.  -2: the context is full, nothing changed; -1: any other error, the
      conversation is unchanged; 0: every token is in the cache and the output is the
      reference's.
     */
    method Prefill(toks: seq<Token>, padId: Token) returns (rc: int)
      requires Valid()
      modifies this
      ensures Valid() && (rc == 0 || rc == -1 || rc == -2)
      ensures rc == -2 <==> 0 < |toks| <= prefillS && old(p) + |toks| + 1 > C
      ensures rc == 0 ==> toks != [] && hist == old(hist) + toks && last == Last(m, C, hist)
      ensures rc != 0 ==> hist == old(hist)
      ensures calls >= old(calls) && (Granted(answers, old(calls), calls) ==> (rc == -1 <==> toks == [] || |toks| > prefillS))
    {
      hide Live, Last, AreSteps;
      if |toks| <= 0 || |toks| > prefillS {
        return -1;
      }
      if p + |toks| + 1 > C {
        return -2;
      }
      var onHost := BringToHost();
      if !onHost {
        return -1;
      }
      var ids, pos := BuildPrompt(p, prefillS, toks, padId);
      var mask := BuildMatrix(p, C, prefillS);
      var ran := Ask();
      if !ran {
        return -1;
      }
      var outs := MatrixForward(m, host, ids, pos, mask, prefillS);
      PromptIsSteps(m, C, hist, host, prefillS, toks, ids, pos, mask);
      rc := FinishPrefill(toks, outs);
    }

    /** Folds a prompt's real rows and keeps its last logits. */
    method FinishPrefill(toks: seq<Token>, outs: seq<Out>) returns (rc: int)
      requires Valid() && !cacheOnDevice && toks != [] && p + |toks| + 1 <= C
      requires AreSteps(m, C, hist, toks, outs)
      modifies this
      ensures Valid() && (rc == 0 || rc == -1)
      ensures rc == 0 ==> hist == old(hist) + toks && last == Last(m, C, hist)
      ensures rc != 0 ==> hist == old(hist)
      ensures calls >= old(calls) && (Granted(answers, old(calls), calls) ==> rc == 0)
    {
      hide Live, Last;
      var present := RowsOf(outs);
      assert present[0..|toks|] == RowsOf(outs[..|toks|]);
      FoldHoldsWindow(m, C, hist, toks, outs, host, present, 0);
      var past := host;
      var folded := FoldPresent(present, |toks|, p);
      assert host[..|Live(m, C, hist)|] == past[..|Live(m, C, hist)|];
      if !folded {
        return -1;
      }
      var found := Ask();
      if !found {
        return -1;
      }
      assert toks[..|toks|] == toks;
      last := outs[|toks| - 1];
      p, hist := p + |toks|, hist + toks;
      return 0;
    }

    /** The mask row of a step: the past slots below p and the step's own column. */
    method StepRow() returns (mask: seq<int>)
      ensures |mask| == C + 1 && forall c | 0 <= c < C + 1 :: mask[c] == if c < p || c == C then 1 else 0
    {
      mask := [];
      var c := 0;
      while c < C + 1
        invariant 0 <= c <= C + 1 && |mask| == c
        invariant forall k | 0 <= k < c :: mask[k] == if k < p || k == C then 1 else 0
      {
        mask := mask + [if c < p || c == C then 1 else 0];
        c := c + 1;
      }
    }

    /**
      One decode step.  -2: the context is full, nothing changed; -1: any other error, the
      conversation is unchanged and the cache still holds it; 0: the token is fed.  The slot
      clamp is never taken.
     */
    method Step(tok: Token) returns (rc: int)
      requires Valid()
      modifies this
      ensures Valid() && (rc == 0 || rc == -1 || rc == -2)
      ensures rc == -2 <==> old(p) + 1 > C - 1
      ensures rc == 0 ==> hist == old(hist) + [tok] && last == Last(m, C, hist)
      ensures rc != 0 ==> hist == old(hist)
      ensures calls >= old(calls) && (Granted(answers, old(calls), calls) ==> rc != -1 && decodeLinked == old(decodeLinked))
    {
      hide Live, Last;
      if p + 1 > C - 1 {
        return -2;
      }
      var mask := StepRow();
      var window: seq<int> := mask;
      assert IsWindow(p, C, 1, [tok], [tok], [p], window);
      if decodeLinked {
        var linksOk := Ask();
        if linksOk {
          rc := StepLinked(tok, window);
          return;
        }
        var onHost := DropLinks();
        if !onHost {
          return -1;
        }
      }
      rc := StepHost(tok, window);
    }

    /** A link failure: whatever lived on the device comes to the host, and the links go. */
    method DropLinks() returns (ok: bool)
      requires Valid() && decodeLinked
      modifies this`host, this`pendingSlot, this`decodeLinked, this`cacheOnDevice, this`rebindPastNextStep, this`calls
      ensures Valid() && (ok ==> !decodeLinked)
      ensures calls >= old(calls) && (Granted(answers, old(calls), calls) ==> ok)
    {
      hide Live;
      ok := true;
      if cacheOnDevice {
        ok := MaterializeDeviceCache();
      }
      if ok {
        decodeLinked, cacheOnDevice, rebindPastNextStep := false, false, false;
      }
    }

    /** The linked run; a rebind binds the host rows and arms nothing. */
    method RunDevice(granted: bool, tok: Token, mask: seq<int>) returns (out: Out)
      requires Valid() && decodeLinked && p + 1 <= C - 1 && IsWindow(p, C, 1, [tok], [tok], [p], mask)
      modifies this`dev, this`rebindPastNextStep, this`cacheOnDevice, this`pendingSlot
      ensures Valid()
      ensures granted ==> && cacheOnDevice && !rebindPastNextStep && Holds(OnDevice(), Live(m, C, hist + [tok]))
                          && out == Last(m, C, hist + [tok])
    {
      hide Live, Last, Forward;
      var rebind := rebindPastNextStep || !cacheOnDevice;
      var arm := Arm(0, if rebind then -1 else pendingSlot, 1);
      var after, outs := Run(granted, m, dev, if rebind then Bind(host) else Keep, arm, [tok], [p], mask, 1);
      if !granted {
        if !rebind {
          FoldTwice(dev.past, dev.present, 0, pendingSlot, 1);
        }
        dev, out := after, last;
        return;
      }
      assert after.present[0..] == after.present;
      StepIsLast(m, C, hist, after.past, tok, [tok], [p], mask);
      FoldHoldsStep(m, C, hist, tok, after.past, after.present, 0);
      PendingAbove(m, C, hist, after.past, after.present, p);
      dev, rebindPastNextStep, cacheOnDevice, pendingSlot := after, false, true, p;
      out := outs[0];
    }

    /** The linked step. */
    method StepLinked(tok: Token, mask: seq<int>) returns (rc: int)
      requires Valid() && decodeLinked && p + 1 <= C - 1 && IsWindow(p, C, 1, [tok], [tok], [p], mask)
      modifies this`dev, this`rebindPastNextStep, this`cacheOnDevice, this`pendingSlot, this`last, this`hist, this`p, this`calls
      ensures Valid() && (rc == 0 || rc == -1)
      ensures rc == 0 ==> hist == old(hist) + [tok] && last == Last(m, C, hist)
      ensures rc != 0 ==> hist == old(hist)
      ensures calls >= old(calls) && (Granted(answers, old(calls), calls) ==> rc == 0)
    {
      hide Live, Last, Holds, IsWindow;
      var ok := Ask();
      var out := RunDevice(ok, tok, mask);
      if !ok {
        return -1;
      }
      var found := Ask();
      if !found {
        return -1;
      }
      last := out;
      p, hist := p + 1, hist + [tok];
      return 0;
    }

    /** The host step. */
    method StepHost(tok: Token, mask: seq<int>) returns (rc: int)
      requires Valid() && !decodeLinked && p + 1 <= C - 1 && IsWindow(p, C, 1, [tok], [tok], [p], mask)
      modifies this`host, this`last, this`hist, this`p, this`calls
      ensures Valid() && (rc == 0 || rc == -1)
      ensures rc == 0 ==> hist == old(hist) + [tok] && last == Last(m, C, hist)
      ensures rc != 0 ==> hist == old(hist)
      ensures calls >= old(calls) && (Granted(answers, old(calls), calls) ==> rc == 0)
    {
      hide Live, Last, Forward;
      var ok := Ask();
      if !ok {
        return -1;
      }
      var present, outs := RunHost(m, host, [tok], [p], mask, 1);
      StepIsLast(m, C, hist, host, tok, [tok], [p], mask);
      assert present[0..] == present;
      FoldHoldsStep(m, C, hist, tok, host, present, 0);
      var past := host;
      var folded := FoldPresent(present, 1, p);
      assert host[..|Live(m, C, hist)|] == past[..|Live(m, C, hist)|];
      if !folded {
        return -1;
      }
      var found := Ask();
      if !found {
        return -1;
      }
      last := outs[0];
      p, hist := p + 1, hist + [tok];
      return 0;
    }
  }

  /** A row pending at or past the history's length does not disturb it. */
  lemma PendingAbove(m: Model, C: nat, hist: seq<Token>, past: seq<Row>, present: seq<Row>, slot: nat)
    requires C > 0 && |past| == C && |present| == 1 && |hist| <= slot < C && Holds(past, Live(m, C, hist))
    ensures Holds(FoldRows(past, present, 0, slot, 1), Live(m, C, hist))
  {
  }
}
