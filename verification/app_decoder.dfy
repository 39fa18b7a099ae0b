/**
  The app's text decoder: reset, prefill and step in any order, linked or on the host
  loop, with failures anywhere.
 */
module AppDecoder {
  import opened DecoderModel
  import opened IoLink
  import opened GraphPass
  import opened Engine
  import opened ChatSteps
  import opened Reseeding

  /** Copies of the app decoder; its linked runs always leave their row pending. */
  function AppCopies(host: seq<Row>, dec: Resident, linked: bool, dirty: bool, rebind: bool): Copies {
    Copies(host, dec, linked, dirty, rebind, true)
  }

  class Decoder {
    const m: Model
    const C: nat
    const presRows: nat
    const prefillS: nat
    const prefillPresRows: nat
    const answers: Answers
    var calls: nat              // requests made of the session
    var host: seq<Row>
    var dec: Resident
    var p: nat
    var kvLinked: bool
    var rebindPastNextStep: bool
    var residentDirty: bool
    var last: Out
    ghost var hist: seq<Token>
    ghost var hazard: bool      // a stale resident cache may be in use (see README)
    ghost var linkedRuns: nat   // linked runs tried so far

    function View(): Copies
      reads this`host, this`dec, this`kvLinked, this`residentDirty, this`rebindPastNextStep
    {
      AppCopies(host, dec, kvLinked, residentDirty, rebindPastNextStep)
    }

    ghost predicate Valid()
      reads this
    {
      && Sized(View(), C) && |dec.present| == presRows && prefillPresRows >= prefillS && p == |hist|
      && (!hazard ==> Coherent(m, C, hist, View()))
    }

    constructor (m: Model, C: nat, presRows: nat, prefillS: nat, prefillPresRows: nat, linked: bool, answers: Answers)
      requires C > 0 && presRows > 0 && prefillPresRows >= prefillS
      ensures Valid() && hist == [] && !hazard && kvLinked == linked && this.answers == answers && calls == 0
      ensures this.m == m && this.C == C && this.prefillS == prefillS
    {
      this.m, this.C, this.presRows, this.prefillS, this.prefillPresRows := m, C, presRows, prefillS, prefillPresRows;
      this.answers, calls := answers, 0;
      host := seq(C, _ => Row([]));
      dec := Resident(seq(C, _ => Row([])), seq(presRows, _ => Row([])));
      p, kvLinked, rebindPastNextStep, residentDirty := 0, linked, false, false;
      last := Out(Row([]), [0.0]);
      hist, hazard, linkedRuns := [], false, 0;
    }

    /** A link update, a run or a readback: the session grants or refuses it. */
    method Ask() returns (ok: bool)
      modifies this`calls
      ensures calls == old(calls) + 1 && ok == answers(old(calls))
    {
      ok, calls := answers(calls), calls + 1;
    }

    /** A reset starts an empty conversation from any state, a hazardous one included. */
    method Reset()
      requires Valid()
      modifies this
      ensures Valid() && hist == [] && !hazard && kvLinked == old(kvLinked)
      ensures forall row | row in host :: row == Row([])
    {
      p := 0;
      host := seq(C, _ => Row([]));
      rebindPastNextStep, residentDirty := kvLinked, false;
      hist, hazard := [], false;
    }

    /** Resident cache plus pending row back to the host; a refusal may leave the host buffers torn. */
    method ResyncHostCache() returns (ok: bool)
      requires Sized(View(), C) && |dec.present| == presRows
      modifies this`host, this`calls
      ensures |host| == C
      ensures ok ==> host == Materialized(old(View()), p, C)
      ensures calls >= old(calls) && (Granted(answers, old(calls), calls) ==> ok)
    {
      var pendingSlot := if p > 0 then Min(p - 1, C - 1) else -1;
      ok := Ask();
      if ok {
        host := FoldRows(dec.past, dec.present, presRows - 1, pendingSlot, 1);
      } else {
        var torn: seq<Row> := *;
        host := if |torn| == C then torn else host;
      }
    }

    /** The linked run: bind the host rows when a rebind is owed, else fold the pending row first. */
    method RunLinked(granted: bool, tok: Token, ids: seq<Token>, pos: seq<nat>, mask: seq<int>) returns (out: Out)
      requires Valid() && kvLinked && IsWindow(p, C, 1, [tok], ids, pos, mask)
      modifies this`dec, this`rebindPastNextStep, this`residentDirty, this`linkedRuns
      ensures Sized(View(), C) && |dec.present| == presRows && !rebindPastNextStep && residentDirty
      ensures linkedRuns == old(linkedRuns) + 1
      ensures granted && !hazard ==> Coherent(m, C, hist + [tok], View()) && out == Last(m, C, hist + [tok])
      ensures !granted && !hazard && !(old(rebindPastNextStep) && hist != []) ==> Coherent(m, C, hist, View())
    {
      hide Live, Last, Forward, Holds, Coherent, FoldRows;
      ghost var v := View();
      var rebind := rebindPastNextStep;
      var arm := Arm(presRows - 1, if rebind || p == 0 then -1 else Min(p - 1, C - 1), 1);
      assert arm == StepArm(v, p, C);
      if !hazard {
        StepBaseHolds(m, C, hist, v);
      }
      var after, outs := Run(granted, m, dec, if rebind then Bind(host) else Keep, arm, ids, pos, mask, presRows);
      rebindPastNextStep, residentDirty, linkedRuns := false, true, linkedRuns + 1;
      dec := after;
      out := if granted then outs[0] else last;
      if !hazard {
        if granted {
          LinkedStepHolds(m, C, hist, tok, v, after, outs, ids, pos, mask);
        } else if !(rebind && hist != []) {
          FailedRunKeeps(m, C, hist, v, after);
        }
      }
    }

    /** The linked half of a step.  A failed run that owed a rebind has still cleared the flag. */
    method StepLinked(granted: bool, tok: Token, ids: seq<Token>, pos: seq<nat>, mask: seq<int>)
      requires Valid() && kvLinked && IsWindow(p, C, 1, [tok], ids, pos, mask)
      modifies this`dec, this`rebindPastNextStep, this`residentDirty, this`last, this`hist, this`p, this`hazard, this`linkedRuns
      ensures Valid() && !rebindPastNextStep && residentDirty && linkedRuns == old(linkedRuns) + 1
      ensures granted ==> hist == old(hist) + [tok] && hazard == old(hazard) && (!hazard ==> last == Last(m, C, hist))
      ensures !granted ==> hist == old(hist) && hazard == (old(hazard) || (old(rebindPastNextStep) && hist != []))
    {
      hide Live, Last, Coherent, IsWindow;
      ghost var rebind := rebindPastNextStep;
      var out := RunLinked(granted, tok, ids, pos, mask);
      if granted {
        last, hist, p := out, hist + [tok], p + 1;
      } else {
        hazard := hazard || (rebind && hist != []);
      }
    }

    /** The host half of a step. */
    method StepHost(tok: Token, ids: seq<Token>, pos: seq<nat>, mask: seq<int>)
      requires Valid() && !kvLinked && IsWindow(p, C, 1, [tok], ids, pos, mask)
      modifies this`host, this`last, this`hist, this`p
      ensures Valid() && hist == old(hist) + [tok] && (!hazard ==> last == Last(m, C, hist))
    {
      hide Live, Last, Forward;
      var present, outs := RunHost(m, host, ids, pos, mask, presRows);
      if !hazard {
        HostStepHolds(m, C, hist, tok, host, present, outs, ids, pos, mask);
      }
      var slot := if p < C then p else C - 1;
      host := FoldRows(host, present, presRows - 1, slot, 1);
      last := outs[0];
      hist, p := hist + [tok], p + 1;
    }

    /**
      What a step that began linked, with a conversation begun, has lost: with the links dropped, an owed
      rebind; with the links up, nothing unless it failed - then an owed rebind, or a host copy that was
      true as well and that a refused readback overwrote.
     */
    predicate Loses(rebind: bool, failed: bool)
      reads this`kvLinked, this`residentDirty
    {
      if kvLinked then failed && (rebind || !residentDirty) else rebind
    }

    /**
      Feeds one token.  Linked or not, the output is the reference's at every position; a
      link failure drops to the host loop and loses the conversation exactly when a rebind
      was owed to a conversation already begun.
     */
    method Step(tok: Token) returns (ok: bool)
      requires Valid()
      modifies this
      ensures Valid() && (kvLinked ==> old(kvLinked))
      ensures ok ==> hist == old(hist) + [tok] && (!hazard ==> last == Last(m, C, hist))
      ensures !ok ==> hist == old(hist)
      ensures hazard == (old(hazard) || (old(kvLinked) && old(hist) != [] && Loses(old(rebindPastNextStep), !ok)))
      ensures (ok && kvLinked ==> !rebindPastNextStep && residentDirty) && (kvLinked && old(residentDirty) ==> residentDirty)
      ensures linkedRuns >= old(linkedRuns) && (ok && kvLinked ==> linkedRuns > old(linkedRuns)) && (!kvLinked ==> linkedRuns == old(linkedRuns))
      ensures calls >= old(calls) && (Granted(answers, old(calls), calls) ==> ok && kvLinked == old(kvLinked))
    {
      hide Live, Last, Holds, IsWindow, Coherent;
      var ids, pos, mask := BuildWindow(p, C, 1, [tok], 0);
      if kvLinked {
        var linksOk := Ask();
        if linksOk {
          ok := Ask();
          StepLinked(ok, tok, ids, pos, mask);
          return;
        }
        ok := FallBackToHost();
        if !ok {
          return;
        }
      }
      ok := Ask();
      if ok {
        StepHost(tok, ids, pos, mask);
      }
    }

    /** A link failure; a refused resync tears the host buffers, which matters when they were the true copy. */
    method FallBackToHost() returns (ok: bool)
      requires Valid() && kvLinked
      modifies this`host, this`kvLinked, this`rebindPastNextStep, this`residentDirty, this`hazard, this`calls
      ensures Valid() && (ok ==> !kvLinked)
      ensures !ok ==> kvLinked && residentDirty == old(residentDirty)
      ensures ok ==> hazard == (old(hazard) || (old(rebindPastNextStep) && hist != []))
      ensures !ok ==> hazard == (old(hazard) || (old(rebindPastNextStep || !residentDirty) && hist != []))
      ensures calls >= old(calls) && (Granted(answers, old(calls), calls) ==> ok)
    {
      hide Live, Last, Holds, Materialized;
      ghost var v := View();
      ok := ResyncHostCache();
      if !ok {
        hazard := hazard || ((rebindPastNextStep || !residentDirty) && hist != []);
        if !hazard {
          EmptyHolds(m, C, host);
          HostReplaced(m, C, hist, v, host);
        }
        return;
      }
      hazard := hazard || (rebindPastNextStep && hist != []);
      if !hazard {
        ResyncKeeps(m, C, hist, v, host);
      }
      kvLinked, rebindPastNextStep, residentDirty := false, false, false;
    }

    /** One prefill window on the host cache flow; a failure may have folded some layers' rows past p. */
    method PrefillPass(toks: seq<Token>) returns (ok: bool)
      requires Sized(View(), C) && prefillPresRows >= prefillS && p == |hist| && 0 < |toks| <= prefillS && p + |toks| <= C
      requires !hazard ==> Holds(host, Live(m, C, hist))
      modifies this`host, this`last, this`hist, this`p, this`calls
      ensures |host| == C && p == |hist|
      ensures !hazard ==> Holds(host, Live(m, C, hist))
      ensures ok ==> hist == old(hist) + toks && (!hazard ==> last == Last(m, C, hist))
      ensures !ok ==> hist == old(hist)
      ensures calls >= old(calls) && (Granted(answers, old(calls), calls) ==> ok)
    {
      hide Live, Last, Forward, AreSteps;
      ok := Ask();
      if !ok {
        return;
      }
      var complete := Ask();
      if !complete {
        var torn: seq<Row> := *;
        if |torn| == C && torn[..p] == host[..p] {
          host := torn;
        }
        return false;
      }
      host, last := HostWindow(m, C, host, p, prefillS, prefillPresRows, toks, hist, !hazard);
      p, hist := p + |toks|, hist + toks;
    }

    /** The prefill windows; the flags are the caller's to settle. */
    method PrefillWindows(toks: seq<Token>) returns (ok: bool, consumed: nat)
      requires Sized(View(), C) && prefillPresRows >= prefillS > 0 && p == |hist| && toks != [] && p + |toks| <= C
      requires !hazard ==> Holds(host, Live(m, C, hist))
      modifies this`host, this`last, this`hist, this`p, this`calls
      ensures |host| == C && p == |hist| && consumed <= |toks| && hist == old(hist) + toks[..consumed]
      ensures !hazard ==> Holds(host, Live(m, C, hist))
      ensures ok ==> consumed == |toks| && (!hazard ==> last == Last(m, C, hist))
      ensures calls >= old(calls) && (Granted(answers, old(calls), calls) ==> ok)
    {
      hide Live, Last, Holds;
      consumed := 0;
      assert hist + toks[..0] == hist;
      while consumed < |toks|
        invariant consumed <= |toks| && |host| == C && p == |hist| && hist == old(hist) + toks[..consumed] && calls >= old(calls)
        invariant !hazard ==> Holds(host, Live(m, C, hist))
        invariant consumed > 0 && !hazard ==> last == Last(m, C, hist)
      {
        var len := Min(|toks| - consumed, prefillS);
        ok := PrefillPass(toks[consumed..consumed + len]);
        if !ok {
          return;
        }
        assert toks[..consumed] + toks[consumed..consumed + len] == toks[..consumed + len];
        consumed := consumed + len;
      }
      ok := true;
    }

    /**
      Without a prefill bucket only the first step of a prompt can lose anything: later ones owe nothing
      and find the resident copy ahead of the host.
     */
    ghost predicate FirstStepLoses(rebind: bool, failedAtOnce: bool, runs: nat)
      reads this`kvLinked, this`residentDirty, this`linkedRuns
    {
      if kvLinked then failedAtOnce && (rebind || !residentDirty) else rebind && linkedRuns == runs
    }

    /**
      Feeds a whole prompt.  0: every token is fed and the output is the reference's; -2:
      refused, nothing changed; -1: some prefix is fed.  A failure after a window already
      succeeded leaves the resident cache behind without owing it a rebind: the hazard here.
     */
    method Prefill(toks: seq<Token>) returns (rc: int)
      requires Valid()
      modifies this
      ensures rc == 0 || rc == -1 || rc == -2
      ensures rc == -2 <==> toks != [] && old(p) + |toks| > C - 1
      ensures rc == -2 ==> Valid() && View() == old(View()) && hist == old(hist) && hazard == old(hazard)
      ensures rc == 0 ==> Valid() && hist == old(hist) + toks && (toks != [] && !hazard ==> last == Last(m, C, hist))
      ensures Valid() && (kvLinked ==> old(kvLinked)) && (rc == -1 ==> old(hist) <= hist <= old(hist) + toks)
      ensures prefillS > 0 ==> hazard == (old(hazard) || (rc == -1 && kvLinked && !old(rebindPastNextStep) && hist != old(hist)))
      ensures prefillS == 0 ==>
                hazard == (old(hazard) || (old(kvLinked) && old(hist) != [] && FirstStepLoses(old(rebindPastNextStep), rc == -1 && hist == old(hist), old(linkedRuns))))
      ensures calls >= old(calls) && (Granted(answers, old(calls), calls) ==> rc != -1 && kvLinked == old(kvLinked))
    {
      hide Live, Last;
      if toks == [] {
        assert hist + toks == hist;
        return 0;
      }
      if p + |toks| > C - 1 {
        return -2;
      }
      if prefillS > 0 {
        rc := PrefillBatched(toks);
        return;
      }
      var consumed := 0;
      assert hist + toks[..0] == hist;
      while consumed < |toks|
        invariant consumed <= |toks| && Valid() && hist == old(hist) + toks[..consumed]
        invariant consumed > 0 && !hazard ==> last == Last(m, C, hist)
        invariant (kvLinked ==> old(kvLinked)) && linkedRuns >= old(linkedRuns)
        invariant calls >= old(calls) && (Granted(answers, old(calls), calls) ==> kvLinked == old(kvLinked))
        invariant consumed == 0 ==> kvLinked == old(kvLinked) && rebindPastNextStep == old(rebindPastNextStep) && linkedRuns == old(linkedRuns)
        invariant consumed == 0 ==> hazard == old(hazard)
        invariant consumed > 0 && kvLinked ==> !rebindPastNextStep && residentDirty && linkedRuns > old(linkedRuns) && hazard == old(hazard)
        invariant consumed > 0 && !kvLinked ==>
                    hazard == (old(hazard) || (old(kvLinked && rebindPastNextStep) && old(hist) != [] && linkedRuns == old(linkedRuns)))
      {
        var ok := Step(toks[consumed]);
        if !ok {
          return -1;
        }
        assert toks[..consumed] + [toks[consumed]] == toks[..consumed + 1];
        consumed := consumed + 1;
      }
      assert toks[..consumed] == toks;
      return 0;
    }

    /** A dirty resident cache comes to the host before the prefill runs there. */
    method SyncForPrefill() returns (ok: bool)
      requires Valid()
      modifies this`host, this`residentDirty, this`calls
      ensures Valid() && (ok ==> !kvLinked || !residentDirty)
      ensures calls >= old(calls) && (Granted(answers, old(calls), calls) ==> ok)
    {
      hide Live, Holds;
      ok := true;
      if kvLinked && residentDirty {
        ghost var v := View();
        ok := ResyncHostCache();
        if ok {
          residentDirty := false;
        } else if !hazard {
          HostReplaced(m, C, hist, v, host);
        }
      }
    }

    /** The batched route of Prefill. */
    method PrefillBatched(toks: seq<Token>) returns (rc: int)
      requires Valid() && prefillS > 0 && toks != [] && p + |toks| <= C
      modifies this
      ensures rc == 0 || rc == -1
      ensures Valid() && kvLinked == old(kvLinked)
      ensures rc == 0 ==> hist == old(hist) + toks && hazard == old(hazard) && (!hazard ==> last == Last(m, C, hist))
      ensures rc == -1 ==> && old(hist) <= hist <= old(hist) + toks
                           && hazard == (old(hazard) || (kvLinked && !old(rebindPastNextStep) && hist != old(hist)))
      ensures calls >= old(calls) && (Granted(answers, old(calls), calls) ==> rc == 0)
    {
      hide Live, Last, Materialized, FoldRows;
      assert hist + toks[..0] == hist;
      var synced := SyncForPrefill();
      if !synced {
        return -1;
      }
      ghost var v := View();
      var ok, consumed := PrefillWindows(toks);
      if consumed == 0 && !hazard {
        HostReplaced(m, C, hist, v, host);
      }
      if !ok {
        hazard := hazard || (kvLinked && !rebindPastNextStep && consumed > 0);
        return -1;
      }
      assert toks[..consumed] == toks;
      rebindPastNextStep := kvLinked && consumed > 0;
      return 0;
    }
  }

  /** New host bytes do no harm when they hold the history, or while the resident copy is the true one. */
  lemma HostReplaced(m: Model, C: nat, hist: seq<Token>, v: Copies, host: seq<Row>)
    requires Sized(v, C) && |host| == C && Coherent(m, C, hist, v)
    requires Holds(host, Live(m, C, hist)) || (v.linked && v.dirty && !v.reseed)
    ensures Coherent(m, C, hist, v.(host := host))
  {
  }

  lemma EmptyHolds(m: Model, C: nat, cache: seq<Row>)
    requires C > 0
    ensures Holds(cache, Live(m, C, []))
  {
  }

  /** A resync that owed nothing hands the history to the host. */
  lemma ResyncKeeps(m: Model, C: nat, hist: seq<Token>, v: Copies, host: seq<Row>)
    requires Sized(v, C) && v.linked && Coherent(m, C, hist, v) && (v.reseed ==> hist == [])
    requires host == Materialized(v, |hist|, C)
    ensures Coherent(m, C, hist, Copies(host, v.dec, false, false, false, v.pending))
  {
    assert hist == [] ==> Live(m, C, hist) == [];
  }

  /**
    Prefill fails after `fed` tokens went through earlier windows: the host has them, the
    resident cache does not, and the rebind flag is whatever it was.  The two copies stay
    coherent, whatever the resident one held, exactly when a rebind was already owed (or
    nothing was fed).
   */
  lemma FailedPrefillExact(m: Model, C: nat, hist: seq<Token>, fed: seq<Token>, rebind: bool)
    requires C > 0 && |hist| + |fed| < C
    ensures (forall v: Copies, host: seq<Row> | Sized(v, C) && Coherent(m, C, hist, v) && v.linked && v.pending && !v.dirty && v.reseed == rebind
                                                && |host| == C && host[..|hist|] == v.host[..|hist|] && Holds(host, Live(m, C, hist + fed)) ::
               Coherent(m, C, hist + fed, v.(host := host)))
       <==> rebind || fed == []
  {
    assert hist + [] == hist;
    if !rebind && fed != [] {
      var v, host := BehindResident(m, C, hist, fed);
      assert !Coherent(m, C, hist + fed, v.(host := host));
    }
  }

  /** A resident cache that agreed with the host at `hist` and cannot stand for `hist + fed`. */
  lemma BehindResident(m: Model, C: nat, hist: seq<Token>, fed: seq<Token>) returns (v: Copies, host: seq<Row>)
    requires C > 0 && |hist| + |fed| < C && fed != []
    ensures Sized(v, C) && Coherent(m, C, hist, v) && v.linked && v.pending && !v.dirty && !v.reseed
    ensures |host| == C && host[..|hist|] == v.host[..|hist|] && Holds(host, Live(m, C, hist + fed))
    ensures !Holds(Materialized(v.(host := host), |hist + fed|, C), Live(m, C, hist + fed))
  {
    hide Live;
    LivePrefix(m, C, hist, fed);
    var live, more, n := Live(m, C, hist), Live(m, C, hist + fed), |hist|;
    // The newest row pends in the present; its own slot, and every later one, is stale.
    var at := if n > 0 then n - 1 else 0;
    var stale := Row(more[at].heads + [[]]);
    var past := live[..at] + seq(C - at, _ => stale);
    var present := [if n > 0 then live[n - 1] else stale];
    v := Copies(live + seq(C - n, _ => stale), Resident(past, present), true, false, false, true);
    host := more + seq(C - |more|, _ => stale);
    assert host[..n] == more[..n] == live == v.host[..n];
    assert Materialized(v, n, C)[..n] == live;
    assert |hist + fed| == n + |fed| && (at == n + |fed| - 1 ==> n == 0);
    StaleAfter(m, C, hist + fed, v.(host := host), at, stale);
  }

  lemma StaleAfter(m: Model, C: nat, hist: seq<Token>, v: Copies, at: nat, stale: Row)
    requires Sized(v, C) && v.linked && v.pending && !v.reseed && at < |hist| < C
    requires v.dec.past[at] == stale && stale != Live(m, C, hist)[at]
    requires at == |hist| - 1 ==> v.dec.present[|v.dec.present| - 1] == stale
    ensures !Holds(Materialized(v, |hist|, C), Live(m, C, hist))
  {
    assert Materialized(v, |hist|, C)[at] == stale;
    assert Materialized(v, |hist|, C)[..|hist|][at] == stale;
  }
}
