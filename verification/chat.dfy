/**
  The interactive decode driver: one conversation, one logical cache, five ways to
  advance it.
 */
module ChatDriver {
  import opened DecoderModel
  import opened IoLink
  import opened GraphPass
  import opened Engine
  import opened Draft
  import opened SpecDecode
  import opened ChatConfig
  import opened ChatSteps
  import opened ChatChain
  import opened ChatStream
  import opened ChatTranscript
  import opened ChatGuard

  class Chat {
    const cfg: Config
    const draft: DraftDecoder
    const answers: Answers
    var lines: seq<Line>
    var p: nat
    var host: seq<Row>
    var dec: Resident
    var chunk: Resident
    var spec: Resident
    var kvLink: bool
    var residentDirty: bool
    var reseedCache: bool
    var pendingResidentFold: bool
    var chunkBucket: bool
    var last: Out
    var lastFromDecode: bool
    var fedTokens: seq<Token>
    var draftValid: nat
    var calls: nat              // requests made of the session
    ghost var hist: seq<Token>  // every token fed, in order
    ghost var hazard: bool      // a stale resident cache was taken for the conversation (see README)
    ghost var draftExact: bool  // no round was accepted in full (see README)

    constructor (cfg: Config, draft: DraftDecoder, answers: Answers)
      requires cfg.Valid() && draft.Valid()
      ensures this.cfg == cfg && this.draft == draft && this.answers == answers && calls == 0
      ensures Tracked() && draftExact
      ensures Ready() && hist == [] && lines == [] && !hazard && fedTokens == [] && draftValid == 0
    {
      this.cfg, this.draft, this.answers := cfg, draft, answers;
      lines, p, fedTokens, draftValid, calls := [], 0, [], 0, 0;
      host := seq(cfg.C, _ => Row([]));
      dec := Resident(seq(cfg.C, _ => Row([])), seq(cfg.presRows, _ => Row([])));
      chunk := Resident(seq(cfg.C, _ => Row([])), seq(cfg.chunkPresRows, _ => Row([])));
      spec := Resident(seq(cfg.C, _ => Row([])), seq(cfg.specPresRows, _ => Row([])));
      kvLink, chunkBucket := cfg.linked, cfg.chunkS > 0;
      residentDirty, reseedCache, pendingResidentFold := false, false, true;
      last, lastFromDecode := Out(Row([]), [0.0]), false;
      hist, hazard, draftExact := [], false, true;
    }

    function View(): Copies
      reads this`host, this`dec, this`kvLink, this`residentDirty, this`reseedCache, this`pendingResidentFold
    {
      Copies(host, dec, kvLink, residentDirty, reseedCache, pendingResidentFold)
    }

    ghost predicate Shape()
      reads this`host, this`dec, this`chunk, this`spec, this`kvLink, this`residentDirty
      reads this`reseedCache, this`pendingResidentFold, this`chunkBucket, this`hazard
    {
      && cfg.Valid() && Sized(View(), cfg.C) && |dec.present| == cfg.presRows
      && |chunk.past| == cfg.C && |chunk.present| == cfg.chunkPresRows
      && |spec.past| == cfg.C && |spec.present| == cfg.specPresRows
      && (kvLink ==> cfg.linked)
      && (chunkBucket ==> cfg.chunkS > 0)
      && (reseedCache ==> cfg.Reseeds())
      && (hazard ==> cfg.linked && cfg.Reseeds())
    }

    /** Unless a stale copy was taken for the true one, there is one logical cache and it is the history's. */
    ghost predicate Inv()
      reads this`host, this`dec, this`chunk, this`spec, this`kvLink, this`residentDirty
      reads this`reseedCache, this`pendingResidentFold, this`chunkBucket, this`hazard, this`hist
    {
      Shape() && (!hazard ==> Coherent(cfg.m, cfg.C, hist, View()))
    }

    ghost predicate Ready()
      reads this`host, this`dec, this`chunk, this`spec, this`kvLink, this`residentDirty
      reads this`reseedCache, this`pendingResidentFold, this`chunkBucket, this`hazard, this`hist, this`p
    {
      cfg.Valid() && (hazard ==> cfg.linked && cfg.Reseeds()) && (chunkBucket ==> cfg.chunkS > 0) && Inv() && p == |hist|
    }

    /** A link update, a run or a readback: the session grants or refuses it. */
    method Ask() returns (ok: bool)
      modifies this`calls
      ensures calls == old(calls) + 1 && ok == answers(old(calls))
    {
      ok, calls := answers(calls), calls + 1;
    }

    /**
      Reads the resident cache and the pending row back into the host buffers.  A refused
      readback may have rewritten some tensors; the caller gives up.
     */
    method SyncResidentToHost(pendingSlot: int) returns (ok: bool)
      requires Shape() && pendingSlot < cfg.C
      modifies this`host, this`calls
      ensures |host| == cfg.C
      ensures ok ==> host == FoldRows(dec.past, dec.present, cfg.presRows - 1, pendingSlot, 1)
      ensures calls >= old(calls) && (Granted(answers, old(calls), calls) ==> ok)
    {
      ok := Ask();
      if ok {
        host := FoldRows(dec.past, dec.present, cfg.presRows - 1, pendingSlot, 1);
      } else {
        var torn: seq<Row> := *;
        host := if |torn| == cfg.C then torn else host;
      }
    }

    /** The linked half of a step. */
    method RunLinked(granted: bool, tok: Token, ids: seq<Token>, pos: seq<nat>, mask: seq<int>) returns (outs: seq<Out>)
      requires Ready() && kvLink && IsWindow(p, cfg.C, 1, [tok], ids, pos, mask)
      modifies this`dec, this`reseedCache, this`residentDirty, this`pendingResidentFold, this`hist
      ensures Shape() && !reseedCache
      ensures granted ==> Inv() && hist == old(hist) + [tok] && |outs| == 1
      ensures granted && !hazard ==> outs[0] == Last(cfg.m, cfg.C, hist)
    {
      hide Live, Last, Forward, Coherent, Holds;
      ghost var v := View();
      var slot := if !reseedCache && pendingResidentFold then KvFoldSlot(p, cfg.C) else -1;
      var arm := Arm(cfg.presRows - 1, slot, 1);
      assert arm == StepArm(v, p, cfg.C);
      var after;
      if reseedCache {
        after, outs := Run(granted, cfg.m, dec, Bind(host), arm, ids, pos, mask, cfg.presRows);
        reseedCache := false;
      } else {
        after, outs := Run(granted, cfg.m, dec, Keep, arm, ids, pos, mask, cfg.presRows);
      }
      dec, residentDirty, pendingResidentFold := after, true, true;
      if granted {
        if !hazard {
          StepBaseHolds(cfg.m, cfg.C, hist, v);
          LinkedStepHolds(cfg.m, cfg.C, hist, tok, v, after, outs, ids, pos, mask);
          assert View() == Copies(v.host, after, true, true, false, true);
        }
        hist := hist + [tok];
      }
    }

    /** The host half of a step: run on the bound buffers, fold the last present row into the clamped slot. */
    method RunUnlinked(tok: Token, ids: seq<Token>, pos: seq<nat>, mask: seq<int>) returns (outs: seq<Out>)
      requires Ready() && !kvLink && IsWindow(p, cfg.C, 1, [tok], ids, pos, mask)
      modifies this`host, this`hist
      ensures Inv() && hist == old(hist) + [tok] && |outs| == 1
      ensures !hazard ==> outs[0] == Last(cfg.m, cfg.C, hist)
    {
      var present;
      present, outs := RunHost(cfg.m, host, ids, pos, mask, cfg.presRows);
      if !hazard {
        HostStepHolds(cfg.m, cfg.C, hist, tok, host, present, outs, ids, pos, mask);
      }
      var slot := if p < cfg.C then p else cfg.C - 1;
      host := FoldRows(host, present, cfg.presRows - 1, slot, 1);
      hist := hist + [tok];
    }

    /**
      A link failure in mid-stream: the resident cache and its pending row come back to the
      host, the links go, and this and every later step runs on the host loop.  That loses
      the conversation exactly when a re-seed was owed, for the resident cache is then stale.
     */
    method FallBackToHost() returns (ok: bool)
      requires Ready() && kvLink
      modifies this`host, this`kvLink, this`hazard, this`calls
      ensures Shape()
      ensures ok ==> Inv() && !kvLink && hazard == (old(hazard) || reseedCache)
      ensures !ok ==> kvLink && hazard == old(hazard)
      ensures calls >= old(calls) && (Granted(answers, old(calls), calls) ==> ok)
    {
      ghost var v := View();
      var slot := if pendingResidentFold then KvFoldSlot(p, cfg.C) else -1;
      assert slot == PendingSlot(v, p, cfg.C);
      ok := SyncResidentToHost(slot);
      if ok {
        assert host == Materialized(v, p, cfg.C);
        hazard := hazard || reseedCache;
        kvLink := false;
      }
    }

    /** The forward of a step: linked, on the host, or falling back in between. */
    method StepForward(tok: Token, ids: seq<Token>, pos: seq<nat>, mask: seq<int>) returns (ok: bool, outs: seq<Out>)
      requires Ready() && IsWindow(p, cfg.C, 1, [tok], ids, pos, mask)
      modifies this`host, this`dec, this`kvLink, this`residentDirty, this`reseedCache, this`pendingResidentFold, this`calls
      modifies this`hist, this`hazard
      ensures ok ==> Inv() && hist == old(hist) + [tok] && |outs| == 1
      ensures (kvLink ==> old(kvLink)) && (ok && kvLink ==> !reseedCache)
      ensures hazard == (old(hazard) || (old(kvLink && reseedCache) && !kvLink))
      ensures hazard ==> cfg.linked && cfg.Reseeds()
      ensures ok && !hazard ==> outs[0] == Last(cfg.m, cfg.C, hist)
      ensures calls >= old(calls) && (Granted(answers, old(calls), calls) ==> ok && kvLink == old(kvLink))
    {
      hide Live, Last, Coherent, Forward, IsWindow;
      outs := [];
      if kvLink {
        var linksOk := Ask();
        if linksOk {
          ok := Ask();
          outs := RunLinked(ok, tok, ids, pos, mask);
          return;
        }
        var synced := FallBackToHost();
        if !synced {
          return false, outs;
        }
      }
      ok := Ask();
      if ok {
        outs := RunUnlinked(tok, ids, pos, mask);
      }
    }

    /** Feeds one token at position p; the caller advances p. */
    method Step(tok: Token) returns (ok: bool)
      requires Ready()
      modifies this`host, this`dec, this`kvLink, this`residentDirty, this`reseedCache, this`pendingResidentFold, this`calls
      modifies this`last, this`lastFromDecode, this`hist, this`hazard
      ensures ok ==> Inv() && hist == old(hist) + [tok]
      ensures (kvLink ==> old(kvLink)) && (ok && kvLink ==> !reseedCache)
      ensures hazard == (old(hazard) || (old(kvLink && reseedCache) && !kvLink))
      ensures hazard ==> cfg.linked && cfg.Reseeds()
      ensures ok && !hazard ==> last == Last(cfg.m, cfg.C, hist)
      ensures calls >= old(calls) && (Granted(answers, old(calls), calls) ==> ok && kvLink == old(kvLink))
    {
      hide Live, Last, Coherent, Forward, IsWindow;
      if cfg.chainActive {
        var windowSet := Ask();
        if !windowSet {
          return false;
        }
      }
      var ids, pos, mask := BuildWindow(p, cfg.C, 1, [tok], 0);
      var outs;
      ok, outs := StepForward(tok, ids, pos, mask);
      if ok {
        last, lastFromDecode := outs[0], true;
      }
    }

    /** Fold slots of a chain, iteration by iteration. */
    method ChainArms(steps: nat) returns (arms: seq<Arm>)
      requires Shape() && steps > 0
      ensures |arms| == steps && arms[0] == StepArm(View(), p, cfg.C)
      ensures forall i | 0 < i < steps :: arms[i] == Arm(cfg.presRows - 1, KvFoldSlot(p + i, cfg.C), 1)
    {
      arms := [];
      var i := 0;
      while i < steps
        invariant 0 <= i <= steps && |arms| == i
        invariant i > 0 ==> arms[0] == StepArm(View(), p, cfg.C)
        invariant forall k | 0 < k < i :: arms[k] == Arm(cfg.presRows - 1, KvFoldSlot(p + k, cfg.C), 1)
      {
        var slot := if i == 0 then (if !reseedCache && pendingResidentFold then KvFoldSlot(p, cfg.C) else -1)
                    else KvFoldSlot(p + i, cfg.C);
        arms := arms + [Arm(cfg.presRows - 1, slot, 1)];
        i := i + 1;
      }
    }

    /** The recorded chain on the device: each iteration folds, runs and feeds its choice to the next; a refused run stops at any of them. */
    method RunChain(granted: bool, tok: Token, arms: seq<Arm>, ids0: seq<Token>, pos0: seq<nat>, mask0: seq<int>) returns (chainIds: seq<Token>)
      requires Ready() && kvLink && arms != [] && IsWindow(p, cfg.C, 1, [tok], ids0, pos0, mask0)
      requires arms[0] == StepArm(View(), p, cfg.C)
      requires forall i | 0 < i < |arms| :: arms[i] == Arm(cfg.presRows - 1, KvFoldSlot(p + i, cfg.C), 1)
      modifies this`dec
      ensures |dec.past| == cfg.C && |dec.present| == cfg.presRows
      ensures granted ==> |chainIds| == |arms|
      ensures granted && !hazard ==> ChainLeft(cfg.m, cfg.C, hist, tok, chainIds, dec)
    {
      hide Live, Last, Forward, Coherent, Holds, ChainLeft, ArgMax, FoldRows;
      chainIds := [];
      var ids, pos, mask, feed := ids0, pos0, mask0, tok;
      var i := 0;
      while i < |arms|
        invariant 0 <= i <= |arms| && |chainIds| == i
        invariant |dec.past| == cfg.C && |dec.present| == cfg.presRows
        invariant i == 0 ==> feed == tok && dec == old(dec)
        invariant i > 0 ==> feed == chainIds[i - 1]
        invariant IsWindow(p + i, cfg.C, 1, [feed], ids, pos, mask)
        invariant i > 0 && !hazard ==> ChainLeft(cfg.m, cfg.C, hist, tok, chainIds, dec)
      {
        ghost var before := dec;
        var bind := if i == 0 then StepBinding(View()) else Keep;
        var reached: bool := *;
        var ran := granted || reached;
        var after, outs := Run(ran, cfg.m, dec, bind, arms[i], ids, pos, mask, cfg.presRows);
        if !ran {
          return;
        }
        if !hazard {
          if i == 0 {
            StepBaseHolds(cfg.m, cfg.C, hist, View());
            FirstIteration(cfg.m, cfg.C, hist, tok, after, outs, ids, pos, mask);
            assert chainIds + [ArgMax(outs[0].logits)] == [ArgMax(outs[0].logits)];
          } else {
            NextIteration(cfg.m, cfg.C, hist, tok, chainIds, before, after, outs, ids, pos, mask);
          }
        }
        dec := after;
        var next := ArgMax(outs[0].logits);
        ids, pos, mask := Feedback(p + i, cfg.C, feed, next, ids, pos, mask);
        chainIds := chainIds + [next];
        feed := next;
        i := i + 1;
      }
    }

    /** The linked run of a chain; the flags change however it ends. */
    method RunChainLinked(granted: bool, tok: Token, arms: seq<Arm>, ids: seq<Token>, pos: seq<nat>, mask: seq<int>) returns (chainIds: seq<Token>)
      requires Ready() && kvLink && arms != [] && IsWindow(p, cfg.C, 1, [tok], ids, pos, mask)
      requires arms[0] == StepArm(View(), p, cfg.C)
      requires forall i | 0 < i < |arms| :: arms[i] == Arm(cfg.presRows - 1, KvFoldSlot(p + i, cfg.C), 1)
      modifies this`dec, this`residentDirty, this`reseedCache, this`pendingResidentFold
      ensures Shape() && residentDirty && !reseedCache && pendingResidentFold && (granted ==> |chainIds| == |arms|)
      ensures granted && !hazard ==> ChainLeft(cfg.m, cfg.C, hist, tok, chainIds, dec)
      ensures granted && !hazard ==> Coherent(cfg.m, cfg.C, hist + ChainFed(tok, chainIds), View())
    {
      hide Live, Last, Coherent, ChainLeft;
      chainIds := RunChain(granted, tok, arms, ids, pos, mask);
      reseedCache, residentDirty, pendingResidentFold := false, true, true;
      if granted && !hazard {
        ChainAdvance(cfg.m, cfg.C, hist, tok, chainIds, View());
      }
    }

    /** The links and the window of a chain; 1: armed, nothing else changed; -1: fell back to the host loop; 0: fatal. */
    method ChainLinks() returns (rc: int)
      requires Ready() && kvLink
      modifies this`host, this`kvLink, this`hazard, this`calls
      ensures rc == -1 || rc == 0 || rc == 1
      ensures rc == 1 ==> host == old(host)
      ensures rc == -1 ==> Ready() && !kvLink && hazard == (old(hazard) || reseedCache)
      ensures rc != -1 ==> kvLink && hazard == old(hazard)
      ensures calls >= old(calls) && (Granted(answers, old(calls), calls) ==> rc == 1)
    {
      hide Coherent;
      var linksOk := Ask();
      if linksOk {
        linksOk := Ask();  // the chain window
      }
      if linksOk {
        return 1;
      }
      var synced := FallBackToHost();
      rc := if synced then -1 else 0;
    }

    /**
      One device chain of `steps` iterations from `tok` at position p.  1: it ran (p and the
      history are the caller's to advance, who may trim); 0: fatal; -1: a link failure moved
      the conversation to the host loop and `tok` was not fed.
     */
    method ChainStep(tok: Token, steps: nat) returns (rc: int, chainIds: seq<Token>)
      requires Ready() && kvLink && steps > 0
      modifies this`host, this`dec, this`kvLink, this`residentDirty, this`reseedCache, this`pendingResidentFold, this`calls
      modifies this`lastFromDecode, this`hazard
      ensures rc == -1 || rc == 0 || rc == 1
      ensures rc == 1 ==> Shape() && |chainIds| == steps && residentDirty && !reseedCache && pendingResidentFold
      ensures rc == 1 && !hazard ==> ChainLeft(cfg.m, cfg.C, hist, tok, chainIds, dec)
      ensures rc == 1 && !hazard ==> Coherent(cfg.m, cfg.C, hist + ChainFed(tok, chainIds), View())
      ensures rc == -1 ==> Ready() && !kvLink && hazard == (old(hazard) || old(reseedCache))
      ensures rc != -1 ==> kvLink && hazard == old(hazard)
      ensures calls >= old(calls) && (Granted(answers, old(calls), calls) ==> rc == 1)
    {
      hide Live, Last, Coherent, ChainLeft, Holds, Materialized;
      chainIds := [];
      var ids, pos, mask := BuildWindow(p, cfg.C, 1, [tok], 0);
      var arms := ChainArms(steps);
      rc := ChainLinks();
      if rc != 1 {
        return;
      }
      var granted := Ask();
      chainIds := RunChainLinked(granted, tok, arms, ids, pos, mask);
      if !granted {
        return 0, chainIds;
      }
      lastFromDecode := true;
      return 1, chainIds;
    }

    /** The greedy token of the last forward: the engine's reduction after a decode step, the host scan otherwise. */
    method Sample() returns (ok: bool, next: Token)
      modifies this`calls
      ensures ok ==> next == ArgMax(last.logits)
      ensures calls >= old(calls) && (Granted(answers, old(calls), calls) ==> ok)
    {
      ok, next := true, ArgMax(last.logits);
      if cfg.gpuArgmax && lastFromDecode {
        ok := Ask();
      } else {
        next := ScanArgMax(last.logits);
      }
    }

    /** Mid-turn invariant of the decode loops; `left` is the unspent token budget. */
    ghost predicate Streaming(h0: seq<Token>, s0: seq<Line>, unfed: seq<Token>, left: int)
      reads this`hazard, this`hist, this`lines
    {
      !hazard ==> OnStream(cfg, h0, s0, hist, lines, unfed, left)
    }

    /**
      With speculation every fed token is on record, and unless a round was accepted in
      full the draft's first `draftValid` rows are its rows for those tokens.
     */
    ghost predicate Tracked()
      reads this`draftExact, this`draftValid, this`fedTokens, this`hist, draft
    {
      cfg.specActive ==> && draft.Valid() && draftValid <= |fedTokens| && fedTokens == hist
                         && DraftExact()
    }

    ghost predicate DraftExact()
      reads this`draftExact, this`draftValid, this`fedTokens, draft
      requires draft.Valid() && draftValid <= |fedTokens|
    {
      draftExact ==> && draftValid <= draft.cacheSlots
                     && Holds(draft.cache, Live(draft.m, draft.cacheSlots, fedTokens[..draftValid]))
    }

    /** Prints one pending id and, with speculation, puts it on record ahead of feeding it. */
    method PrintNext(next: Token, ghost h0: seq<Token>, ghost s0: seq<Line>, ghost left: int)
      requires Tracked() && Streaming(h0, s0, [], left) && left > 0
      requires !hazard ==> next == NextToken(cfg.m, cfg.C, hist)
      requires next != cfg.eos
      modifies this`lines, this`fedTokens
      ensures Streaming(h0, s0, [next], left - 1) && (!hazard ==> WithinReply(cfg, h0, s0, lines))
      ensures cfg.specActive ==> draft.Valid() && draftValid <= |fedTokens| && fedTokens == hist + [next] && DraftExact()
    {
      hide Live, Last, OnStream, WithinReply, NextToken, Holds;
      lines := lines + [Id(next)];
      if !hazard {
        StreamPrints(cfg, h0, s0, hist, old(lines), left, next);
        StreamWithin(cfg, h0, s0, hist, lines, [next], left - 1);
      }
      if cfg.specActive {
        fedTokens := fedTokens + [next];
        assert fedTokens[..draftValid] == old(fedTokens)[..draftValid];
      }
    }

    /** Prints and feeds one pending token: the tail every route shares. */
    method PrintAndFeed(next: Token, ghost h0: seq<Token>, ghost s0: seq<Line>, ghost left: int) returns (ok: bool)
      requires Ready() && Tracked() && Streaming(h0, s0, [], left) && left > 0 && h0 != []
      requires !hazard ==> next == NextToken(cfg.m, cfg.C, hist)
      requires next != cfg.eos
      modifies this`host, this`dec, this`kvLink, this`residentDirty, this`reseedCache, this`pendingResidentFold, this`calls
      modifies this`last, this`lastFromDecode, this`hist, this`hazard, this`p, this`lines, this`fedTokens
      ensures ok ==> Ready() && Tracked() && hist == old(hist) + [next] && Streaming(h0, s0, [], left - 1)
      ensures ok && !hazard ==> last == Last(cfg.m, cfg.C, hist)
      ensures (kvLink ==> old(kvLink)) && (ok && kvLink ==> !reseedCache)
      ensures hazard == (old(hazard) || (old(kvLink && reseedCache) && !kvLink))
      ensures hazard ==> cfg.linked && cfg.Reseeds()
      ensures !ok && !hazard ==> WithinReply(cfg, h0, s0, lines)
      ensures calls >= old(calls) && (Granted(answers, old(calls), calls) ==> ok && kvLink == old(kvLink))
    {
      hide Live, Last, Coherent, OnStream, WithinReply, NextToken, Holds, Sized, DraftExact, Shape, Inv;
      ghost var before := hist;
      PrintNext(next, h0, s0, left);
      ok := Step(next);
      if ok {
        p := p + 1;
        if !hazard {
          StreamFeeds(cfg, h0, s0, before, lines, [next], left - 1);
        }
      }
    }

    /** The single-step decode loop. */
    method PlainLoop(generated: int, ghost h0: seq<Token>, ghost s0: seq<Line>) returns (ok: bool)
      requires Ready() && Tracked() && h0 != [] && hist != [] && Streaming(h0, s0, [], cfg.maxTokens - generated)
      requires !hazard && generated < cfg.maxTokens ==> last == Last(cfg.m, cfg.C, hist)
      modifies this`host, this`dec, this`kvLink, this`residentDirty, this`reseedCache, this`pendingResidentFold, this`calls
      modifies this`last, this`lastFromDecode, this`hist, this`hazard, this`p, this`lines, this`fedTokens
      ensures ok ==> Ready() && Tracked() && (!hazard ==> Replied(cfg, h0, s0, hist, lines))
      ensures (kvLink ==> old(kvLink)) && (ok && kvLink ==> |hist| >= |old(hist)| && reseedCache == (old(reseedCache) && |hist| == |old(hist)|))
      ensures (old(hazard) ==> hazard) && (hazard ==> cfg.linked && cfg.Reseeds())
      ensures hazard && !old(hazard) ==> old(kvLink && reseedCache) && !kvLink
      ensures !ok && !hazard ==> WithinReply(cfg, h0, s0, lines)
      ensures calls >= old(calls) && (Granted(answers, old(calls), calls) ==> ok && kvLink == old(kvLink))
    {
      hide Live, Last, Coherent, OnStream, WithinReply, Replied, ArgMax, Shape;
      var n := generated;
      while n < cfg.maxTokens
        invariant Ready() && Tracked() && hist != [] && Streaming(h0, s0, [], cfg.maxTokens - n)
        invariant calls >= old(calls) && (Granted(answers, old(calls), calls) ==> kvLink == old(kvLink))
        invariant !hazard && n < cfg.maxTokens ==> last == Last(cfg.m, cfg.C, hist)
        invariant |hist| >= |old(hist)|
        invariant kvLink ==> old(kvLink) && reseedCache == (old(reseedCache) && |hist| == |old(hist)|)
        invariant |hist| == |old(hist)| ==> kvLink == old(kvLink) && reseedCache == old(reseedCache)
        invariant (old(hazard) ==> hazard) && (hazard ==> cfg.linked && cfg.Reseeds())
        invariant hazard && !old(hazard) ==> old(kvLink && reseedCache) && !kvLink
      {
        var next;
        ok, next := Sample();
        if !ok {
          if !hazard {
            StreamWithin(cfg, h0, s0, hist, lines, [], cfg.maxTokens - n);
          }
          return;
        }
        if next == cfg.eos {
          break;
        }
        ok := PrintAndFeed(next, h0, s0, cfg.maxTokens - n);
        if !ok {
          return;
        }
        n := n + 1;
      }
      if !hazard {
        StreamEnds(cfg, h0, s0, hist, lines, cfg.maxTokens - n);
      }
      ok := true;
    }

    /** Reads a finished chain's ids back and finds the first end-of-stream among them. */
    method ReadChainIds(chainIds: seq<Token>) returns (ok: bool, firstEosAt: nat)
      modifies this`calls
      ensures ok ==> && firstEosAt <= |chainIds| && cfg.eos !in chainIds[..firstEosAt]
                     && (firstEosAt < |chainIds| ==> chainIds[firstEosAt] == cfg.eos)
      ensures calls >= old(calls) && (Granted(answers, old(calls), calls) ==> ok)
    {
      firstEosAt := |chainIds|;
      var i := 0;
      while i < |chainIds|
        invariant 0 <= i <= |chainIds| && (firstEosAt < i || firstEosAt == |chainIds|)
        invariant calls >= old(calls)
        invariant firstEosAt < |chainIds| ==> chainIds[firstEosAt] == cfg.eos && cfg.eos !in chainIds[..firstEosAt]
        invariant firstEosAt == |chainIds| ==> cfg.eos !in chainIds[..i]
      {
        var read := Ask();
        if !read {
          return false, 0;
        }
        if firstEosAt == |chainIds| && chainIds[i] == cfg.eos {
          firstEosAt := i;
        }
        i := i + 1;
      }
      return true, firstEosAt;
    }

    /** End of stream at id f: the ids before it are printed, the overshoot is discarded. */
    method TrimChain(next: Token, chainIds: seq<Token>, f: nat, ghost h0: seq<Token>, ghost s0: seq<Line>, ghost left: int, ghost before: seq<Line>)
      requires Shape() && p == |hist| && kvLink && residentDirty && !reseedCache && pendingResidentFold
      requires f < |chainIds| && chainIds[f] == cfg.eos && cfg.eos !in chainIds[..f] && f + 1 < left && next != cfg.eos
      requires p + |chainIds| <= cfg.C || |chainIds| == 1
      requires lines == before + [Id(next)] && hist != [] && h0 != []
      requires !hazard ==> && OnStream(cfg, h0, s0, hist, before, [], left)
                           && next == NextToken(cfg.m, cfg.C, hist)
                           && ChainLeft(cfg.m, cfg.C, hist, next, chainIds, dec)
                           && Coherent(cfg.m, cfg.C, hist + ChainFed(next, chainIds), View())
      modifies this`lines, this`p, this`pendingResidentFold, this`hist
      ensures Ready() && |hist| == |old(hist)| + f + 1 && pendingResidentFold == (f == |chainIds| - 1)
      ensures !hazard ==> Replied(cfg, h0, s0, hist, lines)
    {
      hide Live, Last, OnStream, NextToken, Coherent, Holds, Replied;
      ghost var run := [next] + chainIds[..f + 1];
      assert ChainFed(next, chainIds)[..f + 1] == run[..f + 1];
      lines := lines + Ids(chainIds[..f]);
      p := p + f + 1;
      if !hazard {
        ChainCut(cfg.m, cfg.C, hist, next, chainIds, f, View());
        TrimPrints(cfg, h0, s0, hist, before, left, next, chainIds, f);
        assert run[..f + 1] == [next] + chainIds[..f];
      }
      pendingResidentFold := f == |chainIds| - 1;
      hist := hist + run[..f + 1];
    }

    /** No end of stream: all ids but the last are printed, the last is the new pending token. */
    method AcceptChain(next: Token, chainIds: seq<Token>, ghost h0: seq<Token>, ghost s0: seq<Line>, ghost left: int, ghost before: seq<Line>)
      requires Shape() && p == |hist|
      requires chainIds != [] && cfg.eos !in chainIds && |chainIds| < left && next != cfg.eos
      requires lines == before + [Id(next)] && hist != [] && h0 != []
      requires !hazard ==> && OnStream(cfg, h0, s0, hist, before, [], left)
                           && next == NextToken(cfg.m, cfg.C, hist)
                           && ChainLeft(cfg.m, cfg.C, hist, next, chainIds, dec)
                           && Coherent(cfg.m, cfg.C, hist + ChainFed(next, chainIds), View())
      modifies this`lines, this`p, this`hist
      ensures Ready() && |hist| == |old(hist)| + |chainIds| && Streaming(h0, s0, [], left - |chainIds|)
      ensures !hazard ==> chainIds[|chainIds| - 1] == NextToken(cfg.m, cfg.C, hist)
    {
      hide Live, Last, OnStream, NextToken, Coherent, Holds;
      var n := |chainIds|;
      ghost var run := ChainFed(next, chainIds);
      lines := lines + Ids(chainIds[..n - 1]);
      p := p + n;
      if !hazard {
        ChainIsRun(cfg.m, cfg.C, hist, next, chainIds, n - 1);
        assert IsEmittedCount(run, cfg.eos, left, n);
        StreamPrintsRun(cfg, h0, s0, hist, before, left, run, n);
        assert before + [Id(next)] + Ids(chainIds[..n - 1]) == before + Ids(run);
        StreamFeeds(cfg, h0, s0, hist, lines, run, left - n);
        assert hist + [next] + chainIds[..n - 1] == hist + run;
      }
      hist := hist + run;
    }

    /** A finished chain, within the budget: its ids are printed up to an end of stream, or all but the last. */
    method ReadChain(next: Token, chainIds: seq<Token>, generated0: int, ghost h0: seq<Token>, ghost s0: seq<Line>, ghost left: int, ghost before: seq<Line>)
      returns (rc: int, next': Token, generated: int)
      requires Shape() && p == |hist| && kvLink && residentDirty && !reseedCache && pendingResidentFold
      requires chainIds != [] && |chainIds| < left && next != cfg.eos && (p + |chainIds| <= cfg.C || |chainIds| == 1)
      requires lines == before + [Id(next)] && hist != [] && h0 != [] && left == cfg.maxTokens - generated0 + 1
      requires !hazard ==> && OnStream(cfg, h0, s0, hist, before, [], left)
                           && next == NextToken(cfg.m, cfg.C, hist)
                           && ChainLeft(cfg.m, cfg.C, hist, next, chainIds, dec)
                           && Coherent(cfg.m, cfg.C, hist + ChainFed(next, chainIds), View())
      modifies this`lines, this`p, this`pendingResidentFold, this`hist, this`calls
      ensures rc == 0 || rc == 1 || rc == 2
      ensures rc != 0 ==> Ready() && |hist| > |old(hist)| && generated >= generated0
      ensures rc == 0 ==> lines == old(lines) && generated == generated0
      ensures rc == 1 ==> Streaming(h0, s0, [], cfg.maxTokens - generated) && (!hazard ==> next' == NextToken(cfg.m, cfg.C, hist))
      ensures rc == 2 && !hazard ==> Replied(cfg, h0, s0, hist, lines)
      ensures calls >= old(calls) && (Granted(answers, old(calls), calls) ==> rc > 0)
    {
      hide Live, Last, OnStream, NextToken, Coherent, Holds, Replied, ChainLeft, GreedyRun;
      var read, f := ReadChainIds(chainIds);
      if !read {
        return 0, next, generated0;
      }
      if f < |chainIds| {
        TrimChain(next, chainIds, f, h0, s0, left, before);
        return 2, next, generated0 + f;
      }
      assert chainIds[..f] == chainIds;
      AcceptChain(next, chainIds, h0, s0, left, before);
      return 1, chainIds[f - 1], generated0 + f - 1;
    }

    /**
      One pass of the chained loop, from the pending token `next`.  2: the turn is complete;
      1: the loop goes on with a new pending token; -1: a link failure, `next` printed but
      not fed; 0: fatal.
     */
    method ChainPass(next: Token, generated0: int, ghost h0: seq<Token>, ghost s0: seq<Line>)
      returns (rc: int, next': Token, generated: int)
      requires Ready() && cfg.chainActive && kvLink && hist != [] && h0 != []
      requires generated0 < cfg.maxTokens && next != cfg.eos && Streaming(h0, s0, [], cfg.maxTokens - generated0)
      requires !hazard ==> next == NextToken(cfg.m, cfg.C, hist)
      modifies this`host, this`dec, this`kvLink, this`residentDirty, this`reseedCache, this`pendingResidentFold, this`calls
      modifies this`last, this`lastFromDecode, this`hist, this`hazard, this`p, this`lines
      ensures rc == -1 || rc == 0 || rc == 1 || rc == 2
      ensures rc != 0 ==> Ready() && hist != [] && generated > generated0
      ensures rc == 1 ==> !reseedCache && Streaming(h0, s0, [], cfg.maxTokens - generated) && (!hazard ==> next' == NextToken(cfg.m, cfg.C, hist))
      ensures rc == -1 ==> !kvLink && next' == next && (!hazard ==> OnStream(cfg, h0, s0, hist, lines, [next], cfg.maxTokens - generated))
      ensures rc == 2 ==> !reseedCache && (!hazard ==> Replied(cfg, h0, s0, hist, lines))
      ensures rc == 0 && !hazard ==> WithinReply(cfg, h0, s0, lines)
      ensures (old(hazard) ==> hazard) && (hazard ==> cfg.linked && cfg.Reseeds())
      ensures hazard && !old(hazard) ==> old(reseedCache) && !kvLink
      ensures (rc == 1 || rc == 2 ==> kvLink && |hist| > |old(hist)|) && (rc == -1 ==> hist == old(hist))
      ensures calls >= old(calls) && (Granted(answers, old(calls), calls) ==> rc > 0)
    {
      hide Live, Last, OnStream, NextToken, Coherent, Holds, WithinReply, Replied, ChainLeft, GreedyRun, Shape;
      ghost var before, left := lines, cfg.maxTokens - generated0;
      lines := lines + [Id(next)];
      generated, next' := generated0 + 1, next;
      ghost var printed := lines;
      if !hazard {
        StreamPrints(cfg, h0, s0, hist, before, left, next);
        StreamWithin(cfg, h0, s0, hist, printed, [next], left - 1);
      }
      // The single-step loop also feeds the last printed token; near the edge a chain shortens.
      var window := if p < cfg.C then Min(cfg.chainSteps, cfg.C - p) else 1;
      var steps := if generated >= cfg.maxTokens then 1 else Min(window, cfg.maxTokens - generated);
      var ran, chainIds := ChainStep(next, steps);
      if ran == 0 {
        return 0, next, generated;
      }
      if ran < 0 {
        return -1, next, generated;
      }
      if generated >= cfg.maxTokens {
        if !hazard {
          StreamFeeds(cfg, h0, s0, hist, printed, [next], 0);
          assert ChainFed(next, chainIds) == [next];
          StreamEnds(cfg, h0, s0, hist + [next], printed, 0);
        }
        p, hist := p + 1, hist + [next];
        return 2, next, generated;
      }
      rc, next', generated := ReadChain(next, chainIds, generated, h0, s0, left, before);
    }

    /** The device-chained decode loop; what it leaves (a link failure) the single-step loop continues. */
    method ChainTurn(ghost h0: seq<Token>, ghost s0: seq<Line>) returns (ok: bool, generated: int)
      requires Ready() && cfg.chainActive && kvLink && hist != [] && h0 != []
      requires Streaming(h0, s0, [], cfg.maxTokens)
      requires !hazard ==> last == Last(cfg.m, cfg.C, hist)
      modifies this`host, this`dec, this`kvLink, this`residentDirty, this`reseedCache, this`pendingResidentFold, this`calls
      modifies this`last, this`lastFromDecode, this`hist, this`hazard, this`p, this`lines
      ensures ok ==> Ready() && hist != [] && Streaming(h0, s0, [], cfg.maxTokens - generated)
      ensures ok && generated < cfg.maxTokens && !hazard ==> last == Last(cfg.m, cfg.C, hist)
      ensures !ok && !hazard ==> WithinReply(cfg, h0, s0, lines)
      ensures (old(hazard) ==> hazard) && (hazard ==> cfg.linked && cfg.Reseeds())
      ensures hazard && !old(hazard) ==> old(reseedCache) && !kvLink
      ensures ok && kvLink ==> |hist| >= |old(hist)| && reseedCache == (old(reseedCache) && |hist| == |old(hist)|)
      ensures calls >= old(calls) && (Granted(answers, old(calls), calls) ==> ok && kvLink == old(kvLink))
      ensures ok && kvLink ==> generated == cfg.maxTokens
    {
      hide Live, Last, OnStream, Coherent, Holds, WithinReply, Replied, ArgMax, Shape;
      generated := 0;
      var next;
      ok, next := Sample();
      if !ok {
        if !hazard {
          StreamWithin(cfg, h0, s0, hist, lines, [], cfg.maxTokens);
        }
        return;
      }
      var rc := 1;
      while rc == 1 && next != cfg.eos && generated < cfg.maxTokens
        invariant rc == -1 || rc == 1 || rc == 2
        invariant calls >= old(calls) && (Granted(answers, old(calls), calls) ==> rc != -1)
        invariant Ready() && hist != []
        invariant rc == 1 ==> && kvLink && Streaming(h0, s0, [], cfg.maxTokens - generated)
                              && (!hazard ==> next == NextToken(cfg.m, cfg.C, hist))
        invariant rc == -1 ==> !kvLink && (!hazard ==> OnStream(cfg, h0, s0, hist, lines, [next], cfg.maxTokens - generated))
        invariant rc == 2 && !hazard ==> Replied(cfg, h0, s0, hist, lines)
        invariant (old(hazard) ==> hazard) && (hazard ==> cfg.linked && cfg.Reseeds())
        invariant hazard && !old(hazard) ==> old(reseedCache) && !kvLink
        invariant |hist| >= |old(hist)|
        invariant rc != -1 ==> kvLink && reseedCache == (old(reseedCache) && |hist| == |old(hist)|)
        decreases cfg.maxTokens - generated
      {
        rc, next, generated := ChainPass(next, generated, h0, s0);
        if rc == 0 {
          return false, generated;
        }
      }
      if rc == -1 {
        ghost var before := hist;
        ok := Step(next);
        if !ok {
          if !hazard {
            StreamWithin(cfg, h0, s0, before, lines, [next], cfg.maxTokens - generated);
          }
          return;
        }
        p := p + 1;
        if !hazard {
          StreamFeeds(cfg, h0, s0, before, lines, [next], cfg.maxTokens - generated);
        }
        return;
      }
      if !hazard {
        if rc == 1 {
          StreamEnds(cfg, h0, s0, hist, lines, cfg.maxTokens - generated);
        }
        RepliedStreams(cfg, h0, s0, hist, lines);
      }
      return true, cfg.maxTokens;
    }

    // ---- prompt phases ---------------------------------------------------------------

    /** The host buffers hold the conversation (the resident pair may lag behind them). */
    ghost predicate HostReady()
      reads this`host, this`dec, this`chunk, this`spec, this`kvLink, this`residentDirty
      reads this`reseedCache, this`pendingResidentFold, this`chunkBucket, this`hazard, this`hist, this`p
    {
      Shape() && p == |hist| && (!hazard ==> Holds(host, Live(cfg.m, cfg.C, hist)))
    }

    lemma HostIsTrue()
      requires Ready() && !kvLink
      ensures HostReady()
    {
    }

    /** Brings a dirty resident cache to the host, so that both copies agree. */
    method SyncIfDirty() returns (ok: bool)
      requires Ready() && kvLink
      modifies this`host, this`residentDirty, this`calls
      ensures Shape() && (!old(residentDirty) ==> ok && host == old(host))
      ensures ok ==> Ready() && HostReady() && !residentDirty
      ensures calls >= old(calls) && (Granted(answers, old(calls), calls) ==> ok)
    {
      hide Live;
      ok := true;
      if residentDirty {
        ghost var v := View();
        ok := SyncResidentToHost(if pendingResidentFold then KvFoldSlot(p, cfg.C) else -1);
        if ok {
          assert host == Materialized(v, p, cfg.C);
          residentDirty := false;
        }
      }
    }

    /** One whole-window forward on the host cache flow. */
    method PrefillForward(toks: seq<Token>)
      requires HostReady() && 0 < |toks| <= cfg.prefillS && p + |toks| <= cfg.C
      modifies this`host, this`p, this`hist, this`last, this`lastFromDecode
      ensures HostReady() && hist == old(hist) + toks && (!hazard ==> last == Last(cfg.m, cfg.C, hist))
    {
      hide Live, Last, Holds, Coherent;
      var out;
      host, out := HostWindow(cfg.m, cfg.C, host, p, cfg.prefillS, cfg.prefillPresRows, toks, hist, !hazard);
      p, hist := p + |toks|, hist + toks;
      last, lastFromDecode := out, false;
    }

    /** The same, if the session grants the run. */
    method PrefillPass(toks: seq<Token>) returns (ok: bool)
      requires HostReady() && 0 < |toks| <= cfg.prefillS && p + |toks| <= cfg.C
      modifies this`host, this`p, this`hist, this`last, this`lastFromDecode, this`calls
      ensures ok ==> HostReady() && hist == old(hist) + toks
      ensures ok && !hazard ==> last == Last(cfg.m, cfg.C, hist)
      ensures calls >= old(calls) && (Granted(answers, old(calls), calls) ==> ok)
    {
      hide Live, Last, Holds, Coherent;
      ok := Ask();
      if ok {
        PrefillForward(toks);
      }
    }

    /** Whole-window forwards while the next window fits before the context edge. */
    method PrefillWindows(prompt: seq<Token>) returns (ok: bool, consumed: nat)
      requires HostReady() && cfg.prefillS > 0
      modifies this`host, this`p, this`hist, this`last, this`lastFromDecode, this`calls
      ensures consumed <= |prompt|
      ensures ok ==> HostReady() && hist == old(hist) + prompt[..consumed]
      ensures ok && consumed > 0 && !hazard ==> last == Last(cfg.m, cfg.C, hist)
      ensures ok && consumed == 0 ==> host == old(host) && (prompt == [] || p + Min(|prompt|, cfg.prefillS) > cfg.C)
      ensures consumed > 0 ==> old(p) + Min(|prompt|, cfg.prefillS) <= cfg.C
      ensures ok && prompt != [] ==> (consumed == |prompt| <==> old(p) + |prompt| <= cfg.C)
      ensures calls >= old(calls) && (Granted(answers, old(calls), calls) ==> ok)
    {
      hide Live, Last, Holds, Coherent;
      consumed := 0;
      assert hist + prompt[..0] == hist;
      while consumed < |prompt|
        invariant consumed <= |prompt| && HostReady() && hist == old(hist) + prompt[..consumed]
        invariant calls >= old(calls)
        invariant consumed == 0 ==> host == old(host)
        invariant consumed > 0 && !hazard ==> last == Last(cfg.m, cfg.C, hist)
        invariant consumed > 0 ==> old(p) + Min(|prompt|, cfg.prefillS) <= cfg.C && p <= cfg.C
        invariant p == old(p) + consumed
      {
        var len := Min(|prompt| - consumed, cfg.prefillS);
        if p + len > cfg.C {
          break;
        }
        ok := PrefillPass(prompt[consumed..consumed + len]);
        if !ok {
          return;
        }
        assert prompt[..consumed] + prompt[consumed..consumed + len] == prompt[..consumed + len];
        consumed := consumed + len;
      }
      ok := true;
    }

    /**
      The re-seed flag after a batched prompt phase: owed when the phase consumed something.  An owed
      re-seed is forgotten when it consumed nothing: the one hazard here.
     */
    method SettleReseed(consumed: nat)
      requires HostReady() && !(kvLink && residentDirty) && cfg.Reseeds()
      requires consumed == 0 ==> Inv()
      modifies this`reseedCache, this`hazard
      ensures Ready() && reseedCache == (kvLink && consumed > 0)
      ensures hazard == (old(hazard) || (kvLink && old(reseedCache) && consumed == 0))
    {
      hide Live, Materialized, Holds;
      hazard := hazard || (kvLink && reseedCache && consumed == 0);
      reseedCache := kvLink && consumed > 0;
    }

    /**
      The whole-window prompt phase.  An owed re-seed is lost exactly when not even the first
      window fits.
     */
    method WindowPhase(prompt: seq<Token>) returns (ok: bool, consumed: nat)
      requires Ready() && cfg.prefillS > 0 && prompt != []
      modifies this`host, this`residentDirty, this`reseedCache, this`p, this`hist, this`last, this`lastFromDecode, this`hazard, this`calls
      ensures consumed <= |prompt|
      ensures ok ==> Ready() && hist == old(hist) + prompt[..consumed]
      ensures ok && consumed > 0 && !hazard ==> last == Last(cfg.m, cfg.C, hist)
      ensures ok ==> hazard == (old(hazard) || (kvLink && old(reseedCache) && old(p) + Min(|prompt|, cfg.prefillS) > cfg.C))
      ensures !ok ==> hazard == old(hazard)
      ensures ok ==> (consumed == |prompt| <==> old(p) + |prompt| <= cfg.C)
      ensures ok ==> reseedCache == (kvLink && consumed > 0)
      ensures hazard ==> cfg.linked && cfg.Reseeds()
      ensures calls >= old(calls) && (Granted(answers, old(calls), calls) ==> ok)
    {
      hide Live, Last, Coherent, Holds, Shape, Inv;
      consumed := 0;
      if kvLink {
        ok := SyncIfDirty();
        if !ok {
          return;
        }
      }
      if !kvLink {
        HostIsTrue();
      }
      ghost var h0 := hist;
      assert Inv();
      ok, consumed := PrefillWindows(prompt);
      if ok {
        assert consumed == 0 ==> hist == h0 && Inv() by {
          assert h0 + prompt[..0] == h0;
        }
        SettleReseed(consumed);
      }
    }

    /** The arm of a chunk pass: the previous chunk's rows, or nothing on the first pass of a turn. */
    function ChunkArm(prevStart: int, prevLen: nat): Arm
      requires cfg.Valid()
    {
      Arm(cfg.chunkPresRows - cfg.chunkS, if prevLen > 0 then prevStart else -1, prevLen)
    }

    /** Resident past plus the last chunk's pending rows hold the conversation; the rows of earlier turns never moved. */
    ghost predicate ChunkReady(start: nat, prevStart: int, prevLen: nat)
      reads this`host, this`dec, this`chunk, this`spec, this`kvLink, this`residentDirty
      reads this`reseedCache, this`pendingResidentFold, this`chunkBucket, this`hazard, this`hist, this`p
    {
      && Shape() && p == |hist| && start <= p <= cfg.C && 0 < prevLen <= cfg.chunkS && prevStart == p - prevLen && start <= prevStart
      && (!hazard ==> Holds(Folded(chunk, ChunkArm(prevStart, prevLen)), Live(cfg.m, cfg.C, hist)))
      && chunk.past[..start] == host[..start]
    }

    /** The forward of a chunk pass over whatever rows the binding and the armed ranges leave. */
    method RunChunkOn(granted: bool, toks: seq<Token>, ghost start: nat, bind: Binding, arm: Arm)
      requires Shape() && p == |hist| && start <= p && chunkBucket && 0 < |toks| <= cfg.chunkS && p + |toks| <= cfg.C
      requires (bind.Bind? ==> |bind.rows| == cfg.C) && Armable(chunk, arm)
      requires !hazard ==> Holds(Base(chunk, bind, arm), Live(cfg.m, cfg.C, hist))
      requires Base(chunk, bind, arm)[..start] == host[..start]
      modifies this`chunk, this`last, this`lastFromDecode, this`p, this`hist
      ensures Shape() && (!granted ==> p == old(p) && hist == old(hist))
      ensures granted ==> ChunkReady(start, old(p), |toks|) && hist == old(hist) + toks
      ensures granted && !hazard ==> last == Last(cfg.m, cfg.C, hist)
    {
      hide Live, Last, Coherent, Holds, Base, FoldRows;
      var out;
      chunk, out := LinkedWindow(granted, cfg.m, cfg.C, chunk, bind, arm, p, cfg.chunkS, cfg.chunkPresRows, toks, cfg.chunkPadId, hist, !hazard);
      if granted {
        p, hist := p + |toks|, hist + toks;
        last, lastFromDecode := out, false;
      }
    }

    /**
      One chunk pass: the armed ranges fold the previous chunk's rows (the first pass binds
      the host rows instead), then the chunk's real tokens run over the resident past.
     */
    method RunChunk(toks: seq<Token>, ghost start: nat, prevStart: int, prevLen: nat) returns (ok: bool)
      requires chunkBucket && 0 < |toks| <= cfg.chunkS && p + |toks| <= cfg.C
      requires prevLen == 0 ==> HostReady() && start == p
      requires prevLen > 0 ==> ChunkReady(start, prevStart, prevLen)
      modifies this`chunk, this`last, this`lastFromDecode, this`p, this`hist, this`calls
      ensures Shape() && (!ok ==> p == old(p) && hist == old(hist))
      ensures ok ==> ChunkReady(start, old(p), |toks|) && hist == old(hist) + toks
      ensures ok && !hazard ==> last == Last(cfg.m, cfg.C, hist)
      ensures calls >= old(calls) && (Granted(answers, old(calls), calls) ==> ok)
    {
      hide Live, Last, Coherent, Holds, FoldRows;
      ok := Ask();
      if !ok {
        return;
      }
      ok := Ask();
      var arm := ChunkArm(prevStart, prevLen);
      if prevLen == 0 {
        NothingArmed(chunk.(past := host), arm);
        RunChunkOn(ok, toks, start, Bind(host), arm);
      } else {
        BaseBelow(chunk, Keep, arm, host, start);
        RunChunkOn(ok, toks, start, Keep, arm);
      }
    }

    /**
      Materializes the chunk bucket's cache.  A refused readback may have copied some
      tensors already; slots on which every copy agrees are untouched.
     */
    method SyncChunkResidentToHost(start: nat, lastStart: nat, lastLen: nat) returns (ok: bool)
      requires ChunkReady(start, lastStart, lastLen)
      modifies this`host, this`calls
      ensures |host| == cfg.C && host[..start] == old(host)[..start]
      ensures ok ==> host == Folded(chunk, ChunkArm(lastStart, lastLen))
      ensures calls >= old(calls) && (Granted(answers, old(calls), calls) ==> ok)
    {
      ok := Ask();
      var built := Folded(chunk, ChunkArm(lastStart, lastLen));
      if ok {
        host := built;
      } else {
        var torn: seq<Row> := *;
        if |torn| == cfg.C && torn[..start] == host[..start] {
          host := torn;
        }
      }
    }

    /** Puts the links back on the decode bucket; if that is refused the conversation stays on the host loop. */
    method RestoreDecodeLinks()
      modifies this`kvLink, this`calls
      ensures kvLink ==> old(kvLink)
      ensures calls >= old(calls) && (Granted(answers, old(calls), calls) ==> kvLink == old(kvLink))
      ensures old(Shape()) ==> Shape()
    {
      var relinked := Ask();
      kvLink := kvLink && relinked;
    }

    /** The chunk passes of one turn. */
    method ChunkPasses(prompt: seq<Token>) returns (ok: bool, consumed: nat, prevStart: int, prevLen: nat)
      requires HostReady() && chunkBucket && prompt != [] && p + Min(|prompt|, cfg.chunkS) <= cfg.C
      modifies this`chunk, this`last, this`lastFromDecode, this`p, this`hist, this`calls
      ensures Shape()
      ensures ok ==> && consumed <= |prompt| && consumed > 0 && ChunkReady(old(p), prevStart, prevLen)
                     && hist == old(hist) + prompt[..consumed]
                     && (!hazard ==> last == Last(cfg.m, cfg.C, hist))
      ensures ok ==> (consumed == |prompt| <==> old(p) + |prompt| <= cfg.C)
      ensures calls >= old(calls) && (Granted(answers, old(calls), calls) ==> ok)
    {
      hide Live, Last, Coherent, Holds, FoldRows, Folded, Sized;
      consumed, prevStart, prevLen := 0, -1, 0;
      assert hist + prompt[..0] == hist;
      while consumed < |prompt|
        invariant consumed <= |prompt| && hist == old(hist) + prompt[..consumed] && Shape()
        invariant calls >= old(calls)
        invariant consumed == 0 ==> prevLen == 0 && HostReady()
        invariant p == old(p) + consumed
        invariant consumed > 0 ==> ChunkReady(old(p), prevStart, prevLen) && (!hazard ==> last == Last(cfg.m, cfg.C, hist))
      {
        var len := Min(|prompt| - consumed, cfg.chunkS);
        if p + len > cfg.C {
          break;
        }
        var at := p;
        ok := RunChunk(prompt[consumed..consumed + len], old(p), prevStart, prevLen);
        if !ok {
          return;
        }
        prevStart, prevLen := at, len;
        assert prompt[..consumed] + prompt[consumed..consumed + len] == prompt[..consumed + len];
        consumed := consumed + len;
      }
      ok := true;
    }

    /** The passes of a turn whose first chunk fits, and their rows brought to the host. */
    method ChunkedTurn(prompt: seq<Token>) returns (ok: bool, consumed: nat)
      requires HostReady() && chunkBucket && prompt != [] && p + Min(|prompt|, cfg.chunkS) <= cfg.C
      modifies this`host, this`chunk, this`last, this`lastFromDecode, this`p, this`hist, this`calls
      ensures ok ==> && 0 < consumed <= |prompt| && HostReady() && hist == old(hist) + prompt[..consumed]
                     && (!hazard ==> last == Last(cfg.m, cfg.C, hist))
      ensures ok ==> (consumed == |prompt| <==> old(p) + |prompt| <= cfg.C)
      ensures Shape() && host[..old(p)] == old(host)[..old(p)]
      ensures calls >= old(calls) && (Granted(answers, old(calls), calls) ==> ok)
    {
      hide Live, Last, FoldRows, Folded, Holds, Coherent;
      var turnStartP := p;
      var prevStart, prevLen;
      ok, consumed, prevStart, prevLen := ChunkPasses(prompt);
      if ok {
        ok := SyncChunkResidentToHost(turnStartP, prevStart, prevLen);
      }
    }

    /** Position, history and live host rows back where the turn began: the conversation is whole. */
    twostate lemma TurnUndone()
      requires old(Ready() && HostReady()) && !old(residentDirty) && Shape() && p == old(p) && hist == old(hist)
      requires p <= cfg.C && host[..p] == old(host)[..p]
      requires dec == old(dec) && residentDirty == old(residentDirty) && reseedCache == old(reseedCache)
      requires pendingResidentFold == old(pendingResidentFold) && hazard == old(hazard) && (kvLink ==> old(kvLink))
      ensures Ready()
    {
      hide Live;
    }

    /**
      One turn's chunked prefill.  1: the consumed part of the prompt is in the host cache;
      0: no chunk fits before the context edge; -1: failed, and position, history and every
      live host row are back at the turn's entry.
     */
    method ChunkedPrefillTurn(prompt: seq<Token>) returns (rc: int, consumed: nat)
      requires Ready() && HostReady() && !residentDirty && kvLink && chunkBucket && prompt != []
      modifies this`host, this`chunk, this`kvLink, this`last, this`lastFromDecode, this`p, this`hist, this`calls
      ensures rc == -1 || rc == 0 || rc == 1
      ensures rc == 0 <==> old(p) + Min(|prompt|, cfg.chunkS) > cfg.C
      ensures rc == 0 ==> Ready() && consumed == 0 && hist == old(hist) && kvLink
      ensures rc == 1 ==> 0 < consumed <= |prompt| && hist == old(hist) + prompt[..consumed]
      ensures rc == 1 ==> (consumed == |prompt| <==> old(p) + |prompt| <= cfg.C)
      ensures kvLink ==> old(kvLink)
      ensures rc != -1 ==> HostReady()
      ensures rc == 1 && !hazard ==> last == Last(cfg.m, cfg.C, hist)
      ensures rc == -1 ==> Ready() && consumed == 0 && hist == old(hist) && p == old(p) && host[..p] == old(host)[..p]
      ensures calls >= old(calls) && (Granted(answers, old(calls), calls) ==> rc != -1 && kvLink == old(kvLink))
    {
      hide Live, Last, Shape, Coherent, Holds;
      ghost var h0 := hist;
      var turnStartP := p;
      var firstLen := Min(|prompt|, cfg.chunkS);
      if p + firstLen > cfg.C {
        return 0, 0;
      }
      var linked := Ask();
      if !linked {
        RestoreDecodeLinks();
        TurnUndone();
        return -1, 0;
      }
      var ok;
      ok, consumed := ChunkedTurn(prompt);
      RestoreDecodeLinks();
      if !ok {
        p, hist := turnStartP, h0;
        TurnUndone();
        return -1, 0;
      }
      rc := 1;
    }

    // ---- greedy speculative decode -----------------------------------------------------

    /** The arm of a verification round: the previous round's accepted rows and no others. */
    function SpecArm(prevSlot: int, prevRows: nat): Arm
      requires cfg.Valid() && cfg.specActive
    {
      Arm(cfg.specPresRows - SPEC_VERIFY_TOKENS, if prevRows > 0 then prevSlot else -1, prevRows)
    }

    /**
      Between rounds: resident past plus the pending accepted rows hold the conversation,
      and no slot outside this turn's committed ones differs from the turn-entry host
      cache - a rejected row is in no slot.
     */
    ghost predicate SpecReady(start: nat, prevSlot: int, prevRows: nat)
      reads this`host, this`dec, this`chunk, this`spec, this`kvLink, this`residentDirty
      reads this`reseedCache, this`pendingResidentFold, this`chunkBucket, this`hazard, this`hist, this`p
    {
      && Shape() && cfg.specActive && p == |hist| && 0 < prevRows <= SPEC_VERIFY_TOKENS && prevSlot == p - prevRows && start <= prevSlot && p <= cfg.C
      && (!hazard ==> Holds(Folded(spec, SpecArm(prevSlot, prevRows)), Live(cfg.m, cfg.C, hist)))
      && OnlyBetween(Folded(spec, SpecArm(prevSlot, prevRows)), host, start, p)
    }

    /** Before the first round the host cache is the conversation; after it, resident plus pending is. */
    ghost predicate RoundReady(start: nat, prevSlot: int, prevRows: nat)
      reads this`host, this`dec, this`chunk, this`spec, this`kvLink, this`residentDirty
      reads this`reseedCache, this`pendingResidentFold, this`chunkBucket, this`hazard, this`hist, this`p
    {
      if prevRows == 0 then HostReady() && cfg.specActive && start == p else SpecReady(start, prevSlot, prevRows)
    }

    /** The verification run: on the turn-entry host rows at first, then on the resident past with the accepted rows armed. */
    method VerifyForward(granted: bool, window: seq<Token>, ghost start: nat, prevSlot: int, prevRows: nat)
      returns (rowArgMax: seq<Token>, ghost outs: seq<Out>)
      requires RoundReady(start, prevSlot, prevRows) && |window| == SPEC_VERIFY_TOKENS && p + SPEC_VERIFY_TOKENS <= cfg.C
      modifies this`spec
      ensures !granted ==> RoundReady(start, prevSlot, prevRows)
      ensures granted ==> && Shape() && rowArgMax == ArgMaxes(outs) && |outs| == SPEC_VERIFY_TOKENS
                          && OnlyBetween(spec.past, host, start, p)
                          && spec.present[cfg.specPresRows - SPEC_VERIFY_TOKENS..] == RowsOf(outs)
      ensures granted && !hazard ==> && AreSteps(cfg.m, cfg.C, hist, window, outs)
                                     && Holds(spec.past, Live(cfg.m, cfg.C, hist))
    {
      hide Live, Last, Forward, AreSteps, IsWindow, Coherent, Holds, FoldRows;
      rowArgMax, outs := [], [];
      var arm := SpecArm(prevSlot, prevRows);
      var ids, pos, mask := BuildWindow(p, cfg.C, SPEC_VERIFY_TOKENS, window, 0);
      assert ids == window;
      var bind := if prevRows == 0 then Bind(host) else Keep;
      if prevRows == 0 {
        NothingArmed(spec.(past := host), arm);
      } else {
        FoldTwice(spec.past, spec.present, arm.source, arm.slot, arm.rows);
      }
      var after, runOuts := Run(granted, cfg.m, spec, bind, arm, ids, pos, mask, cfg.specPresRows);
      spec := after;
      if granted {
        outs, rowArgMax := runOuts, ArgMaxes(runOuts);
        if !hazard {
          WindowIsSteps(cfg.m, cfg.C, hist, after.past, SPEC_VERIFY_TOKENS, window, ids, pos, mask);
        }
      }
    }

    /** One verification forward over `window` at position p. */
    method RunVerify(window: seq<Token>, ghost start: nat, prevSlot: int, prevRows: nat)
      returns (ok: bool, rowArgMax: seq<Token>, ghost outs: seq<Out>)
      requires RoundReady(start, prevSlot, prevRows) && |window| == SPEC_VERIFY_TOKENS && p + SPEC_VERIFY_TOKENS <= cfg.C
      modifies this`spec, this`calls
      ensures !ok ==> RoundReady(start, prevSlot, prevRows)
      ensures ok ==> && Shape() && rowArgMax == ArgMaxes(outs) && |outs| == SPEC_VERIFY_TOKENS
                     && OnlyBetween(spec.past, host, start, p)
                     && spec.present[cfg.specPresRows - SPEC_VERIFY_TOKENS..] == RowsOf(outs)
      ensures ok && !hazard ==> && AreSteps(cfg.m, cfg.C, hist, window, outs)
                                && Holds(spec.past, Live(cfg.m, cfg.C, hist))
      ensures calls >= old(calls) && (Granted(answers, old(calls), calls) ==> ok)
    {
      hide Live, AreSteps, Coherent, Holds, OnlyBetween, RoundReady, Shape;
      rowArgMax, outs := [], [];
      ok := Ask();
      if ok {
        ok := Ask();
        rowArgMax, outs := VerifyForward(ok, window, start, prevSlot, prevRows);
      }
    }

    /** The cache side of a commit: the accepted rows become the pending fold. */
    lemma CommitCache(start: nat, window: seq<Token>, outs: seq<Out>, n: nat)
      requires Shape() && cfg.specActive && p == |hist| && |window| == SPEC_VERIFY_TOKENS == |outs| && 0 < n <= SPEC_VERIFY_TOKENS
      requires p + SPEC_VERIFY_TOKENS <= cfg.C
      requires OnlyBetween(spec.past, host, start, p) && spec.present[cfg.specPresRows - SPEC_VERIFY_TOKENS..] == RowsOf(outs)
      requires !hazard ==> AreSteps(cfg.m, cfg.C, hist, window, outs) && Holds(spec.past, Live(cfg.m, cfg.C, hist))
      ensures Armable(spec, SpecArm(p, n))
      ensures OnlyBetween(Folded(spec, SpecArm(p, n)), host, start, p + n)
      ensures !hazard ==> Holds(Folded(spec, SpecArm(p, n)), Live(cfg.m, cfg.C, hist + window[..n]))
    {
      hide Live, Last, AreSteps, Holds, Coherent;
      var at := cfg.specPresRows - SPEC_VERIFY_TOKENS;
      if !hazard {
        assert outs[..SPEC_VERIFY_TOKENS] == outs;
        assert spec.present[at..at + SPEC_VERIFY_TOKENS] == spec.present[at..];
        FoldHoldsAccepted(cfg.m, cfg.C, hist, window, outs, spec.past, spec.present, at, n);
      }
    }

    /** The draft fed the anchor and all its proposals but the last behind the rows of `fedBefore`. */
    ghost predicate DraftProposed(next: Token, proposals: seq<Token>, fedBefore: seq<Token>)
      reads draft
    {
      && draft.Valid() && |proposals| == SPEC_DRAFT_TOKENS && |fedBefore| + SPEC_DRAFT_TOKENS <= draft.cacheSlots
      && draft.cache[..|fedBefore| + SPEC_DRAFT_TOKENS]
         == Feed(draft.m, Live(draft.m, draft.cacheSlots, fedBefore), ([next] + proposals)[..SPEC_DRAFT_TOKENS])
    }

    /** The draft side: its rows follow unless it was accepted in full, for then it never fed its last proposal. */
    lemma CommitDraft(next: Token, proposals: seq<Token>, n: nat, fedBefore: seq<Token>)
      requires n <= SPEC_DRAFT_TOKENS && DraftProposed(next, proposals, fedBefore)
      ensures Holds(draft.cache, Live(draft.m, draft.cacheSlots, fedBefore + ([next] + proposals)[..n]))
    {
      hide Live, Feed, Holds;
      DraftRowsHold(draft.m, draft.cacheSlots, fedBefore, ([next] + proposals)[..SPEC_DRAFT_TOKENS], n, draft.cache);
      assert ([next] + proposals)[..SPEC_DRAFT_TOKENS][..n] == ([next] + proposals)[..n];
    }

    /** Accepts and truncates one verified round, and prints what it commits. */
    method CommitRound(next: Token, proposals: seq<Token>, rowArgMax: seq<Token>, generated: int, ghost start: nat,
                       ghost outs: seq<Out>, ghost h0: seq<Token>, ghost s0: seq<Line>)
      returns (complete: bool, next': Token, rows: nat)
      requires Shape() && cfg.specActive && p == |hist| && start <= p && hist != [] && p + SPEC_VERIFY_TOKENS <= cfg.C
      requires |proposals| == SPEC_DRAFT_TOKENS && |outs| == SPEC_VERIFY_TOKENS && rowArgMax == ArgMaxes(outs)
      requires generated < cfg.maxTokens && next != cfg.eos && Streaming(h0, s0, [], cfg.maxTokens - generated)
      requires OnlyBetween(spec.past, host, start, p) && spec.present[cfg.specPresRows - SPEC_VERIFY_TOKENS..] == RowsOf(outs)
      requires !hazard ==> && next == NextToken(cfg.m, cfg.C, hist) && Holds(spec.past, Live(cfg.m, cfg.C, hist))
                           && AreSteps(cfg.m, cfg.C, hist, [next] + proposals, outs)
      modifies this`lines, this`p, this`hist
      ensures 0 < rows <= SPEC_VERIFY_TOKENS && hist == old(hist) + ([next] + proposals)[..rows] && SpecReady(start, old(p), rows)
      ensures complete && !hazard ==> Replied(cfg, h0, s0, hist, lines)
      ensures !complete ==> Streaming(h0, s0, [], cfg.maxTokens - generated - rows) && (!hazard ==> next' == NextToken(cfg.m, cfg.C, hist))
    {
      hide Live, Last, AreSteps, Holds, Coherent, OnStream, Replied, NextToken, ArgMaxes, FoldRows, OnlyBetween;
      var accepted, n := RoundSize(next, proposals, rowArgMax, cfg.eos, cfg.maxTokens - generated);
      var committed := [next] + proposals[..accepted];
      var out := committed[..n];
      CommitCache(start, [next] + proposals, outs, n);
      if !hazard {
        StreamPrintsRound(cfg, h0, s0, hist, lines, cfg.maxTokens - generated, next, proposals, outs, n);
      }
      lines, hist, p := lines + Ids(out), hist + out, p + n;
      return n < |committed|, rowArgMax[accepted], n;
    }

    /** Puts a round's committed tokens on record; the draft is taken to hold their rows. */
    method RecordRound(next: Token, proposals: seq<Token>, rows: nat)
      requires cfg.specActive && draft.Valid() && |proposals| == SPEC_DRAFT_TOKENS && rows <= SPEC_VERIFY_TOKENS
      requires hist == fedTokens + ([next] + proposals)[..rows]
      requires draftExact ==> DraftProposed(next, proposals, fedTokens)
      modifies this`fedTokens, this`draftValid, this`draftExact
      ensures Tracked() && draftValid == |fedTokens|
      ensures draftExact == (old(draftExact) && rows <= SPEC_DRAFT_TOKENS)
    {
      hide Live, Holds;
      if draftExact && rows <= SPEC_DRAFT_TOKENS {
        CommitDraft(next, proposals, rows, fedTokens);
      }
      fedTokens := fedTokens + ([next] + proposals)[..rows];
      draftValid, draftExact := |fedTokens|, draftExact && rows <= SPEC_DRAFT_TOKENS;
      assert fedTokens[..draftValid] == fedTokens;
    }

    /** The draft's part of a round: it must reach the window, and proposes from the rows below p. */
    method DraftRound(next: Token) returns (ok: bool, proposals: seq<Token>)
      requires cfg.specActive && Tracked() && p == |hist| && draftValid == |fedTokens|
      modifies draft
      ensures Tracked()
      ensures ok ==> |proposals| == SPEC_DRAFT_TOKENS == 4 && (draftExact ==> DraftProposed(next, proposals, fedTokens))
      ensures draft.calls >= old(draft.calls) && (Granted(draft.answers, old(draft.calls), draft.calls) && p + SPEC_DRAFT_TOKENS <= draft.cacheSlots ==> ok)
    {
      hide Live, Feed;
      assert fedTokens[..draftValid] == fedTokens;
      ok, proposals := draft.Propose(next, p, SPEC_DRAFT_TOKENS);
    }

    /** Commits a verified round and puts it on record; 2: the turn is complete, 1: it goes on. */
    method AcceptRound(next: Token, proposals: seq<Token>, rowArgMax: seq<Token>, generated: int, ghost start: nat,
                       ghost outs: seq<Out>, ghost h0: seq<Token>, ghost s0: seq<Line>)
      returns (rc: int, next': Token, rows: nat)
      requires Shape() && cfg.specActive && p == |hist| && start <= p && hist != [] && p + SPEC_VERIFY_TOKENS <= cfg.C && Tracked()
      requires |proposals| == SPEC_DRAFT_TOKENS && |outs| == SPEC_VERIFY_TOKENS && rowArgMax == ArgMaxes(outs)
      requires generated < cfg.maxTokens && next != cfg.eos && Streaming(h0, s0, [], cfg.maxTokens - generated)
      requires OnlyBetween(spec.past, host, start, p) && spec.present[cfg.specPresRows - SPEC_VERIFY_TOKENS..] == RowsOf(outs)
      requires !hazard ==> && next == NextToken(cfg.m, cfg.C, hist) && Holds(spec.past, Live(cfg.m, cfg.C, hist))
                           && AreSteps(cfg.m, cfg.C, hist, [next] + proposals, outs)
      requires draftExact ==> DraftProposed(next, proposals, fedTokens)
      modifies this`lines, this`p, this`hist, this`fedTokens, this`draftValid, this`draftExact
      ensures (rc == 1 || rc == 2) && rows > 0 && SpecReady(start, old(p), rows) && hist != []
      ensures Tracked() && draftValid == |fedTokens|
      ensures rc == 2 && !hazard ==> Replied(cfg, h0, s0, hist, lines)
      ensures rc == 1 ==> Streaming(h0, s0, [], cfg.maxTokens - generated - rows) && (!hazard ==> next' == NextToken(cfg.m, cfg.C, hist))
    {
      hide Live, Last, AreSteps, Holds, Coherent, OnStream, Replied, NextToken, ArgMaxes, DraftExact, DraftProposed, FoldRows, Folded, OnlyBetween, Shape;
      var complete;
      complete, next', rows := CommitRound(next, proposals, rowArgMax, generated, start, outs, h0, s0);
      RecordRound(next, proposals, rows);
      rc := if complete then 2 else 1;
    }

    /**
      One speculative round from the pending token.  2: the turn is complete; 1: the loop
      goes on; 0: the round could not run (context edge, draft or verification refusal) and
      the pending token still waits.
     */
    method SpecRound(next: Token, generated0: int, ghost start: nat, prevSlot: int, prevRows: nat, ghost h0: seq<Token>, ghost s0: seq<Line>)
      returns (rc: int, next': Token, generated: int, slot: int, rows: nat)
      requires RoundReady(start, prevSlot, prevRows) && Tracked() && draftValid == |fedTokens| && hist != []
      requires generated0 < cfg.maxTokens && next != cfg.eos && Streaming(h0, s0, [], cfg.maxTokens - generated0)
      requires !hazard ==> next == NextToken(cfg.m, cfg.C, hist)
      modifies this`spec, this`lines, this`p, this`hist, this`fedTokens, this`draftValid, this`draftExact, draft, this`calls
      ensures rc == 0 || rc == 1 || rc == 2
      ensures RoundReady(start, slot, rows) && Tracked() && hist != []
      ensures rc == 0 ==> slot == prevSlot && rows == prevRows && next' == next && generated == generated0 && hist == old(hist)
      ensures rc != 0 ==> draftValid == |fedTokens| && rows > 0 && generated > generated0
      ensures rc != 2 ==> Streaming(h0, s0, [], cfg.maxTokens - generated) && (!hazard ==> next' == NextToken(cfg.m, cfg.C, hist))
      ensures rc == 2 && !hazard ==> Replied(cfg, h0, s0, hist, lines)
      ensures calls >= old(calls)
      ensures draft.calls >= old(draft.calls) && (rc == 0 && Granted(answers, old(calls), calls) && Granted(draft.answers, old(draft.calls), draft.calls) ==> p + SPEC_VERIFY_TOKENS > cfg.C || p + SPEC_DRAFT_TOKENS > draft.cacheSlots)
    {
      hide Live, Last, AreSteps, Holds, Coherent, OnStream, Replied, NextToken, ArgMaxes, DraftExact, DraftProposed, FoldRows, Folded, OnlyBetween, Shape;
      rc, next', generated, slot, rows := 0, next, generated0, prevSlot, prevRows;
      if p + SPEC_VERIFY_TOKENS > cfg.C {
        return;
      }
      var proposed, proposals := DraftRound(next);
      if !proposed {
        return;
      }
      ghost var outs;
      var verified, rowArgMax;
      verified, rowArgMax, outs := RunVerify([next] + proposals, start, prevSlot, prevRows);
      if !verified {
        return;
      }
      slot := p;
      rc, next', rows := AcceptRound(next, proposals, rowArgMax, generated, start, outs, h0, s0);
      generated := generated + rows;
    }

    /** Materializes the verification bucket's cache: every armed fold plus the last round's accepted rows. */
    method SyncSpecResidentToHost(ghost start: nat, lastSlot: nat, lastRows: nat) returns (ok: bool)
      requires SpecReady(start, lastSlot, lastRows)
      modifies this`host, this`calls
      ensures |host| == cfg.C
      ensures ok ==> host == Folded(spec, SpecArm(lastSlot, lastRows))
      ensures calls >= old(calls) && (Granted(answers, old(calls), calls) ==> ok)
    {
      ok := Ask();
      if ok {
        host := Folded(spec, SpecArm(lastSlot, lastRows));
      } else {
        var torn: seq<Row> := *;
        host := if |torn| == cfg.C then torn else host;
      }
    }

    /** Links back on the decode bucket, whose resident cache the next decode step re-seeds from the host. */
    method RestoreAfterSpec()
      requires HostReady() && cfg.specActive
      modifies this`kvLink, this`reseedCache, this`residentDirty, this`pendingResidentFold, this`calls
      ensures Ready() && HostReady() && (kvLink ==> old(kvLink)) && reseedCache == kvLink
      ensures calls >= old(calls) && (Granted(answers, old(calls), calls) ==> kvLink == old(kvLink))
    {
      hide Live;
      RestoreDecodeLinks();
      reseedCache, residentDirty, pendingResidentFold := kvLink, false, true;
    }

    /** The rounds of one turn, until the turn ends or a round cannot run. */
    method SpecRounds(next0: Token, ghost h0: seq<Token>, ghost s0: seq<Line>)
      returns (complete: bool, next: Token, generated: int, prevSlot: int, prevRows: nat)
      requires HostReady() && cfg.specActive && Tracked() && draftValid == |fedTokens| && hist != []
      requires Streaming(h0, s0, [], cfg.maxTokens) && (!hazard ==> next0 == NextToken(cfg.m, cfg.C, hist))
      modifies this`spec, this`lines, this`p, this`hist, this`fedTokens, this`draftValid, this`draftExact, draft, this`calls
      ensures RoundReady(old(p), prevSlot, prevRows) && Tracked() && hist != []
      ensures complete && !hazard ==> Replied(cfg, h0, s0, hist, lines)
      ensures !complete ==> generated < cfg.maxTokens && next != cfg.eos && Streaming(h0, s0, [], cfg.maxTokens - generated)
      ensures !complete && !hazard ==> next == NextToken(cfg.m, cfg.C, hist)
      ensures calls >= old(calls)
      ensures draft.calls >= old(draft.calls) && (!complete && Granted(answers, old(calls), calls) && Granted(draft.answers, old(draft.calls), draft.calls) ==> p + SPEC_VERIFY_TOKENS > cfg.C || p + SPEC_DRAFT_TOKENS > draft.cacheSlots)
    {
      hide Live, Last, Holds, Coherent, OnStream, Replied, NextToken, DraftExact, FoldRows;
      complete, next, generated, prevSlot, prevRows := false, next0, 0, -1, 0;
      var rc := 1;
      while rc == 1 && generated < cfg.maxTokens && next != cfg.eos
        invariant rc == 0 || rc == 1 || rc == 2
        invariant RoundReady(old(p), prevSlot, prevRows) && Tracked() && hist != [] && calls >= old(calls)
        invariant rc == 1 ==> draftValid == |fedTokens|
        invariant rc != 2 ==> Streaming(h0, s0, [], cfg.maxTokens - generated) && (!hazard ==> next == NextToken(cfg.m, cfg.C, hist))
        invariant rc == 0 ==> generated < cfg.maxTokens && next != cfg.eos
        invariant draft.calls >= old(draft.calls) && (rc == 0 && Granted(answers, old(calls), calls) && Granted(draft.answers, old(draft.calls), draft.calls) ==> p + SPEC_VERIFY_TOKENS > cfg.C || p + SPEC_DRAFT_TOKENS > draft.cacheSlots)
        invariant rc == 2 && !hazard ==> Replied(cfg, h0, s0, hist, lines)
        decreases cfg.maxTokens - generated, rc
      {
        rc, next, generated, prevSlot, prevRows := SpecRound(next, generated, old(p), prevSlot, prevRows, h0, s0);
      }
      complete := rc != 0;
      if rc == 1 && !hazard {
        StreamEnds(cfg, h0, s0, hist, lines, cfg.maxTokens - generated);
      }
    }

    /** Brings the rounds' result to the host cache; nothing to do when no round was accepted. */
    method CollectRounds(ghost start: nat, lastSlot: int, lastRows: nat) returns (ok: bool)
      requires RoundReady(start, lastSlot, lastRows)
      modifies this`host, this`calls
      ensures ok ==> HostReady() && (OnlyBetween(host, old(host), start, p) || host == old(host))
      ensures calls >= old(calls) && (Granted(answers, old(calls), calls) ==> ok)
    {
      hide Live, FoldRows, OnlyBetween, Folded;
      ok := true;
      if lastRows > 0 {
        ok := SyncSpecResidentToHost(start, lastSlot, lastRows);
      }
    }

    /** The rounds of a turn, and their rows brought to the host. */
    method SpecPasses(next0: Token, ghost h0: seq<Token>, ghost s0: seq<Line>) returns (ok: bool, complete: bool, next: Token, generated: int)
      requires HostReady() && cfg.specActive && Tracked() && draftValid == |fedTokens| && hist != []
      requires Streaming(h0, s0, [], cfg.maxTokens) && (!hazard ==> next0 == NextToken(cfg.m, cfg.C, hist))
      modifies this`spec, this`lines, this`p, this`hist, this`fedTokens, this`draftValid, this`draftExact, draft
      modifies this`host, this`calls
      ensures ok ==> HostReady() && Tracked() && hist != [] && (OnlyBetween(host, old(host), old(p), p) || host == old(host))
      ensures ok && complete && !hazard ==> Replied(cfg, h0, s0, hist, lines)
      ensures ok && !complete ==> Streaming(h0, s0, [], cfg.maxTokens - generated) && (!hazard ==> next == NextToken(cfg.m, cfg.C, hist))
      ensures !ok && !hazard ==> WithinReply(cfg, h0, s0, lines)
      ensures calls >= old(calls) && (Granted(answers, old(calls), calls) ==> ok)
      ensures draft.calls >= old(draft.calls) && (ok && !complete && Granted(answers, old(calls), calls) && Granted(draft.answers, old(draft.calls), draft.calls) ==> p + SPEC_VERIFY_TOKENS > cfg.C || p + SPEC_DRAFT_TOKENS > draft.cacheSlots)
    {
      hide Live, Last, Coherent, OnStream, Replied, WithinReply, NextToken, DraftExact, OnlyBetween, RoundReady, Holds;
      ghost var start := p;
      var prevSlot, prevRows;
      complete, next, generated, prevSlot, prevRows := SpecRounds(next0, h0, s0);
      ok := CollectRounds(start, prevSlot, prevRows);
      if !ok && !hazard {
        if complete {
          RepliedWithin(cfg, h0, s0, hist, lines);
        } else {
          StreamWithin(cfg, h0, s0, hist, lines, [], cfg.maxTokens - generated);
        }
      }
    }

    /**
      Decodes one turn speculatively from the pending token.  1: the turn is complete; 0: the
      rest of the turn goes back to the plain loop with the token still pending; -1: fatal.
      On return the host cache differs from the turn-entry one in the committed slots only.
     */
    method SpecDecodeTurn(next0: Token, ghost h0: seq<Token>, ghost s0: seq<Line>) returns (rc: int, next: Token, generated: int)
      requires Ready() && Tracked() && cfg.specActive && kvLink && draftValid == |fedTokens| && hist != []
      requires Streaming(h0, s0, [], cfg.maxTokens) && (!hazard ==> next0 == NextToken(cfg.m, cfg.C, hist))
      modifies this`spec, this`lines, this`p, this`hist, this`fedTokens, this`draftValid, this`draftExact, draft, this`calls
      modifies this`host, this`kvLink, this`reseedCache, this`residentDirty, this`pendingResidentFold
      ensures rc == -1 || rc == 0 || rc == 1
      ensures rc != -1 ==> Ready() && HostReady() && Tracked() && hist != [] && reseedCache == kvLink
      ensures rc != -1 && !old(residentDirty) ==> OnlyBetween(host, old(host), old(p), p) || host == old(host)
      ensures rc == 1 && !hazard ==> Replied(cfg, h0, s0, hist, lines)
      ensures rc == 0 ==> Streaming(h0, s0, [], cfg.maxTokens - generated) && (!hazard ==> next == NextToken(cfg.m, cfg.C, hist))
      ensures rc == -1 && !hazard ==> WithinReply(cfg, h0, s0, lines)
      ensures kvLink ==> old(kvLink)
      ensures calls >= old(calls) && (Granted(answers, old(calls), calls) ==> rc != -1 && kvLink == old(kvLink))
      ensures draft.calls >= old(draft.calls) && (rc == 0 && Granted(answers, old(calls), calls) && Granted(draft.answers, old(draft.calls), draft.calls) ==> p + SPEC_VERIFY_TOKENS > cfg.C || p + SPEC_DRAFT_TOKENS > draft.cacheSlots)
    {
      hide Live, Last, Coherent, OnStream, Replied, WithinReply, NextToken, DraftExact, OnlyBetween, RoundReady, Holds, Shape, Inv;
      next, generated := next0, 0;
      var synced := SyncIfDirty();
      if !synced {
        if !hazard {
          StreamWithin(cfg, h0, s0, hist, lines, [], cfg.maxTokens);
        }
        return -1, next, generated;
      }
      var linked := Ask();
      if !linked {
        RestoreAfterSpec();
        return 0, next, generated;
      }
      var complete;
      synced, complete, next, generated := SpecPasses(next0, h0, s0);
      if !synced {
        return -1, next, generated;
      }
      RestoreAfterSpec();
      rc := if complete then 1 else 0;
    }

    /** Catching up appends rows: the valid ones stay, and a complete catch-up makes all of them valid. */
    lemma CatchUpRows(m: Model, C: nat, fed: seq<Token>, valid: nat, before: seq<Row>, after: seq<Row>, position: nat)
      requires C > 0 && valid <= position <= |fed| && valid <= C == |before| == |after| && (position > valid ==> position <= C)
      requires Holds(before, Live(m, C, fed[..valid]))
      requires after[..position] == Feed(m, before[..valid], fed[valid..][..position - valid])
      ensures Holds(after, Live(m, C, fed[..valid]))
      ensures position == |fed| ==> Holds(after, Live(m, C, fed))
    {
      hide Live, Feed;
      assert before[..valid] == Live(m, C, fed[..valid]);
      assert after[..valid] == after[..position][..valid];
      if position == |fed| {
        FeedIsLive(m, C, fed[..valid], fed[valid..]);
        assert fed[valid..][..position - valid] == fed[valid..];
        assert fed[..valid] + fed[valid..] == fed;
      }
    }

    /** Rewinds the draft to its valid rows and feeds it the rest of the record. */
    method FollowRecord() returns (ok: bool)
      requires cfg.specActive && Tracked()
      modifies draft
      ensures Tracked()
      ensures ok && draftExact && draftValid < |fedTokens| ==>
                |fedTokens| <= draft.cacheSlots && Holds(draft.cache, Live(draft.m, draft.cacheSlots, fedTokens))
      ensures draft.calls >= old(draft.calls) && (Granted(draft.answers, old(draft.calls), draft.calls) && |fedTokens| <= draft.cacheSlots ==> ok)
    {
      hide Live, Feed;
      var missing := fedTokens[draftValid..|fedTokens|];
      draft.Rewind(draftValid);
      ghost var before := draft.cache;
      ok := draft.Consume(missing);
      if draftExact {
        assert missing == fedTokens[draftValid..];
        CatchUpRows(draft.m, draft.cacheSlots, fedTokens, draftValid, before, draft.cache, draft.position);
      }
    }

    /** The draft catches up on every conversation token it has not seen. */
    method CatchUp() returns (draftReady: bool)
      requires cfg.specActive && Tracked()
      modifies this`draftValid, draft
      ensures Tracked() && (draftReady ==> draftValid == |fedTokens|)
      ensures draft.calls >= old(draft.calls) && (Granted(draft.answers, old(draft.calls), draft.calls) && |fedTokens| <= draft.cacheSlots ==> draftReady)
    {
      hide Live, Holds;
      var caughtUp := |fedTokens|;
      draftValid := Min(draftValid, caughtUp);  // never lowers it: the draft is not ahead of the record
      draftReady := draftValid == caughtUp;
      if !draftReady {
        draftReady := FollowRecord();
        assert fedTokens[..caughtUp] == fedTokens;
        draftValid := if draftReady then caughtUp else draftValid;
      }
    }

    /**
      The speculative part of a turn: what it leaves - the context edge, a refusal, a draft
      that cannot follow - the single-step loop continues.
     */
    method SpecTurn(ghost h0: seq<Token>, ghost s0: seq<Line>) returns (ok: bool, generated: int, ghost exit: Exit)
      requires Ready() && Tracked() && cfg.specActive && kvLink && hist != [] && h0 != []
      requires Streaming(h0, s0, [], cfg.maxTokens) && (!hazard ==> last == Last(cfg.m, cfg.C, hist))
      modifies this`host, this`dec, this`spec, this`kvLink, this`residentDirty, this`reseedCache, this`pendingResidentFold, this`calls
      modifies this`last, this`lastFromDecode, this`hist, this`hazard, this`p, this`lines, this`fedTokens
      modifies this`draftValid, this`draftExact, draft
      ensures ok ==> Ready() && Tracked() && hist != [] && Streaming(h0, s0, [], cfg.maxTokens - generated)
      ensures ok && generated < cfg.maxTokens && !hazard ==> last == Last(cfg.m, cfg.C, hist)
      ensures !ok && !hazard ==> WithinReply(cfg, h0, s0, lines)
      ensures (kvLink ==> old(kvLink)) && (hazard ==> cfg.linked && cfg.Reseeds())
      ensures (old(hazard) ==> hazard) && (hazard && !old(hazard) ==> !kvLink)
      ensures ok && kvLink ==> reseedCache == exit.Owes(old(reseedCache))
      ensures ok && !exit.rounds ==> |hist| == |old(hist)| + exit.tail
      ensures calls >= old(calls) && (Granted(answers, old(calls), calls) ==> ok && kvLink == old(kvLink))
      ensures draft.calls >= old(draft.calls) && (Granted(answers, old(calls), calls) && Granted(draft.answers, old(draft.calls), draft.calls) && |old(hist)| <= draft.cacheSlots ==> exit.rounds)
    {
      hide Live, Last, Holds, Coherent, OnStream, Replied, WithinReply, ArgMax, DraftExact, Shape;
      generated, exit := 0, Exit(false, 0);
      var next;
      ok, next := Sample();
      if !ok {
        if !hazard {
          StreamWithin(cfg, h0, s0, hist, lines, [], cfg.maxTokens);
        }
        return;
      }
      var draftReady := CatchUp();
      var outcome := 0;
      if draftReady {
        outcome, next, generated := SpecDecodeTurn(next, h0, s0);
        exit := Exit(true, 0);
      }
      if outcome < 0 {
        return false, generated, exit;
      }
      if outcome == 1 {
        if !hazard {
          RepliedStreams(cfg, h0, s0, hist, lines);
        }
        return true, cfg.maxTokens, exit;
      }
      if generated < cfg.maxTokens && next != cfg.eos {
        ok := PrintAndFeed(next, h0, s0, cfg.maxTokens - generated);
        return ok, generated + 1, exit.(tail := 1);
      }
      if !hazard {
        StreamEnds(cfg, h0, s0, hist, lines, cfg.maxTokens - generated);
        RepliedStreams(cfg, h0, s0, hist, lines);
      }
      return true, cfg.maxTokens, exit;
    }

    // ---- one turn, and the conversation --------------------------------------------------

    /** The chunked prompt phase; when it is unavailable the later phases feed the whole prompt. */
    method ChunkPhase(prompt: seq<Token>) returns (ok: bool, ran: bool, consumed: nat)
      requires Ready() && kvLink && chunkBucket && prompt != []
      modifies this`host, this`chunk, this`kvLink, this`last, this`lastFromDecode, this`p, this`hist, this`calls
      modifies this`residentDirty, this`reseedCache, this`chunkBucket, this`hazard
      ensures ok ==> Ready() && consumed <= |prompt| && hist == old(hist) + prompt[..consumed] && (!ran ==> consumed == 0)
      ensures ok && consumed > 0 && !hazard ==> last == Last(cfg.m, cfg.C, hist)
      ensures ok ==> hazard == (old(hazard) || (old(reseedCache) && old(p) + Min(|prompt|, cfg.chunkS) > cfg.C))
      ensures !ok ==> hazard == old(hazard) && kvLink && chunkBucket
      ensures ok ==> chunkBucket == ran && (!ran ==> reseedCache == old(reseedCache) && old(p) + Min(|prompt|, cfg.chunkS) <= cfg.C)
      ensures ok && ran ==> reseedCache == (kvLink && consumed > 0) && (consumed == |prompt| <==> old(p) + |prompt| <= cfg.C)
      ensures (kvLink ==> old(kvLink)) && (hazard ==> cfg.linked && cfg.Reseeds())
      ensures calls >= old(calls) && (Granted(answers, old(calls), calls) ==> ok && ran && kvLink == old(kvLink))
    {
      hide Live, Last, Coherent, Holds, Sized;
      ran, consumed := false, 0;
      ok := SyncIfDirty();
      if !ok {
        return;
      }
      assert hist + prompt[..0] == hist;
      var status;
      status, consumed := ChunkedPrefillTurn(prompt);
      if status < 0 {
        chunkBucket, consumed := false, 0;
      } else {
        ran := true;
        SettleReseed(consumed);
      }
    }

    /** The part of the prompt no batched pass took, token by token. */
    method FeedRest(prompt: seq<Token>, consumed0: nat) returns (ok: bool)
      requires Ready() && consumed0 <= |prompt| && prompt != []
      requires consumed0 > 0 && !hazard ==> hist != [] && last == Last(cfg.m, cfg.C, hist)
      modifies this`host, this`dec, this`kvLink, this`residentDirty, this`reseedCache, this`pendingResidentFold, this`calls
      modifies this`last, this`lastFromDecode, this`hist, this`hazard, this`p
      ensures ok ==> Ready() && hist == old(hist) + prompt[consumed0..]
      ensures ok && !hazard ==> hist != [] && last == Last(cfg.m, cfg.C, hist)
      ensures (kvLink ==> old(kvLink)) && (ok && kvLink ==> reseedCache == (old(reseedCache) && consumed0 == |prompt|))
      ensures (old(hazard) ==> hazard) && (hazard ==> cfg.linked && cfg.Reseeds())
      ensures hazard && !old(hazard) ==> old(kvLink && reseedCache) && !kvLink
      ensures calls >= old(calls) && (Granted(answers, old(calls), calls) ==> ok && kvLink == old(kvLink))
    {
      hide Live, Last, Coherent, Shape;
      var consumed := consumed0;
      assert old(hist) + prompt[consumed0..consumed0] == old(hist);
      while consumed < |prompt|
        invariant consumed0 <= consumed <= |prompt| && Ready() && hist == old(hist) + prompt[consumed0..consumed]
        invariant calls >= old(calls) && (Granted(answers, old(calls), calls) ==> kvLink == old(kvLink))
        invariant consumed > 0 && !hazard ==> hist != [] && last == Last(cfg.m, cfg.C, hist)
        invariant (old(hazard) ==> hazard) && (hazard ==> cfg.linked && cfg.Reseeds())
        invariant kvLink ==> old(kvLink) && reseedCache == (old(reseedCache) && consumed == consumed0)
        invariant consumed == consumed0 ==> kvLink == old(kvLink) && reseedCache == old(reseedCache)
        invariant hazard && !old(hazard) ==> old(kvLink && reseedCache) && !kvLink
      {
        ok := Step(prompt[consumed]);
        if !ok {
          return;
        }
        p := p + 1;
        assert prompt[consumed0..consumed] + [prompt[consumed]] == prompt[consumed0..consumed + 1];
        consumed := consumed + 1;
      }
      ok := true;
    }

    /** The batched part of the prompt phase: chunks while their bucket is up, else whole windows. */
    method Batches(prompt: seq<Token>) returns (ok: bool, consumed: nat)
      requires Ready() && prompt != []
      modifies this`host, this`chunk, this`kvLink, this`last, this`lastFromDecode, this`p, this`hist, this`calls
      modifies this`residentDirty, this`reseedCache, this`chunkBucket, this`hazard
      ensures ok ==> Ready() && consumed <= |prompt| && hist == old(hist) + prompt[..consumed]
      ensures ok && consumed > 0 && !hazard ==> last == Last(cfg.m, cfg.C, hist)
      ensures (kvLink ==> old(kvLink)) && (chunkBucket ==> old(chunkBucket))
      ensures (old(hazard) ==> hazard) && (hazard ==> cfg.linked && cfg.Reseeds())
      ensures hazard && !old(hazard) ==> old(kvLink)
      ensures kvLink && hazard && !old(hazard) ==> old(reseedCache) && Drops(cfg, chunkBucket, old(p), |prompt|)
      ensures ok && kvLink && old(reseedCache) && Drops(cfg, chunkBucket, old(p), |prompt|) ==> hazard
      ensures ok && kvLink ==> (reseedCache && consumed == |prompt| <==> OwesAfterPrompt(cfg, chunkBucket, old(p), |prompt|))
      ensures calls >= old(calls) && (Granted(answers, old(calls), calls) ==> ok && kvLink == old(kvLink) && chunkBucket == old(chunkBucket))
    {
      hide Live, Last, Coherent;
      var chunkRan := false;
      ok, consumed := true, 0;
      assert hist + prompt[..0] == hist;
      var windowCovers := cfg.prefillS > 0 && |prompt| <= cfg.prefillS;
      if chunkBucket && kvLink && !windowCovers {
        ok, chunkRan, consumed := ChunkPhase(prompt);
        if !ok {
          return;
        }
      }
      if !chunkRan && cfg.prefillS > 0 {
        ok, consumed := WindowPhase(prompt);
      }
    }

    /** The whole prompt phase, by whichever routes this turn takes. */
    method PromptPhase(prompt: seq<Token>) returns (ok: bool)
      requires Ready() && prompt != []
      modifies this`host, this`chunk, this`dec, this`kvLink, this`last, this`lastFromDecode, this`p, this`hist, this`calls
      modifies this`residentDirty, this`reseedCache, this`pendingResidentFold, this`chunkBucket, this`hazard
      ensures ok ==> Ready() && hist == old(hist) + prompt
      ensures ok && !hazard ==> last == Last(cfg.m, cfg.C, hist)
      ensures (kvLink ==> old(kvLink)) && (chunkBucket ==> old(chunkBucket))
      ensures (old(hazard) ==> hazard) && (hazard ==> cfg.linked && cfg.Reseeds())
      ensures hazard && !old(hazard) ==> old(kvLink)
      ensures kvLink && hazard && !old(hazard) ==> old(reseedCache) && Drops(cfg, chunkBucket, old(p), |prompt|)
      ensures ok && kvLink && old(reseedCache) && Drops(cfg, chunkBucket, old(p), |prompt|) ==> hazard
      ensures ok && kvLink ==> reseedCache == OwesAfterPrompt(cfg, chunkBucket, old(p), |prompt|)
      ensures calls >= old(calls) && (Granted(answers, old(calls), calls) ==> ok && kvLink == old(kvLink) && chunkBucket == old(chunkBucket))
    {
      hide Live, Last, Coherent, Drops, OwesAfterPrompt, Shape;
      var consumed;
      ok, consumed := Batches(prompt);
      if ok {
        ok := FeedRest(prompt, consumed);
        assert prompt[..consumed] + prompt[consumed..] == prompt;
      }
    }

    /** The decode phase: speculation, then the device chain, then the single-step loop for whatever is left. */
    method DecodePhase(ghost h0: seq<Token>, ghost s0: seq<Line>) returns (ok: bool, ghost exit: Exit)
      requires Ready() && Tracked() && hist == h0 && lines == s0 && h0 != []
      requires !hazard ==> last == Last(cfg.m, cfg.C, hist)
      modifies this`host, this`dec, this`spec, this`kvLink, this`residentDirty, this`reseedCache, this`pendingResidentFold, this`calls
      modifies this`last, this`lastFromDecode, this`hist, this`hazard, this`p, this`lines, this`fedTokens
      modifies this`draftValid, this`draftExact, draft
      ensures ok ==> Ready() && Tracked() && (!hazard ==> Replied(cfg, h0, s0, hist, lines))
      ensures !ok && !hazard ==> WithinReply(cfg, h0, s0, lines)
      ensures (kvLink ==> old(kvLink)) && (hazard ==> cfg.linked && cfg.Reseeds())
      ensures (old(hazard) ==> hazard) && (hazard && !old(hazard) ==> old(kvLink) && !kvLink)
      ensures ok && kvLink ==> reseedCache == exit.Owes(old(reseedCache))
      ensures ok && kvLink && !exit.rounds ==> |hist| == |old(hist)| + exit.tail
      ensures !cfg.specActive ==> !exit.rounds
      ensures calls >= old(calls) && (Granted(answers, old(calls), calls) ==> ok && kvLink == old(kvLink))
    {
      hide Live, Last, Coherent, OnStream, Replied, WithinReply, DraftExact, Shape;
      var generated := 0;
      exit := Exit(false, 0);
      StreamStarts(cfg, h0, s0);
      if cfg.specActive && kvLink {
        ok, generated, exit := SpecTurn(h0, s0);
        if !ok {
          return;
        }
      }
      ghost var outside := |hist|;
      if cfg.chainActive && kvLink {
        ok, generated := ChainTurn(h0, s0);
        if !ok {
          return;
        }
      }
      ok := PlainLoop(generated, h0, s0);
      if ok && kvLink {
        exit := exit.(tail := exit.tail + |hist| - outside);
      }
    }

    /**
      One turn: the reply is the plain greedy loop's, whatever routes fed the prompt and
      decoded it, and a turn cut short by a fatal error has printed a prefix of it.
     */
    method Turn(prompt: seq<Token>) returns (ok: bool, ghost exit: Exit)
      requires Ready() && Tracked() && prompt != []
      modifies this, draft
      ensures ok ==> Ready() && Tracked()
      ensures ok && !hazard ==> Replied(cfg, old(hist) + prompt, old(lines), hist, lines)
      ensures !ok && !hazard ==> WithinReply(cfg, old(hist) + prompt, old(lines), lines)
      ensures (kvLink ==> old(kvLink)) && (chunkBucket ==> old(chunkBucket))
      ensures (old(hazard) ==> hazard) && (hazard ==> cfg.linked && cfg.Reseeds())
      ensures hazard && !old(hazard) ==> old(kvLink)
      ensures kvLink && hazard && !old(hazard) ==> old(reseedCache) && Drops(cfg, chunkBucket, old(p), |prompt|)
      ensures ok && kvLink && old(reseedCache) && Drops(cfg, chunkBucket, old(p), |prompt|) ==> hazard
      ensures ok && kvLink ==> reseedCache == exit.Owes(OwesAfterPrompt(cfg, chunkBucket, old(p), |prompt|))
      ensures ok && kvLink && !exit.rounds && !hazard ==> exit.tail == |Reply(cfg, old(hist) + prompt)|
      ensures !cfg.specActive ==> !exit.rounds
      ensures calls >= old(calls) && (Granted(answers, old(calls), calls) ==> ok && kvLink == old(kvLink) && chunkBucket == old(chunkBucket))
    {
      hide Live, Last, Coherent, Holds, Reply, Shape;
      exit := Exit(false, 0);
      if cfg.specActive {
        fedTokens := fedTokens + prompt;
        assert fedTokens[..draftValid] == old(fedTokens)[..draftValid];
      }
      ok := PromptPhase(prompt);
      if ok {
        ok, exit := DecodePhase(hist, lines);
      }
    }

    method PromptValid(prompt: seq<Token>) returns (valid: bool)
      ensures valid == InVocab(cfg, prompt)
    {
      valid := true;
      var i := 0;
      while i < |prompt| && valid
        invariant 0 <= i <= |prompt|
        invariant valid ==> InVocab(cfg, prompt[..i])
        invariant !valid ==> !InVocab(cfg, prompt)
      {
        valid := 0 <= prompt[i] < cfg.vocab;
        i := i + 1;
      }
      assert valid ==> prompt[..i] == prompt;
    }

    /** One input line: blank lines are skipped, a prompt outside the vocabulary is refused, the rest are turns. */
    method ReadLine(line: seq<Token>, ghost input: seq<seq<Token>>) returns (ok: bool, ghost taken: seq<Exit>)
      requires Ready() && Tracked() && input != [] && input[0] == line
      modifies this, draft
      ensures ok ==> Ready() && Tracked()
      ensures ok && !hazard ==> old(lines) <= lines
      ensures ok && !hazard ==> old(lines) + Transcript(cfg, old(hist), input) == lines + Transcript(cfg, hist, input[1..])
      ensures !ok && !hazard ==> old(lines) <= lines <= old(lines) + Transcript(cfg, old(hist), input)
      ensures (kvLink ==> old(kvLink)) && (chunkBucket ==> old(chunkBucket))
      ensures (old(hazard) ==> hazard) && (hazard && !old(hazard) ==> old(kvLink) && cfg.linked && cfg.Reseeds())
      ensures ok ==> |taken| + Turns(cfg, input[1..]) == Turns(cfg, input)
      ensures !ok && hazard && !old(hazard) && kvLink ==>
                line != [] && InVocab(cfg, line) && old(reseedCache) && Drops(cfg, chunkBucket, |old(hist)|, |line|)
      ensures ok && !old(hazard) && kvLink ==>
                LineTakes(cfg, chunkBucket, old(hist), old(reseedCache), input, taken, hazard, hist, reseedCache)
      ensures calls >= old(calls) && (Granted(answers, old(calls), calls) ==> ok && kvLink == old(kvLink) && chunkBucket == old(chunkBucket))
    {
      hide Live, Last, Coherent, Replied, WithinReply, Reply, DraftExact, InVocab, Holds, Drops, OwesAfterPrompt, Shape;
      assert line == [] ==> Transcript(cfg, hist, input) == Transcript(cfg, hist, input[1..]);
      assert !InVocab(cfg, line) && line != [] ==> Transcript(cfg, hist, input) == [End] + Transcript(cfg, hist, input[1..]);
      hide Transcript;
      ghost var h, s := hist, lines;
      taken, ok := [], true;
      if line != [] {
        var valid := PromptValid(line);
        if valid {
          ghost var exit;
          ok, exit := Turn(line);
          taken := [exit];
          if !hazard {
            TurnOfTranscript(cfg, h, s, input, hist, lines, ok);
          }
          if ok && !hazard {
            RepliedHistory(cfg, h + line, s, hist, lines);
          }
          if !ok {
            return;
          }
        }
        lines := lines + [End];
      }
    }

    /** The lines of the input, one after the other, until a turn dies. */
    method ReadLines(input: seq<seq<Token>>) returns (ok: bool, ghost exits: seq<Exit>)
      requires Ready() && Tracked() && !hazard
      modifies this, draft
      ensures ok ==> Ready() && Tracked() && |exits| == Turns(cfg, input)
      ensures !hazard ==> old(lines) <= lines <= old(lines) + Transcript(cfg, old(hist), input)
      ensures ok && !hazard ==> lines == old(lines) + Transcript(cfg, old(hist), input)
      ensures hazard ==> old(kvLink) && cfg.linked && cfg.Reseeds()
      ensures (kvLink ==> old(kvLink)) && (chunkBucket ==> old(chunkBucket))
      ensures ok && kvLink ==> Guarded(cfg, old(chunkBucket), old(hist), old(reseedCache), input, exits, chunkBucket, hazard, hist, reseedCache, [])
      ensures !ok && kvLink && hazard ==>
                && !WindowsFit(cfg, old(hist), input)
                && (chunkBucket == old(chunkBucket) ==> !KeepsReseeds(cfg, chunkBucket, old(hist), old(reseedCache), input))
      ensures calls >= old(calls) && (Granted(answers, old(calls), calls) ==> ok && kvLink == old(kvLink) && chunkBucket == old(chunkBucket))
    {
      hide Live, Last, Coherent, Replied, WithinReply, Reply, DraftExact, Holds, InVocab, Drops, OwesAfterPrompt, Guarded, KeepsVia, LineTakes,
           KeepsReseeds, WindowsFit, Shape;
      var i := 0;
      ghost var whole := old(lines) + Transcript(cfg, old(hist), input);
      ghost var chunk0, h0, owes0 := chunkBucket, hist, reseedCache;
      exits := [];
      assert input[0..] == input;
      GuardedBegins(cfg, chunkBucket, hist, reseedCache, input);
      while i < |input|
        invariant 0 <= i <= |input| && Ready() && Tracked()
        invariant calls >= old(calls) && (Granted(answers, old(calls), calls) ==> kvLink == old(kvLink) && chunkBucket == old(chunkBucket))
        invariant !hazard ==> old(lines) <= lines && whole == lines + Transcript(cfg, hist, input[i..])
        invariant hazard ==> old(kvLink) && cfg.linked && cfg.Reseeds()
        invariant (kvLink ==> old(kvLink)) && (chunkBucket ==> chunk0)
        invariant |exits| + Turns(cfg, input[i..]) == Turns(cfg, input)
        invariant kvLink ==> Guarded(cfg, chunk0, h0, owes0, input, exits, chunkBucket, hazard, hist, reseedCache, input[i..])
      {
        assert input[i..][0] == input[i] && input[i..][1..] == input[i + 1..];
        ghost var h, owes, lost, up, taken := hist, reseedCache, hazard, chunkBucket, [];
        ok, taken := ReadLine(input[i], input[i..]);
        if !ok {
          if hazard && kvLink {
            GuardedLoss(cfg, chunk0, h0, owes0, input, exits, up, lost, h, owes, input[i..], chunkBucket);
          }
          return;
        }
        if kvLink {
          GuardedLine(cfg, chunk0, h0, owes0, input, exits, up, lost, h, owes, input[i..], taken, chunkBucket, hazard, hist, reseedCache);
        }
        exits := exits + taken;
        i := i + 1;
      }
      assert input[i..] == [];
      return true, exits;
    }

    /**
      The conversation.  Every turn of every run prints the plain greedy decoder's reply; a
      run that dies has printed a prefix of the plain transcript.  Without links nothing is
      ever lost.  While the links stay up, nothing is lost if every turn's first batched
      window fits, or if no turn that owes a re-seed meets one that does not; and, when
      speculation is off, only then.  With speculation the turns' exits decide: given them,
      the conversation is lost exactly when a turn that owes a re-seed meets such a window.
      A run none of whose requests was refused ends, keeps its links, and, unless it is lost
      so, prints the whole transcript.
     */
    method Converse(input: seq<seq<Token>>) returns (ok: bool, ghost exits: seq<Exit>)
      requires Ready() && Tracked() && !hazard
      modifies this, draft
      ensures ok && !hazard ==> Ready() && lines == old(lines) + Transcript(cfg, old(hist), input)
      ensures !hazard ==> old(lines) <= lines <= old(lines) + Transcript(cfg, old(hist), input)
      ensures !old(kvLink) || (cfg.prefillS == 0 && cfg.chunkS == 0 && !cfg.specActive) ==> !hazard
      ensures (kvLink ==> old(kvLink)) && (chunkBucket ==> old(chunkBucket))
      ensures kvLink && WindowsFit(cfg, old(hist), input) ==> !hazard
      ensures kvLink && chunkBucket == old(chunkBucket) && KeepsReseeds(cfg, chunkBucket, old(hist), old(reseedCache), input) ==> !hazard
      ensures ok && kvLink && chunkBucket == old(chunkBucket) && !cfg.specActive ==>
                (hazard <==> !KeepsReseeds(cfg, chunkBucket, old(hist), old(reseedCache), input))
      ensures ok && kvLink && chunkBucket == old(chunkBucket) ==>
                (hazard <==> !KeepsVia(cfg, chunkBucket, old(hist), old(reseedCache), input, exits))
      ensures ok ==> |exits| == Turns(cfg, input)
      ensures calls >= old(calls) && (Granted(answers, old(calls), calls) ==> ok && kvLink == old(kvLink) && chunkBucket == old(chunkBucket))
      ensures Granted(answers, old(calls), calls)
              && (!old(kvLink) || KeepsReseeds(cfg, old(chunkBucket), old(hist), old(reseedCache), input))
              ==> lines == old(lines) + Transcript(cfg, old(hist), input)
    {
      hide Live, Last, Coherent, DraftExact, Holds, Guarded, KeepsVia, KeepsReseeds, WindowsFit, Shape, Transcript;
      ghost var chunk0, h0, owes0 := chunkBucket, hist, reseedCache;
      ok, exits := ReadLines(input);
      if ok && kvLink {
        GuardedEnds(cfg, chunk0, h0, owes0, input, exits, chunkBucket, hazard, hist, reseedCache);
      }
    }
  }

  /** A chain cut before its end-of-stream id prints the rest of the reply. */
  lemma TrimPrints(cfg: Config, h0: seq<Token>, s0: seq<Line>, hist: seq<Token>, before: seq<Line>, left: int,
                   next: Token, chainIds: seq<Token>, f: nat)
    requires cfg.Valid() && hist != [] && h0 != [] && f < |chainIds| && f + 1 < left
    requires chainIds[f] == cfg.eos && cfg.eos !in chainIds[..f] && next != cfg.eos
    requires OnStream(cfg, h0, s0, hist, before, [], left) && next == NextToken(cfg.m, cfg.C, hist)
    requires GreedyRun(cfg.m, cfg.C, hist + [next], chainIds)
    ensures Replied(cfg, h0, s0, hist + ([next] + chainIds[..f]), before + [Id(next)] + Ids(chainIds[..f]))
  {
    hide Live, Last, OnStream, NextToken, Replied;
    var run := [next] + chainIds[..f + 1];
    assert run[..f + 1] == [next] + chainIds[..f];
    ChainIsRun(cfg.m, cfg.C, hist, next, chainIds, f + 1);
    assert IsEmittedCount(run, cfg.eos, left, f + 1);
    StreamPrintsRun(cfg, h0, s0, hist, before, left, run, f + 1);
    assert before + [Id(next)] + Ids(chainIds[..f]) == before + Ids(run[..f + 1]);
  }

  lemma RepliedHistory(cfg: Config, h0: seq<Token>, s0: seq<Line>, hist: seq<Token>, lines: seq<Line>)
    requires Replied(cfg, h0, s0, hist, lines)
    ensures cfg.Valid() && h0 != [] && hist == h0 + Reply(cfg, h0)
  {
  }

  /** A turn's share of the transcript. */
  lemma TurnOfTranscript(cfg: Config, hist: seq<Token>, s: seq<Line>, input: seq<seq<Token>>, hist': seq<Token>, lines: seq<Line>, ok: bool)
    requires cfg.Valid() && input != [] && input[0] != [] && InVocab(cfg, input[0])
    requires if ok then Replied(cfg, hist + input[0], s, hist', lines) else WithinReply(cfg, hist + input[0], s, lines)
    ensures s <= lines <= s + Transcript(cfg, hist, input)
    ensures ok ==> s + Transcript(cfg, hist, input) == lines + [End] + Transcript(cfg, hist', input[1..])
  {
    hide Reply;
    var reply := Ids(Reply(cfg, hist + input[0]));
    var rest := [End] + Transcript(cfg, hist + input[0] + Reply(cfg, hist + input[0]), input[1..]);
    assert s + Transcript(cfg, hist, input) == s + reply + rest;
  }
}
