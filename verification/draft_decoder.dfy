/**
  The draft half of speculation: a small decoder on the host cache flow, rolled back by
  moving its position.
 */
module Draft {
  import opened DecoderModel
  import opened IoLink
  import opened GraphPass
  import opened Engine

  // ---- one-token feeding, the reference of both passes -------------------------

  /** Rows after feeding `toks` one at a time behind the rows `seen`. */
  function Feed(m: Model, seen: seq<Row>, toks: seq<Token>): (rows: seq<Row>)
    ensures |rows| == |seen| + |toks|
    ensures rows[..|seen|] == seen
    decreases |toks|
  {
    if toks == [] then seen
    else Feed(m, seen + [m.forward(seen, |seen|, toks[0]).row], toks[1..])
  }

  /** The draft's own greedy continuation of `tok`, `count` tokens long. */
  function Rollout(m: Model, seen: seq<Row>, tok: Token, count: nat): (ids: seq<Token>)
    ensures |ids| == count
    decreases count
  {
    if count == 0 then []
    else
      var o := m.forward(seen, |seen|, tok);
      [ArgMax(o.logits)] + Rollout(m, seen + [o.row], ArgMax(o.logits), count - 1)
  }

  lemma {:induction false} FeedSplit(m: Model, seen: seq<Row>, a: seq<Token>, b: seq<Token>)
    ensures Feed(m, seen, a + b) == Feed(m, Feed(m, seen, a), b)
    decreases |a|
  {
    if a == [] {
      assert a + b == b;
    } else {
      assert (a + b)[1..] == a[1..] + b;
      FeedSplit(m, seen + [m.forward(seen, |seen|, a[0]).row], a[1..], b);
    }
  }

  /** From the conversation's rows, feeding is the conversation's rows. */
  lemma {:induction false} FeedIsLive(m: Model, C: nat, hist: seq<Token>, toks: seq<Token>)
    requires C > 0 && |hist| + |toks| <= C
    ensures Feed(m, Live(m, C, hist), toks) == Live(m, C, hist + toks)
    decreases |toks|
  {
    if toks == [] {
      assert hist + toks == hist;
    } else {
      FeedOne(m, C, hist, toks[0]);
      FeedIsLive(m, C, hist + [toks[0]], toks[1..]);
      assert hist + [toks[0]] + toks[1..] == hist + toks;
    }
  }

  lemma RowsFront(o: Out, rest: seq<Out>, n: nat)
    requires n <= |rest|
    ensures RowsOf(([o] + rest)[..n + 1]) == [o.row] + RowsOf(rest[..n])
  {
    assert ([o] + rest)[..n + 1] == [o] + rest[..n];
  }

  /** A padded window feeds its real tokens. */
  lemma {:induction false} ColumnsFeed(m: Model, seen: seq<Row>, toks: seq<Token>, cols: seq<Column>)
    requires Carries(cols, |seen|, toks)
    ensures Feed(m, seen, toks) == seen + RowsOf(Columns(m, seen, cols)[..|toks|])
    decreases |toks|
  {
    if toks != [] {
      var o := m.forward(seen, |seen|, toks[0]);
      ColumnsFeed(m, seen + [o.row], toks[1..], cols[1..]);
      var rest := Columns(m, seen + [o.row], cols[1..]);
      assert Columns(m, seen, cols) == [o] + rest;
      assert Feed(m, seen, toks) == Feed(m, seen + [o.row], toks[1..]);
      hide Feed, Columns;
      RowsFront(o, rest, |toks| - 1);
      hide RowsOf, Carries;
      var rows := RowsOf(rest[..|toks| - 1]);
      assert seen + [o.row] + rows == seen + ([o.row] + rows);
    }
  }

  lemma WindowFeeds(m: Model, seen: seq<Row>, past: seq<Row>, S: nat, toks: seq<Token>, ids: seq<Token>, pos: seq<nat>, mask: seq<int>)
    requires Holds(past, seen) && IsWindow(|seen|, |past|, S, toks, ids, pos, mask)
    ensures Feed(m, seen, toks) == seen + RowsOf(Forward(m, past, ids, pos, mask)[..|toks|])
    ensures toks != [] ==> Forward(m, past, ids, pos, mask)[0] == m.forward(seen, |seen|, toks[0])
  {
    var cols := WindowColumns(ids, pos, mask[|past|..]);
    AttendedPrefix(past, mask[..|past|], |seen|);
    assert Carries(cols, |seen|, toks);
    ColumnsFeed(m, seen, toks, cols);
  }

  /** One proposal: the row it feeds and the continuation it leaves. */
  lemma ProposalStep(m: Model, base: seq<Row>, fed: seq<Token>, feed: Token, rest: nat)
    requires rest > 0
    ensures var seen := Feed(m, base, fed);
            var o := m.forward(seen, |seen|, feed);
            && Feed(m, seen, [feed]) == seen + [o.row] == Feed(m, base, fed + [feed])
            && Rollout(m, seen, feed, rest) == [ArgMax(o.logits)] + Rollout(m, seen + [o.row], ArgMax(o.logits), rest - 1)
  {
    var seen := Feed(m, base, fed);
    FeedSplit(m, base, fed, [feed]);
    assert Feed(m, seen + [m.forward(seen, |seen|, feed).row], [feed][1..]) == seen + [m.forward(seen, |seen|, feed).row];
  }

  lemma FeedNone(m: Model, seen: seq<Row>, feed: Token)
    ensures Feed(m, seen, []) == seen && Rollout(m, seen, feed, 0) == []
  {
  }

  /** A proposing loop part-way: what it has fed, what it will feed next, and the rollout still to come. */
  ghost predicate Underway(m: Model, base: seq<Row>, first: Token, count: nat, proposals: seq<Token>, fed: seq<Token>,
                           feed: Token, rows: seq<Row>)
  {
    && |fed| == |proposals| <= count
    && fed + [feed] == [first] + proposals
    && rows == Feed(m, base, fed)
    && Rollout(m, base, first, count) == proposals + Rollout(m, rows, feed, count - |proposals|)
  }

  lemma UnderwayStep(m: Model, base: seq<Row>, first: Token, count: nat, proposals: seq<Token>, fed: seq<Token>,
                     feed: Token, rows: seq<Row>, next: Token, more: seq<Row>)
    requires Underway(m, base, first, count, proposals, fed, feed, rows) && |proposals| < count
    requires more == Feed(m, base, fed + [feed])
    requires Rollout(m, rows, feed, count - |proposals|) == [next] + Rollout(m, more, next, count - |proposals| - 1)
    ensures Underway(m, base, first, count, proposals + [next], fed + [feed], next, more)
  {
    hide Feed, Rollout;
    var rest := Rollout(m, more, next, count - |proposals| - 1);
    assert proposals + ([next] + rest) == proposals + [next] + rest;
    assert [first] + proposals + [next] == [first] + (proposals + [next]);
  }

  lemma UnderwayRows(m: Model, base: seq<Row>, first: Token, count: nat, proposals: seq<Token>, fed: seq<Token>,
                     feed: Token, rows: seq<Row>)
    requires Underway(m, base, first, count, proposals, fed, feed, rows)
    ensures rows == Feed(m, base, fed)
  {
  }

  lemma UnderwayEnds(m: Model, base: seq<Row>, first: Token, proposals: seq<Token>, fed: seq<Token>, feed: Token, rows: seq<Row>)
    requires Underway(m, base, first, |proposals|, proposals, fed, feed, rows)
    ensures proposals == Rollout(m, base, first, |proposals|)
    ensures rows == Feed(m, base, ([first] + proposals)[..|proposals|])
  {
    FeedNone(m, rows, feed);
    assert ([first] + proposals)[..|proposals|] == fed;
  }

  class DraftDecoder {
    const m: Model
    const cacheSlots: nat
    const catchUpWindow: nat
    var cache: seq<Row>
    var position: nat
    var logitsRow: Logits
    const answers: Answers
    var calls: nat  // requests made of the draft's session

    ghost predicate Valid()
      reads this
    {
      |cache| == cacheSlots && cacheSlots > 0 && catchUpWindow > 0
    }

    constructor (m: Model, cacheSlots: nat, catchUpWindow: nat, answers: Answers)
      requires cacheSlots > 0 && catchUpWindow > 0
      ensures Valid() && position == 0 && calls == 0
      ensures this.m == m && this.cacheSlots == cacheSlots && this.catchUpWindow == catchUpWindow && this.answers == answers
    {
      this.m, this.cacheSlots, this.catchUpWindow, this.answers := m, cacheSlots, catchUpWindow, answers;
      calls := 0;
      cache := seq(cacheSlots, _ => Row([]));
      position, logitsRow := 0, [0.0];
    }

    /** A forward of the draft's session, granted or refused. */
    method Ask() returns (ok: bool)
      modifies this`calls
      ensures calls == old(calls) + 1 && ok == answers(old(calls))
    {
      ok, calls := answers(calls), calls + 1;
    }

    /** Moves the write cursor: rows at or past it stay in the buffers but no later forward attends them. */
    method Rewind(to: nat)
      requires Valid()
      modifies this`position
      ensures Valid() && position == to
    {
      position := to;
    }

    /**
      One forward of `window` columns carrying `toks`.  It may fail; even then no row below
      the position has changed (a partly folded window only touches slots past it).
     */
    method WindowPass(window: nat, toks: seq<Token>) returns (ok: bool)
      requires Valid() && 0 < |toks| <= window && position + |toks| <= cacheSlots
      modifies this
      ensures Valid()
      ensures !ok ==> position == old(position) && cache[..position] == old(cache[..position])
      ensures ok ==> && position == old(position) + |toks|
                     && cache == Feed(m, old(cache[..position]), toks) + old(cache)[position..]
      ensures ok && |toks| == 1 ==> logitsRow == m.forward(old(cache[..position]), old(position), toks[0]).logits
      ensures calls >= old(calls) && (Granted(answers, old(calls), calls) ==> ok)
    {
      var ids, pos, mask := BuildWindow(position, cacheSlots, window, toks, 0);
      var ran := Ask();
      if !ran {
        return false;
      }
      var outs := Forward(m, cache, ids, pos, mask);
      WindowFeeds(m, cache[..position], cache, window, toks, ids, pos, mask);
      var present := RowsOf(outs);
      var folded := FoldRows(cache, present, 0, position, |toks|);
      assert present[..|toks|] == RowsOf(outs[..|toks|]);
      var complete := Ask();
      if !complete {
        // A present output went missing after some layers were folded: those layers hold new rows.
        var torn: seq<Row> := *;
        if |torn| == cacheSlots && torn[..position] == cache[..position] {
          cache := torn;
        }
        return false;
      }
      cache := folded;
      logitsRow := outs[|toks| - 1].logits;
      position := position + |toks|;
      return true;
    }

    /**
      Catch-up in windows of the widest bucket.  The rows do not depend on the window
      width: they are one-token feeding, and a refusal leaves a correct prefix.
     */
    method Consume(tokens: seq<Token>) returns (ok: bool)
      requires Valid()
      modifies this
      ensures Valid() && position >= old(position)
      ensures position > old(position) ==> position <= cacheSlots
      ensures position - old(position) <= |tokens| && (ok <==> position - old(position) == |tokens|)
      ensures old(position) <= cacheSlots ==>
                cache[..position] == Feed(m, old(cache[..position]), tokens[..position - old(position)])
      ensures calls >= old(calls) && (Granted(answers, old(calls), calls) && old(position) + |tokens| <= cacheSlots ==> ok)
    {
      ghost var start, before := position, cache;
      var done := 0;
      while done < |tokens|
        invariant Valid() && done <= |tokens| && position == start + done && calls >= old(calls)
        invariant done > 0 ==> position <= cacheSlots
        invariant start <= cacheSlots ==> cache[..position] == Feed(m, before[..start], tokens[..done])
      {
        var len := Min(|tokens| - done, catchUpWindow);
        if position + len > cacheSlots {
          return false;
        }
        ghost var seen := cache[..position];
        var ran := WindowPass(catchUpWindow, tokens[done..done + len]);
        if !ran {
          return false;
        }
        FeedSplit(m, before[..start], tokens[..done], tokens[done..done + len]);
        assert tokens[..done] + tokens[done..done + len] == tokens[..done + len];
        done := done + len;
      }
      assert tokens[..done] == tokens;
      return true;
    }

    /** One single-token proposal forward. */
    method ProposeOne(feed: Token, ghost base: seq<Row>, ghost fed: seq<Token>, ghost rest: nat) returns (ok: bool, next: Token)
      requires Valid() && position < cacheSlots && rest > 0
      requires cache[..position] == Feed(m, base, fed)
      modifies this
      ensures Valid() && cache[..old(position)] == old(cache[..position])
      ensures ok ==> && position == old(position) + 1
                     && cache[..position] == Feed(m, base, fed + [feed])
                     && Rollout(m, Feed(m, base, fed), feed, rest) == [next] + Rollout(m, cache[..position], next, rest - 1)
      ensures calls >= old(calls) && (Granted(answers, old(calls), calls) ==> ok)
    {
      ghost var seen, start := cache[..position], position;
      ProposalStep(m, base, fed, feed, rest);
      ok := WindowPass(1, [feed]);
      next := ScanArgMax(logitsRow);
      hide Rollout, ArgMax;
      if ok {
        assert cache[..position] == Feed(m, seen, [feed]);
        assert cache[..start] == cache[..position][..start];
      }
    }

    /**
      Proposals after the anchor: the draft's greedy continuation of the rows below the
      anchor.  Whatever stale rows lie at or past it - rejected proposals of an earlier
      round - they cannot influence the result.
     */
    method Propose(anchorToken: Token, anchor: int, count: nat) returns (ok: bool, proposals: seq<Token>)
      requires Valid()
      modifies this
      ensures Valid() && (0 <= anchor <= cacheSlots ==> cache[..anchor] == old(cache[..anchor]))
      ensures anchor < 0 || anchor + count > cacheSlots ==> !ok
      ensures ok ==> && 0 <= anchor && anchor + count <= cacheSlots && position == anchor + count
                     && proposals == Rollout(m, old(cache[..anchor]), anchorToken, count)
                     && cache[..position] == Feed(m, old(cache[..anchor]), ([anchorToken] + proposals)[..count])
      ensures calls >= old(calls) && (Granted(answers, old(calls), calls) && 0 <= anchor && anchor + count <= cacheSlots ==> ok)
    {
      proposals := [];
      if anchor < 0 || anchor + count > cacheSlots {
        return false, [];
      }
      position := anchor;
      var feed := anchorToken;
      ghost var base, fed := cache[..anchor], [];
      FeedNone(m, base, feed);
      assert Underway(m, base, anchorToken, count, [], [], feed, base);
      hide Feed, Rollout, Underway;
      var i := 0;
      while i < count
        invariant Valid() && 0 <= i <= count && |fed| == |proposals| == i && position == anchor + i && calls >= old(calls)
        invariant cache[..anchor] == base
        invariant Underway(m, base, anchorToken, count, proposals, fed, feed, cache[..position])
      {
        ghost var seen := cache[..position];
        assert Underway(m, base, anchorToken, count, proposals, fed, feed, seen);
        UnderwayRows(m, base, anchorToken, count, proposals, fed, feed, seen);
        var ran, next := ProposeOne(feed, base, fed, count - i);
        assert cache[..anchor] == cache[..anchor + i][..anchor] == seen[..anchor];
        if !ran {
          return false, [];
        }
        UnderwayStep(m, base, anchorToken, count, proposals, fed, feed, seen, next, cache[..position]);
        proposals, fed, feed := proposals + [next], fed + [feed], next;
        i := i + 1;
      }
      UnderwayEnds(m, base, anchorToken, proposals, fed, feed, cache[..position]);
      return true, proposals;
    }
  }

  /** Rows the draft fed for tokens that were then committed are the conversation's rows. */
  lemma DraftRowsHold(m: Model, C: nat, hist: seq<Token>, fed: seq<Token>, commit: nat, cache: seq<Row>)
    requires C > 0 && |hist| + |fed| <= C == |cache| && commit <= |fed|
    requires cache[..|hist| + |fed|] == Feed(m, Live(m, C, hist), fed)
    ensures Holds(cache, Live(m, C, hist + fed[..commit]))
  {
    hide Live, Feed;
    FeedIsLive(m, C, hist, fed);
    LivePrefix(m, C, hist + fed[..commit], fed[commit..]);
    assert hist + fed[..commit] + fed[commit..] == hist + fed;
    assert cache[..|hist| + commit] == cache[..|hist| + |fed|][..|hist| + commit];
  }

  /**
    Full acceptance outruns the draft: it proposed `count` tokens but never fed the last
    one.  Whatever stale rows its cache holds, the rows below the committed position are
    the conversation's exactly when the round committed at most `count` tokens, or the
    proposals ended at the context edge and the clamped write would put back the row that
    already stands there.
   */
  lemma DraftRowsExact(m: Model, C: nat, hist: seq<Token>, anchor: Token, proposals: seq<Token>, commit: nat)
    requires C > 0 && |hist| + |proposals| <= C && 0 < commit <= |proposals| + 1
    ensures (forall cache: seq<Row> | |cache| == C && cache[..|hist| + |proposals|] == Feed(m, Live(m, C, hist), ([anchor] + proposals)[..|proposals|]) ::
               Holds(cache, Live(m, C, hist + ([anchor] + proposals)[..commit])))
       <==> || commit <= |proposals|
            || (|hist| + |proposals| == C
                && Last(m, C, hist + [anchor] + proposals).row == Live(m, C, hist + ([anchor] + proposals)[..|proposals|])[C - 1])
  {
    hide Live, Feed;
    var k, all := |proposals|, [anchor] + proposals;
    var fed := Feed(m, Live(m, C, hist), all[..k]);
    if commit <= k {
      forall cache: seq<Row> | |cache| == C && cache[..|hist| + k] == fed
        ensures Holds(cache, Live(m, C, hist + all[..commit]))
      {
        DraftRowsHold(m, C, hist, all[..k], commit, cache);
        assert all[..k][..commit] == all[..commit];
      }
    } else if |hist| + k == C {
      assert all[..commit] == all;
      FeedIsLive(m, C, hist, all[..k]);
      ClampedWrite(m, C, hist, anchor, proposals);
      assert forall cache: seq<Row> | |cache| == C && cache[..|hist| + k] == fed :: cache == fed;
    } else {
      var cache := StaleAfter(fed, C, Live(m, C, hist + all[..commit]));
      assert cache[..|hist| + k] == fed;
    }
  }

  /** A cache of `C` slots that begins with `fed` and differs from `live` in the slot after it. */
  ghost function StaleAfter(fed: seq<Row>, C: nat, live: seq<Row>): (cache: seq<Row>)
    requires |fed| < C && |fed| < |live| <= C
    ensures |cache| == C && cache[..|fed|] == fed && !Holds(cache, live)
  {
    var stale := Row(live[|fed|].heads + [[]]);
    var cache := fed + seq(C - |fed|, _ => stale);
    assert cache[|fed|] == stale != live[|fed|];
    assert cache[..|live|][|fed|] != live[|fed|];
    cache
  }

  /** One token past the edge rewrites the last slot and no other. */
  lemma ClampedWrite(m: Model, C: nat, hist: seq<Token>, anchor: Token, proposals: seq<Token>)
    requires C > 0 && |hist| + |proposals| == C
    ensures
      var edge := Live(m, C, hist + ([anchor] + proposals)[..|proposals|]);
      Live(m, C, hist + ([anchor] + proposals)) == edge[..C - 1] + [Last(m, C, hist + [anchor] + proposals).row]
  {
    var all, longer := [anchor] + proposals, hist + ([anchor] + proposals);
    assert hist + [anchor] + proposals == longer;
    assert longer[..|longer| - 1] == hist + all[..|proposals|];
  }
}
