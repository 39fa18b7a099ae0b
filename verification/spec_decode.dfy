/**
  The rules of one greedy speculative round: which drafts the target confirms, how many
  of the round's tokens the turn emits, and why the emitted stream is the plain one.
 */
module SpecDecode {
  import opened DecoderModel

  const SPEC_DRAFT_TOKENS := 4
  const SPEC_VERIFY_TOKENS := SPEC_DRAFT_TOKENS + 1

  /** The longest prefix of `drafts` the target's own choices confirm. */
  function Accepted(drafts: seq<Token>, argMax: seq<Token>): (j: nat)
    requires |drafts| <= |argMax|
    ensures j <= |drafts|
    ensures forall i | 0 <= i < j :: drafts[i] == argMax[i]
    ensures j < |drafts| ==> drafts[j] != argMax[j]
  {
    if drafts == [] || drafts[0] != argMax[0] then 0
    else
      var j := Accepted(drafts[1..], argMax[1..]);
      assert forall i | 1 <= i <= j :: drafts[i] == drafts[1..][i - 1] == argMax[1..][i - 1];
      j + 1
  }

  method SpecAcceptedDrafts(drafts: seq<Token>, targetArgMax: seq<Token>) returns (accepted: nat)
    requires |drafts| <= |targetArgMax|
    ensures accepted == Accepted(drafts, targetArgMax)
  {
    accepted := 0;
    while accepted < |drafts| && drafts[accepted] == targetArgMax[accepted]
      invariant accepted <= |drafts|
      invariant forall i | 0 <= i < accepted :: drafts[i] == targetArgMax[i]
    {
      accepted := accepted + 1;
    }
  }

  /** `n` ids are emitted of `committed`: all that fit the budget, cut before the first end-of-stream id. */
  ghost predicate IsEmittedCount(committed: seq<Token>, eos: Token, budget: int, n: int) {
    && n <= Min(|committed|, budget)
    && (forall i | 0 <= i < n :: committed[i] != eos)
    && (n == Min(|committed|, budget) || (0 <= n && committed[n] == eos))
  }

  method SpecEmittedCount(committed: seq<Token>, eos: Token, budget: int) returns (n: int)
    ensures IsEmittedCount(committed, eos, budget, n)
  {
    var emitted := if |committed| < budget then |committed| else budget;
    var i := 0;
    while i < emitted
      invariant 0 <= i && (i <= emitted || i == 0)
      invariant forall k | 0 <= k < i :: committed[k] != eos
    {
      if committed[i] == eos {
        return i;
      }
      i := i + 1;
    }
    return emitted;
  }

  /** How many drafts a round accepts, and how many tokens it commits: at least the pending one. */
  method RoundSize(next: Token, drafts: seq<Token>, targetArgMax: seq<Token>, eos: Token, budget: int) returns (accepted: nat, n: nat)
    requires |drafts| <= |targetArgMax| && budget > 0 && next != eos
    ensures accepted == Accepted(drafts, targetArgMax) && 0 < n <= accepted + 1
    ensures IsEmittedCount([next] + drafts[..accepted], eos, budget, n)
    ensures ([next] + drafts[..accepted])[..n] == ([next] + drafts)[..n]
  {
    accepted := SpecAcceptedDrafts(drafts, targetArgMax);
    n := SpecEmittedCount([next] + drafts[..accepted], eos, budget);
  }

  /** Every id is the target's own choice after the history and the ids before it. */
  ghost predicate GreedyRun(m: Model, C: nat, hist: seq<Token>, ids: seq<Token>)
    requires C > 0 && hist != []
  {
    forall i | 0 <= i < |ids| :: ids[i] == NextToken(m, C, hist + ids[..i])
  }

  lemma EmittedTail(ids: seq<Token>, eos: Token, budget: int, n: nat)
    requires ids != [] && budget > 0 && ids[0] != eos && IsEmittedCount(ids, eos, budget, n)
    ensures n > 0 && IsEmittedCount(ids[1..], eos, budget - 1, n - 1)
  {
    assert forall i | 0 <= i < |ids| - 1 :: ids[1..][i] == ids[i + 1];
  }

  lemma RunTail(m: Model, C: nat, hist: seq<Token>, t: Token, rest: seq<Token>)
    requires C > 0 && hist != [] && GreedyRun(m, C, hist, [t] + rest)
    ensures t == NextToken(m, C, hist) && GreedyRun(m, C, hist + [t], rest)
  {
    hide NextToken;
    var ids := [t] + rest;
    assert hist + ids[..0] == hist && ids[0] == t;
    forall i | 0 <= i < |rest|
      ensures rest[i] == NextToken(m, C, hist + [t] + rest[..i])
    {
      assert ids[i + 1] == rest[i];
      assert hist + ids[..i + 1] == hist + [t] + rest[..i];
    }
  }

  /** Truncating a greedy run by the plain loop's two stopping rules leaves exactly what the plain loop prints. */
  lemma {:induction false} TruncatedRunIsGreedy(m: Model, C: nat, hist: seq<Token>, ids: seq<Token>, eos: Token, budget: int, n: nat)
    requires C > 0 && hist != [] && budget >= 0
    requires GreedyRun(m, C, hist, ids) && IsEmittedCount(ids, eos, budget, n)
    ensures Greedy(m, C, hist, eos, budget)
         == ids[..n] + if n < |ids| then [] else Greedy(m, C, hist + ids, eos, budget - n)
    decreases |ids|
  {
    hide NextToken;
    if ids == [] {
      assert hist + ids == hist;
    } else if budget > 0 {
      var t, rest := ids[0], ids[1..];
      assert ids == [t] + rest;
      RunTail(m, C, hist, t, rest);
      if t != eos {
        EmittedTail(ids, eos, budget, n);
        assert Greedy(m, C, hist, eos, budget) == [t] + Greedy(m, C, hist + [t], eos, budget - 1);
        hide Greedy;
        TruncatedRunIsGreedy(m, C, hist + [t], rest, eos, budget - 1, n - 1);
        assert ids[..n] == [t] + rest[..n - 1];
        assert hist + [t] + rest == hist + ids;
        hide GreedyRun, IsEmittedCount;
      }
    }
  }

  function ArgMaxes(outs: seq<Out>): (ids: seq<Token>)
    ensures |ids| == |outs|
    ensures forall i | 0 <= i < |outs| :: ids[i] == ArgMax(outs[i].logits)
  {
    seq(|outs|, i requires 0 <= i < |outs| => ArgMax(outs[i].logits))
  }

  /**
    A verification round commits a greedy run whatever the draft proposed, and what it
    leaves pending is the target's next token: the correction, or the bonus token.
   */
  lemma RoundCommitsGreedyRun(m: Model, C: nat, hist: seq<Token>, next: Token, drafts: seq<Token>, outs: seq<Out>)
    requires C > 0 && hist != [] && next == NextToken(m, C, hist)
    requires |outs| == |drafts| + 1 && AreSteps(m, C, hist, [next] + drafts, outs)
    ensures var j := Accepted(drafts, ArgMaxes(outs));
            && GreedyRun(m, C, hist, [next] + drafts[..j])
            && ArgMaxes(outs)[j] == NextToken(m, C, hist + ([next] + drafts[..j]))
  {
    hide Last, Accepted;
    var argMax := ArgMaxes(outs);
    var j := Accepted(drafts, argMax);
    var window, committed := [next] + drafts, [next] + drafts[..j];
    forall i | 0 <= i <= j
      ensures argMax[i] == NextToken(m, C, hist + committed[..i + 1])
    {
      assert committed[..i + 1] == window[..i + 1];
    }
    hide AreSteps, NextToken;
    forall i | 0 <= i < |committed|
      ensures committed[i] == NextToken(m, C, hist + committed[..i])
    {
      if i == 0 {
        assert hist + committed[..0] == hist;
      } else {
        assert committed[i] == drafts[i - 1] == argMax[i - 1];
      }
    }
    assert committed[..j + 1] == committed;
  }

  /**
    Exactness of a speculative round, for every draft: the ids it emits followed by the
    plain loop's stream from where it stopped are the plain loop's stream.
   */
  lemma RoundIsExact(m: Model, C: nat, hist: seq<Token>, next: Token, drafts: seq<Token>, outs: seq<Out>, eos: Token, budget: nat, n: nat)
    requires C > 0 && hist != [] && next == NextToken(m, C, hist)
    requires |outs| == |drafts| + 1 && AreSteps(m, C, hist, [next] + drafts, outs)
    requires IsEmittedCount([next] + drafts[..Accepted(drafts, ArgMaxes(outs))], eos, budget, n)
    ensures var j := Accepted(drafts, ArgMaxes(outs));
            var committed := [next] + drafts[..j];
            && Greedy(m, C, hist, eos, budget)
               == committed[..n] + (if n < |committed| then [] else Greedy(m, C, hist + committed, eos, budget - n))
            && ArgMaxes(outs)[j] == NextToken(m, C, hist + committed)
  {
    RoundCommitsGreedyRun(m, C, hist, next, drafts, outs);
    TruncatedRunIsGreedy(m, C, hist, [next] + drafts[..Accepted(drafts, ArgMaxes(outs))], eos, budget, n);
  }
}
