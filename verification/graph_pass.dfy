/**
  One forward through a compiled bucket: the id, position and mask tensors the drivers
  bind, what the graph computes from them, and the cache rows a fold leaves behind.
 */
module GraphPass {
  import opened DecoderModel
  import opened IoLink

  // ---- bound inputs ------------------------------------------------------------

  /** What a window of `S` columns carrying `toks` at position `p` binds. */
  ghost predicate IsWindow(p: nat, C: nat, S: nat, toks: seq<Token>, ids: seq<Token>, pos: seq<nat>, mask: seq<int>) {
    && |toks| <= S && |ids| == S && |pos| == S && |mask| == C + S
    && (forall t | 0 <= t < |toks| :: ids[t] == toks[t])
    && (forall t | 0 <= t < S :: pos[t] == p + t)
    && (forall j | 0 <= j < C + S :: mask[j] == if j < C then (if j < p then 1 else 0) else if j < C + |toks| then 1 else 0)
  }

  /** Builds the three tensors: pad columns carry `padId` and mask 0. */
  method BuildWindow(p: nat, C: nat, S: nat, toks: seq<Token>, padId: Token)
    returns (ids: seq<Token>, pos: seq<nat>, mask: seq<int>)
    requires |toks| <= S
    ensures IsWindow(p, C, S, toks, ids, pos, mask)
  {
    ids, pos := [], [];
    var t := 0;
    while t < S
      invariant 0 <= t <= S && |ids| == t && |pos| == t
      invariant forall k | 0 <= k < t && k < |toks| :: ids[k] == toks[k]
      invariant forall k | 0 <= k < t :: pos[k] == p + k
    {
      ids := ids + [if t < |toks| then toks[t] else padId];
      pos := pos + [p + t];
      t := t + 1;
    }
    var m := new int[C + S](_ => 0);
    var j := 0;
    while j < p && j < C
      invariant 0 <= j <= C && (j <= p || j == 0)
      invariant forall k | 0 <= k < C + S :: m[k] == if k < j then 1 else 0
    {
      m[j] := 1;
      j := j + 1;
    }
    t := 0;
    while t < |toks|
      invariant 0 <= t <= |toks|
      invariant forall k | 0 <= k < C + S :: m[k] == if k < C then (if k < p then 1 else 0) else if k < C + t then 1 else 0
    {
      m[C + t] := 1;
      t := t + 1;
    }
    mask := m[..];
  }

  // ---- what the graph computes ----------------------------------------------------

  /** Rows of the past slots the mask marks valid, in slot order. */
  function Attended(past: seq<Row>, mask: seq<int>): (rows: seq<Row>)
    requires |past| == |mask|
  {
    if past == [] then []
    else
      var n := |past| - 1;
      Attended(past[..n], mask[..n]) + if mask[n] == 1 then [past[n]] else []
  }

  lemma {:induction false} AttendedPrefix(past: seq<Row>, mask: seq<int>, valid: nat)
    requires |past| == |mask| && valid <= |past|
    requires forall j | 0 <= j < |mask| :: mask[j] == if j < valid then 1 else 0
    ensures Attended(past, mask) == past[..valid]
    decreases |past|
  {
    if past != [] {
      var n := |past| - 1;
      AttendedPrefix(past[..n], mask[..n], if valid <= n then valid else n);
      if valid == |past| {
        assert past[..n][..n] + [past[n]] == past[..valid];
      } else {
        assert past[..n][..valid] == past[..valid];
      }
    }
  }

  function WindowColumns(ids: seq<Token>, pos: seq<nat>, mask: seq<int>): (cols: seq<Column>)
    requires |ids| == |pos| == |mask|
    ensures |cols| == |ids|
    ensures forall i | 0 <= i < |ids| :: cols[i] == Column(ids[i], pos[i], mask[i] == 1)
  {
    seq(|ids|, i requires 0 <= i < |ids| => Column(ids[i], pos[i], mask[i] == 1))
  }

  /** The bucket's graph: every column attends the valid past slots and the live columns before it. */
  function Forward(m: Model, past: seq<Row>, ids: seq<Token>, pos: seq<nat>, mask: seq<int>): (outs: seq<Out>)
    requires |ids| == |pos| && |mask| == |past| + |ids|
    ensures |outs| == |ids|
  {
    Columns(m, Attended(past, mask[..|past|]), WindowColumns(ids, pos, mask[|past|..]))
  }

  /** `cache` holds the live rows in its first slots. */
  ghost predicate Holds(cache: seq<Row>, live: seq<Row>) {
    |live| <= |cache| && cache[..|live|] == live
  }

  /** A whole window inside the context computes the token-by-token outputs, whatever the padding. */
  lemma WindowIsSteps(m: Model, C: nat, hist: seq<Token>, past: seq<Row>, S: nat, toks: seq<Token>, ids: seq<Token>, pos: seq<nat>, mask: seq<int>)
    requires C > 0 && |past| == C && |hist| + |toks| <= C
    requires Holds(past, Live(m, C, hist)) && IsWindow(|hist|, C, S, toks, ids, pos, mask)
    ensures AreSteps(m, C, hist, toks, Forward(m, past, ids, pos, mask))
  {
    hide Live, Columns, AreSteps;
    AttendedPrefix(past, mask[..C], |hist|);
    var cols := WindowColumns(ids, pos, mask[C..]);
    assert Carries(cols, |hist|, toks);
    ColumnsAreSteps(m, C, hist, toks, cols);
  }

  /** A one-column step computes the reference output at every position, past the compiled context included. */
  lemma StepIsLast(m: Model, C: nat, hist: seq<Token>, past: seq<Row>, tok: Token, ids: seq<Token>, pos: seq<nat>, mask: seq<int>)
    requires C > 0 && |past| == C
    requires Holds(past, Live(m, C, hist)) && IsWindow(|hist|, C, 1, [tok], ids, pos, mask)
    ensures Forward(m, past, ids, pos, mask) == [Last(m, C, hist + [tok])]
  {
    AttendedPrefix(past, mask[..C], Min(|hist|, C));
    FeedOne(m, C, hist, tok);
    var live := Live(m, C, hist);
    var cols := WindowColumns(ids, pos, mask[C..]);
    assert cols == [Column(tok, |hist|, true)];
    hide Live, Last;
    assert Columns(m, live, cols) == [m.forward(live, |hist|, tok)] + Columns(m, live + [m.forward(live, |hist|, tok).row], cols[1..]);
  }

  // ---- what a fold leaves ---------------------------------------------------------

  /** Folding the new rows of a window behind the live rows makes the cache hold the longer history. */
  lemma FoldHoldsWindow(m: Model, C: nat, hist: seq<Token>, toks: seq<Token>, outs: seq<Out>, past: seq<Row>, present: seq<Row>, source: nat)
    requires C > 0 && |past| == C && |hist| + |toks| <= C && Holds(past, Live(m, C, hist))
    requires AreSteps(m, C, hist, toks, outs)
    requires source + |toks| <= |present| && present[source..source + |toks|] == RowsOf(outs[..|toks|])
    ensures Holds(FoldRows(past, present, source, |hist|, |toks|), Live(m, C, hist + toks))
  {
    hide Live, AreSteps;
    StepsAppendRows(m, C, hist, toks, outs);
  }

  /** Folding one step's row into its (clamped) slot does the same at every position. */
  lemma FoldHoldsStep(m: Model, C: nat, hist: seq<Token>, tok: Token, past: seq<Row>, present: seq<Row>, source: nat)
    requires C > 0 && |past| == C && Holds(past, Live(m, C, hist))
    requires source < |present| && present[source] == Last(m, C, hist + [tok]).row
    ensures Holds(FoldRows(past, present, source, KvFoldSlot(|hist| + 1, C), 1), Live(m, C, hist + [tok]))
  {
    FeedOne(m, C, hist, tok);
    hide Live, Last;
  }

  /** `a` differs from `b` in slots lo..hi-1 at most. */
  ghost predicate OnlyBetween(a: seq<Row>, b: seq<Row>, lo: nat, hi: nat) {
    lo <= hi <= |a| == |b| && a[..lo] == b[..lo] && a[hi..] == b[hi..]
  }

  /**
    Folding only the accepted rows of a window: the cache then holds the history and the
    accepted tokens, and no slot outside theirs has changed - a rejected row is nowhere.
   */
  lemma FoldHoldsAccepted(m: Model, C: nat, hist: seq<Token>, toks: seq<Token>, outs: seq<Out>, past: seq<Row>, present: seq<Row>, source: nat, n: nat)
    requires C > 0 && |past| == C && |hist| + |toks| <= C && Holds(past, Live(m, C, hist)) && n <= |toks|
    requires AreSteps(m, C, hist, toks, outs)
    requires source + |toks| <= |present| && present[source..source + |toks|] == RowsOf(outs[..|toks|])
    ensures Holds(FoldRows(past, present, source, |hist|, n), Live(m, C, hist + toks[..n]))
    ensures OnlyBetween(FoldRows(past, present, source, |hist|, n), past, |hist|, |hist| + n)
  {
    hide Live, Last;
    forall i | 0 <= i < n
      ensures outs[i] == Last(m, C, hist + toks[..n][..i + 1])
    {
      assert toks[..n][..i + 1] == toks[..i + 1];
    }
    assert present[source..source + n] == present[source..source + |toks|][..n] == RowsOf(outs[..n]);
    FoldHoldsWindow(m, C, hist, toks[..n], outs, past, present, source);
  }

  /** Applying the same fold again changes nothing. */
  lemma FoldTwice(past: seq<Row>, present: seq<Row>, source: nat, slot: int, rows: int)
    requires slot >= 0 && rows > 0 ==> source + rows <= |present| && slot + rows <= |past|
    ensures FoldRows(FoldRows(past, present, source, slot, rows), present, source, slot, rows) == FoldRows(past, present, source, slot, rows)
  {
  }
}
