/**
  The with-past decoder as the drivers see it, and the token-by-token reference
  every faster route has to reproduce.

  A cache slot holds one `Row` (the key/value words of every head at one
  position).  The network is one uninterpreted function: from the rows of the slots
  the attention mask marks valid, an absolute position and a token, to the new row
  and the logits of the next position.
 */
module DecoderModel {

  type Token = int

  datatype Row = Row(heads: seq<seq<int>>)

  type Logits = s: seq<real> | |s| > 0 witness [0.0]

  datatype Out = Out(row: Row, logits: Logits)

  datatype Model = Model(forward: (seq<Row>, nat, Token) -> Out)

  function Min(a: int, b: int): int {
    if a < b then a else b
  }

  // ---- greedy choice ----------------------------------------------------------

  /** `k` is the first index at which `logits` reaches its maximum. */
  ghost predicate IsFirstMax(logits: seq<real>, k: int) {
    && 0 <= k < |logits|
    && (forall i | 0 <= i < |logits| :: logits[i] <= logits[k])
    && (forall i | 0 <= i < k :: logits[i] < logits[k])
  }

  /** The greedy token: the engine-side reduction and the host scan both mean this. */
  function ArgMax(logits: Logits): (k: nat)
    ensures IsFirstMax(logits, k)
  {
    ArgMaxFrom(logits, 1, 0)
  }

  function ArgMaxFrom(logits: Logits, i: nat, best: nat): (k: nat)
    requires best < i <= |logits|
    requires IsFirstMax(logits[..i], best)
    ensures IsFirstMax(logits, k)
    decreases |logits| - i
  {
    if i == |logits| then
      assert logits[..i] == logits; best
    else
      ArgMaxFrom(logits, i + 1, if logits[i] > logits[best] then i else best)
  }

  /** The host scan over a logits row. */
  method ScanArgMax(logits: Logits) returns (best: nat)
    ensures best == ArgMax(logits)
  {
    best := 0;
    var i := 1;
    while i < |logits|
      invariant best < i <= |logits|
      invariant IsFirstMax(logits[..i], best)
    {
      if logits[i] > logits[best] {
        best := i;
      }
      i := i + 1;
    }
    assert logits[..i] == logits;
    assert IsFirstMax(logits, best) && IsFirstMax(logits, ArgMax(logits));
  }

  // ---- the token-by-token reference -----------------------------------------

  /** Row of position `pos` written into its slot: appended inside the context, over the newest slot past it. */
  function Put(live: seq<Row>, pos: nat, C: nat, row: Row): (r: seq<Row>)
    requires C > 0 && |live| == Min(pos, C)
    ensures |r| == Min(pos + 1, C)
  {
    if pos < C then live + [row] else live[C - 1 := row]
  }

  /** Rows of the valid slots after feeding `hist` one token at a time from an empty cache. */
  function Live(m: Model, C: nat, hist: seq<Token>): (live: seq<Row>)
    requires C > 0
    ensures |live| == Min(|hist|, C)
  {
    if hist == [] then []
    else
      var n := |hist| - 1;
      var before := Live(m, C, hist[..n]);
      Put(before, n, C, m.forward(before, n, hist[n]).row)
  }

  /** Output of the forward that fed the last token of `hist`. */
  function Last(m: Model, C: nat, hist: seq<Token>): Out
    requires C > 0 && hist != []
  {
    var n := |hist| - 1;
    m.forward(Live(m, C, hist[..n]), n, hist[n])
  }

  function NextToken(m: Model, C: nat, hist: seq<Token>): Token
    requires C > 0 && hist != []
  {
    ArgMax(Last(m, C, hist).logits)
  }

  /** Ids the plain greedy loop prints from history `hist`: up to `budget`, stopping before `eos`. */
  function Greedy(m: Model, C: nat, hist: seq<Token>, eos: Token, budget: int): (ids: seq<Token>)
    requires C > 0 && hist != []
    ensures |ids| <= if budget < 0 then 0 else budget
    ensures eos !in ids
    decreases if budget < 0 then 0 else budget
  {
    if budget <= 0 then []
    else
      var next := NextToken(m, C, hist);
      if next == eos then [] else [next] + Greedy(m, C, hist + [next], eos, budget - 1)
  }

  lemma Snoc(hist: seq<Token>, toks: seq<Token>, q: nat)
    requires q < |toks|
    ensures hist + toks[..q] + [toks[q]] == hist + toks[..q + 1]
  {
  }

  lemma {:induction false} FeedOne(m: Model, C: nat, hist: seq<Token>, tok: Token)
    requires C > 0
    ensures Last(m, C, hist + [tok]) == m.forward(Live(m, C, hist), |hist|, tok)
    ensures Live(m, C, hist + [tok]) == Put(Live(m, C, hist), |hist|, C, Last(m, C, hist + [tok]).row)
  {
    assert (hist + [tok])[..|hist|] == hist;
  }

  /** Inside the context a longer history only appends rows. */
  lemma {:induction false} LivePrefix(m: Model, C: nat, hist: seq<Token>, more: seq<Token>)
    requires C > 0 && |hist| + |more| <= C
    ensures Live(m, C, hist + more)[..|hist|] == Live(m, C, hist)
    decreases |more|
  {
    if more == [] {
      assert hist + more == hist;
    } else {
      var most, t := more[..|more| - 1], more[|more| - 1];
      LivePrefix(m, C, hist, most);
      assert hist + more == hist + most + [t];
      FeedOne(m, C, hist + most, t);
    }
  }

  // ---- one forward over many columns ----------------------------------------

  /** One column of a batched forward; `live` is its own attention-mask bit. */
  datatype Column = Column(tok: Token, pos: nat, live: bool)

  /** Outputs of a batched forward: column i attends the seen rows and the live columns before it (the causal mask). */
  function Columns(m: Model, seen: seq<Row>, cols: seq<Column>): (outs: seq<Out>)
    ensures |outs| == |cols|
    decreases |cols|
  {
    if cols == [] then []
    else
      var o := m.forward(seen, cols[0].pos, cols[0].tok);
      [o] + Columns(m, if cols[0].live then seen + [o.row] else seen, cols[1..])
  }

  function RowsOf(outs: seq<Out>): (rows: seq<Row>)
    ensures |rows| == |outs|
    ensures forall i | 0 <= i < |outs| :: rows[i] == outs[i].row
  {
    seq(|outs|, i requires 0 <= i < |outs| => outs[i].row)
  }

  /** Real tokens `toks` at positions `pos`, `pos`+1, ... lead `cols`; whatever follows is padding. */
  ghost predicate Carries(cols: seq<Column>, pos: nat, toks: seq<Token>) {
    && |toks| <= |cols|
    && forall i | 0 <= i < |toks| :: cols[i] == Column(toks[i], pos + i, true)
  }

  /** `outs` lists the reference outputs of feeding `toks` after `hist`. */
  ghost predicate AreSteps(m: Model, C: nat, hist: seq<Token>, toks: seq<Token>, outs: seq<Out>)
    requires C > 0
  {
    && |toks| <= |outs|
    && forall i | 0 <= i < |toks| :: outs[i] == Last(m, C, hist + toks[..i + 1])
  }

  /**
    A batched forward inside the context is token-by-token feeding, for every window
    width and every padding: each real column yields the reference output of its token.
   */
  lemma {:induction false} ColumnsAreSteps(m: Model, C: nat, hist: seq<Token>, toks: seq<Token>, cols: seq<Column>)
    requires C > 0 && |hist| + |toks| <= C
    requires Carries(cols, |hist|, toks)
    ensures AreSteps(m, C, hist, toks, Columns(m, Live(m, C, hist), cols))
    decreases |toks|
  {
    if toks != [] {
      var t, rest := toks[0], toks[1..];
      var live, outs := Live(m, C, hist), Columns(m, Live(m, C, hist), cols);
      assert outs[0] == Last(m, C, hist + [t]) && outs[1..] == Columns(m, Live(m, C, hist + [t]), cols[1..]) by {
        FeedOne(m, C, hist, t);
      }
      ColumnsAreSteps(m, C, hist + [t], rest, cols[1..]);
      PrependStep(m, C, hist, t, rest, outs);
      assert [t] + rest == toks;
    }
  }

  lemma PrependStep(m: Model, C: nat, hist: seq<Token>, t: Token, rest: seq<Token>, outs: seq<Out>)
    requires C > 0 && outs != [] && outs[0] == Last(m, C, hist + [t])
    requires AreSteps(m, C, hist + [t], rest, outs[1..])
    ensures AreSteps(m, C, hist, [t] + rest, outs)
  {
    var toks := [t] + rest;
    forall i | 0 <= i < |toks|
      ensures outs[i] == Last(m, C, hist + toks[..i + 1])
    {
      if i == 0 {
        assert toks[..1] == [t];
      } else {
        assert outs[i] == outs[1..][i - 1];
        assert hist + [t] + rest[..i] == hist + toks[..i + 1];
      }
    }
  }

  /** The rows of those outputs are exactly the rows the reference appends. */
  lemma {:induction false} StepsAppendRows(m: Model, C: nat, hist: seq<Token>, toks: seq<Token>, outs: seq<Out>)
    requires C > 0 && |hist| + |toks| <= C
    requires AreSteps(m, C, hist, toks, outs)
    ensures Live(m, C, hist + toks) == Live(m, C, hist) + RowsOf(outs[..|toks|])
    decreases |toks|
  {
    if toks == [] {
      assert hist + toks == hist;
    } else {
      var n := |toks| - 1;
      forall i | 0 <= i < n
        ensures outs[i] == Last(m, C, hist + toks[..n][..i + 1])
      {
        assert toks[..n][..i + 1] == toks[..i + 1];
      }
      StepsAppendRows(m, C, hist, toks[..n], outs);
      FeedOne(m, C, hist + toks[..n], toks[n]);
      assert hist + toks[..n] + [toks[n]] == hist + toks;
      assert toks[..n + 1] == toks;
      assert RowsOf(outs[..n + 1]) == RowsOf(outs[..n]) + [outs[n].row];
    }
  }
}
