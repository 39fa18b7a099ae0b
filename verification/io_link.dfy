/**
  Engine-resident links: the element ranges that fold produced rows into a cache, and
  the host loops that fold the same rows by hand.

  A cache buffer [1, kvHeads, slots, headDim] is flat; one slot of the logical cache is
  scattered over it, one run of headDim words per head.  Everything above this module
  works on rows per slot (`FoldRows`); the lemmas here show that the flat ranges and the
  flat host loops are that operation.
 */
module IoLink {
  import opened DecoderModel

  datatype LinkRange = LinkRange(sourceElem: int, destElem: int, count: int)

  /** Shape of a linked pair: a present output of `presentRows` rows feeding a past input of `slots` slots. */
  datatype Geometry = Geometry(kvHeads: nat, presentRows: nat, slots: nat, headDim: nat)

  /** The slot a step at `position` folds the previous token's row into; negative when nothing pends. */
  function KvFoldSlot(position: int, slots: int): int {
    if position <= 0 then -1
    else if position - 1 < slots then position - 1 else slots - 1
  }

  /** Two tokens share a slot exactly when the earlier one already sits in the last. */
  lemma SlotsShared(p: int, q: int, slots: int)
    requires 0 < p < q && slots > 0
    ensures 0 <= KvFoldSlot(p, slots) < slots
    ensures KvFoldSlot(p, slots) == KvFoldSlot(q, slots) <==> KvFoldSlot(p, slots) == slots - 1
  {
  }

  // ---- range lists ------------------------------------------------------------

  function HeadRange(g: Geometry, sourceRow: int, slot: int, rows: int, head: int): LinkRange {
    LinkRange((head * g.presentRows + sourceRow) * g.headDim, (head * g.slots + slot) * g.headDim, rows * g.headDim)
  }

  /** Ranges of the first `heads` heads. */
  function HeadRanges(g: Geometry, sourceRow: int, slot: int, rows: int, heads: nat): (ranges: seq<LinkRange>)
    ensures |ranges| == heads
    ensures forall h | 0 <= h < heads :: ranges[h] == HeadRange(g, sourceRow, slot, rows, h)
  {
    if heads == 0 then []
    else HeadRanges(g, sourceRow, slot, rows, heads - 1) + [HeadRange(g, sourceRow, slot, rows, heads - 1)]
  }

  function FoldRanges(g: Geometry, sourceRow: int, slot: int, rows: int): seq<LinkRange> {
    if slot < 0 || rows <= 0 then [] else HeadRanges(g, sourceRow, slot, rows, g.kvHeads)
  }

  method KvFoldRowRanges(g: Geometry, sourceRow: int, slot: int, rows: int) returns (ranges: seq<LinkRange>)
    ensures ranges == FoldRanges(g, sourceRow, slot, rows)
  {
    ranges := [];
    if slot < 0 || rows <= 0 {
      return;
    }
    var head := 0;
    while head < g.kvHeads
      invariant 0 <= head <= g.kvHeads
      invariant ranges == HeadRanges(g, sourceRow, slot, rows, head)
    {
      ranges := ranges + [LinkRange((head * g.presentRows + sourceRow) * g.headDim, (head * g.slots + slot) * g.headDim, rows * g.headDim)];
      head := head + 1;
    }
  }

  /** The newest present row, whatever the present convention, into one slot. */
  method KvFoldRanges(g: Geometry, slot: int) returns (ranges: seq<LinkRange>)
    ensures ranges == FoldRanges(g, g.presentRows - 1, slot, 1)
  {
    ranges := KvFoldRowRanges(g, g.presentRows - 1, slot, 1);
  }

  // ---- what the session accepts, and what it copies ----------------------------

  predicate InBounds(r: LinkRange, source: nat, dest: nat) {
    && r.count > 0 && r.sourceElem >= 0 && r.destElem >= 0
    && r.sourceElem + r.count <= source && r.destElem + r.count <= dest
  }

  predicate Apart(a: LinkRange, b: LinkRange) {
    a.destElem + a.count <= b.destElem || b.destElem + b.count <= a.destElem
  }

  predicate Covers(r: LinkRange, i: int) {
    r.destElem <= i < r.destElem + r.count
  }

  /** Two destinations are apart exactly when no element lies in both. */
  lemma ApartExact(a: LinkRange, b: LinkRange)
    requires a.count > 0 && b.count > 0
    ensures Apart(a, b) <==> forall i | Covers(a, i) :: !Covers(b, i)
  {
    if !Apart(a, b) {
      var i := if a.destElem < b.destElem then b.destElem else a.destElem;
      assert Covers(a, i) && Covers(b, i);
    }
  }

  /** The session's own link validation: every range in bounds, no two destinations overlapping. */
  ghost predicate ValidRanges(ranges: seq<LinkRange>, source: nat, dest: nat) {
    && (forall i | 0 <= i < |ranges| :: InBounds(ranges[i], source, dest))
    && (forall i, j | 0 <= i < j < |ranges| :: Apart(ranges[i], ranges[j]))
  }

  function CopyRange(source: seq<int>, dest: seq<int>, r: LinkRange): (d: seq<int>)
    requires InBounds(r, |source|, |dest|)
    ensures |d| == |dest|
  {
    dest[..r.destElem] + source[r.sourceElem..r.sourceElem + r.count] + dest[r.destElem + r.count..]
  }

  /** The ranged copies at the start of a run. */
  function ApplyRanges(source: seq<int>, dest: seq<int>, ranges: seq<LinkRange>): (d: seq<int>)
    requires forall i | 0 <= i < |ranges| :: InBounds(ranges[i], |source|, |dest|)
    ensures |d| == |dest|
  {
    if ranges == [] then dest
    else
      var n := |ranges| - 1;
      CopyRange(source, ApplyRanges(source, dest, ranges[..n]), ranges[n])
  }

  lemma MulMono(a: int, b: int, k: nat)
    requires a <= b
    ensures a * k <= b * k
  {
  }

  /** Cell c+1 of head h ends no later than the next head begins. */
  lemma HeadsApart(h: int, k: int, slots: nat)
    requires h < k
    ensures h * slots + slots <= k * slots
  {
    MulMono(h + 1, k, slots);
  }

  lemma HeadRangeInBounds(g: Geometry, sourceRow: int, slot: int, rows: int, h: nat)
    requires h < g.kvHeads && g.headDim > 0 && rows > 0 && slot >= 0
    requires 0 <= sourceRow && sourceRow + rows <= g.presentRows && slot + rows <= g.slots
    ensures InBounds(HeadRange(g, sourceRow, slot, rows, h), g.kvHeads * g.presentRows * g.headDim, g.kvHeads * g.slots * g.headDim)
  {
    HeadsApart(h, g.kvHeads, g.presentRows);
    HeadsApart(h, g.kvHeads, g.slots);
    MulMono(0, h, g.presentRows);
    MulMono(0, h, g.slots);
    MulMono(0, h * g.presentRows + sourceRow, g.headDim);
    MulMono(0, h * g.slots + slot, g.headDim);
    MulMono(1, rows, g.headDim);
    MulMono(h * g.presentRows + sourceRow + rows, g.kvHeads * g.presentRows, g.headDim);
    MulMono(h * g.slots + slot + rows, g.kvHeads * g.slots, g.headDim);
    assert (h * g.presentRows + sourceRow + rows) * g.headDim == (h * g.presentRows + sourceRow) * g.headDim + rows * g.headDim;
    assert (h * g.slots + slot + rows) * g.headDim == (h * g.slots + slot) * g.headDim + rows * g.headDim;
  }

  /** A fold's ranges pass the link validation exactly when the row block fits both tensors. */
  lemma FoldRangesValid(g: Geometry, sourceRow: int, slot: int, rows: int)
    requires g.kvHeads > 0 && g.headDim > 0 && slot >= 0 && rows > 0
    ensures ValidRanges(FoldRanges(g, sourceRow, slot, rows), g.kvHeads * g.presentRows * g.headDim, g.kvHeads * g.slots * g.headDim)
       <==> 0 <= sourceRow && sourceRow + rows <= g.presentRows && slot + rows <= g.slots
    ensures Fits(g, sourceRow, slot, rows) <==> 0 <= sourceRow && sourceRow + rows <= g.presentRows && slot + rows <= g.slots
  {
    var ranges := FoldRanges(g, sourceRow, slot, rows);
    if 0 <= sourceRow && sourceRow + rows <= g.presentRows && slot + rows <= g.slots {
      forall i | 0 <= i < |ranges|
        ensures InBounds(ranges[i], g.kvHeads * g.presentRows * g.headDim, g.kvHeads * g.slots * g.headDim)
      {
        HeadRangeInBounds(g, sourceRow, slot, rows, i);
      }
      forall i, j | 0 <= i < j < |ranges|
        ensures Apart(ranges[i], ranges[j])
      {
        HeadsApart(i, j, g.slots);
        MulMono(i * g.slots + slot + rows, j * g.slots + slot, g.headDim);
        assert (i * g.slots + slot + rows) * g.headDim == (i * g.slots + slot) * g.headDim + rows * g.headDim;
      }
    } else {
      FoldRangesOverrun(g, sourceRow, slot, rows);
    }
  }

  /** A row block past the last row leaves the tensor in the last head. */
  lemma LastHeadOverruns(heads: nat, slots: nat, headDim: nat, slot: int, rows: int)
    requires heads > 0 && headDim > 0 && slot + rows > slots
    ensures ((heads - 1) * slots + slot) * headDim + rows * headDim > heads * slots * headDim
  {
    assert (heads - 1) * slots + slots == heads * slots;
    MulMono(heads * slots + 1, (heads - 1) * slots + slot + rows, headDim);
    assert ((heads - 1) * slots + slot + rows) * headDim == ((heads - 1) * slots + slot) * headDim + rows * headDim;
  }

  lemma FoldRangesOverrun(g: Geometry, sourceRow: int, slot: int, rows: int)
    requires g.kvHeads > 0 && g.headDim > 0 && slot >= 0 && rows > 0
    requires sourceRow < 0 || sourceRow + rows > g.presentRows || slot + rows > g.slots
    ensures !ValidRanges(FoldRanges(g, sourceRow, slot, rows), g.kvHeads * g.presentRows * g.headDim, g.kvHeads * g.slots * g.headDim)
  {
    var ranges := FoldRanges(g, sourceRow, slot, rows);
    var last := ranges[g.kvHeads - 1];
    if sourceRow < 0 {
      MulMono(sourceRow, -1, g.headDim);
      assert ranges[0].sourceElem < 0;
    } else if sourceRow + rows > g.presentRows {
      LastHeadOverruns(g.kvHeads, g.presentRows, g.headDim, sourceRow, rows);
      assert last.sourceElem + last.count > g.kvHeads * g.presentRows * g.headDim;
    } else {
      LastHeadOverruns(g.kvHeads, g.slots, g.headDim, slot, rows);
      assert last.destElem + last.count > g.kvHeads * g.slots * g.headDim;
    }
  }

  // ---- rows per slot -------------------------------------------------------------

  /** Words of cell `c`, one (head, slot) pair of a flat buffer. */
  function Cell(buf: seq<int>, headDim: nat, c: int): (words: seq<int>)
    requires 0 <= c && (c + 1) * headDim <= |buf|
    requires 0 <= c * headDim <= (c + 1) * headDim
    ensures |words| == headDim
  {
    buf[c * headDim..(c + 1) * headDim]
  }

  lemma CellFits(heads: nat, slots: nat, headDim: nat, h: nat, s: nat)
    requires h < heads && s < slots
    ensures 0 <= h * slots + s < heads * slots
    ensures 0 <= (h * slots + s) * headDim <= (h * slots + s + 1) * headDim <= heads * slots * headDim
  {
    HeadsApart(h, heads, slots);
    MulMono(0, h, slots);
    MulMono(0, h * slots + s, headDim);
    MulMono(h * slots + s + 1, heads * slots, headDim);
  }

  /** Words of head `h` in slot `s`. */
  function CellAt(buf: seq<int>, heads: nat, slots: nat, headDim: nat, h: nat, s: nat): (words: seq<int>)
    requires |buf| == heads * slots * headDim && h < heads && s < slots
  {
    CellFits(heads, slots, headDim, h, s);
    Cell(buf, headDim, h * slots + s)
  }

  /** The logical row in slot `s` of a flat buffer of `slots` slots per head. */
  function SlotRow(buf: seq<int>, heads: nat, slots: nat, headDim: nat, s: nat): (row: Row)
    requires |buf| == heads * slots * headDim && s < slots
    ensures |row.heads| == heads
    ensures forall h | 0 <= h < heads :: row.heads[h] == CellAt(buf, heads, slots, headDim, h, s)
  {
    Row(seq(heads, h requires 0 <= h < heads => CellAt(buf, heads, slots, headDim, h, s)))
  }

  /** The logical rows of a flat buffer, in slot order. */
  function Slots(buf: seq<int>, heads: nat, slots: nat, headDim: nat): (rows: seq<Row>)
    requires |buf| == heads * slots * headDim
    ensures |rows| == slots
    ensures forall s | 0 <= s < slots :: rows[s] == SlotRow(buf, heads, slots, headDim, s)
  {
    seq(slots, s requires 0 <= s < slots => SlotRow(buf, heads, slots, headDim, s))
  }

  /** `rows` rows of `present` starting at `source` replace slots `slot`.. of `past`; a negative slot folds nothing. */
  function FoldRows(past: seq<Row>, present: seq<Row>, source: nat, slot: int, rows: int): (r: seq<Row>)
    requires slot >= 0 && rows > 0 ==> source + rows <= |present| && slot + rows <= |past|
    ensures |r| == |past|
  {
    if slot < 0 || rows <= 0 then past
    else past[..slot] + present[source..source + rows] + past[slot + rows..]
  }

  lemma CopySlice(source: seq<int>, dest: seq<int>, r: LinkRange, lo: int, hi: int)
    requires InBounds(r, |source|, |dest|) && 0 <= lo <= hi <= |dest|
    ensures hi <= r.destElem || r.destElem + r.count <= lo ==> CopyRange(source, dest, r)[lo..hi] == dest[lo..hi]
    ensures r.destElem <= lo && hi <= r.destElem + r.count ==>
              CopyRange(source, dest, r)[lo..hi] == source[r.sourceElem + lo - r.destElem..r.sourceElem + hi - r.destElem]
  {
    var d, off := CopyRange(source, dest, r), r.sourceElem - r.destElem;
    forall i | 0 <= i < |dest|
      ensures d[i] == if r.destElem <= i < r.destElem + r.count then source[off + i] else dest[i]
    {
      CopyAt(source, dest, r, i);
    }
    hide CopyRange;
    if r.destElem <= lo && hi <= r.destElem + r.count {
      assert d[lo..hi] == source[off + lo..off + hi];
    } else if hi <= r.destElem || r.destElem + r.count <= lo {
      assert d[lo..hi] == dest[lo..hi];
    }
  }

  lemma CopyAt(source: seq<int>, dest: seq<int>, r: LinkRange, i: int)
    requires InBounds(r, |source|, |dest|) && 0 <= i < |dest|
    ensures
      CopyRange(source, dest, r)[i] ==
      if r.destElem <= i < r.destElem + r.count then source[r.sourceElem - r.destElem + i] else dest[i]
  {
  }

  predicate CellIn(headDim: nat, c: int, length: nat) {
    0 <= c * headDim <= (c + 1) * headDim <= length
  }

  /** A range of whole cells moves exactly its cells. */
  lemma CopyCells(source: seq<int>, dest: seq<int>, headDim: nat, from: nat, to: nat, n: nat, c: nat)
    requires headDim > 0 && n > 0
    requires InBounds(LinkRange(from * headDim, to * headDim, n * headDim), |source|, |dest|)
    requires CellIn(headDim, c, |dest|)
    ensures to <= c < to + n ==> CellIn(headDim, from + c - to, |source|)
    ensures Cell(CopyRange(source, dest, LinkRange(from * headDim, to * headDim, n * headDim)), headDim, c)
         == if to <= c < to + n then Cell(source, headDim, from + c - to) else Cell(dest, headDim, c)
  {
    var r := LinkRange(from * headDim, to * headDim, n * headDim);
    CopySlice(source, dest, r, c * headDim, (c + 1) * headDim);
    if c < to {
      MulMono(c + 1, to, headDim);
    } else if c >= to + n {
      MulMono(to + n, c, headDim);
      assert (to + n) * headDim == to * headDim + n * headDim;
    } else {
      CellOffset(headDim, from, to, n, c);
    }
  }

  lemma CellOffset(headDim: nat, from: nat, to: nat, n: nat, c: nat)
    requires to <= c < to + n
    ensures to * headDim <= c * headDim && (c + 1) * headDim <= to * headDim + n * headDim
    ensures (from + c - to) * headDim == from * headDim + c * headDim - to * headDim
    ensures (from + c - to + 1) * headDim == from * headDim + (c + 1) * headDim - to * headDim
  {
    MulMono(to, c, headDim);
    MulMono(c + 1, to + n, headDim);
    assert (to + n) * headDim == to * headDim + n * headDim;
  }

  /** Source and destination row blocks lie inside their tensors. */
  predicate Fits(g: Geometry, sourceRow: int, slot: int, rows: int) {
    && g.headDim > 0
    && (slot >= 0 && rows > 0 ==> 0 <= sourceRow && sourceRow + rows <= g.presentRows && slot + rows <= g.slots)
  }

  lemma FoldRangesInBounds(g: Geometry, sourceRow: int, slot: int, rows: int, heads: nat)
    requires Fits(g, sourceRow, slot, rows) && slot >= 0 && rows > 0 && heads <= g.kvHeads
    ensures forall i | 0 <= i < heads ::
              InBounds(HeadRanges(g, sourceRow, slot, rows, heads)[i], g.kvHeads * g.presentRows * g.headDim, g.kvHeads * g.slots * g.headDim)
  {
    forall i | 0 <= i < heads
      ensures InBounds(HeadRanges(g, sourceRow, slot, rows, heads)[i], g.kvHeads * g.presentRows * g.headDim, g.kvHeads * g.slots * g.headDim)
    {
      HeadRangeInBounds(g, sourceRow, slot, rows, i);
    }
  }

  lemma {:induction false} CopyHead(g: Geometry, source: seq<int>, dest: seq<int>, sourceRow: int, slot: int, rows: int, k: nat, h: nat, s: nat)
    requires Fits(g, sourceRow, slot, rows) && slot >= 0 && rows > 0
    requires |source| == g.kvHeads * g.presentRows * g.headDim && |dest| == g.kvHeads * g.slots * g.headDim
    requires k < g.kvHeads && h < g.kvHeads && s < g.slots
    ensures InBounds(HeadRange(g, sourceRow, slot, rows, k), |source|, |dest|)
    ensures CellAt(CopyRange(source, dest, HeadRange(g, sourceRow, slot, rows, k)), g.kvHeads, g.slots, g.headDim, h, s)
         == if h == k && slot <= s < slot + rows then CellAt(source, g.kvHeads, g.presentRows, g.headDim, h, sourceRow + s - slot)
            else CellAt(dest, g.kvHeads, g.slots, g.headDim, h, s)
  {
    HeadRangeInBounds(g, sourceRow, slot, rows, k);
    CellFits(g.kvHeads, g.slots, g.headDim, h, s);
    CellFits(g.kvHeads, g.slots, g.headDim, k, slot);
    CellFits(g.kvHeads, g.presentRows, g.headDim, k, sourceRow);
    CopyCells(source, dest, g.headDim, k * g.presentRows + sourceRow, k * g.slots + slot, rows, h * g.slots + s);
    if h < k {
      HeadsApart(h, k, g.slots);
    } else if h > k {
      HeadsApart(k, h, g.slots);
    }
  }

  /** Head by head: after the first `heads` ranges, exactly the folded slots of those heads hold the present's rows. */
  lemma {:induction false} HeadRangesMoveCells(g: Geometry, source: seq<int>, dest: seq<int>, sourceRow: int, slot: int, rows: int,
                                               heads: nat, h: nat, s: nat)
    requires Fits(g, sourceRow, slot, rows) && slot >= 0 && rows > 0
    requires |source| == g.kvHeads * g.presentRows * g.headDim && |dest| == g.kvHeads * g.slots * g.headDim
    requires heads <= g.kvHeads && h < g.kvHeads && s < g.slots
    ensures forall i | 0 <= i < heads :: InBounds(HeadRanges(g, sourceRow, slot, rows, heads)[i], |source|, |dest|)
    ensures CellAt(ApplyRanges(source, dest, HeadRanges(g, sourceRow, slot, rows, heads)), g.kvHeads, g.slots, g.headDim, h, s)
         == if h < heads && slot <= s < slot + rows then CellAt(source, g.kvHeads, g.presentRows, g.headDim, h, sourceRow + s - slot)
            else CellAt(dest, g.kvHeads, g.slots, g.headDim, h, s)
    decreases heads
  {
    FoldRangesInBounds(g, sourceRow, slot, rows, heads);
    if heads > 0 {
      var k := heads - 1;
      HeadRangesMoveCells(g, source, dest, sourceRow, slot, rows, k, h, s);
      var before := ApplyRanges(source, dest, HeadRanges(g, sourceRow, slot, rows, k));
      assert HeadRanges(g, sourceRow, slot, rows, heads)[..k] == HeadRanges(g, sourceRow, slot, rows, k);
      CopyHead(g, source, before, sourceRow, slot, rows, k, h, s);
    }
  }

  lemma FoldedSlot(g: Geometry, source: seq<int>, dest: seq<int>, sourceRow: int, slot: int, rows: int, s: nat)
    requires Fits(g, sourceRow, slot, rows) && slot >= 0 && rows > 0
    requires |source| == g.kvHeads * g.presentRows * g.headDim && |dest| == g.kvHeads * g.slots * g.headDim && s < g.slots
    ensures forall i | 0 <= i < g.kvHeads :: InBounds(HeadRanges(g, sourceRow, slot, rows, g.kvHeads)[i], |source|, |dest|)
    ensures SlotRow(ApplyRanges(source, dest, HeadRanges(g, sourceRow, slot, rows, g.kvHeads)), g.kvHeads, g.slots, g.headDim, s)
         == if slot <= s < slot + rows then SlotRow(source, g.kvHeads, g.presentRows, g.headDim, sourceRow + s - slot)
            else SlotRow(dest, g.kvHeads, g.slots, g.headDim, s)
  {
    FoldRangesInBounds(g, sourceRow, slot, rows, g.kvHeads);
    var row := SlotRow(ApplyRanges(source, dest, HeadRanges(g, sourceRow, slot, rows, g.kvHeads)), g.kvHeads, g.slots, g.headDim, s);
    var want := if slot <= s < slot + rows then SlotRow(source, g.kvHeads, g.presentRows, g.headDim, sourceRow + s - slot)
                else SlotRow(dest, g.kvHeads, g.slots, g.headDim, s);
    forall h | 0 <= h < g.kvHeads
      ensures row.heads[h] == want.heads[h]
    {
      HeadRangesMoveCells(g, source, dest, sourceRow, slot, rows, g.kvHeads, h, s);
    }
    assert row.heads == want.heads;
  }

  /**
    The armed ranges are the logical fold: after the copies, slots `slot`.. hold the
    present's rows and every other slot is untouched.
   */
  lemma RangesFoldRows(g: Geometry, source: seq<int>, dest: seq<int>, sourceRow: nat, slot: int, rows: int)
    requires Fits(g, sourceRow, slot, rows)
    requires |source| == g.kvHeads * g.presentRows * g.headDim && |dest| == g.kvHeads * g.slots * g.headDim
    ensures forall i | 0 <= i < |FoldRanges(g, sourceRow, slot, rows)| :: InBounds(FoldRanges(g, sourceRow, slot, rows)[i], |source|, |dest|)
    ensures Slots(ApplyRanges(source, dest, FoldRanges(g, sourceRow, slot, rows)), g.kvHeads, g.slots, g.headDim)
         == FoldRows(Slots(dest, g.kvHeads, g.slots, g.headDim), Slots(source, g.kvHeads, g.presentRows, g.headDim), sourceRow, slot, rows)
  {
    hide SlotRow, InBounds, CopyRange, HeadRange;
    if slot >= 0 && rows > 0 {
      FoldRangesInBounds(g, sourceRow, slot, rows, g.kvHeads);
      var after := ApplyRanges(source, dest, HeadRanges(g, sourceRow, slot, rows, g.kvHeads));
      var got := Slots(after, g.kvHeads, g.slots, g.headDim);
      var from := Slots(source, g.kvHeads, g.presentRows, g.headDim);
      var want := FoldRows(Slots(dest, g.kvHeads, g.slots, g.headDim), from, sourceRow, slot, rows);
      forall s | 0 <= s < g.slots
        ensures got[s] == want[s]
      {
        FoldedSlot(g, source, dest, sourceRow, slot, rows, s);
      }
      assert got == want;
    }
  }
}
