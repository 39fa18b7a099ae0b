/**
  The host loops that fold produced rows into a flat past buffer: head by head with one
  block copy, or head by head and row by row.  Both write exactly what the armed link
  ranges of the same fold would have written.
 */
module HostFold {
  import opened IoLink

  /** memcpy between two buffers, word by word. */
  method CopyWords(dest: array<int>, source: array<int>, r: LinkRange)
    requires dest != source && InBounds(r, source.Length, dest.Length)
    modifies dest
    ensures dest[..] == CopyRange(source[..], old(dest[..]), r)
  {
    var k := 0;
    while k < r.count
      invariant 0 <= k <= r.count
      invariant forall i | 0 <= i < dest.Length ::
                  dest[i] == if r.destElem <= i < r.destElem + k then source[r.sourceElem + i - r.destElem] else old(dest[i])
    {
      dest[r.destElem + k] := source[r.sourceElem + k];
      k := k + 1;
    }
  }

  /** One head's block. */
  method FoldHeadBlock(dest: array<int>, source: array<int>, g: Geometry, sourceRow: nat, slot: nat, rows: nat, head: nat)
    requires dest != source && rows > 0 && Fits(g, sourceRow, slot, rows) && head < g.kvHeads
    requires source.Length == g.kvHeads * g.presentRows * g.headDim && dest.Length == g.kvHeads * g.slots * g.headDim
    modifies dest
    ensures InBounds(HeadRange(g, sourceRow, slot, rows, head), source.Length, dest.Length)
    ensures dest[..] == CopyRange(source[..], old(dest[..]), HeadRange(g, sourceRow, slot, rows, head))
  {
    HeadRangeInBounds(g, sourceRow, slot, rows, head);
    CopyWords(dest, source, LinkRange((head * g.presentRows + sourceRow) * g.headDim, (head * g.slots + slot) * g.headDim, rows * g.headDim));
  }

  /** One block copy per head: the decode fold, the resident materialization and the draft's window fold. */
  method FoldBlocks(dest: array<int>, source: array<int>, g: Geometry, sourceRow: nat, slot: nat, rows: nat)
    requires dest != source && rows > 0 && Fits(g, sourceRow, slot, rows)
    requires source.Length == g.kvHeads * g.presentRows * g.headDim && dest.Length == g.kvHeads * g.slots * g.headDim
    modifies dest
    ensures forall i | 0 <= i < |FoldRanges(g, sourceRow, slot, rows)| :: InBounds(FoldRanges(g, sourceRow, slot, rows)[i], source.Length, dest.Length)
    ensures dest[..] == ApplyRanges(source[..], old(dest[..]), FoldRanges(g, sourceRow, slot, rows))
    ensures Slots(dest[..], g.kvHeads, g.slots, g.headDim)
         == FoldRows(Slots(old(dest[..]), g.kvHeads, g.slots, g.headDim), Slots(source[..], g.kvHeads, g.presentRows, g.headDim), sourceRow, slot, rows)
  {
    RangesFoldRows(g, source[..], dest[..], sourceRow, slot, rows);
    var head := 0;
    while head < g.kvHeads
      invariant 0 <= head <= g.kvHeads
      invariant forall i | 0 <= i < head :: InBounds(HeadRanges(g, sourceRow, slot, rows, head)[i], source.Length, dest.Length)
      invariant dest[..] == ApplyRanges(source[..], old(dest[..]), HeadRanges(g, sourceRow, slot, rows, head))
    {
      FoldHeadBlock(dest, source, g, sourceRow, slot, rows, head);
      head := head + 1;
      assert HeadRanges(g, sourceRow, slot, rows, head)[..head - 1] == HeadRanges(g, sourceRow, slot, rows, head - 1);
    }
  }

  /** Two adjacent copies are one longer copy. */
  lemma CopyAdjacent(source: seq<int>, dest: seq<int>, r: LinkRange, more: int)
    requires InBounds(r, |source|, |dest|) && InBounds(LinkRange(r.sourceElem + r.count, r.destElem + r.count, more), |source|, |dest|)
    ensures InBounds(LinkRange(r.sourceElem, r.destElem, r.count + more), |source|, |dest|)
    ensures CopyRange(source, CopyRange(source, dest, r), LinkRange(r.sourceElem + r.count, r.destElem + r.count, more))
         == CopyRange(source, dest, LinkRange(r.sourceElem, r.destElem, r.count + more))
  {
  }

  lemma RowAfterRows(g: Geometry, sourceRow: nat, slot: nat, head: nat, t: nat)
    requires t > 0
    ensures var r := HeadRange(g, sourceRow, slot, t, head);
            && HeadRange(g, sourceRow + t, slot + t, 1, head) == LinkRange(r.sourceElem + r.count, r.destElem + r.count, g.headDim)
            && HeadRange(g, sourceRow, slot, t + 1, head) == LinkRange(r.sourceElem, r.destElem, r.count + g.headDim)
  {
    assert (head * g.presentRows + sourceRow + t) * g.headDim == (head * g.presentRows + sourceRow) * g.headDim + t * g.headDim;
    assert (head * g.slots + slot + t) * g.headDim == (head * g.slots + slot) * g.headDim + t * g.headDim;
    assert (t + 1) * g.headDim == t * g.headDim + g.headDim;
  }

  /** One head of the prefill fold: `rows` single-row copies are that head's block. */
  method FoldHeadRows(dest: array<int>, source: array<int>, g: Geometry, sourceRow: nat, slot: nat, rows: nat, head: nat)
    requires dest != source && rows > 0 && Fits(g, sourceRow, slot, rows) && head < g.kvHeads
    requires source.Length == g.kvHeads * g.presentRows * g.headDim && dest.Length == g.kvHeads * g.slots * g.headDim
    modifies dest
    ensures InBounds(HeadRange(g, sourceRow, slot, rows, head), source.Length, dest.Length)
    ensures dest[..] == CopyRange(source[..], old(dest[..]), HeadRange(g, sourceRow, slot, rows, head))
  {
    hide CopyRange, InBounds;
    HeadRangeInBounds(g, sourceRow, slot, rows, head);
    var t := 0;
    while t < rows
      invariant 0 <= t <= rows
      invariant t == 0 ==> dest[..] == old(dest[..])
      invariant t > 0 ==> && InBounds(HeadRange(g, sourceRow, slot, t, head), source.Length, dest.Length)
                          && dest[..] == CopyRange(source[..], old(dest[..]), HeadRange(g, sourceRow, slot, t, head))
    {
      HeadRangeInBounds(g, sourceRow + t, slot + t, 1, head);
      if t > 0 {
        RowAfterRows(g, sourceRow, slot, head, t);
        CopyAdjacent(source[..], old(dest[..]), HeadRange(g, sourceRow, slot, t, head), g.headDim);
      }
      CopyWords(dest, source, LinkRange((head * g.presentRows + sourceRow + t) * g.headDim, (head * g.slots + slot + t) * g.headDim, g.headDim));
      t := t + 1;
    }
  }

  /** One copy per head and row: the whole-window prefill fold. */
  method FoldRowByRow(dest: array<int>, source: array<int>, g: Geometry, sourceRow: nat, slot: nat, rows: nat)
    requires dest != source && rows > 0 && Fits(g, sourceRow, slot, rows)
    requires source.Length == g.kvHeads * g.presentRows * g.headDim && dest.Length == g.kvHeads * g.slots * g.headDim
    modifies dest
    ensures forall i | 0 <= i < |FoldRanges(g, sourceRow, slot, rows)| :: InBounds(FoldRanges(g, sourceRow, slot, rows)[i], source.Length, dest.Length)
    ensures dest[..] == ApplyRanges(source[..], old(dest[..]), FoldRanges(g, sourceRow, slot, rows))
    ensures Slots(dest[..], g.kvHeads, g.slots, g.headDim)
         == FoldRows(Slots(old(dest[..]), g.kvHeads, g.slots, g.headDim), Slots(source[..], g.kvHeads, g.presentRows, g.headDim), sourceRow, slot, rows)
  {
    RangesFoldRows(g, source[..], dest[..], sourceRow, slot, rows);
    var head := 0;
    while head < g.kvHeads
      invariant 0 <= head <= g.kvHeads
      invariant forall i | 0 <= i < head :: InBounds(HeadRanges(g, sourceRow, slot, rows, head)[i], source.Length, dest.Length)
      invariant dest[..] == ApplyRanges(source[..], old(dest[..]), HeadRanges(g, sourceRow, slot, rows, head))
    {
      FoldHeadRows(dest, source, g, sourceRow, slot, rows, head);
      head := head + 1;
      assert HeadRanges(g, sourceRow, slot, rows, head)[..head - 1] == HeadRanges(g, sourceRow, slot, rows, head - 1);
    }
  }

  // ---- a fold that assumes a present of one row -------------------------------------------

  /** Head `h` of a present buffer read at a stride of one row per head. */
  function StrideOneCell(source: seq<int>, g: Geometry, h: nat): seq<int>
    requires |source| == g.kvHeads * g.presentRows * g.headDim && h < g.kvHeads && g.presentRows > 0
  {
    MulMono(1, g.presentRows, g.kvHeads);
    CellFits(g.kvHeads * g.presentRows, 1, g.headDim, h, 0);
    Cell(source, g.headDim, h)
  }

  /** The present whose first word alone is 1. */
  function FirstWordSet(g: Geometry): (source: seq<int>)
    ensures |source| == g.kvHeads * g.presentRows * g.headDim
  {
    MulMono(0, g.presentRows, g.kvHeads);
    MulMono(0, g.kvHeads * g.presentRows, g.headDim);
    seq(g.kvHeads * g.presentRows * g.headDim, i => if i == 0 then 1 else 0)
  }

  /** Such a read finds every head's newest row, in every present, exactly when the present has one row. */
  lemma StrideOneExact(g: Geometry)
    requires g.kvHeads > 0 && g.headDim > 0 && g.presentRows > 0
    ensures (forall source: seq<int>, h: nat | |source| == g.kvHeads * g.presentRows * g.headDim && h < g.kvHeads ::
               StrideOneCell(source, g, h) == CellAt(source, g.kvHeads, g.presentRows, g.headDim, h, g.presentRows - 1))
       <==> g.presentRows == 1
  {
    if g.presentRows > 1 {
      var source, last := FirstWordSet(g), g.presentRows - 1;
      var newest := CellAt(source, g.kvHeads, g.presentRows, g.headDim, 0, last);
      CellFits(g.kvHeads, g.presentRows, g.headDim, 0, last);
      MulMono(1, last, g.headDim);
      assert newest[0] == source[last * g.headDim] == 0;
      assert StrideOneCell(source, g, 0)[0] == source[0] == 1;
    }
  }
}
