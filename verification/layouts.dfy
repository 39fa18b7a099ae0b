/**
  Boundary layouts of an NCHW tensor: dense NCHW, dense NHWC, and NC4HW4, which packs channels in blocks of
  four lanes and pads the last block with zeros.
 */
module Layouts {
  import opened Basics

  datatype Format = NCHW | NHWC | NC4HW4

  datatype Dims = Dims(n: nat, c: nat, h: nat, w: nat)

  datatype Pos = Pos(n: nat, c: nat, h: nat, w: nat)

  predicate Inside(x: Dims, p: Pos) {
    p.n < x.n && p.c < x.c && p.h < x.h && p.w < x.w
  }

  // ---- mixed radix ----

  function Times(a: nat, b: nat): nat {
    a * b
  }

  /** Digit `r` appended to `q` in radix `d`. */
  function Join(q: nat, r: nat, d: nat): nat {
    q * d + r
  }

  function Low(i: nat, d: nat): (r: nat)
    requires d > 0
    ensures r < d
  {
    i % d
  }

  function High(i: nat, d: nat): nat
    requires d > 0
  {
    i / d
  }

  lemma JoinSplits(q: nat, r: nat, d: nat)
    requires r < d
    ensures High(Join(q, r, d), d) == q && Low(Join(q, r, d), d) == r
  {
    var i := Join(q, r, d);
    QuotientIs(q, r, d, i / d, i % d);
  }

  lemma JoinBelow(q: nat, r: nat, d: nat, m: nat)
    requires r < d && q < m
    ensures Join(q, r, d) < Times(m, d)
  {
    TimesGrows(q, m, d);
  }

  lemma Positive(i: nat, d: nat, m: nat)
    requires i < Times(m, d)
    ensures d > 0
  {
  }

  lemma SplitJoins(i: nat, d: nat, m: nat)
    requires i < Times(m, d)
    ensures d > 0
    ensures High(i, d) < m && Join(High(i, d), Low(i, d), d) == i
  {
    Positive(i, d, m);
    var q := i / d;
    assert i == q * d + i % d;
    TimesGrows(m, q, d);
  }

  lemma JoinNext(q: nat, d: nat)
    ensures Join(q, d, d) == Join(q + 1, 0, d)
  {
  }

  // ---- indices ----

  /** As many blocks of four as hold `c` channels, and no more. */
  function Blocks(c: nat): (b: nat)
    ensures c <= 4 * b < c + 4
  {
    (c + 3) / 4
  }

  /** The element of `p`: channel blocks of four hold lane `c % 4` of block `c / 4` in NC4HW4. */
  function EncodeIdx(f: Format, x: Dims, p: Pos): nat {
    match f
    case NHWC => Join(Join(Join(p.n, p.h, x.h), p.w, x.w), p.c, x.c)
    case NC4HW4 => Join(Join(Join(Join(p.n, p.c / 4, Blocks(x.c)), p.h, x.h), p.w, x.w), p.c % 4, 4)
    case NCHW => Join(Join(Join(p.n, p.c, x.c), p.h, x.h), p.w, x.w)
  }

  function FormatElems(f: Format, x: Dims): nat {
    if f == NC4HW4 then x.n * Blocks(x.c) * 4 * x.h * x.w else x.n * x.c * x.h * x.w
  }

  /** The same count, factor by factor in the order the index is built. */
  function Extent(f: Format, x: Dims): nat {
    match f
    case NHWC => Times(Times(Times(x.n, x.h), x.w), x.c)
    case NC4HW4 => Times(Times(Times(Times(x.n, Blocks(x.c)), x.h), x.w), 4)
    case NCHW => Times(Times(Times(x.n, x.c), x.h), x.w)
  }

  lemma SwapFactor(a: nat, b: nat, c: nat)
    ensures a * b * c == a * c * b
  {
  }

  lemma ExtentIsElems(f: Format, x: Dims)
    ensures Extent(f, x) == FormatElems(f, x)
  {
    match f
    case NHWC =>
      SwapFactor(x.n * x.h, x.w, x.c);
      SwapFactor(x.n, x.h, x.c);
    case NC4HW4 =>
      var b := x.n * Blocks(x.c);
      SwapFactor(b * x.h, x.w, 4);
      SwapFactor(b, x.h, 4);
    case NCHW =>
  }

  /** The position an element holds, or none for a padding lane. */
  function DecodeIdx(f: Format, x: Dims, i: nat): Option<Pos>
    requires i < Extent(f, x)
  {
    hide Join, Times, Low, High, Blocks;
    match f
    case NHWC =>
      SplitJoins(i, x.c, Times(Times(x.n, x.h), x.w));
      var a := High(i, x.c);
      SplitJoins(a, x.w, Times(x.n, x.h));
      var b := High(a, x.w);
      SplitJoins(b, x.h, x.n);
      Some(Pos(High(b, x.h), Low(i, x.c), Low(b, x.h), Low(a, x.w)))
    case NC4HW4 =>
      SplitJoins(i, 4, Times(Times(Times(x.n, Blocks(x.c)), x.h), x.w));
      var a := High(i, 4);
      SplitJoins(a, x.w, Times(Times(x.n, Blocks(x.c)), x.h));
      var b := High(a, x.w);
      SplitJoins(b, x.h, Times(x.n, Blocks(x.c)));
      var e := High(b, x.h);
      SplitJoins(e, Blocks(x.c), x.n);
      var c := Low(e, Blocks(x.c)) * 4 + Low(i, 4);
      if c < x.c then Some(Pos(High(e, Blocks(x.c)), c, Low(b, x.h), Low(a, x.w))) else None
    case NCHW =>
      SplitJoins(i, x.w, Times(Times(x.n, x.c), x.h));
      var a := High(i, x.w);
      SplitJoins(a, x.h, Times(x.n, x.c));
      var b := High(a, x.h);
      SplitJoins(b, x.c, x.n);
      Some(Pos(High(b, x.c), Low(b, x.c), Low(a, x.h), Low(i, x.w)))
  }

  lemma BlockBelow(c: nat, x: nat)
    requires c < x
    ensures c / 4 < Blocks(x) && c == c / 4 * 4 + c % 4
  {
  }

  /** Every position has an element of its own, in bounds: its position can be read off the index. */
  lemma EncodeDecodes(f: Format, x: Dims, p: Pos)
    requires Inside(x, p)
    ensures EncodeIdx(f, x, p) < Extent(f, x)
    ensures DecodeIdx(f, x, EncodeIdx(f, x, p)) == Some(p)
  {
    hide Join, Times, Blocks, Low, High;
    match f
    case NHWC =>
      var a := Join(p.n, p.h, x.h);
      var b := Join(a, p.w, x.w);
      JoinBelow(p.n, p.h, x.h, x.n);
      JoinBelow(a, p.w, x.w, Times(x.n, x.h));
      JoinBelow(b, p.c, x.c, Times(Times(x.n, x.h), x.w));
      JoinSplits(b, p.c, x.c);
      JoinSplits(a, p.w, x.w);
      JoinSplits(p.n, p.h, x.h);
    case NC4HW4 =>
      var blocks := Blocks(x.c);
      BlockBelow(p.c, x.c);
      var a := Join(p.n, p.c / 4, blocks);
      var b := Join(a, p.h, x.h);
      var d := Join(b, p.w, x.w);
      JoinBelow(p.n, p.c / 4, blocks, x.n);
      JoinBelow(a, p.h, x.h, Times(x.n, blocks));
      JoinBelow(b, p.w, x.w, Times(Times(x.n, blocks), x.h));
      JoinBelow(d, p.c % 4, 4, Times(Times(Times(x.n, blocks), x.h), x.w));
      JoinSplits(d, p.c % 4, 4);
      JoinSplits(b, p.w, x.w);
      JoinSplits(a, p.h, x.h);
      JoinSplits(p.n, p.c / 4, blocks);
    case NCHW =>
      var a := Join(p.n, p.c, x.c);
      var b := Join(a, p.h, x.h);
      JoinBelow(p.n, p.c, x.c, x.n);
      JoinBelow(a, p.h, x.h, Times(x.n, x.c));
      JoinBelow(b, p.w, x.w, Times(Times(x.n, x.c), x.h));
      JoinSplits(b, p.w, x.w);
      JoinSplits(a, p.h, x.h);
      JoinSplits(p.n, p.c, x.c);
  }

  /** Every element is some position's, except the lanes past the last channel. */
  lemma DecodeEncodes(f: Format, x: Dims, i: nat)
    requires i < Extent(f, x)
    ensures
      match DecodeIdx(f, x, i)
      case Some(p) => Inside(x, p) && EncodeIdx(f, x, p) == i
      case None => f == NC4HW4 && forall p :: Inside(x, p) ==> EncodeIdx(f, x, p) != i
  {
    hide Join, Times, Blocks, Low, High;
    match f
    case NHWC =>
      SplitJoins(i, x.c, Times(Times(x.n, x.h), x.w));
      var a := High(i, x.c);
      SplitJoins(a, x.w, Times(x.n, x.h));
      SplitJoins(High(a, x.w), x.h, x.n);
    case NC4HW4 =>
      var blocks := Blocks(x.c);
      SplitJoins(i, 4, Times(Times(Times(x.n, blocks), x.h), x.w));
      var a := High(i, 4);
      SplitJoins(a, x.w, Times(Times(x.n, blocks), x.h));
      var b := High(a, x.w);
      SplitJoins(b, x.h, Times(x.n, blocks));
      var e := High(b, x.h);
      SplitJoins(e, blocks, x.n);
      var c := Low(e, blocks) * 4 + Low(i, 4);
      assert c / 4 == Low(e, blocks) && c % 4 == Low(i, 4);
      if c >= x.c {
        forall p | Inside(x, p) ensures EncodeIdx(f, x, p) != i {
          EncodeDecodes(f, x, p);
        }
      }
    case NCHW =>
      SplitJoins(i, x.w, Times(Times(x.n, x.c), x.h));
      var a := High(i, x.w);
      SplitJoins(a, x.h, Times(x.n, x.c));
      SplitJoins(High(a, x.h), x.c, x.n);
  }

  // ---- packing ----

  function Flat(x: Dims, p: Pos): nat {
    EncodeIdx(NCHW, x, p)
  }

  lemma FlatBelow(x: Dims, p: Pos)
    requires Inside(x, p)
    ensures Flat(x, p) < Extent(NCHW, x)
  {
    EncodeDecodes(NCHW, x, p);
  }

  /** Element `i` once the first `k` positions are written: its position's value, or zero. */
  function Cell(f: Format, x: Dims, s: seq<int>, i: nat, k: nat): int
    requires i < Extent(f, x) && Extent(NCHW, x) <= |s|
  {
    DecodeEncodes(f, x, i);
    var p := DecodeIdx(f, x, i);
    if p.None? then 0
    else
      FlatBelow(x, p.value);
      if Flat(x, p.value) < k then s[Flat(x, p.value)] else 0
  }

  ghost predicate PackedTo(f: Format, x: Dims, s: seq<int>, d: seq<int>, k: nat) {
    Extent(NCHW, x) <= |s| && Extent(f, x) <= |d| &&
    forall i :: 0 <= i < Extent(f, x) ==> d[i] == Cell(f, x, s, i, k)
  }

  /** One assignment of the innermost loop. */
  lemma PackOne(f: Format, x: Dims, s: seq<int>, d: seq<int>, p: Pos)
    requires Inside(x, p) && PackedTo(f, x, s, d, Flat(x, p))
    ensures Flat(x, p) < |s| && EncodeIdx(f, x, p) < |d|
    ensures PackedTo(f, x, s, d[EncodeIdx(f, x, p) := s[Flat(x, p)]], Flat(x, p) + 1)
  {
    hide EncodeIdx, DecodeIdx, Extent;
    FlatBelow(x, p);
    EncodeDecodes(f, x, p);
    var k, j := Flat(x, p), EncodeIdx(f, x, p);
    var e := d[j := s[k]];
    forall i | 0 <= i < Extent(f, x) ensures e[i] == Cell(f, x, s, i, k + 1) {
      DecodeEncodes(f, x, i);
      if i != j && DecodeIdx(f, x, i).Some? {
        var q := DecodeIdx(f, x, i).value;
        EncodeDecodes(NCHW, x, p);
        EncodeDecodes(NCHW, x, q);
      }
    }
  }

  /** The declared buffer for a tensor: every lane its position's value, padding lanes zero. */
  function Packed(f: Format, x: Dims, s: seq<int>): (d: seq<int>)
    requires Extent(NCHW, x) <= |s|
    ensures |d| == Extent(f, x)
  {
    seq(Extent(f, x), i requires 0 <= i < Extent(f, x) => Cell(f, x, s, i, Extent(NCHW, x)))
  }

  lemma AllPacked(f: Format, x: Dims, s: seq<int>, d: seq<int>)
    requires PackedTo(f, x, s, d, Extent(NCHW, x))
    ensures d[..Extent(f, x)] == Packed(f, x, s)
  {
    hide EncodeIdx, DecodeIdx, Extent, Cell;
  }

  method Zero(total: nat, dst: array<int>)
    requires total <= dst.Length
    modifies dst
    ensures dst[total..] == old(dst[total..])
    ensures forall i :: 0 <= i < total ==> dst[i] == 0
  {
    for i := 0 to total
      invariant dst[total..] == old(dst[total..])
      invariant forall j :: 0 <= j < i ==> dst[j] == 0
    {
      dst[i] := 0;
    }
  }

  lemma ZeroedPacked(f: Format, x: Dims, s: seq<int>, d: seq<int>)
    requires Extent(NCHW, x) <= |s| && Extent(f, x) <= |d|
    requires forall i :: 0 <= i < Extent(f, x) ==> d[i] == 0
    ensures PackedTo(f, x, s, d, 0)
  {
    hide EncodeIdx, DecodeIdx, Extent;
  }

  method PackDecl(x: Dims, f: Format, nchw: array<int>, dst: array<int>)
    requires nchw != dst && Extent(NCHW, x) <= nchw.Length && Extent(f, x) <= dst.Length
    modifies dst
    ensures dst[..] == Packed(f, x, nchw[..]) + old(dst[Extent(f, x)..])
  {
    hide *;
    ExtentIsElems(f, x);
    var total := FormatElems(f, x);
    Zero(total, dst);
    ghost var s, past := nchw[..], dst[total..];
    ZeroedPacked(f, x, s, dst[..]);
    StartOfRun(x);
    for n := 0 to x.n
      invariant nchw[..] == s && dst[total..] == past
      invariant PackedTo(f, x, s, dst[..], Join(Join(Join(n, 0, x.c), 0, x.h), 0, x.w))
    {
      for c := 0 to x.c
        invariant nchw[..] == s && dst[total..] == past
        invariant PackedTo(f, x, s, dst[..], Join(Join(Join(n, c, x.c), 0, x.h), 0, x.w))
      {
        for h := 0 to x.h
          invariant nchw[..] == s && dst[total..] == past
          invariant PackedTo(f, x, s, dst[..], Join(Join(Join(n, c, x.c), h, x.h), 0, x.w))
        {
          for w := 0 to x.w
            invariant nchw[..] == s && dst[total..] == past
            invariant PackedTo(f, x, s, dst[..], Join(Join(Join(n, c, x.c), h, x.h), w, x.w))
          {
            assert Inside(x, Pos(n, c, h, w)) by { InsideAt(x, n, c, h, w); }
            PackAt(f, x, s, dst[..], Pos(n, c, h, w));
            var v := nchw[Join(Join(Join(n, c, x.c), h, x.h), w, x.w)];
            var idx := EncodeIdx(f, x, Pos(n, c, h, w));
            ghost var before := dst[..];
            dst[idx] := v;
            assert dst[..] == before[idx := v];
          }
          JoinNext(Join(Join(n, c, x.c), h, x.h), x.w);
          JoinPlus(Join(n, c, x.c), h, x.h);
        }
        JoinNext(Join(n, c, x.c), x.h);
        JoinPlus(n, c, x.c);
      }
      JoinNext(n, x.c);
    }
    AllPacked(f, x, s, dst[..]);
    assert dst[..] == dst[..total] + dst[total..];
  }

  lemma JoinPlus(q: nat, r: nat, d: nat)
    ensures Join(q, r, d) + 1 == Join(q, r + 1, d)
  {
  }

  lemma StartOfRun(x: Dims)
    ensures Join(Join(Join(0, 0, x.c), 0, x.h), 0, x.w) == 0
    ensures Join(Join(Join(x.n, 0, x.c), 0, x.h), 0, x.w) == Extent(NCHW, x)
  {
  }

  lemma PackAt(f: Format, x: Dims, s: seq<int>, d: seq<int>, p: Pos)
    requires Inside(x, p)
    requires PackedTo(f, x, s, d, Join(Join(Join(p.n, p.c, x.c), p.h, x.h), p.w, x.w))
    ensures Flat(x, p) == Join(Join(Join(p.n, p.c, x.c), p.h, x.h), p.w, x.w)
    ensures Flat(x, p) < |s| && EncodeIdx(f, x, p) < |d| && EncodeIdx(f, x, p) < Extent(f, x)
    ensures
      PackedTo(f, x, s, d[EncodeIdx(f, x, p) := s[Flat(x, p)]],
               Join(Join(Join(p.n, p.c, x.c), p.h, x.h), p.w + 1, x.w))
  {
    hide PackedTo, Extent, DecodeIdx, Join;
    EncodeDecodes(f, x, p);
    PackOne(f, x, s, d, p);
    JoinPlus(Join(Join(p.n, p.c, x.c), p.h, x.h), p.w, x.w);
  }

  /** The host tensor read back from a declared buffer. */
  function Unpacked(f: Format, x: Dims, d: seq<int>): (s: seq<int>)
    requires Extent(f, x) <= |d|
    ensures |s| == Extent(NCHW, x)
  {
    seq(Extent(NCHW, x), k requires 0 <= k < Extent(NCHW, x) => Source(f, x, d, k))
  }

  function Source(f: Format, x: Dims, d: seq<int>, k: nat): int
    requires k < Extent(NCHW, x) && Extent(f, x) <= |d|
  {
    DecodeEncodes(NCHW, x, k);
    EncodeDecodes(f, x, DecodeIdx(NCHW, x, k).value);
    d[EncodeIdx(f, x, DecodeIdx(NCHW, x, k).value)]
  }

  lemma SourceOf(f: Format, x: Dims, d: seq<int>, p: Pos)
    requires Inside(x, p) && Extent(f, x) <= |d|
    ensures Flat(x, p) < Extent(NCHW, x) && EncodeIdx(f, x, p) < |d|
    ensures Source(f, x, d, Flat(x, p)) == d[EncodeIdx(f, x, p)]
    ensures Flat(x, p) == Join(Join(Join(p.n, p.c, x.c), p.h, x.h), p.w, x.w)
    ensures Flat(x, p) + 1 == Join(Join(Join(p.n, p.c, x.c), p.h, x.h), p.w + 1, x.w)
  {
    hide Extent, DecodeIdx, Join;
    EncodeDecodes(NCHW, x, p);
    EncodeDecodes(f, x, p);
    JoinPlus(Join(Join(p.n, p.c, x.c), p.h, x.h), p.w, x.w);
  }

  ghost predicate UnpackedTo(f: Format, x: Dims, d: seq<int>, s: seq<int>, k: nat) {
    Extent(f, x) <= |d| && Extent(NCHW, x) <= |s| &&
    forall i :: 0 <= i < k && i < Extent(NCHW, x) ==> s[i] == Source(f, x, d, i)
  }

  lemma UnpackOne(f: Format, x: Dims, d: seq<int>, s: seq<int>, p: Pos)
    requires Inside(x, p) && Extent(f, x) <= |d| && UnpackedTo(f, x, d, s, Flat(x, p))
    ensures Flat(x, p) < Extent(NCHW, x) && EncodeIdx(f, x, p) < |d|
    ensures UnpackedTo(f, x, d, s[Flat(x, p) := d[EncodeIdx(f, x, p)]], Flat(x, p) + 1)
  {
    hide Extent, DecodeIdx, Join, EncodeIdx, Source, Flat;
    SourceOf(f, x, d, p);
  }

  lemma AllUnpacked(f: Format, x: Dims, d: seq<int>, s: seq<int>)
    requires UnpackedTo(f, x, d, s, Extent(NCHW, x))
    ensures Extent(f, x) <= |d| && Extent(NCHW, x) <= |s| && s[..Extent(NCHW, x)] == Unpacked(f, x, d)
  {
    hide Extent, Source;
  }

  lemma NoneUnpacked(f: Format, x: Dims, d: seq<int>, s: seq<int>)
    requires Extent(f, x) <= |d| && Extent(NCHW, x) <= |s|
    ensures UnpackedTo(f, x, d, s, 0)
  {
  }

  method UnpackDecl(x: Dims, f: Format, src: array<int>, nchw: array<int>)
    requires nchw != src && Extent(NCHW, x) <= nchw.Length && Extent(f, x) <= src.Length
    modifies nchw
    ensures nchw[..] == Unpacked(f, x, src[..]) + old(nchw[Extent(NCHW, x)..])
  {
    hide *;
    ghost var total := Extent(NCHW, x);
    ghost var d, past := src[..], nchw[total..];
    NoneUnpacked(f, x, d, nchw[..]);
    StartOfRun(x);
    for n := 0 to x.n
      invariant src[..] == d && nchw[total..] == past
      invariant UnpackedTo(f, x, d, nchw[..], Join(Join(Join(n, 0, x.c), 0, x.h), 0, x.w))
    {
      for c := 0 to x.c
        invariant src[..] == d && nchw[total..] == past
        invariant UnpackedTo(f, x, d, nchw[..], Join(Join(Join(n, c, x.c), 0, x.h), 0, x.w))
      {
        for h := 0 to x.h
          invariant src[..] == d && nchw[total..] == past
          invariant UnpackedTo(f, x, d, nchw[..], Join(Join(Join(n, c, x.c), h, x.h), 0, x.w))
        {
          for w := 0 to x.w
            invariant src[..] == d && nchw[total..] == past
            invariant UnpackedTo(f, x, d, nchw[..], Join(Join(Join(n, c, x.c), h, x.h), w, x.w))
          {
            ghost var p := Pos(n, c, h, w);
            assert Inside(x, p) by { InsideAt(x, n, c, h, w); }
            SourceOf(f, x, d, p);
            UnpackOne(f, x, d, nchw[..], p);
            var idx := EncodeIdx(f, x, Pos(n, c, h, w));
            var v := src[idx];
            ghost var before := nchw[..];
            nchw[Join(Join(Join(n, c, x.c), h, x.h), w, x.w)] := v;
            assert nchw[..] == before[Flat(x, p) := v];
          }
          JoinNext(Join(Join(n, c, x.c), h, x.h), x.w);
          JoinPlus(Join(n, c, x.c), h, x.h);
        }
        JoinNext(Join(n, c, x.c), x.h);
        JoinPlus(n, c, x.c);
      }
      JoinNext(n, x.c);
    }
    AllUnpacked(f, x, d, nchw[..]);
    assert nchw[..] == nchw[..total] + nchw[total..];
  }

  lemma InsideAt(x: Dims, n: nat, c: nat, h: nat, w: nat)
    requires n < x.n && c < x.c && h < x.h && w < x.w
    ensures Inside(x, Pos(n, c, h, w))
  {
  }

  // ---- round trips ----

  lemma PackThenUnpack(f: Format, x: Dims, s: seq<int>)
    requires Extent(NCHW, x) <= |s|
    ensures Unpacked(f, x, Packed(f, x, s)) == s[..Extent(NCHW, x)]
  {
    hide Extent, DecodeIdx, EncodeIdx;
    var d := Packed(f, x, s);
    forall k | 0 <= k < Extent(NCHW, x) ensures Source(f, x, d, k) == s[k] {
      DecodeEncodes(NCHW, x, k);
      var p := DecodeIdx(NCHW, x, k).value;
      EncodeDecodes(f, x, p);
      SourceOf(f, x, d, p);
    }
  }

  /** The other way a buffer survives exactly when its padding lanes are zero. */
  lemma UnpackThenPack(f: Format, x: Dims, d: seq<int>)
    requires |d| == Extent(f, x)
    ensures
      Packed(f, x, Unpacked(f, x, d)) == d
      <==> forall i :: 0 <= i < |d| && DecodeIdx(f, x, i).None? ==> d[i] == 0
  {
    hide Extent, DecodeIdx, EncodeIdx;
    var s := Unpacked(f, x, d);
    forall i | 0 <= i < |d|
      ensures Packed(f, x, s)[i] == if DecodeIdx(f, x, i).None? then 0 else d[i]
    {
      DecodeEncodes(f, x, i);
      if DecodeIdx(f, x, i).Some? {
        var p := DecodeIdx(f, x, i).value;
        EncodeDecodes(f, x, p);
        SourceOf(f, x, d, p);
        FlatBelow(x, p);
      }
    }
  }
}
