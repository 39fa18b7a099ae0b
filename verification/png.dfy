/**
  The PNG writer: unfiltered scanlines in stored deflate blocks, read back by a decoder that follows
  RFC 1951 (stored blocks), RFC 1950 (zlib) and RFC 2083 (PNG).
 */
module Png {
  import opened Basics
  import Crc32

  type Byte = n: int | 0 <= n < 256

  const WORD: nat := 0x1_0000_0000
  /** Sections 3.2 and 4.1.1 of RFC 2083: lengths and dimensions stay below this. */
  const LIMIT: nat := 0x8000_0000
  const BLOCK: nat := 65535
  const ADLER: nat := 65521

  /** Big-endian, keeping the low 32 bits. */
  function PutBE(x: nat): (s: seq<Byte>)
    ensures |s| == 4
  {
    [x / 0x100_0000 % 256, x / 0x1_0000 % 256, x / 0x100 % 256, x % 256]
  }

  function GetBE(s: seq<Byte>): nat
    requires |s| == 4
  {
    (((s[0] as int) * 256 + s[1]) * 256 + s[2]) * 256 + s[3]
  }

  lemma DivTwice(x: nat, m: nat)
    requires m in {0x100, 0x1_0000, 0x100_0000}
    ensures x / m / 0x100 == x / (m * 0x100)
  {
  }

  /** Four base-256 digits taken one after the other are a number below the word size. */
  lemma FourDigits(x: nat, q1: nat, q2: nat, q3: nat)
    requires q1 == x / 256 && q2 == q1 / 256 && q3 == q2 / 256
    ensures x % WORD == ((q3 % 256 * 256 + q2 % 256) * 256 + q1 % 256) * 256 + x % 256
  {
    var q4, d3, d2, d1, d0 := q3 / 256, q3 % 256, q2 % 256, q1 % 256, x % 256;
    assert q3 == 256 * q4 + d3;
    assert q2 == 256 * q3 + d2;
    assert q1 == 256 * q2 + d1;
    assert x == 256 * q1 + d0;
    WordRest(x, q4, ((d3 * 256 + d2) * 256 + d1) * 256 + d0);
  }

  lemma WordRest(x: nat, k: nat, r: nat)
    requires x == k * WORD + r && r < WORD
    ensures x % WORD == r
  {
  }

  lemma BEBack(x: nat)
    ensures GetBE(PutBE(x)) == x % WORD
  {
    DivTwice(x, 0x100);
    DivTwice(x, 0x1_0000);
    FourDigits(x, x / 0x100, x / 0x1_0000, x / 0x100_0000);
  }

  // ---- scanlines ----

  function Area(h: nat, stride: nat): nat {
    h * stride
  }

  lemma AreaStep(h: nat, stride: nat)
    ensures Area(h + 1, stride) == Area(h, stride) + stride
    ensures Area(0, stride) == 0
  {
  }

  lemma AreaGrows(y: nat, h: nat, stride: nat)
    requires y <= h
    ensures Area(y, stride) <= Area(h, stride)
  {
    assert h * stride == y * stride + (h - y) * stride;
  }

  /** `h` rows of `stride` bytes, each behind filter type 0. */
  function Scanlines(rgb: seq<Byte>, stride: nat, h: nat): (raw: seq<Byte>)
    requires Area(h, stride) <= |rgb|
    ensures |raw| == Area(h, stride) + h
  {
    hide Area;
    if h == 0 then AreaStep(0, stride); []
    else
      AreaStep(h - 1, stride);
      Scanlines(rgb, stride, h - 1) + [0] + rgb[Area(h - 1, stride)..Area(h, stride)]
  }

  method PackRows(rgb: seq<Byte>, stride: nat, h: nat) returns (raw: seq<Byte>)
    requires Area(h, stride) <= |rgb|
    ensures raw == Scanlines(rgb, stride, h)
  {
    hide Area;
    raw := [];
    AreaGrows(0, h, stride);
    for y := 0 to h
      invariant Area(y, stride) <= |rgb|
      invariant raw == Scanlines(rgb, stride, y)
    {
      AreaStep(y, stride);
      AreaGrows(y + 1, h, stride);
      raw := raw + [0];
      raw := raw + rgb[Area(y, stride)..Area(y + 1, stride)];
    }
  }

  /** Strip the filter byte of every row; any filter but 0 is refused. */
  function Unfilter(raw: seq<Byte>, stride: nat, h: nat): Option<seq<Byte>>
    decreases h
  {
    if h == 0 then if raw == [] then Some([]) else None
    else if |raw| < stride + 1 || raw[|raw| - stride - 1] != 0 then None
    else
      var above := Unfilter(raw[..|raw| - stride - 1], stride, h - 1);
      if above.None? then None else Some(above.value + raw[|raw| - stride..])
  }

  lemma {:induction false} UnfilterScanlines(rgb: seq<Byte>, stride: nat, h: nat)
    requires Area(h, stride) <= |rgb|
    ensures Unfilter(Scanlines(rgb, stride, h), stride, h) == Some(rgb[..Area(h, stride)])
    decreases h
  {
    hide Area;
    AreaStep(0, stride);
    if h > 0 {
      AreaStep(h - 1, stride);
      UnfilterScanlines(rgb, stride, h - 1);
      var above, row := Scanlines(rgb, stride, h - 1), rgb[Area(h - 1, stride)..Area(h, stride)];
      var raw := above + [0] + row;
      assert |row| == stride && |raw| - stride - 1 == |above|;
      assert raw[..|above|] == above;
      assert raw[|above| + 1..] == row;
      assert rgb[..Area(h - 1, stride)] + row == rgb[..Area(h, stride)];
    }
  }

  // ---- stored blocks ----

  function Min(a: nat, b: nat): nat {
    if a <= b then a else b
  }

  function BlockHead(final: bool, n: nat): (s: seq<Byte>)
    requires n <= BLOCK
    ensures |s| == 5
  {
    [if final then 1 else 0, n % 256, n / 256, 255 - n % 256, 255 - n / 256]
  }

  function Stored(raw: seq<Byte>): seq<Byte> {
    if raw == [] then []
    else
      var n := Min(BLOCK, |raw|);
      BlockHead(n == |raw|, n) + raw[..n] + Stored(raw[n..])
  }

  method StoreBlocks(raw: seq<Byte>) returns (z: seq<Byte>)
    ensures z == Stored(raw)
  {
    z := [];
    var off := 0;
    while off < |raw|
      invariant off <= |raw|
      invariant z + Stored(raw[off..]) == Stored(raw)
    {
      var n := Min(65535, |raw| - off);
      var final := off + n >= |raw|;
      ghost var before := z;
      z := z + BlockHead(final, n);
      z := z + raw[off..off + n];
      assert raw[off..][..n] == raw[off..off + n] && raw[off..][n..] == raw[off + n..];
      assert z + Stored(raw[off + n..])
          == before + (BlockHead(final, n) + raw[off..off + n] + Stored(raw[off + n..]));
      off := off + n;
    }
  }

  /** Two bytes, the low one first. */
  function LE(lo: Byte, hi: Byte): nat {
    (lo as int) + 256 * (hi as int)
  }

  /**
    One stored block (section 3.2.4 of RFC 1951): a final bit, block type 0, LEN, its complement NLEN, then
    LEN bytes.
   */
  function ReadBlock(z: seq<Byte>): (r: Option<(bool, seq<Byte>, seq<Byte>)>)
    ensures r.Some? ==> |r.value.2| < |z|
  {
    if |z| < 5 || z[0] / 2 % 4 != 0 then None
    else
      var len, nlen := LE(z[1], z[2]), LE(z[3], z[4]);
      if nlen != 65535 - len || |z| < 5 + len then None
      else Some((z[0] % 2 == 1, z[5..5 + len], z[5 + len..]))
  }

  datatype Inflated = Done(data: seq<Byte>, rest: seq<Byte>) | Broken

  /** A deflate reader that knows stored blocks: it goes on until a block is marked final. */
  function Inflate(z: seq<Byte>): Inflated {
    var block := ReadBlock(z);
    if block.None? then Broken
    else if block.value.0 then Done(block.value.1, block.value.2)
    else
      var more := Inflate(block.value.2);
      if more.Broken? then Broken else Done(block.value.1 + more.data, more.rest)
  }

  lemma HeadFields(final: bool, n: nat)
    requires n <= BLOCK
    ensures
      var s := BlockHead(final, n);
      s[0] == (if final then 1 else 0) && LE(s[1], s[2]) == n && LE(s[3], s[4]) == 65535 - n
  {
  }

  lemma BlockRead(final: bool, n: nat, body: seq<Byte>)
    requires n <= BLOCK && n <= |body|
    ensures ReadBlock(BlockHead(final, n) + body) == Some((final, body[..n], body[n..]))
  {
    hide LE, BlockHead;
    HeadFields(final, n);
    var head := BlockHead(final, n);
    var z := head + body;
    assert z[0] == head[0] && z[1] == head[1] && z[2] == head[2] && z[3] == head[3] && z[4] == head[4];
    assert z[5..5 + n] == body[..n] && z[5 + n..] == body[n..];
  }

  lemma BlockReadLonger(z: seq<Byte>, tail: seq<Byte>)
    requires ReadBlock(z).Some?
    ensures ReadBlock(z + tail) == Some((ReadBlock(z).value.0, ReadBlock(z).value.1, ReadBlock(z).value.2 + tail))
  {
    hide LE;
    var len, longer := LE(z[1], z[2]), z + tail;
    assert longer[0] == z[0] && longer[1] == z[1] && longer[2] == z[2];
    assert longer[3] == z[3] && longer[4] == z[4];
    assert longer[5..5 + len] == z[5..5 + len];
    assert longer[5 + len..] == z[5 + len..] + tail;
  }

  lemma Regroup(head: seq<Byte>, a: seq<Byte>, b: seq<Byte>, tail: seq<Byte>)
    ensures head + a + b + tail == head + (a + (b + tail))
    ensures (a + (b + tail))[..|a|] == a && (a + (b + tail))[|a|..] == b + tail
  {
  }

  lemma StoredFront(raw: seq<Byte>, tail: seq<Byte>, n: nat)
    requires raw != [] && n == Min(BLOCK, |raw|)
    ensures ReadBlock(Stored(raw) + tail) == Some((n == |raw|, raw[..n], Stored(raw[n..]) + tail))
  {
    hide ReadBlock, BlockHead;
    var head, more := BlockHead(n == |raw|, n), Stored(raw[n..]);
    assert Stored(raw) == head + raw[..n] + more;
    hide Stored;
    Regroup(head, raw[..n], more, tail);
    BlockRead(n == |raw|, n, raw[..n] + (more + tail));
  }

  /** The blocks of nonempty data hold one final block, the last, and nothing after it is touched. */
  lemma {:induction false} InflateStored(raw: seq<Byte>, tail: seq<Byte>)
    requires raw != []
    ensures Inflate(Stored(raw) + tail) == Done(raw, tail)
    decreases |raw|
  {
    hide ReadBlock, Stored;
    var n := Min(BLOCK, |raw|);
    StoredFront(raw, tail, n);
    assert raw[..n] + raw[n..] == raw;
    if n < |raw| {
      InflateStored(raw[n..], tail);
    } else {
      NoneStored(tail);
    }
  }

  lemma NoneStored(tail: seq<Byte>)
    ensures Stored([]) + tail == tail
  {
  }

  /** What a reader has finished is not changed by bytes that follow. */
  lemma {:induction false} InflateLonger(z: seq<Byte>, tail: seq<Byte>)
    requires Inflate(z).Done?
    ensures Inflate(z + tail) == Done(Inflate(z).data, Inflate(z).rest + tail)
    decreases |z|
  {
    hide ReadBlock;
    BlockReadLonger(z, tail);
    var block := ReadBlock(z).value;
    if !block.0 {
      InflateLonger(block.2, tail);
    }
  }

  // ---- Adler-32 ----

  function Sum(s: seq<Byte>): nat {
    if s == [] then 0 else s[0] + Sum(s[1..])
  }

  /** Each byte counted once for itself and once for every byte after it. */
  function Weighted(s: seq<Byte>): nat {
    if s == [] then 0 else |s| * s[0] + Weighted(s[1..])
  }

  lemma {:induction false} SumsSnoc(s: seq<Byte>, x: Byte)
    ensures Sum(s + [x]) == Sum(s) + x
    ensures Weighted(s + [x]) == Weighted(s) + Sum(s) + x
  {
    if s == [] {
    } else {
      assert (s + [x])[1..] == s[1..] + [x];
      SumsSnoc(s[1..], x);
      assert (|s| + 1) * s[0] == |s| * s[0] + s[0];
    }
  }

  /** The closed form of section 8.2 of RFC 1950. */
  function Adler32(s: seq<Byte>): (r: nat)
    ensures r < WORD
  {
    (|s| + Weighted(s)) % ADLER * 0x1_0000 + (1 + Sum(s)) % ADLER
  }

  lemma ModAdd(x: nat, y: nat)
    ensures (x % ADLER + y) % ADLER == (x + y) % ADLER
    ensures (x % ADLER + y % ADLER) % ADLER == (x + y) % ADLER
  {
    assert x == x / ADLER * ADLER + x % ADLER;
    assert y == y / ADLER * ADLER + y % ADLER;
  }

  lemma AdlerStep(s: seq<Byte>, c: Byte, a: nat, b: nat)
    requires a == (1 + Sum(s)) % ADLER && b == (|s| + Weighted(s)) % ADLER
    ensures (a + c) % ADLER == (1 + Sum(s + [c])) % ADLER
    ensures (b + (a + c) % ADLER) % ADLER == (|s| + 1 + Weighted(s + [c])) % ADLER
  {
    hide Sum, Weighted;
    SumsSnoc(s, c);
    ModAdd(1 + Sum(s), c);
    ModAdd(|s| + Weighted(s), 1 + Sum(s + [c]));
    assert |s| + Weighted(s) + (1 + Sum(s + [c])) == |s| + 1 + Weighted(s + [c]);
  }

  /** The two running sums, each reduced at every byte, end at the closed form. */
  method RunAdler(raw: seq<Byte>) returns (r: nat)
    ensures r == Adler32(raw) && r < WORD
  {
    var a, b := 1, 0;
    for i := 0 to |raw|
      invariant a == (1 + Sum(raw[..i])) % ADLER
      invariant b == (i + Weighted(raw[..i])) % ADLER
    {
      assert raw[..i + 1] == raw[..i] + [raw[i]];
      AdlerStep(raw[..i], raw[i], a, b);
      a := (a + raw[i]) % ADLER;
      b := (b + a) % ADLER;
    }
    assert raw[..|raw|] == raw;
    r := b * 0x1_0000 + a;
  }

  predicate Prime(n: nat) {
    n >= 2 && forall d | 2 <= d < n :: n % d != 0
  }

  function NoDivisor(n: nat, lo: nat, hi: nat): bool
    requires lo > 0
    decreases hi - lo
  {
    lo >= hi || (n % lo != 0 && NoDivisor(n, lo + 1, hi))
  }

  lemma {:induction false} NoneDivides(n: nat, lo: nat, hi: nat, d: nat)
    requires 0 < lo <= d < hi && NoDivisor(n, lo, hi)
    ensures n % d != 0
    decreases hi - lo
  {
    if lo < d {
      NoneDivides(n, lo + 1, hi, d);
    }
  }

  lemma NoneFrom2()
    ensures NoDivisor(65521, 2, 64)
  {
    assert NoDivisor(65521, 56, 64);
    assert NoDivisor(65521, 48, 64);
    assert NoDivisor(65521, 40, 64);
    assert NoDivisor(65521, 32, 64);
    assert NoDivisor(65521, 24, 64);
    assert NoDivisor(65521, 16, 64);
    assert NoDivisor(65521, 8, 64);
  }

  lemma NoneFrom64()
    ensures NoDivisor(65521, 64, 112)
  {
    assert NoDivisor(65521, 104, 112);
    assert NoDivisor(65521, 96, 112);
    assert NoDivisor(65521, 88, 112);
    assert NoDivisor(65521, 80, 112);
    assert NoDivisor(65521, 72, 112);
  }

  lemma NoneFrom112()
    ensures NoDivisor(65521, 112, 160)
  {
    assert NoDivisor(65521, 152, 160);
    assert NoDivisor(65521, 144, 160);
    assert NoDivisor(65521, 136, 160);
    assert NoDivisor(65521, 128, 160);
    assert NoDivisor(65521, 120, 160);
  }

  lemma NoneFrom160()
    ensures NoDivisor(65521, 160, 208)
  {
    assert NoDivisor(65521, 200, 208);
    assert NoDivisor(65521, 192, 208);
    assert NoDivisor(65521, 184, 208);
    assert NoDivisor(65521, 176, 208);
    assert NoDivisor(65521, 168, 208);
  }

  lemma NoneFrom208()
    ensures NoDivisor(65521, 208, 256)
  {
    assert NoDivisor(65521, 248, 256);
    assert NoDivisor(65521, 240, 256);
    assert NoDivisor(65521, 232, 256);
    assert NoDivisor(65521, 224, 256);
    assert NoDivisor(65521, 216, 256);
  }

  lemma SmallDivisors(d: nat)
    requires 2 <= d < 256
    ensures 65521 % d != 0
  {
    if d < 64 {
      NoneFrom2();
      NoneDivides(65521, 2, 64, d);
    } else if d < 112 {
      NoneFrom64();
      NoneDivides(65521, 64, 112, d);
    } else if d < 160 {
      NoneFrom112();
      NoneDivides(65521, 112, 160, d);
    } else if d < 208 {
      NoneFrom160();
      NoneDivides(65521, 160, 208, d);
    } else {
      NoneFrom208();
      NoneDivides(65521, 208, 256, d);
    }
  }

  /** Section 8.2 of RFC 1950: the modulus is the largest prime below 65536. */
  lemma ModulusIsLargestPrime()
    ensures Prime(ADLER) && ADLER < 0x1_0000 && forall n | ADLER < n < 0x1_0000 :: !Prime(n)
  {
    forall d | 2 <= d < ADLER ensures ADLER % d != 0 {
      var q := ADLER / d;
      if ADLER % d == 0 {
        assert ADLER == q * d;
        SmallDivisors(SmallerFactor(q, d));
      }
    }
    forall n | ADLER < n < 0x1_0000 ensures !Prime(n) {
      Composite(n);
    }
  }

  lemma Composite(n: nat)
    requires 65521 < n < 0x1_0000
    ensures !Prime(n)
  {
    var d := if n % 2 == 0 then 2 else if n % 3 == 0 then 3 else if n % 5 == 0 then 5 else if n % 7 == 0 then 7 else if n % 13 == 0 then 13 else 19;
    assert n % d == 0;
  }

  /** One factor of the modulus is below its square root, and divides it too. */
  function SmallerFactor(q: nat, d: nat): (f: nat)
    requires q * d == ADLER && 2 <= d < ADLER
    ensures 2 <= f < 256 && ADLER % f == 0
  {
    assert q > 1;
    if d < 256 then FactorDivides(d, q); d
    else
      assert q < 256 by { TimesGrows(256, d, q); }
      FactorDivides(q, d);
      q
  }

  lemma FactorDivides(f: nat, g: nat)
    requires f > 0
    ensures f * g % f == 0 && g * f % f == 0
  {
    QuotientIs(g, 0, f, g * f / f, g * f % f);
  }

  // ---- zlib ----

  function Zlib(raw: seq<Byte>): seq<Byte> {
    [0x78, 0x01] + Stored(raw) + PutBE(Adler32(raw))
  }

  /** Section 2.2 of RFC 1950: method 8, header a multiple of 31, no dictionary, checksum of the data. */
  function Unzlib(z: seq<Byte>): Option<seq<Byte>> {
    if |z| < 2 || z[0] % 16 != 8 || LE(z[1], z[0]) % 31 != 0 || z[1] / 32 % 2 == 1 then None
    else
      var inner := Inflate(z[2..]);
      if inner.Broken? || |inner.rest| != 4 || GetBE(inner.rest) != Adler32(inner.data) then None
      else Some(inner.data)
  }

  /** Stored blocks that `n` bytes take. */
  function Blocks(n: nat): nat {
    (n + BLOCK - 1) / BLOCK
  }

  lemma OneBlockMore(n: nat)
    requires n > 0
    ensures Blocks(n) == 1 + Blocks(n - Min(BLOCK, n))
  {
  }

  lemma {:induction false} StoredLength(raw: seq<Byte>)
    ensures |Stored(raw)| == |raw| + 5 * Blocks(|raw|)
    decreases |raw|
  {
    if raw != [] {
      var n := Min(BLOCK, |raw|);
      OneBlockMore(|raw|);
      StoredLength(raw[n..]);
    }
  }

  /** The stream carries the data, five bytes for each block, and the six of the zlib frame. */
  lemma ZlibLength(raw: seq<Byte>)
    ensures |Zlib(raw)| == |raw| + 5 * Blocks(|raw|) + 6
    ensures Blocks(|raw|) == (|raw| + 65534) / 65535
  {
    hide Stored, PutBE, Adler32;
    StoredLength(raw);
  }

  lemma AdlerFits(raw: seq<Byte>)
    ensures GetBE(PutBE(Adler32(raw))) == Adler32(raw)
  {
    hide Adler32, PutBE, GetBE;
    BEBack(Adler32(raw));
  }

  /**
    Every nonempty byte string comes back; the empty one never does, because its stream holds no block
    at all.
   */
  lemma ZlibRoundTrip(raw: seq<Byte>)
    ensures Unzlib(Zlib(raw)) == Some(raw) <==> raw != []
    ensures Unzlib(Zlib(raw)).None? <==> raw == []
  {
    hide Adler32, GetBE, PutBE, Inflate, Stored, LE;
    var z, sum := Zlib(raw), PutBE(Adler32(raw));
    assert z[2..] == Stored(raw) + sum;
    assert LE(0x01, 0x78) % 31 == 0 by { HeaderSum(); }
    if raw == [] {
      EmptyStored(sum);
    } else {
      InflateStored(raw, sum);
      AdlerFits(raw);
    }
  }

  lemma HeaderSum()
    ensures LE(0x01, 0x78) % 31 == 0
  {
  }

  lemma EmptyStored(sum: seq<Byte>)
    requires |sum| == 4
    ensures Stored([]) + sum == sum
    ensures Inflate(sum).Broken?
  {
  }

  /** Bytes that end before the last checksum byte never inflate to four left over. */
  lemma CutInside(raw: seq<Byte>, sum: seq<Byte>, cut: seq<Byte>, tail: seq<Byte>)
    requires |sum| == 4 && tail != [] && cut + tail == Stored(raw) + sum
    ensures Inflate(cut).Broken? || |Inflate(cut).rest| < 4
  {
    hide Inflate, Stored;
    if Inflate(cut).Done? {
      InflateLonger(cut, tail);
      if raw == [] {
        EmptyStored(sum);
      } else {
        InflateStored(raw, sum);
        assert |Inflate(cut).rest + tail| == 4;
      }
    }
  }

  /** A cut stream is refused. */
  lemma ZlibCut(raw: seq<Byte>, k: nat)
    requires k < |Zlib(raw)|
    ensures Unzlib(Zlib(raw)[..k]).None?
  {
    hide Adler32, GetBE, PutBE, Inflate, Stored, LE;
    if k >= 2 {
      var z, sum := Zlib(raw), PutBE(Adler32(raw));
      var cut, tail := z[..k][2..], z[k..];
      assert cut + tail == z[2..] == Stored(raw) + sum;
      CutInside(raw, sum, cut, tail);
    }
  }

  // ---- chunks ----

  function Bits(s: seq<Byte>): seq<bv8> {
    seq(|s|, i requires 0 <= i < |s| => s[i] as bv8)
  }

  /** The check value over type and data: preset to ones, complemented at the end. */
  function Check(s: seq<Byte>): (sum: nat)
    ensures sum < WORD
  {
    (Crc32.Divide(Bits(s), 0xffffffff) ^ 0xffffffff) as nat
  }

  /** The length field keeps the low 32 bits of the size. */
  function Chunk(kind: seq<Byte>, data: seq<Byte>): seq<Byte> {
    PutBE(|data|) + kind + data + PutBE(Check(kind + data))
  }

  method WriteChunk(table: seq<bv32>, kind: seq<Byte>, data: seq<Byte>) returns (f: seq<Byte>)
    requires Crc32.Tabulated(table)
    ensures f == Chunk(kind, data)
  {
    hide Crc32.Divide, Crc32.Tabulated, PutBE;
    f := PutBE(|data|);
    var crcbuf := kind + data;
    f := f + kind;
    f := f + data;
    var crc := Crc32.Crc32Of(table, Bits(crcbuf), 0xffffffff);
    f := f + PutBE((crc ^ 0xffffffff) as nat);
  }

  datatype ChunkRead = Good(kind: seq<Byte>, data: seq<Byte>, rest: seq<Byte>) | Bad

  /** Section 3.2 of RFC 2083: a length below 2^31, type, data, and a check value that must agree. */
  function ReadChunk(f: seq<Byte>): ChunkRead {
    if |f| < 12 || GetBE(f[..4]) >= LIMIT || |f| - 12 < GetBE(f[..4]) then Bad
    else
      var n := GetBE(f[..4]);
      if GetBE(f[8 + n..12 + n]) != Check(f[4..8 + n]) then Bad
      else Good(f[4..8], f[8..8 + n], f[12 + n..])
  }

  predicate FrontOnly(c: ChunkRead, kind: seq<Byte>, data: seq<Byte>) {
    c.Good? ==> c.kind == kind && c.data == data[..|data| % WORD] && |data| % WORD < LIMIT
  }

  lemma CheckFits(s: seq<Byte>)
    ensures GetBE(PutBE(Check(s))) == Check(s)
  {
    hide Check, GetBE, PutBE;
    BEBack(Check(s));
  }

  /**
    A chunk comes back whole exactly when its size is one the standard allows; in any case a reader is handed
    no more than the size reduced to 32 bits, from the front of the data.
   */
  lemma ChunkRoundTrip(kind: seq<Byte>, data: seq<Byte>, rest: seq<Byte>)
    requires |kind| == 4
    ensures ReadChunk(Chunk(kind, data) + rest) == Good(kind, data, rest) <==> |data| < LIMIT
    ensures FrontOnly(ReadChunk(Chunk(kind, data) + rest), kind, data)
  {
    hide Check, GetBE, PutBE;
    var f, n, sum := Chunk(kind, data) + rest, |data| % WORD, PutBE(Check(kind + data));
    BEBack(|data|);
    CheckFits(kind + data);
    assert f[..4] == PutBE(|data|);
    assert f[4..8] == kind;
    assert f[8..8 + n] == data[..n];
    if n == |data| {
      assert data[..n] == data;
      assert f[4..8 + n] == kind + data;
      assert f[8 + n..12 + n] == sum;
      assert f[12 + n..] == rest;
    }
  }

  // ---- the file ----

  const SIGNATURE: seq<Byte> := [137, 80, 78, 71, 13, 10, 26, 10]
  const IHDR: seq<Byte> := [73, 72, 68, 82]
  const IDAT: seq<Byte> := [73, 68, 65, 84]
  const IEND: seq<Byte> := [73, 69, 78, 68]

  function ColorType(ch: nat): Byte {
    if ch == 1 then 0 else if ch == 3 then 2 else 6
  }

  function Header(w: nat, h: nat, ch: nat): (s: seq<Byte>)
    ensures |s| == 13
  {
    PutBE(w) + PutBE(h) + [8, ColorType(ch), 0, 0, 0]
  }

  function Assembled(header: seq<Byte>, data: seq<Byte>): seq<Byte> {
    SIGNATURE + Chunk(IHDR, header) + Chunk(IDAT, data) + Chunk(IEND, [])
  }

  function PngFile(w: nat, h: nat, ch: nat, rgb: seq<Byte>): seq<Byte>
    requires Area(h, Area(w, ch)) <= |rgb|
  {
    Assembled(Header(w, h, ch), Zlib(Scanlines(rgb, Area(w, ch), h)))
  }

  method WritePng(w: nat, h: nat, ch: nat, rgb: seq<Byte>) returns (f: seq<Byte>)
    requires Area(h, Area(w, ch)) <= |rgb|
    ensures f == PngFile(w, h, ch, rgb)
  {
    hide Area, Header, Chunk, Stored, Scanlines, Adler32, PutBE;
    var raw := PackRows(rgb, Area(w, ch), h);
    var blocks := StoreBlocks(raw);
    var adler := RunAdler(raw);
    var z := [0x78, 0x01] + blocks + PutBE(adler);
    var table := Crc32.BuildTable();
    var ihdr := WriteChunk(table, IHDR, Header(w, h, ch));
    var idat := WriteChunk(table, IDAT, z);
    var iend := WriteChunk(table, IEND, []);
    f := SIGNATURE + ihdr + idat + iend;
  }

  /** The check value of the last chunk, bit by bit. */
  lemma EndCheck()
    ensures Check(IEND) == 0xAE42_6082
  {
    hide Crc32.Divide, Crc32.DivideBits;
    assert Bits(IEND) == [73, 69, 78, 68];
    Crc32.DivideFour(73, 69, 78, 68, 0xffff_ffff);
    EndDivided();
  }

  lemma EndDivided()
    ensures
      Crc32.DivideBits(Crc32.DivideBits(Crc32.DivideBits(Crc32.DivideBits(0xffff_ffff, 73, 8), 69, 8), 78, 8), 68, 8) ^ 0xffff_ffff
      == 0xAE42_6082
  {
  }

  /** The last chunk, byte by byte. */
  lemma EndChunk()
    ensures Chunk(IEND, []) == [0, 0, 0, 0, 'I' as int, 'E' as int, 'N' as int, 'D' as int, 0xAE, 0x42, 0x60, 0x82]
  {
    hide Check;
    EndCheck();
    assert IEND + [] == IEND;
    assert PutBE(0xAE42_6082) == [0xAE, 0x42, 0x60, 0x82] && PutBE(0) == [0, 0, 0, 0];
  }

  /** What every file begins and ends with, byte by byte. */
  lemma FileFrame(w: nat, h: nat, ch: nat, rgb: seq<Byte>)
    requires Area(h, Area(w, ch)) <= |rgb|
    ensures
      var f := PngFile(w, h, ch, rgb);
      && |f| >= 57
      && f[..16] == [0x89, 'P' as int, 'N' as int, 'G' as int, 13, 10, 26, 10, 0, 0, 0, 13, 'I' as int, 'H' as int, 'D' as int, 'R' as int]
      && f[24..29] == [8, if ch == 1 then 0 else if ch == 3 then 2 else 6, 0, 0, 0]
      && f[37..41] == ['I' as int, 'D' as int, 'A' as int, 'T' as int]
      && f[|f| - 12..] == [0, 0, 0, 0, 'I' as int, 'E' as int, 'N' as int, 'D' as int, 0xAE, 0x42, 0x60, 0x82]
  {
    hide Zlib, Scanlines, Check, Area, Chunk, Header;
    EndChunk();
    var z := Zlib(Scanlines(rgb, Area(w, ch), h));
    var f := PngFile(w, h, ch, rgb);
    var head, data, end := Chunk(IHDR, Header(w, h, ch)), Chunk(IDAT, z), Chunk(IEND, []);
    assert f == SIGNATURE + head + data + end;
    ChunkParts(IHDR, Header(w, h, ch));
    ChunkParts(IDAT, z);
    HeadChunk(w, h, ch);
    assert f[|f| - 12..] == end;
    assert f[33..45 + |z|] == data;
    assert f[37..41] == data[4..8];
    assert f[8..33] == head;
    assert f[24..29] == head[16..21];
    assert f[..16] == SIGNATURE + head[..8];
  }

  lemma ChunkParts(kind: seq<Byte>, data: seq<Byte>)
    requires |kind| == 4
    ensures |Chunk(kind, data)| == 12 + |data| && Chunk(kind, data)[4..8] == kind && Chunk(kind, data)[8..8 + |data|] == data
    ensures Chunk(kind, data)[..4] == PutBE(|data|)
  {
    hide Check, PutBE;
  }

  lemma HeadChunk(w: nat, h: nat, ch: nat)
    ensures
      var head := Chunk(IHDR, Header(w, h, ch));
      && |head| == 25 && head[..8] == [0, 0, 0, 13, 'I' as int, 'H' as int, 'D' as int, 'R' as int]
      && head[16..21] == [8, if ch == 1 then 0 else if ch == 3 then 2 else 6, 0, 0, 0]
  {
    hide Chunk;
    ChunkParts(IHDR, Header(w, h, ch));
    var head := Chunk(IHDR, Header(w, h, ch));
    assert PutBE(13) == [0, 0, 0, 13];
    assert head[..8] == head[..4] + head[4..8];
    assert head[16..21] == head[8..21][8..13] == Header(w, h, ch)[8..13];
  }

  datatype Image = Image(w: nat, h: nat, ch: nat, pixels: seq<Byte>)

  /** Section 4.1.1 of RFC 2083: dimensions from 1 to below 2^31, depth 8, colour type 0, 2 or 6, no interlace. */
  function ReadHeader(s: seq<Byte>): Option<(nat, nat, nat)> {
    if |s| != 13 || !(0 < GetBE(s[..4]) < LIMIT) || !(0 < GetBE(s[4..8]) < LIMIT) || s[8] != 8 || s[10..] != [0, 0, 0] then None
    else if s[9] == 0 then Some((GetBE(s[..4]), GetBE(s[4..8]), 1))
    else if s[9] == 2 then Some((GetBE(s[..4]), GetBE(s[4..8]), 3))
    else if s[9] == 6 then Some((GetBE(s[..4]), GetBE(s[4..8]), 4))
    else None
  }

  function ReadPixels(dims: (nat, nat, nat), z: seq<Byte>): Option<Image> {
    var raw := Unzlib(z);
    if raw.None? then None
    else
      var pixels := Unfilter(raw.value, Area(dims.0, dims.2), dims.1);
      if pixels.None? then None else Some(Image(dims.0, dims.1, dims.2, pixels.value))
  }

  /** A reader for the file's three chunks. */
  function ReadPng(f: seq<Byte>): Option<Image> {
    if |f| < 8 || f[..8] != SIGNATURE then None
    else
      var first := ReadChunk(f[8..]);
      if first.Bad? || first.kind != IHDR || ReadHeader(first.data).None? then None
      else
        var second := ReadChunk(first.rest);
        if second.Bad? || second.kind != IDAT then None
        else
          var third := ReadChunk(second.rest);
          if third != Good(IEND, [], []) then None
          else ReadPixels(ReadHeader(first.data).value, second.data)
  }

  lemma HeaderRoundTrip(w: nat, h: nat, ch: nat)
    requires w < WORD && h < WORD
    ensures ReadHeader(Header(w, h, ch)).None? <==> !(0 < w < LIMIT && 0 < h < LIMIT)
    ensures
      0 < w < LIMIT && 0 < h < LIMIT ==>
        ReadHeader(Header(w, h, ch)) == Some((w, h, if ch == 1 || ch == 3 then ch else 4))
  {
    hide GetBE, PutBE;
    var s := Header(w, h, ch);
    BEBack(w);
    BEBack(h);
    assert s[..4] == PutBE(w) && s[4..8] == PutBE(h);
    assert s[10..] == [0, 0, 0];
  }

  /** The pixel stream: whole and nonempty it gives back the rows; cut it gives nothing. */
  lemma PixelsRoundTrip(w: nat, h: nat, ch: nat, rgb: seq<Byte>)
    requires Area(h, Area(w, ch)) <= |rgb| && h > 0
    ensures
      ReadPixels((w, h, ch), Zlib(Scanlines(rgb, Area(w, ch), h))) == Some(Image(w, h, ch, rgb[..Area(h, Area(w, ch))]))
  {
    hide Zlib, Unzlib, Scanlines, Unfilter, Area;
    var raw := Scanlines(rgb, Area(w, ch), h);
    ZlibRoundTrip(raw);
    UnfilterScanlines(rgb, Area(w, ch), h);
  }

  lemma SecondChunk(data: seq<Byte>, w: nat, h: nat, ch: nat)
    requires w < WORD && h < WORD
    ensures
      ReadPng(Assembled(Header(w, h, ch), data)) ==
      if !(0 < w < LIMIT && 0 < h < LIMIT) then None
      else
        var second := ReadChunk(Chunk(IDAT, data) + Chunk(IEND, []));
        if second.Bad? || second.kind != IDAT || ReadChunk(second.rest) != Good(IEND, [], []) then None
        else ReadPixels((w, h, if ch == 1 || ch == 3 then ch else 4), second.data)
  {
    hide Chunk, ReadChunk, Header, ReadHeader, ReadPixels;
    var f := Assembled(Header(w, h, ch), data);
    var after := Chunk(IDAT, data) + Chunk(IEND, []);
    assert f[..8] == SIGNATURE;
    assert f[8..] == Chunk(IHDR, Header(w, h, ch)) + after;
    ChunkRoundTrip(IHDR, Header(w, h, ch), after);
    HeaderRoundTrip(w, h, ch);
  }

  /** Bytes of the compressed stream of an image: its rows, their filter bytes, and the framing. */
  function StreamSize(w: nat, h: nat, ch: nat): nat {
    Area(h, Area(w, ch)) + h + 5 * Blocks(Area(h, Area(w, ch)) + h) + 6
  }

  /**
    The file shows the pixels exactly when both dimensions are ones the standard allows, the channel count is
    one the colour type can name, and the compressed stream - of a size the dimensions alone decide - is no
    longer than the standard lets one chunk be.
   */
  lemma PngRoundTrip(w: nat, h: nat, ch: nat, rgb: seq<Byte>)
    requires w < WORD && h < WORD && Area(h, Area(w, ch)) <= |rgb|
    ensures
      ReadPng(PngFile(w, h, ch, rgb)) == Some(Image(w, h, ch, rgb[..Area(h, Area(w, ch))]))
      <==> 0 < w < LIMIT && 0 < h < LIMIT && ch in {1, 3, 4} && StreamSize(w, h, ch) < LIMIT
  {
    hide Blocks, Zlib, Scanlines, Chunk, ReadChunk, ReadPng, Unzlib, Area, Assembled, Header;
    var z := Zlib(Scanlines(rgb, Area(w, ch), h));
    ZlibLength(Scanlines(rgb, Area(w, ch), h));
    SecondChunk(z, w, h, ch);
    if 0 < w < LIMIT && 0 < h < LIMIT {
      ChunkRoundTrip(IDAT, z, Chunk(IEND, []));
      if |z| < LIMIT {
        ChunkRoundTrip(IEND, [], []);
        assert Chunk(IEND, []) + [] == Chunk(IEND, []);
        if ch in {1, 3, 4} {
          PixelsRoundTrip(w, h, ch, rgb);
        }
      } else if |z| >= WORD {
        ZlibCut(Scanlines(rgb, Area(w, ch), h), |z| % WORD);
      }
    }
  }
}
