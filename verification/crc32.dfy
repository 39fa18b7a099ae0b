/**
  The PNG writer's CRC: a 256-entry table walked one byte at a time, against the bit-serial
  division by the reflected polynomial that it stands for (section 3.4 of RFC 2083).
 */
module Crc32 {

  const POLY: bv32 := 0xedb88320

  /** Section 3.4 of RFC 2083: the exponents of the polynomial below 32, the highest of which stands in the lowest bit. */
  const EXPONENTS: set<nat> := {0, 1, 2, 4, 5, 7, 8, 10, 11, 12, 16, 22, 23, 26}

  predicate Bit(w: bv32, k: nat)
    requires k < 32
  {
    (w >> k) & 1 == 1
  }

  lemma PolynomialBits(e: nat)
    requires e < 32
    ensures Bit(POLY, 31 - e) <==> e in EXPONENTS
  {
    if e < 8 {
      assert e == 0 || e == 1 || e == 2 || e == 3 || e == 4 || e == 5 || e == 6 || e == 7;
    } else if e < 16 {
      assert e == 8 || e == 9 || e == 10 || e == 11 || e == 12 || e == 13 || e == 14 || e == 15;
    } else if e < 24 {
      assert e == 16 || e == 17 || e == 18 || e == 19 || e == 20 || e == 21 || e == 22 || e == 23;
    } else {
      assert e == 24 || e == 25 || e == 26 || e == 27 || e == 28 || e == 29 || e == 30 || e == 31;
    }
  }

  function Half(w: bv32): bv32 {
    w >> 1
  }

  /** Addition of polynomials over two elements. */
  function Add(a: bv32, b: bv32): bv32 {
    a ^ b
  }

  /** One shift of the reflected register. */
  function Shift(c: bv32): bv32 {
    if c & 1 == 1 then Add(POLY, Half(c)) else Half(c)
  }

  function Shifts(c: bv32, n: nat): bv32
    decreases n
  {
    if n == 0 then c else Shifts(Shift(c), n - 1)
  }

  /** One message bit meets the register's low bit; their sum decides whether the polynomial is subtracted. */
  function DivideBit(c: bv32, bit: bv32): bv32 {
    if Add(c, bit) & 1 == 1 then Add(POLY, Half(c)) else Half(c)
  }

  /** The low `n` bits of `w` enter, least significant first. */
  function DivideBits(c: bv32, w: bv32, n: nat): bv32
    decreases n
  {
    if n == 0 then c else DivideBits(DivideBit(c, w & 1), Half(w), n - 1)
  }

  function Drop(w: bv32, n: nat): bv32
    decreases n
  {
    if n == 0 then w else Drop(Half(w), n - 1)
  }

  /** The definition: every bit of every byte of the message goes through the register in turn. */
  function Divide(bytes: seq<bv8>, c: bv32): bv32 {
    if bytes == [] then c
    else DivideBits(Divide(bytes[..|bytes| - 1], c), bytes[|bytes| - 1] as bv32, 8)
  }

  /** Dividing two pieces one after the other is dividing their concatenation. */
  lemma {:induction false} DivideSplit(a: seq<bv8>, b: seq<bv8>, c: bv32)
    ensures Divide(a + b, c) == Divide(b, Divide(a, c))
    decreases |b|
  {
    hide DivideBits;
    if b == [] {
      assert a + b == a;
    } else {
      assert (a + b)[..|a + b| - 1] == a + b[..|b| - 1];
      DivideSplit(a, b[..|b| - 1], c);
    }
  }

  lemma HalfOfSum(a: bv32, b: bv32)
    ensures Half(Add(a, b)) == Add(Half(a), Half(b))
    ensures Add(POLY, Add(a, b)) == Add(Add(POLY, a), b)
  {
  }

  lemma LowOfSum(a: bv32, b: bv32)
    ensures Add(a, b) & 1 == Add(a, b & 1) & 1
  {
  }

  /** Adding the word before a shift: its low bit is divided by, the rest moves down beside the register. */
  lemma AddedFirst(c: bv32, w: bv32)
    ensures Shift(Add(c, w)) == Add(DivideBit(c, w & 1), Half(w))
  {
    hide Add, Half;
    HalfOfSum(c, w);
    HalfOfSum(Half(c), Half(w));
    LowOfSum(c, w);
  }

  /**
    Adding the whole word before shifting divides by its low bits one after the other and leaves its
    high bits shifted down, untouched.
   */
  lemma {:induction false} ShiftsDivide(c: bv32, w: bv32, n: nat)
    ensures Shifts(Add(c, w), n) == Add(DivideBits(c, w, n), Drop(w, n))
    decreases n
  {
    hide Shift, DivideBit, Add, Half;
    if n > 0 {
      AddedFirst(c, w);
      ShiftsDivide(DivideBit(c, w & 1), Half(w), n - 1);
    }
  }

  predicate LowClear(w: bv32, n: nat)
    decreases n
  {
    n == 0 || (w & 1 == 0 && LowClear(Half(w), n - 1))
  }

  lemma ClearBit(c: bv32)
    ensures DivideBit(c, 0) == Shift(c)
  {
    hide Half;
    AddNothing(c);
    hide Add;
  }

  lemma {:induction false} ClearBitsOnlyShift(c: bv32, w: bv32, n: nat)
    requires LowClear(w, n)
    ensures DivideBits(c, w, n) == Shifts(c, n)
    decreases n
  {
    hide Shift, DivideBit, Half;
    if n > 0 {
      ClearBit(c);
      ClearBitsOnlyShift(Shift(c), Half(w), n - 1);
    }
  }

  lemma Halves(w: bv32)
    ensures Half(Half(Half(Half(Half(Half(Half(Half(w)))))))) == w >> 8
  {
  }

  lemma EightDropped(w: bv32)
    ensures Drop(w, 8) == w >> 8
  {
    hide Half;
    Halves(w);
    var w2 := Half(Half(w));
    var w4 := Half(Half(w2));
    var w6 := Half(Half(w4));
    assert Drop(w, 8) == Drop(Half(w), 7) == Drop(w2, 6);
    assert Drop(w2, 6) == Drop(Half(w2), 5) == Drop(w4, 4);
    assert Drop(w4, 4) == Drop(Half(w4), 3) == Drop(w6, 2);
    assert Drop(w6, 2) == Drop(Half(w6), 1) == Half(Half(w6));
  }

  lemma {:induction false} LowBits(x: bv32)
    ensures x & 0xffffff00 & 1 == 0
    ensures Half(x & 0xffffff00) & 1 == 0
    ensures Half(Half(x & 0xffffff00)) & 1 == 0
    ensures Half(Half(Half(x & 0xffffff00))) & 1 == 0
    ensures Half(Half(Half(Half(x & 0xffffff00)))) & 1 == 0
    ensures Half(Half(Half(Half(Half(x & 0xffffff00))))) & 1 == 0
    ensures Half(Half(Half(Half(Half(Half(x & 0xffffff00)))))) & 1 == 0
    ensures Half(Half(Half(Half(Half(Half(Half(x & 0xffffff00))))))) & 1 == 0
  {
  }

  lemma EightLowClear(x: bv32)
    ensures LowClear(x & 0xffffff00, 8)
  {
    hide Half;
    LowBits(x);
    var w := x & 0xffffff00;
    var w2 := Half(Half(w));
    var w4 := Half(Half(w2));
    var w6 := Half(Half(w4));
    assert LowClear(w6, 2) by { assert LowClear(Half(w6), 1); }
    assert LowClear(w4, 4) by { assert LowClear(Half(w4), 3); }
    assert LowClear(w2, 6) by { assert LowClear(Half(w2), 5); }
    assert LowClear(Half(w), 7);
  }

  lemma EightClear(x: bv32)
    ensures (x & 0xffffff00) >> 8 == x >> 8
    ensures x == Add(x & 0xff, x & 0xffffff00)
  {
  }

  /** A message byte sits below the eight places that are shifted in. */
  lemma ByteGone(c: bv32, b: bv8)
    ensures (b as bv32) >> 8 == 0
    ensures Add(c, b as bv32) >> 8 == c >> 8
  {
  }

  lemma AddNothing(a: bv32)
    ensures Add(a, 0) == a
  {
  }

  lemma ShiftsOfSplit(x: bv32)
    ensures Shifts(x, 8) == Add(Shifts(x & 0xff, 8), x >> 8)
  {
    hide *;
    var low, high := x & 0xff, x & 0xffffff00;
    EightClear(x);
    EightLowClear(x);
    ClearBitsOnlyShift(low, high, 8);
    ShiftsDivide(low, high, 8);
    EightDropped(high);
  }

  lemma ShiftsOfByte(c: bv32, b: bv8)
    ensures Shifts(Add(c, b as bv32), 8) == DivideBits(c, b as bv32, 8)
  {
    hide *;
    var w := b as bv32;
    ShiftsDivide(c, w, 8);
    EightDropped(w);
    ByteGone(c, b);
    AddNothing(DivideBits(c, w, 8));
  }

  /**
    The table identity: one lookup by the low byte of register and message byte together, and one
    eight-place shift, do the work of eight bit steps.
   */
  lemma TableStep(c: bv32, b: bv8)
    ensures Add(Shifts(Add(c, b as bv32) & 0xff, 8), c >> 8) == DivideBits(c, b as bv32, 8)
  {
    hide *;
    ShiftsOfSplit(Add(c, b as bv32));
    ByteGone(c, b);
    ShiftsOfByte(c, b);
  }

  function LowByte(x: bv32): (i: nat)
    ensures i < 256 && i as bv32 == x & 0xff
  {
    var low := x & 0xff;
    assert low < 256;
    low as nat
  }

  /** Entry `i` is the register after eight shifts of `i`. */
  predicate Tabulated(table: seq<bv32>) {
    |table| == 256 && forall i :: 0 <= i < 256 ==> table[i] == Shifts(i as bv32, 8)
  }

  /** The lazily built table. */
  method BuildTable() returns (table: seq<bv32>)
    ensures Tabulated(table)
  {
    hide Shift;
    table := [];
    for i := 0 to 256
      invariant |table| == i
      invariant forall j :: 0 <= j < i ==> table[j] == Shifts(j as bv32, 8)
    {
      var c := i as bv32;
      for k := 0 to 8
        invariant Shifts(c, 8 - k) == Shifts(i as bv32, 8)
      {
        c := Shift(c);
      }
      table := table + [c];
    }
  }

  function Lookup(table: seq<bv32>, x: bv32): (r: bv32)
    requires Tabulated(table)
    ensures r == Shifts(x & 0xff, 8)
  {
    hide Shifts, LowByte;
    table[LowByte(x)]
  }

  lemma DivideSnoc(p: seq<bv8>, i: nat, crc: bv32)
    requires i < |p|
    ensures Divide(p[..i + 1], crc) == DivideBits(Divide(p[..i], crc), p[i] as bv32, 8)
  {
    hide DivideBits;
    assert p[..i + 1][..i] == p[..i];
  }

  lemma DivideNone(crc: bv32)
    ensures Divide([], crc) == crc
  {
  }

  /** The byte loop, resumable through `crc`, computes the bit-serial division. */
  method Crc32Of(table: seq<bv32>, p: seq<bv8>, crc: bv32) returns (r: bv32)
    requires Tabulated(table)
    ensures r == Divide(p, crc)
  {
    hide *;
    r := crc;
    DivideNone(crc);
    assert p[..0] == [];
    for i := 0 to |p|
      invariant r == Divide(p[..i], crc)
    {
      TableStep(r, p[i]);
      DivideSnoc(p, i, crc);
      r := Add(Lookup(table, Add(r, p[i] as bv32)), r >> 8);
    }
    assert p[..|p|] == p;
  }

  lemma DivideMore(s: seq<bv8>, b: bv8, crc: bv32)
    ensures Divide(s + [b], crc) == DivideBits(Divide(s, crc), b as bv32, 8)
    ensures Divide([], crc) == crc
  {
    hide DivideBits;
    assert (s + [b])[..|s|] == s;
  }

  lemma DivideFour(a: bv8, b: bv8, c: bv8, d: bv8, crc: bv32)
    ensures
      Divide([a, b, c, d], crc)
      == DivideBits(DivideBits(DivideBits(DivideBits(crc, a as bv32, 8), b as bv32, 8), c as bv32, 8), d as bv32, 8)
  {
    hide DivideBits, Divide;
    DivideMore([], a, crc);
    DivideMore([a], b, crc);
    DivideMore([a, b], c, crc);
    DivideMore([a, b, c], d, crc);
    assert [] + [a] == [a] && [a] + [b] == [a, b] && [a, b] + [c] == [a, b, c] && [a, b, c] + [d] == [a, b, c, d];
  }
}
