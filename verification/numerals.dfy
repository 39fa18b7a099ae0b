/**
  What the bits of a number stand for: two's complement and the IEEE 754 binary formats, as exact reals.
 */
module Numerals {
  import opened Basics

  datatype Num = NoNum | NaN | Inf(neg: bool) | Fin(r: real)

  function Pow2(k: nat): (p: nat)
    ensures p > 0
  {
    if k == 0 then 1 else 2 * Pow2(k - 1)
  }

  function Scale(k: int): real {
    if k >= 0 then Pow2(k) as real else 1.0 / (Pow2(-k) as real)
  }

  /** The powers of two, negative exponents included. */
  lemma ScaleDoubles(k: int)
    ensures Scale(0) == 1.0 && Scale(k + 1) == 2.0 * Scale(k)
  {
    if k < -1 {
      assert Pow2(-k) == 2 * Pow2(-k - 1);
    }
  }

  /** The number a binary format's bits stand for: sign, biased exponent, fraction. */
  function Ieee(bits: nat, expBits: nat, manBits: nat): (r: Num)
    requires expBits > 0
    ensures r != NoNum
  {
    var m, e := bits % Pow2(manBits), bits / Pow2(manBits) % Pow2(expBits);
    var neg := bits / Pow2(manBits + expBits) % 2 == 1;
    var bias := Pow2(expBits - 1) - 1;
    if e == Pow2(expBits) - 1 then if m == 0 then Inf(neg) else NaN
    else
      var size := if e == 0 then m as real * Scale(1 - bias - manBits) else (Pow2(manBits) + m) as real * Scale(e - bias - manBits);
      Fin(if neg then -size else size)
  }

  /** `n` as a pattern of `range` values, the upper half of which are negative. */
  function TwosComplement(n: nat, range: nat): int {
    if 2 * n >= range then n - range else n
  }

  /** It is the one number in range that agrees with the pattern modulo the range. */
  lemma TwosComplementIs(n: nat, range: nat, v: int)
    requires n < range && range % 2 == 0
    ensures TwosComplement(n, range) == v <==> 0 - range <= 2 * v < range && (v == n || v == n - range)
  {
  }

  // ---- the three formats by the numbers of section 3.6 of IEEE 754 ------------------------------

  lemma Powers()
    ensures Pow2(4) == 16 && Pow2(5) == 32 && Pow2(7) == 128 && Pow2(8) == 256 && Pow2(10) == 1024 && Pow2(11) == 2048
    ensures Pow2(15) == 0x8000 && Pow2(23) == 0x80_0000 && Pow2(31) == 0x8000_0000
    ensures Pow2(52) == 0x10_0000_0000_0000 && Pow2(63) == 0x8000_0000_0000_0000
  {
    assert Pow2(8) == 256;
    assert Pow2(16) == 0x1_0000;
    assert Pow2(24) == 0x100_0000;
    assert Pow2(32) == 0x1_0000_0000;
    assert Pow2(40) == 0x100_0000_0000;
    assert Pow2(48) == 0x1_0000_0000_0000;
    assert Pow2(56) == 0x100_0000_0000_0000;
  }

  function WithSign(neg: bool, size: real): Num {
    Fin(if neg then -size else size)
  }

  lemma Digits(q: nat, r: nat, d: nat)
    requires r < d
    ensures (q * d + r) / d == q && (q * d + r) % d == r
  {
    var i := q * d + r;
    QuotientIs(q, r, d, i / d, i % d);
  }

  lemma {:induction false} Pow2Sum(j: nat, k: nat)
    ensures Pow2(j + k) == Pow2(j) * Pow2(k)
    decreases k
  {
    if k > 0 {
      Pow2Sum(j, k - 1);
    }
  }

  /** Sign, exponent and fraction are read back from their places. */
  lemma Fields(s: nat, e: nat, m: nat, expBits: nat, manBits: nat)
    requires s < 2 && e < Pow2(expBits) && m < Pow2(manBits)
    ensures
      var bits := (s * Pow2(expBits) + e) * Pow2(manBits) + m;
      && bits % Pow2(manBits) == m && bits / Pow2(manBits) % Pow2(expBits) == e
      && bits / Pow2(manBits + expBits) % 2 == s
  {
    hide Pow2;
    var E, M := Pow2(expBits), Pow2(manBits);
    Digits(s * E + e, m, M);
    Digits(s, e, E);
    Pow2Sum(manBits, expBits);
    Regroup(s, e, E, M);
    TimesGrows(e, E, M);
    Digits(s, e * M + m, M * E);
  }

  lemma Regroup(s: nat, e: nat, E: nat, M: nat)
    ensures (s * E + e) * M == s * (M * E) + e * M && M * E == E * M
  {
    assert (s * E + e) * M == s * E * M + e * M;
    assert s * E * M == s * (E * M);
  }

  lemma HalfBits(neg: bool, e: nat, m: nat)
    requires e < 32 && m < 0x400
    ensures
      Ieee((if neg then 0x8000 else 0) + e * 0x400 + m, 5, 10)
      == if e == 31 then if m == 0 then Inf(neg) else NaN
         else if e == 0 then WithSign(neg, m as real * Scale(-24)) else WithSign(neg, (0x400 + m) as real * Scale(e - 25))
  {
    hide Scale, Pow2;
    Powers();
    Fields(if neg then 1 else 0, e, m, 5, 10);
  }

  lemma SingleBits(neg: bool, e: nat, m: nat)
    requires e < 256 && m < 0x80_0000
    ensures
      Ieee((if neg then 0x8000_0000 else 0) + e * 0x80_0000 + m, 8, 23)
      == if e == 255 then if m == 0 then Inf(neg) else NaN
         else if e == 0 then WithSign(neg, m as real * Scale(-149)) else WithSign(neg, (0x80_0000 + m) as real * Scale(e - 150))
  {
    hide Scale, Pow2;
    Powers();
    Fields(if neg then 1 else 0, e, m, 8, 23);
  }

  lemma DoubleBits(neg: bool, e: nat, m: nat)
    requires e < 2048 && m < 0x10_0000_0000_0000
    ensures
      Ieee((if neg then 0x8000_0000_0000_0000 else 0) + e * 0x10_0000_0000_0000 + m, 11, 52)
      == if e == 2047 then if m == 0 then Inf(neg) else NaN
         else if e == 0 then WithSign(neg, m as real * Scale(-1074)) else WithSign(neg, (0x10_0000_0000_0000 + m) as real * Scale(e - 1075))
  {
    hide Scale, Pow2;
    Powers();
    Fields(if neg then 1 else 0, e, m, 11, 52);
  }

  // ---- widening a half -----------------------------------------------------------------------------

  lemma {:induction false} ScaleTimes(k: int, n: nat)
    ensures Scale(k + n) == Pow2(n) as real * Scale(k)
  {
    hide Scale;
    if n == 0 {
      assert Pow2(0) as real == 1.0;
    } else {
      ScaleTimes(k, n - 1);
      ScaleDoubles(k + n - 1);
      assert Pow2(n) == 2 * Pow2(n - 1);
      TwiceProduct(Pow2(n - 1), Scale(k));
    }
  }

  lemma TwiceProduct(p: nat, x: real)
    ensures (2 * p) as real * x == 2.0 * (p as real * x)
  {
    assert (2 * p) as real == 2.0 * p as real;
  }

  /** Ten fraction bits moved up by thirteen places, the scale down by as many. */
  lemma SameSize(mant: nat, k: int)
    ensures (mant * 0x2000) as real * Scale(k) == mant as real * Scale(k + 13)
  {
    hide Scale;
    ScaleTimes(k, 13);
    assert Pow2(13) == 0x2000;
    hide Pow2;
    assert (mant * 0x2000) as real == mant as real * 8192.0;
    Regrouped(mant as real, 8192.0, Scale(k));
  }

  lemma Regrouped(a: real, b: real, c: real)
    ensures a * b * c == a * (b * c)
  {
  }

  /** A subnormal fraction shifted up until its leading bit is implicit, and the exponent that goes with it. */
  method Normalize(m0: nat) returns (exp: nat, mant: nat)
    requires 0 < m0 < 0x400
    ensures 103 <= exp <= 113 && mant < 0x400
    ensures (0x400 + mant) as real * Scale(exp - 137) == m0 as real * Scale(-24)
  {
    hide Scale, Pow2;
    exp, mant := 127 - 15 + 1, m0;
    PowersFrom(0);
    while mant < 0x400
      invariant 103 <= exp <= 113 && Pow2(113 - exp) <= mant < 0x800
      invariant mant as real * Scale(exp - 137) == m0 as real * Scale(-24)
      decreases exp
    {
      PowersFrom(113 - exp);
      ScaleDoubles(exp - 138);
      Doubled(mant, Scale(exp - 138), Scale(exp - 137));
      mant, exp := mant * 2, exp - 1;
    }
    mant := mant - 0x400;
  }

  /** The widened pattern stands for the number the half stands for, subnormals, infinities and not-a-number included. */
  method HalfToFloat(h: nat) returns (f: nat)
    requires h < 0x1_0000
    ensures f < 0x1_0000_0000 && Ieee(f, 8, 23) == Ieee(h, 5, 10)
  {
    hide Scale, Ieee, Pow2;
    var neg := h / 0x8000 == 1;
    var sign := if neg then 0x8000_0000 else 0;
    var exp, mant := h / 0x400 % 32, h % 0x400;
    HalfBits(neg, exp, mant);
    assert h == (if neg then 0x8000 else 0) + exp * 0x400 + mant;
    if exp == 0 {
      if mant == 0 {
        f := sign;
        SingleBits(neg, 0, 0);
      } else {
        exp, mant := Normalize(mant);
        f := sign + exp * 0x80_0000 + mant * 0x2000;
        SingleBits(neg, exp, mant * 0x2000);
        SameSize(mant + 0x400, exp - 150);
      }
    } else if exp == 0x1F {
      f := sign + 0x7F80_0000 + mant * 0x2000;
      SingleBits(neg, 255, mant * 0x2000);
    } else {
      f := sign + (exp - 15 + 127) * 0x80_0000 + mant * 0x2000;
      SingleBits(neg, exp - 15 + 127, mant * 0x2000);
      SameSize(mant + 0x400, exp - 38);
    }
  }

  lemma Doubled(mant: nat, half: real, whole: real)
    requires whole == 2.0 * half
    ensures (mant * 2) as real * half == mant as real * whole
  {
    assert (mant * 2) as real == mant as real * 2.0;
  }

  /** Ten doublings are 1024. */
  lemma PowersFrom(k: nat)
    ensures Pow2(k + 1) == 2 * Pow2(k) && Pow2(0) == 1 && (k >= 10 ==> Pow2(k) >= 0x400)
    decreases k
  {
    if k > 10 {
      PowersFrom(k - 1);
    } else if k == 10 {
      assert Pow2(10) == 1024;
    }
  }
}
