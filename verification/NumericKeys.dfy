/** keys.hpp and Keys.java, numbers: bit patterns turned into unsigned keys that keep the numeric order. */
module NumericKeys {
  import opened Arithmetic
  import opened SortKeys

  const SIGN: nat := 0x8000_0000_0000_0000
  const FRACTION: nat := 0x10_0000_0000_0000       // 2^52
  const INFINITY: nat := 0x7FF0_0000_0000_0000
  const CANONICAL_NAN: Key64 := 0xFFF8_0000_0000_0000

  /** An IEEE 754 double as its bits, or a signed integer in two's complement. */
  type Bits64 = b: int | 0 <= b < 0x1_0000_0000_0000_0000

  predicate Negative(bits: Bits64) {
    bits >= SIGN
  }

  /** The bits without the sign. */
  function Magnitude(bits: Bits64): nat {
    if Negative(bits) then bits - SIGN else bits
  }

  predicate IsNaN(bits: Bits64) {
    Magnitude(bits) > INFINITY
  }

  function Pow2(n: nat): nat {
    if n == 0 then 1 else 2 * Pow2(n - 1)
  }

  /**
   What a magnitude is worth, in units of the smallest subnormal: the fraction alone if the exponent
   field is zero, otherwise with the hidden bit and shifted. Infinity gets the value after the largest
   finite one.
   */
  function Worth(m: nat): nat {
    var exponent, fraction := m / FRACTION, m % FRACTION;
    if exponent == 0 then fraction else (FRACTION + fraction) * Pow2(exponent - 1)
  }

  function Value(bits: Bits64): int {
    if Negative(bits) then 0 - Worth(Magnitude(bits)) else Worth(Magnitude(bits))
  }

  lemma {:induction false} Pow2Grows(m: nat, n: nat)
    requires m <= n
    ensures 0 < Pow2(m) <= Pow2(n)
  {
    if m < n {
      Pow2Grows(m, n - 1);
    } else if m > 0 {
      Pow2Grows(m - 1, m - 1);
    }
  }

  lemma ProductGrows(a: nat, b: nat, p: nat)
    requires a < b && 0 < p
    ensures a * p < b * p && a * p + p <= b * p
  {
    MulMonotone(a + 1, b, p);
    assert (a + 1) * p == a * p + p;
  }

  /** Worth is below the first worth of the next exponent ... */
  lemma WorthBelow(m: nat)
    ensures Worth(m) < FRACTION * Pow2(m / FRACTION)
  {
    var e, f := m / FRACTION, m % FRACTION;
    Pow2Grows(0, e);
    if e == 0 {
      assert FRACTION * Pow2(0) == FRACTION;
    } else {
      Pow2Grows(0, e - 1);
      ProductGrows(FRACTION + f, 2 * FRACTION, Pow2(e - 1));
      assert 2 * FRACTION * Pow2(e - 1) == FRACTION * (2 * Pow2(e - 1));
    }
  }

  /** ... and not below the first worth of its own. */
  lemma WorthAbove(m: nat)
    requires m / FRACTION > 0
    ensures FRACTION * Pow2(m / FRACTION - 1) <= Worth(m)
  {
    var e, f := m / FRACTION, m % FRACTION;
    assert (FRACTION + f) * Pow2(e - 1) == FRACTION * Pow2(e - 1) + f * Pow2(e - 1);
    assert f * Pow2(e - 1) >= 0;
  }

  /** Larger magnitudes are worth more: the bit pattern of a positive double sorts as the number does. */
  lemma WorthGrows(m: nat, n: nat)
    requires m < n
    ensures Worth(m) < Worth(n)
  {
    var d, e := m / FRACTION, n / FRACTION;
    if d == e {
      if e > 0 {
        Pow2Grows(0, e - 1);
        ProductGrows(FRACTION + m % FRACTION, FRACTION + n % FRACTION, Pow2(e - 1));
      }
    } else {
      WorthBelow(m);
      WorthAbove(n);
      Pow2Grows(d, e - 1);
      Scaled(Pow2(d), Pow2(e - 1));
    }
  }

  lemma Scaled(p: nat, q: nat)
    requires p <= q
    ensures FRACTION * p <= FRACTION * q
  {
  }

  /** from_double: NaNs are one key, negatives are complemented, the others get the top bit. */
  function FromDouble(bits: Bits64): Key64 {
    if IsNaN(bits) then CANONICAL_NAN
    else if Negative(bits) then 0xFFFF_FFFF_FFFF_FFFF - bits
    else bits + SIGN
  }

  /** Keys of numbers compare as the numbers do, with -0.0 just below +0.0. */
  lemma DoubleKeysFollowValues(x: Bits64, y: Bits64)
    requires !IsNaN(x) && !IsNaN(y)
    ensures FromDouble(x) < FromDouble(y) <==>
            Value(x) < Value(y) || (Value(x) == Value(y) && Negative(x) && !Negative(y))
    ensures FromDouble(x) == FromDouble(y) <==> x == y
  {
    var m, n := Magnitude(x), Magnitude(y);
    if m < n {
      WorthGrows(m, n);
    } else if n < m {
      WorthGrows(n, m);
    }
    if m > 0 {
      WorthGrows(0, m);
    }
    if n > 0 {
      WorthGrows(0, n);
    }
  }

  /** All NaNs share one key, above that of everything else, infinities included. */
  lemma NaNComesLast(x: Bits64, nan: Bits64)
    requires IsNaN(nan)
    ensures FromDouble(nan) == CANONICAL_NAN && (IsNaN(x) <==> FromDouble(x) == CANONICAL_NAN)
    ensures FromDouble(x) <= CANONICAL_NAN
  {
  }

  type Int64 = v: int | -0x8000_0000_0000_0000 <= v < 0x8000_0000_0000_0000

  /** Two's complement. */
  function AsBits(v: Int64): Bits64 {
    if v < 0 then v + 0x1_0000_0000_0000_0000 else v
  }

  /** from_signed: flips the sign bit. */
  function FromSigned(v: Int64): Key64 {
    if Negative(AsBits(v)) then AsBits(v) - SIGN else AsBits(v) + SIGN
  }

  /** Signed order becomes unsigned order, and nothing is lost. */
  lemma SignedKeysFollowValues(v: Int64, w: Int64)
    ensures FromSigned(v) < FromSigned(w) <==> v < w
    ensures FromSigned(v) == FromSigned(w) <==> v == w
  {
  }
}
