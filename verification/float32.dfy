/**
 * IEEE 754 binary32 values as their 32-bit patterns, which is what the '<f'
 * struct format writes and reads, together with the numeric view Python's
 * == and math.isnan take of them.
 */
module Float32 {
  import opened Wrappers

  /** A binary32 bit pattern. */
  type F32 = b: nat | b < 0x1_0000_0000

  const SIGN_BIT: nat := 0x8000_0000
  const MANTISSA_SPAN: nat := 0x80_0000

  function Sign(x: F32): nat { x / SIGN_BIT }

  function Exponent(x: F32): nat { (x / MANTISSA_SPAN) % 256 }

  function Mantissa(x: F32): nat { x % MANTISSA_SPAN }

  /** What math.isnan reports: all-ones exponent and a non-zero fraction. */
  predicate IsNaN(x: F32) { Exponent(x) == 255 && Mantissa(x) != 0 }

  predicate IsInfinite(x: F32) { Exponent(x) == 255 && Mantissa(x) == 0 }

  /** A number as Python compares it: an exact real, an infinity, or NaN. */
  datatype Num = Real(r: real) | PosInf | NegInf | NotANumber

  /** Python's == on two numbers: NaN equals nothing, everything else compares exactly. */
  predicate NumEq(a: Num, b: Num)
  {
    a != NotANumber && b != NotANumber && a == b
  }

  function Pow2(k: nat): (r: nat)
    ensures r > 0
  {
    if k == 0 then 1 else 2 * Pow2(k - 1)
  }

  /** 2 to the power k, for any integer k. */
  function Scale(k: int): real
  {
    if k >= 0 then Pow2(k) as real else 1.0 / Pow2(-k) as real
  }

  /** The significand of a normal pattern: the fraction with its implicit leading one. */
  function Significand(x: F32): nat { MANTISSA_SPAN + Mantissa(x) }

  /** The exact value of a finite pattern's magnitude. */
  function Magnitude(x: F32): real
  {
    if Exponent(x) == 0 then Mantissa(x) as real * Scale(-149)
    else Significand(x) as real * Scale(Exponent(x) as int - 150)
  }

  /** The number a pattern stands for. */
  function Value(x: F32): Num
  {
    if IsNaN(x) then NotANumber
    else if IsInfinite(x) then (if Sign(x) == 1 then NegInf else PosInf)
    else Real(if Sign(x) == 1 then -Magnitude(x) else Magnitude(x))
  }

  /** Both zeros compare equal and no NaN equals itself. */
  lemma EqualityOfSpecialValues(x: F32)
    ensures IsNaN(x) ==> !NumEq(Value(x), Value(x))
    ensures !IsNaN(x) ==> NumEq(Value(x), Value(x))
    ensures NumEq(Value(0), Value(SIGN_BIT))
  {
    assert Mantissa(0) == 0 && Exponent(0) == 0;
    assert Mantissa(SIGN_BIT) == 0 && Exponent(SIGN_BIT) == 0;
  }

  // ---- Conversion of a Python int to binary32

  /** The position of the highest set bit of n. */
  function Log2(n: nat): (r: nat)
    requires n > 0
    ensures Pow2(r) <= n < Pow2(r + 1)
  {
    if n == 1 then 0 else 1 + Log2(n / 2)
  }

  /** Integers below this magnitude convert to binary32 exactly. */
  const EXACT_INT_LIMIT: nat := 0x100_0000

  lemma PowTwentyFour()
    ensures Pow2(23) == MANTISSA_SPAN && Pow2(24) == EXACT_INT_LIMIT
  {
    assert Pow2(1) == 2;
    assert Pow2(2) == 4;
    assert Pow2(3) == 8;
    assert Pow2(4) == 16;
    assert Pow2(5) == 32;
    assert Pow2(6) == 64;
    assert Pow2(7) == 128;
    assert Pow2(8) == 256;
    assert Pow2(9) == 512;
    assert Pow2(10) == 1024;
    assert Pow2(11) == 2048;
    assert Pow2(12) == 4096;
    assert Pow2(13) == 8192;
    assert Pow2(14) == 16384;
    assert Pow2(15) == 32768;
    assert Pow2(16) == 65536;
    assert Pow2(17) == 131072;
    assert Pow2(18) == 262144;
    assert Pow2(19) == 524288;
    assert Pow2(20) == 1048576;
    assert Pow2(21) == 2097152;
    assert Pow2(22) == 4194304;
    assert Pow2(23) == 8388608;
    assert Pow2(24) == 16777216;
  }

  /** The pattern with the given sign, biased exponent and fraction fields. */
  function Assemble(s: nat, ex: nat, m: nat): (x: F32)
    requires s < 2 && ex < 256 && m < MANTISSA_SPAN
    ensures Sign(x) == s && Exponent(x) == ex && Mantissa(x) == m
  {
    Fields(s, ex, m);
    s * SIGN_BIT + ex * MANTISSA_SPAN + m
  }

  /** x shifted left by k bits. */
  function ShiftLeft(x: nat, k: nat): nat
  {
    if k == 0 then x else 2 * ShiftLeft(x, k - 1)
  }

  /** The fraction field of the float that the positive int n converts to. */
  function Fraction(n: nat): (m: nat)
    requires 0 < n < EXACT_INT_LIMIT
    ensures m < MANTISSA_SPAN
  {
    SignificandFits(n);
    ShiftLeft(n - Pow2(Log2(n)), 23 - Log2(n))
  }

  /**
   * The pattern of the float an int converts to, for magnitudes below
   * EXACT_INT_LIMIT; None for larger ones, whose rounding is not modelled.
   */
  function FromInt(i: int): (r: Option<F32>)
    ensures r.Some? <==> -(EXACT_INT_LIMIT as int) < i < EXACT_INT_LIMIT
  {
    if i == 0 then Some(0)
    else if i <= -(EXACT_INT_LIMIT as int) || EXACT_INT_LIMIT <= i then None
    else
      var n: nat := if i < 0 then -i else i;
      SignificandFits(n);
      Some(Assemble(if i < 0 then 1 else 0, Log2(n) + 127, Fraction(n)))
  }

  /** The fraction field of a small int fits in 23 bits. */
  lemma SignificandFits(n: nat)
    requires 0 < n < EXACT_INT_LIMIT
    ensures Log2(n) <= 23
    ensures ShiftLeft(n - Pow2(Log2(n)), 23 - Log2(n)) < MANTISSA_SPAN
  {
    var e := Log2(n);
    PowTwentyFour();
    if e > 23 {
      PowMonotone(24, e);
    }
    ShiftBelow(n - Pow2(e), e, 23 - e);
  }

  lemma {:induction false} ShiftBelow(x: nat, e: nat, k: nat)
    requires x < Pow2(e)
    ensures ShiftLeft(x, k) < Pow2(e + k)
  {
    if k > 0 {
      ShiftBelow(x, e, k - 1);
    }
  }

  lemma {:induction false} ShiftAdds(a: nat, b: nat, k: nat)
    ensures ShiftLeft(a, k) + ShiftLeft(b, k) == ShiftLeft(a + b, k)
  {
    if k > 0 {
      ShiftAdds(a, b, k - 1);
    }
  }

  lemma {:induction false} ShiftOfPow(e: nat, k: nat)
    ensures ShiftLeft(Pow2(e), k) == Pow2(e + k)
  {
    if k > 0 {
      ShiftOfPow(e, k - 1);
    }
  }

  lemma {:induction false} ShiftIsMul(x: nat, k: nat)
    ensures ShiftLeft(x, k) == x * Pow2(k)
  {
    if k > 0 {
      ShiftIsMul(x, k - 1);
      assert 2 * (x * Pow2(k - 1)) == x * (2 * Pow2(k - 1));
    }
  }

  lemma {:induction false} PowMonotone(a: nat, b: nat)
    requires a <= b
    ensures Pow2(a) <= Pow2(b)
    decreases b
  {
    if a < b {
      PowMonotone(a, b - 1);
    }
  }

  /** The fields of a pattern assembled from sign, exponent and fraction. */
  lemma Fields(s: nat, ex: nat, m: nat)
    requires s < 2 && ex < 256 && m < MANTISSA_SPAN
    ensures s * SIGN_BIT + ex * MANTISSA_SPAN + m < 0x1_0000_0000
    ensures var x: F32 := s * SIGN_BIT + ex * MANTISSA_SPAN + m;
      Sign(x) == s && Exponent(x) == ex && Mantissa(x) == m
  {
    var x := s * SIGN_BIT + ex * MANTISSA_SPAN + m;
    assert x == (s * 256 + ex) * MANTISSA_SPAN + m;
    assert x / MANTISSA_SPAN == s * 256 + ex;
    assert x % MANTISSA_SPAN == m;
  }

  /** The significand of n, scaled by 2^(e - 23) for e the position of its top bit, is n itself. */
  lemma ScaledSignificand(n: nat, e: nat, ex: nat, sig: nat)
    requires 0 < n < EXACT_INT_LIMIT && e == Log2(n) && ex == e + 127
    requires sig == MANTISSA_SPAN + Fraction(n)
    ensures e <= 23
    ensures sig as real * Scale(ex as int - 150) == n as real
  {
    SignificandIsShift(n, sig);
    ScaleBack(n, e, ex, sig);
  }

  /** The significand of n is n shifted so that its top bit lands on bit 23. */
  lemma SignificandIsShift(n: nat, sig: nat)
    requires 0 < n < EXACT_INT_LIMIT && sig == MANTISSA_SPAN + Fraction(n)
    ensures Log2(n) <= 23 && sig == n * Pow2(23 - Log2(n))
  {
    var e := Log2(n);
    SignificandFits(n);
    PowTwentyFour();
    var k := 23 - e;
    ShiftOfPow(e, k);
    ShiftAdds(Pow2(e), n - Pow2(e), k);
    ShiftIsMul(n, k);
  }

  /** n * 2^(23 - e) scaled by 2^(e - 23) is n. */
  lemma ScaleBack(n: nat, e: nat, ex: nat, sig: nat)
    requires e <= 23 && ex == e + 127 && sig == n * Pow2(23 - e)
    ensures sig as real * Scale(ex as int - 150) == n as real
  {
    var p := Pow2(23 - e) as real;
    assert sig as real == n as real * p;
    if e < 23 {
      assert Scale(ex as int - 150) == 1.0 / p;
      assert n as real * p * (1.0 / p) == n as real;
    } else {
      assert p == 1.0;
    }
  }

  /** The value of a normal pattern assembled from its fields. */
  lemma NormalValue(s: nat, ex: nat, m: nat, sig: nat)
    requires s < 2 && 0 < ex < 255 && m < MANTISSA_SPAN && sig == MANTISSA_SPAN + m
    ensures var mag := sig as real * Scale(ex as int - 150);
      Value(Assemble(s, ex, m)) == Real(if s == 1 then -mag else mag)
  {
  }

  /** The pattern built from the fields of a non-zero small int has the int's value. */
  lemma AssembledIntValue(i: int, n: nat, e: nat, m: nat)
    requires 0 < n < EXACT_INT_LIMIT && (i == n || i == -(n as int))
    requires e == Log2(n) && m == Fraction(n)
    ensures e <= 23
    ensures Value(Assemble(if i < 0 then 1 else 0, e + 127, m)) == Real(i as real)
  {
    var s, ex, sig := if i < 0 then 1 else 0, e + 127, MANTISSA_SPAN + m;
    ScaledSignificand(n, e, ex, sig);
    NormalValue(s, ex, m, sig);
  }

  /** Converting a small int gives a float of exactly the same value. */
  lemma FromIntExact(i: int)
    requires -(EXACT_INT_LIMIT as int) < i < EXACT_INT_LIMIT
    ensures FromInt(i).Some? && Value(FromInt(i).value) == Real(i as real)
  {
    if i != 0 {
      var n: nat := if i < 0 then -i else i;
      AssembledIntValue(i, n, Log2(n), Fraction(n));
    } else {
      assert Mantissa(0) == 0 && Exponent(0) == 0 && Sign(0) == 0;
    }
  }
}
