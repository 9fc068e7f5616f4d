/**
 * Exact decimal numbers in the form Python's `decimal.Decimal` keeps them:
 * an integer coefficient scaled by a power of ten.  The ledger only ever
 * sees non-positive powers, so the exponent is kept as the number of
 * fractional digits: Decimal(123456, 3) is 123.456.
 *
 * Comparison, addition and subtraction are exact here; rounding happens
 * only where the program asks for it, in QuantizeCents.
 */
module Decimals {

  /** The number digits * 10^(-exp). */
  datatype Decimal = Decimal(digits: int, exp: nat)

  function Pow10(n: nat): (p: nat)
    ensures p >= 1
  {
    if n == 0 then 1 else 10 * Pow10(n - 1)
  }

  lemma {:induction false} Pow10Add(a: nat, b: nat)
    ensures Pow10(a + b) == Pow10(a) * Pow10(b)
  {
    if a > 0 {
      Pow10Add(a - 1, b);
      assert Pow10(a + b) == 10 * Pow10(a - 1 + b);
    }
  }

  function Max(a: nat, b: nat): nat
  {
    if a < b then b else a
  }

  function Abs(x: int): nat
  {
    if x < 0 then -x else x
  }

  /** The rational number a Decimal stands for. */
  ghost function Value(d: Decimal): real
  {
    d.digits as real / Pow10(d.exp) as real
  }

  /** A whole number of cents: exactly two fractional digits, like `PIC 9(6)V99`. */
  predicate IsCents(d: Decimal)
  {
    d.exp == 2
  }

  /** The coefficient of d when it is written with e fractional digits. */
  function Rescale(d: Decimal, e: nat): int
    requires d.exp <= e
  {
    d.digits * Pow10(e - d.exp)
  }

  lemma ScaleFraction(x: real, p: real, k: real)
    requires p > 0.0 && k > 0.0
    ensures (x * k) / (p * k) == x / p
  {
  }

  lemma CastMul(a: int, b: int)
    ensures (a * b) as real == a as real * b as real
  {
  }

  lemma RescaleValue(d: Decimal, e: nat)
    requires d.exp <= e
    ensures Value(Decimal(Rescale(d, e), e)) == Value(d)
  {
    var p, k := Pow10(d.exp), Pow10(e - d.exp);
    Pow10Add(d.exp, e - d.exp);
    CancelFactor(d.digits, p, k);
  }

  /** A common factor k of numerator and denominator cancels. */
  lemma CancelFactor(a: int, p: nat, k: nat)
    requires p >= 1 && k >= 1
    ensures (a * k) as real / (p * k) as real == a as real / p as real
  {
    CastMul(p, k);
    CastMul(a, k);
    ScaleFraction(a as real, p as real, k as real);
  }

  /** Python's `a < b` on decimals: compares the exact values. */
  predicate Less(a: Decimal, b: Decimal)
  {
    var e := Max(a.exp, b.exp);
    Rescale(a, e) < Rescale(b, e)
  }

  /** Python's `a <= b`. */
  predicate AtMost(a: Decimal, b: Decimal)
  {
    !Less(b, a)
  }

  /** Python's `a + b`: exact, with the larger number of fractional digits. */
  function Add(a: Decimal, b: Decimal): (r: Decimal)
    ensures r.exp == Max(a.exp, b.exp)
  {
    var e := Max(a.exp, b.exp);
    Decimal(Rescale(a, e) + Rescale(b, e), e)
  }

  function Negate(a: Decimal): (r: Decimal)
    ensures r.exp == a.exp && Value(r) == -Value(a)
  {
    Decimal(-a.digits, a.exp)
  }

  /** Python's `a - b`. */
  function Sub(a: Decimal, b: Decimal): (r: Decimal)
  {
    Add(a, Negate(b))
  }

  lemma DivideByPositive(x: real, y: real, p: real)
    requires p > 0.0
    ensures x < y <==> x / p < y / p
    ensures (x + y) / p == x / p + y / p
  {
  }

  /** Add is exact addition of the values. */
  lemma AddValue(a: Decimal, b: Decimal)
    ensures Value(Add(a, b)) == Value(a) + Value(b)
  {
    var e := Max(a.exp, b.exp);
    RescaleValue(a, e);
    RescaleValue(b, e);
    DivideByPositive(Rescale(a, e) as real, Rescale(b, e) as real, Pow10(e) as real);
  }

  lemma SubValue(a: Decimal, b: Decimal)
    ensures Value(Sub(a, b)) == Value(a) - Value(b)
  {
    AddValue(a, Negate(b));
  }

  /** Less is the order of the values. */
  lemma LessValue(a: Decimal, b: Decimal)
    ensures Less(a, b) <==> Value(a) < Value(b)
  {
    var e := Max(a.exp, b.exp);
    RescaleValue(a, e);
    RescaleValue(b, e);
    DivideByPositive(Rescale(a, e) as real, Rescale(b, e) as real, Pow10(e) as real);
  }

  /** Adding two whole-cent amounts adds their cents, exactly. */
  lemma AddCents(a: Decimal, b: Decimal)
    requires IsCents(a) && IsCents(b)
    ensures Add(a, b) == Decimal(a.digits + b.digits, 2)
    ensures Sub(a, b) == Decimal(a.digits - b.digits, 2)
  {
  }

  /** Two whole-cent amounts compare as their cents do. */
  lemma LessCents(a: Decimal, b: Decimal)
    requires IsCents(a) && IsCents(b)
    ensures Less(a, b) <==> a.digits < b.digits
  {
  }

  /** A decimal is below zero exactly when its coefficient is. */
  lemma LessThanZero(d: Decimal)
    ensures Less(d, Decimal(0, 0)) <==> d.digits < 0
    ensures Less(Decimal(0, 0), d) <==> d.digits > 0
  {
  }

  lemma MulLess(x: int, y: int, p: int)
    requires p > 0
    ensures x < y <==> x * p < y * p
  {
    if x < y {
      assert y * p == x * p + (y - x) * p;
    } else {
      assert x * p == y * p + (x - y) * p;
    }
  }

  /** Comparing a decimal with a whole number of cents, without rescaling. */
  lemma CompareWithCents(d: Decimal, c: int)
    ensures Less(d, Decimal(c, 2)) <==> 100 * d.digits < c * Pow10(d.exp)
    ensures Less(Decimal(c, 2), d) <==> c * Pow10(d.exp) < 100 * d.digits
  {
    if d.exp <= 2 {
      CompareFine(d, c);
    } else {
      CompareCoarse(d, c);
    }
  }

  /** CompareWithCents for a decimal with at most two decimals. */
  lemma CompareFine(d: Decimal, c: int)
    requires d.exp <= 2
    ensures Less(d, Decimal(c, 2)) <==> 100 * d.digits < c * Pow10(d.exp)
    ensures Less(Decimal(c, 2), d) <==> c * Pow10(d.exp) < 100 * d.digits
  {
    var p, k := Pow10(d.exp), Pow10(2 - d.exp);
    Pow10Add(2 - d.exp, d.exp);
    assert k * p == 100;
    assert Less(d, Decimal(c, 2)) <==> d.digits * k < c;
    assert Less(Decimal(c, 2), d) <==> c < d.digits * k;
    assert 100 * d.digits == (d.digits * k) * p;
    MulLess(d.digits * k, c, p);
    MulLess(c, d.digits * k, p);
  }

  /** CompareWithCents for a decimal with more than two decimals. */
  lemma CompareCoarse(d: Decimal, c: int)
    requires d.exp > 2
    ensures Less(d, Decimal(c, 2)) <==> 100 * d.digits < c * Pow10(d.exp)
    ensures Less(Decimal(c, 2), d) <==> c * Pow10(d.exp) < 100 * d.digits
  {
    var p, k := Pow10(d.exp), Pow10(d.exp - 2);
    Pow10Add(2, d.exp - 2);
    assert p == 100 * k;
    assert Rescale(Decimal(c, 2), d.exp) == c * k;
    assert c * p == 100 * (c * k);
  }

  /**
   * c is d rounded to a whole number of cents, half-up: c differs from
   * 100 * d by at most one half, and on an exact half c lies further from
   * zero than 100 * d.  Both sides are multiplied by 10^d.exp, so the
   * statement stays in integers.
   */
  predicate RoundsHalfUp(d: Decimal, c: int)
  {
    var scale := Pow10(d.exp);
    var gap := c * scale - 100 * d.digits;
    2 * Abs(gap) <= scale && (2 * Abs(gap) == scale ==> Abs(c * scale) > Abs(100 * d.digits))
  }

  /**
   * Python's `d.quantize(Decimal("0.01"), rounding=ROUND_HALF_UP)`: the
   * nearest whole number of cents, with a tie going away from zero.
   */
  function QuantizeCents(d: Decimal): (r: Decimal)
    ensures IsCents(r) && RoundsHalfUp(d, r.digits)
  {
    if d.exp <= 2 then
      ExactCents(d);
      Decimal(d.digits * Pow10(2 - d.exp), 2)
    else
      var q := RoundMagnitude(Abs(d.digits), Pow10(d.exp - 2));
      RoundedCents(d, q);
      Decimal(if d.digits < 0 then -(q as int) else q, 2)
  }

  /** m / p rounded to the nearest whole number, a half going up. */
  function RoundMagnitude(m: nat, p: nat): (q: nat)
    requires p >= 1
    ensures 2 * Abs(q * p - m) <= p
    ensures 2 * Abs(q * p - m) == p ==> q * p > m
  {
    var r := m % p;
    assert m == (m / p) * p + r;
    if 2 * r >= p then
      assert (m / p + 1) * p == (m / p) * p + p;
      m / p + 1
    else
      m / p
  }

  lemma ExactCents(d: Decimal)
    requires d.exp <= 2
    ensures RoundsHalfUp(d, d.digits * Pow10(2 - d.exp))
  {
    var k, p := Pow10(2 - d.exp), Pow10(d.exp);
    Pow10Add(2 - d.exp, d.exp);
    assert k * p == 100;
    assert d.digits * k * p == 100 * d.digits;
  }

  lemma RoundedCents(d: Decimal, q: nat)
    requires d.exp > 2 && q == RoundMagnitude(Abs(d.digits), Pow10(d.exp - 2))
    ensures RoundsHalfUp(d, if d.digits < 0 then -(q as int) else q)
  {
    Pow10Add(2, d.exp - 2);
    SignedHalfUp(d.digits, q, Pow10(d.exp - 2), Pow10(d.exp));
  }

  /** Giving the rounded magnitude q the sign of digits keeps it within half a step. */
  lemma SignedHalfUp(digits: int, q: nat, p: nat, scale: nat)
    requires p >= 1 && scale == 100 * p
    requires 2 * Abs(q * p - Abs(digits)) <= p
    requires 2 * Abs(q * p - Abs(digits)) == p ==> q * p > Abs(digits)
    ensures var c := if digits < 0 then -(q as int) else q;
      2 * Abs(c * scale - 100 * digits) <= scale &&
      (2 * Abs(c * scale - 100 * digits) == scale ==> Abs(c * scale) > Abs(100 * digits))
  {
    var qp := q * p;
    var c := if digits < 0 then -(q as int) else q;
    var m := Abs(digits);
    MulHundred(q, p);
    assert c * scale == (if digits < 0 then -(100 * qp) else 100 * qp) by {
      if digits < 0 { NegMul(q, scale); }
    }
    HundredHalf(qp, m, p);
    if digits < 0 {
      assert c * scale - 100 * digits == -(100 * (qp - m));
    } else {
      assert c * scale - 100 * digits == 100 * (qp - m);
    }
  }

  lemma MulHundred(q: int, p: int)
    ensures q * (100 * p) == 100 * (q * p)
  {
  }

  lemma NegMul(q: int, s: int)
    ensures -q * s == -(q * s)
  {
  }

  /** Scaling a half-step bound on qp - m by 100. */
  lemma HundredHalf(qp: int, m: int, p: int)
    requires 2 * Abs(qp - m) <= p
    requires 2 * Abs(qp - m) == p ==> qp > m
    requires m >= 0
    ensures 2 * Abs(100 * (qp - m)) <= 100 * p
    ensures 2 * Abs(100 * (qp - m)) == 100 * p ==> Abs(100 * qp) > Abs(100 * m)
    ensures 2 * Abs(-(100 * (qp - m))) <= 100 * p
    ensures 2 * Abs(-(100 * (qp - m))) == 100 * p ==> Abs(-(100 * qp)) > Abs(-(100 * m))
  {
  }

  lemma MulSub(a: int, b: int, p: int)
    ensures a * p - b * p == (a - b) * p
  {
  }

  lemma MulAtLeastOne(x: int, p: int)
    requires p >= 1
    ensures x >= 1 ==> x * p >= p
    ensures x <= -1 ==> x * p <= -p
  {
    if x >= 1 {
      assert x * p == p + (x - 1) * p;
    } else if x <= -1 {
      assert x * p == -p + (x + 1) * p;
    }
  }

  /**
   * Two whole numbers within half a step of n under the tie rule are the
   * same: two different ones would have to be the exact halves on either
   * side of n, and one of them would then lie nearer to zero than n.
   */
  lemma HalfStepUnique(c1: int, c2: int, scale: int, n: int)
    requires scale >= 1
    requires 2 * Abs(c1 * scale - n) <= scale && 2 * Abs(c2 * scale - n) <= scale
    requires 2 * Abs(c1 * scale - n) == scale ==> Abs(c1 * scale) > Abs(n)
    requires 2 * Abs(c2 * scale - n) == scale ==> Abs(c2 * scale) > Abs(n)
    ensures c1 == c2
  {
    if c1 != c2 {
      var lo, hi := if c1 < c2 then c1 else c2, if c1 < c2 then c2 else c1;
      MulAtLeastOne(hi - lo, scale);
      MulSub(hi, lo, scale);
      if n >= 0 {
        MulAtLeastOne(lo, scale);
      } else {
        MulAtLeastOne(hi, scale);
      }
      assert false;
    }
  }

  /** At most one whole number of cents rounds d half-up. */
  lemma HalfUpUnique(d: Decimal, c1: int, c2: int)
    requires RoundsHalfUp(d, c1) && RoundsHalfUp(d, c2)
    ensures c1 == c2
  {
    HalfStepUnique(c1, c2, Pow10(d.exp), 100 * d.digits);
  }

  /** A value already in whole cents is left as it is. */
  lemma QuantizeWholeCents(d: Decimal)
    requires IsCents(d)
    ensures QuantizeCents(d) == d
  {
  }

  /** Rounding twice is rounding once. */
  lemma QuantizeIdempotent(d: Decimal)
    ensures QuantizeCents(QuantizeCents(d)) == QuantizeCents(d)
  {
    QuantizeWholeCents(QuantizeCents(d));
  }

  /** A whole number c whose multiple stays within half a step of n <= hi * scale is at most hi. */
  lemma RoundedNotAbove(c: int, scale: int, n: int, hi: int)
    requires scale >= 1 && 2 * Abs(c * scale - n) <= scale && n <= hi * scale
    ensures c <= hi
  {
    if c > hi {
      MulAtLeastOne(c - hi, scale);
    }
  }

  lemma RoundedNotBelow(c: int, scale: int, n: int, lo: int)
    requires scale >= 1 && 2 * Abs(c * scale - n) <= scale && lo * scale <= n
    ensures lo <= c
  {
    if c < lo {
      MulAtLeastOne(lo - c, scale);
    }
  }

  /**
   * Rounding never leaves an interval whose ends are whole cents: a value
   * between lo and hi cents rounds to a number of cents between lo and hi.
   */
  lemma QuantizeWithin(d: Decimal, lo: int, hi: int)
    requires AtMost(Decimal(lo, 2), d) && AtMost(d, Decimal(hi, 2))
    ensures lo <= QuantizeCents(d).digits <= hi
  {
    var c, scale, n := QuantizeCents(d).digits, Pow10(d.exp), 100 * d.digits;
    CompareWithCents(d, lo);
    CompareWithCents(d, hi);
    RoundedNotAbove(c, scale, n, hi);
    RoundedNotBelow(c, scale, n, lo);
  }
}
