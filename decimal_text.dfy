/**
 * Decimal numbers as text: the part of Python's `Decimal(str)` constructor
 * that a typed amount goes through, and `str(Decimal)` in plain notation,
 * which is how the ledger shows a balance.
 *
 * Accepted: optional surrounding whitespace, an optional sign, then digits
 * with an optional decimal point ("12", "12.", "12.50", ".5").
 */
module DecimalText {
  import opened Wrappers
  import opened Decimals
  import opened Text

  predicate IsDigit(c: char)
  {
    '0' <= c <= '9'
  }

  predicate AllDigits(s: string)
  {
    forall i :: 0 <= i < |s| ==> IsDigit(s[i])
  }

  /** The number a string of decimal digits spells, most significant first. */
  function DigitsValue(s: string): nat
    requires AllDigits(s)
  {
    if s == [] then 0 else DigitsValue(s[..|s| - 1]) * 10 + (s[|s| - 1] as int - '0' as int)
  }

  /** The position of the first '.' in t, or |t| when there is none. */
  function DotIndex(t: string): (i: nat)
    ensures i <= |t| && (i < |t| ==> t[i] == '.')
    ensures forall j :: 0 <= j < i ==> t[j] != '.'
  {
    if t == [] || t[0] == '.' then 0 else 1 + DotIndex(t[1..])
  }

  /** Digits with an optional decimal point, and at least one digit. */
  function ParseUnsigned(t: string): (r: Option<Decimal>)
    ensures r.Some? ==> r.value.digits >= 0
  {
    var i := DotIndex(t);
    var whole, fraction := t[..i], if i < |t| then t[i + 1..] else [];
    if |whole| + |fraction| > 0 && AllDigits(whole) && AllDigits(fraction) then
      Some(Decimal(DigitsValue(whole + fraction), |fraction|))
    else
      None
  }

  /**
   * `Decimal(s)` for the plain notation above; None where Python raises
   * InvalidOperation.
   */
  function ParseDecimal(s: string): (r: Option<Decimal>)
  {
    ParseSigned(Strip(s))
  }

  function ParseSigned(t: string): (r: Option<Decimal>)
  {
    if |t| > 0 && (t[0] == '+' || t[0] == '-') then
      match ParseUnsigned(t[1..])
      case None => None
      case Some(d) => Some(if t[0] == '-' then Negate(d) else d)
    else
      ParseUnsigned(t)
  }

  function DigitChar(n: nat): char
    requires n < 10
  {
    ('0' as int + n) as char
  }

  /** The decimal digits of n, without leading zeros. */
  function NatDigits(n: nat): (s: string)
    ensures |s| >= 1 && AllDigits(s) && DigitsValue(s) == n
  {
    if n < 10 then
      [DigitChar(n)]
    else
      var s := NatDigits(n / 10) + [DigitChar(n % 10)];
      assert s[..|s| - 1] == NatDigits(n / 10);
      s
  }

  function Zeros(k: nat): (s: string)
    ensures |s| == k && AllDigits(s)
  {
    seq(k, _ => '0')
  }

  lemma {:induction false} LeadingZeros(k: nat, s: string)
    requires AllDigits(s)
    ensures AllDigits(Zeros(k) + s) && DigitsValue(Zeros(k) + s) == DigitsValue(s)
  {
    var z := Zeros(k) + s;
    if s == [] {
      assert z == Zeros(k);
      if k > 0 {
        assert z[..k - 1] == Zeros(k - 1) + [];
        LeadingZeros(k - 1, []);
      }
    } else {
      assert z[..|z| - 1] == Zeros(k) + s[..|s| - 1];
      LeadingZeros(k, s[..|s| - 1]);
    }
  }

  /** The digits of |d| with enough leading zeros to put the point in. */
  function Coefficient(d: Decimal): (s: string)
    ensures |s| > d.exp && AllDigits(s) && DigitsValue(s) == Abs(d.digits)
  {
    var n := NatDigits(Abs(d.digits));
    var k := if |n| <= d.exp then d.exp + 1 - |n| else 0;
    LeadingZeros(k, n);
    Zeros(k) + n
  }

  /**
   * `str(d)` in plain notation: an optional '-', the coefficient, and the
   * point before the last d.exp digits; "1000.00", "-0.05", "7".
   */
  function Render(d: Decimal): string
  {
    (if d.digits < 0 then "-" else "") + Unsigned(d)
  }

  lemma {:induction false} DotIndexOfDigits(t: string)
    requires AllDigits(t)
    ensures DotIndex(t) == |t|
  {
    if t != [] {
      DotIndexOfDigits(t[1..]);
    }
  }

  lemma {:induction false} DotIndexAfterDigits(a: string, b: string)
    requires AllDigits(a)
    ensures DotIndex(a + "." + b) == |a|
  {
    if a != [] {
      assert (a + "." + b)[1..] == a[1..] + "." + b;
      DotIndexAfterDigits(a[1..], b);
    }
  }

  /** The unsigned part of a rendering: the coefficient, with the point put in. */
  function Unsigned(d: Decimal): (u: string)
    ensures |u| > 0 && IsDigit(u[0]) && IsDigit(u[|u| - 1])
  {
    var body := Coefficient(d);
    var k := |body| - d.exp;
    if d.exp == 0 then body else body[..k] + "." + body[k..]
  }

  lemma ParseUnsignedCoefficient(d: Decimal)
    ensures ParseUnsigned(Unsigned(d)) == Some(Decimal(Abs(d.digits), d.exp))
  {
    if d.exp == 0 {
      ParseWhole(Coefficient(d));
    } else {
      ParsePointedCoefficient(d);
    }
  }

  lemma ParsePointedCoefficient(d: Decimal)
    requires d.exp > 0
    ensures ParseUnsigned(Unsigned(d)) == Some(Decimal(Abs(d.digits), d.exp))
  {
    var body := Coefficient(d);
    var k := |body| - d.exp;
    var whole, fraction := body[..k], body[k..];
    assert AllDigits(whole) && AllDigits(fraction);
    assert whole + fraction == body;
    assert Unsigned(d) == whole + "." + fraction;
    ParseWithPoint(whole, fraction);
  }

  lemma ParseWhole(body: string)
    requires |body| > 0 && AllDigits(body)
    ensures ParseUnsigned(body) == Some(Decimal(DigitsValue(body), 0))
  {
    DotIndexOfDigits(body);
    assert body[..|body|] + [] == body;
  }

  lemma ParseWithPoint(whole: string, fraction: string)
    requires |whole| > 0 && AllDigits(whole) && AllDigits(fraction)
    ensures AllDigits(whole + fraction)
    ensures ParseUnsigned(whole + "." + fraction) == Some(Decimal(DigitsValue(whole + fraction), |fraction|))
  {
    var u := whole + "." + fraction;
    DotIndexAfterDigits(whole, fraction);
    assert u[..|whole|] == whole && u[|whole| + 1..] == fraction;
  }

  lemma DigitIsNotSpaceOrSign(c: char)
    requires IsDigit(c)
    ensures !IsWhitespace(c) && c != '+' && c != '-'
  {
  }

  lemma ParseNonNegative(d: Decimal, u: string)
    requires |u| > 0 && IsDigit(u[0]) && IsDigit(u[|u| - 1]) && d.digits >= 0
    requires ParseUnsigned(u) == Some(Decimal(Abs(d.digits), d.exp))
    ensures ParseDecimal(u) == Some(d)
  {
    DigitIsNotSpaceOrSign(u[0]);
    DigitIsNotSpaceOrSign(u[|u| - 1]);
    StripUntouched(u);
  }

  lemma ParseNegative(d: Decimal, u: string)
    requires |u| > 0 && IsDigit(u[0]) && IsDigit(u[|u| - 1]) && d.digits < 0
    requires ParseUnsigned(u) == Some(Decimal(Abs(d.digits), d.exp))
    ensures ParseDecimal("-" + u) == Some(d)
  {
    var s := "-" + u;
    DigitIsNotSpaceOrSign(u[|u| - 1]);
    assert s[|s| - 1] == u[|u| - 1];
    StripUntouched(s);
    assert s[1..] == u;
  }

  /**
   * A line whose first character is not a blank, a sign, a digit or a
   * point is not a number.
   */
  lemma ParseRejectsLeading(s: string)
    requires |s| > 0 && !IsWhitespace(s[0]) && !IsDigit(s[0]) && s[0] !in "+-."
    ensures ParseDecimal(s) == None
  {
    StripKeepsFirst(s);
    UnsignedRejectsLeading(Strip(s));
  }

  lemma UnsignedRejectsLeading(t: string)
    requires |t| > 0 && !IsDigit(t[0]) && t[0] != '.'
    ensures ParseUnsigned(t) == None
  {
    assert DotIndex(t) > 0;
    assert !IsDigit(t[..DotIndex(t)][0]);
  }

  /**
   * A non-negative whole number of cents is shown as its whole part, a
   * point, and exactly two digits of cents: 1000.00, 0.05, 1349.50.
   */
  lemma RenderCents(d: Decimal)
    requires IsCents(d) && d.digits >= 0
    ensures Render(d) == NatDigits(d.digits / 100) + "." + [DigitChar(d.digits / 10 % 10), DigitChar(d.digits % 10)]
  {
    var n: nat := d.digits;
    var whole, tail := NatDigits(n / 100), [DigitChar(n / 10 % 10), DigitChar(n % 10)];
    var body := Coefficient(d);
    CentsCoefficient(d);
    assert body[..|body| - 2] == whole && body[|body| - 2..] == tail;
  }

  /**
   * A positive decimal with more digits than decimals prints as its digits
   * with the point put in, and no padding.
   */
  lemma RenderPointed(d: Decimal)
    requires d.digits > 0 && d.exp > 0 && |NatDigits(d.digits)| > d.exp
    ensures var n := NatDigits(d.digits);
      Render(d) == n[..|n| - d.exp] + "." + n[|n| - d.exp..]
  {
    UnpaddedCoefficient(d);
    UnsignedWithPoint(d);
  }

  /** Render of a positive number whose digit string is split into whole part and fraction. */
  lemma RenderSplit(d: Decimal, whole: string, frac: string)
    requires d.digits > 0 && d.exp == |frac| > 0 && |whole| > 0
    requires NatDigits(d.digits) == whole + frac
    ensures Render(d) == whole + "." + frac
  {
    var n := whole + frac;
    RenderPointed(d);
    assert n[..|n| - d.exp] == whole && n[|n| - d.exp..] == frac;
  }

  lemma UnpaddedCoefficient(d: Decimal)
    requires d.digits > 0 && |NatDigits(d.digits)| > d.exp
    ensures Coefficient(d) == NatDigits(d.digits)
  {
    assert Abs(d.digits) == d.digits;
    CoefficientUnfold(d);
    NoZeros(NatDigits(d.digits));
  }

  lemma CoefficientUnfold(d: Decimal)
    requires |NatDigits(Abs(d.digits))| > d.exp
    ensures Coefficient(d) == Zeros(0) + NatDigits(Abs(d.digits))
  {
  }

  lemma NoZeros(s: string)
    ensures Zeros(0) + s == s
  {
    assert Zeros(0) == [];
  }

  lemma UnsignedWithPoint(d: Decimal)
    requires d.digits > 0 && d.exp > 0
    ensures var body := Coefficient(d);
      Render(d) == body[..|body| - d.exp] + "." + body[|body| - d.exp..]
  {
  }

  /** The coefficient of a non-negative number of cents: the whole part, then the two cent digits. */
  lemma CentsCoefficient(d: Decimal)
    requires IsCents(d) && d.digits >= 0
    ensures Coefficient(d) == NatDigits(d.digits / 100) + [DigitChar(d.digits / 10 % 10), DigitChar(d.digits % 10)]
  {
    if d.digits >= 100 {
      LargeCentsCoefficient(d);
    } else {
      SmallCentsCoefficient(d);
    }
  }

  lemma LargeCentsCoefficient(d: Decimal)
    requires IsCents(d) && d.digits >= 100
    ensures Coefficient(d) == NatDigits(d.digits / 100) + [DigitChar(d.digits / 10 % 10), DigitChar(d.digits % 10)]
  {
    var n: nat := d.digits;
    var tail := [DigitChar(n / 10 % 10), DigitChar(n % 10)];
    assert NatDigits(n) == NatDigits(n / 10) + [DigitChar(n % 10)];
    assert n / 10 / 10 == n / 100;
    assert NatDigits(n / 10) == NatDigits(n / 100) + [DigitChar(n / 10 % 10)];
    assert NatDigits(n) == NatDigits(n / 100) + tail;
    assert |NatDigits(n)| > 2;
    assert Zeros(0) == [];
  }

  lemma SmallCentsCoefficient(d: Decimal)
    requires IsCents(d) && 0 <= d.digits < 100
    ensures Coefficient(d) == "0" + [DigitChar(d.digits / 10), DigitChar(d.digits % 10)]
  {
    if d.digits >= 10 {
      TwoDigitCents(d);
    } else {
      OneDigitCents(d);
    }
  }

  lemma TwoDigitCents(d: Decimal)
    requires IsCents(d) && 10 <= d.digits < 100
    ensures Coefficient(d) == "0" + [DigitChar(d.digits / 10), DigitChar(d.digits % 10)]
  {
    var n: nat := d.digits;
    assert NatDigits(n) == [DigitChar(n / 10)] + [DigitChar(n % 10)];
    assert Coefficient(d) == Zeros(1) + NatDigits(n);
  }

  lemma OneDigitCents(d: Decimal)
    requires IsCents(d) && 0 <= d.digits < 10
    ensures Coefficient(d) == "0" + [DigitChar(d.digits / 10), DigitChar(d.digits % 10)]
  {
    var n: nat := d.digits;
    assert NatDigits(n) == [DigitChar(n)];
    assert Coefficient(d) == Zeros(2) + NatDigits(n);
  }

  /**
   * The plain notation, stated character by character rather than by
   * parsing: digits and at most one point, with at least one digit.
   */
  predicate IsUnsignedNumeral(u: string)
  {
    && (forall i :: 0 <= i < |u| ==> IsDigit(u[i]) || u[i] == '.')
    && (forall i, j :: 0 <= i < j < |u| ==> u[i] != '.' || u[j] != '.')
    && (exists i :: 0 <= i < |u| && IsDigit(u[i]))
  }

  /** An unsigned numeral, or a sign followed by one. */
  predicate IsSignedNumeral(t: string)
  {
    || IsUnsignedNumeral(t)
    || (|t| > 0 && (t[0] == '+' || t[0] == '-') && IsUnsignedNumeral(t[1..]))
  }

  /** A signed numeral with any whitespace on either side. */
  ghost predicate IsNumeral(s: string)
  {
    exists a: nat, b: nat :: a <= b <= |s| && AllWhitespace(s[..a]) && AllWhitespace(s[b..]) && IsSignedNumeral(s[a..b])
  }

  /** `Decimal(s)` succeeds on exactly the numerals. */
  lemma ParseAcceptsNumerals(s: string)
    ensures ParseDecimal(s).Some? <==> IsNumeral(s)
  {
    SignedAccepts(Strip(s));
    if IsSignedNumeral(Strip(s)) {
      StrippedNumeral(s);
    }
    if IsNumeral(s) {
      var a: nat, b: nat :| a <= b <= |s| && AllWhitespace(s[..a]) && AllWhitespace(s[b..]) && IsSignedNumeral(s[a..b]);
      NumeralStrips(s, a, b);
    }
  }

  /** A line that strips to a signed numeral is a numeral. */
  lemma StrippedNumeral(s: string)
    requires IsSignedNumeral(Strip(s))
    ensures IsNumeral(s)
  {
    var t := Strip(s);
    var a := |s| - |TrimStart(s)|;
    StripPieces(s);
    assert IsSignedNumeral(s[a..a + |t|]);
  }

  /** Stripping a numeral leaves the signed numeral in it. */
  lemma NumeralStrips(s: string, a: nat, b: nat)
    requires a <= b <= |s| && AllWhitespace(s[..a]) && AllWhitespace(s[b..]) && IsSignedNumeral(s[a..b])
    ensures Strip(s) == s[a..b]
  {
    var t := s[a..b];
    NumeralEnds(t);
    assert s[a] == t[0] && s[b - 1] == t[|t| - 1];
    StripBetween(s, a, b);
  }

  /** A signed numeral is not empty and neither of its ends is whitespace. */
  lemma NumeralEnds(t: string)
    requires IsSignedNumeral(t)
    ensures |t| > 0 && !IsWhitespace(t[0]) && !IsWhitespace(t[|t| - 1])
  {
    var u := if IsUnsignedNumeral(t) then t else t[1..];
    var k :| 0 <= k < |u| && IsDigit(u[k]);
    assert IsDigit(u[|u| - 1]) || u[|u| - 1] == '.';
    if !IsUnsignedNumeral(t) {
      assert t[|t| - 1] == u[|u| - 1];
    } else {
      assert IsDigit(t[0]) || t[0] == '.';
    }
  }

  lemma SignedAccepts(t: string)
    ensures ParseSigned(t).Some? <==> IsSignedNumeral(t)
  {
    if |t| > 0 && (t[0] == '+' || t[0] == '-') {
      assert !IsUnsignedNumeral(t) by {
        assert !(IsDigit(t[0]) || t[0] == '.');
      }
      UnsignedAccepts(t[1..]);
    } else {
      UnsignedAccepts(t);
    }
  }

  lemma UnsignedAccepts(u: string)
    ensures ParseUnsigned(u).Some? <==> IsUnsignedNumeral(u)
  {
    if ParseUnsigned(u).Some? {
      ParsedIsNumeral(u);
    }
    if IsUnsignedNumeral(u) {
      NumeralIsParsed(u);
    }
  }

  lemma ParsedIsNumeral(u: string)
    requires ParseUnsigned(u).Some?
    ensures IsUnsignedNumeral(u)
  {
    var i := DotIndex(u);
    var whole, fraction := u[..i], if i < |u| then u[i + 1..] else [];
    forall k | 0 <= k < |u|
      ensures IsDigit(u[k]) || (k == i && u[k] == '.')
    {
      if k < i {
        assert u[k] == whole[k];
      } else if k > i {
        assert u[k] == fraction[k - i - 1];
      }
    }
    if |whole| > 0 {
      assert IsDigit(u[0]);
    } else {
      assert IsDigit(u[i + 1]);
    }
  }

  lemma NumeralIsParsed(u: string)
    requires IsUnsignedNumeral(u)
    ensures ParseUnsigned(u).Some?
  {
    var i := DotIndex(u);
    var whole, fraction := u[..i], if i < |u| then u[i + 1..] else [];
    assert AllDigits(whole) by {
      forall k | 0 <= k < |whole|
        ensures IsDigit(whole[k])
      {
        assert whole[k] == u[k];
      }
    }
    assert AllDigits(fraction) by {
      forall k | 0 <= k < |fraction|
        ensures IsDigit(fraction[k])
      {
        assert fraction[k] == u[i + 1 + k];
        assert u[i] == '.';
      }
    }
    var k :| 0 <= k < |u| && IsDigit(u[k]);
    if k < i {
      assert whole[k] == u[k];
    } else {
      assert k > i && fraction[k - i - 1] == u[k];
    }
  }

  /** Printing a decimal and reading it back gives the same decimal. */
  lemma ParseRender(d: Decimal)
    ensures ParseDecimal(Render(d)) == Some(d)
  {
    ParseUnsignedCoefficient(d);
    if d.digits < 0 {
      ParseNegative(d, Unsigned(d));
    } else {
      assert Render(d) == Unsigned(d);
      ParseNonNegative(d, Unsigned(d));
    }
  }
}
