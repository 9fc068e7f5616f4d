/**
 * The few string operations the ledger applies to operation names and
 * typed amounts: Python's `str.strip()`, `str.upper()` and `str.lower()`.
 */
module Text {

  /**
   * Python's `str.isspace()` on one character: the ASCII controls
   * TAB, LF, VT, FF, CR, the separators 0x1C-0x1F, SPACE, and the
   * Unicode spaces and line/paragraph separators.
   */
  predicate IsWhitespace(c: char)
  {
    || ('\t' <= c <= '\r')
    || ('\U{1C}' <= c <= ' ')
    || c == '\U{85}' || c == '\U{A0}' || c == '\U{1680}'
    || ('\U{2000}' <= c <= '\U{200A}')
    || c == '\U{2028}' || c == '\U{2029}' || c == '\U{202F}' || c == '\U{205F}' || c == '\U{3000}'
  }

  /** s without its leading whitespace. */
  function TrimStart(s: string): string
  {
    if |s| > 0 && IsWhitespace(s[0]) then TrimStart(s[1..]) else s
  }

  /** s without its trailing whitespace. */
  function TrimEnd(s: string): string
  {
    if |s| > 0 && IsWhitespace(s[|s| - 1]) then TrimEnd(s[..|s| - 1]) else s
  }

  /** Python's `s.strip()`: s without whitespace at either end. */
  function Strip(s: string): string
  {
    TrimEnd(TrimStart(s))
  }

  /** TrimStart removes exactly the longest all-whitespace prefix. */
  lemma {:induction false} TrimStartSpec(s: string)
    ensures var r := TrimStart(s);
      && |r| <= |s| && r == s[|s| - |r|..]
      && (r == [] || !IsWhitespace(r[0]))
      && forall i :: 0 <= i < |s| - |r| ==> IsWhitespace(s[i])
  {
    if |s| > 0 && IsWhitespace(s[0]) {
      var t := s[1..];
      TrimStartSpec(t);
      var r := TrimStart(t);
      assert TrimStart(s) == r;
      assert t[|t| - |r|..] == s[|s| - |r|..];
      forall i | 0 < i < |s| - |r|
        ensures IsWhitespace(s[i])
      {
        assert s[i] == t[i - 1];
      }
    }
  }

  /** TrimEnd removes exactly the longest all-whitespace suffix. */
  lemma {:induction false} TrimEndSpec(s: string)
    ensures var r := TrimEnd(s);
      && |r| <= |s| && r == s[..|r|]
      && (r == [] || !IsWhitespace(r[|r| - 1]))
      && forall i :: |r| <= i < |s| ==> IsWhitespace(s[i])
  {
    if |s| > 0 && IsWhitespace(s[|s| - 1]) {
      var t := s[..|s| - 1];
      TrimEndSpec(t);
      var r := TrimEnd(t);
      assert TrimEnd(s) == r;
      assert t[..|r|] == s[..|r|];
      forall i | |r| <= i < |s| - 1
        ensures IsWhitespace(s[i])
      {
        assert s[i] == t[i];
      }
    }
  }

  /**
   * Strip(s) is the piece of s left between a leading and a trailing run
   * of whitespace, and neither of its ends is whitespace.
   */
  lemma StripSpec(s: string)
    ensures var r, i := Strip(s), |s| - |TrimStart(s)|;
      && (r == [] || (!IsWhitespace(r[0]) && !IsWhitespace(r[|r| - 1])))
      && 0 <= i && i + |r| <= |s| && r == s[i..i + |r|]
      && (forall j :: 0 <= j < i ==> IsWhitespace(s[j]))
      && (forall j :: i + |r| <= j < |s| ==> IsWhitespace(s[j]))
  {
    var t := TrimStart(s);
    TrimStartSpec(s);
    TrimEndSpec(t);
    var r, i := TrimEnd(t), |s| - |t|;
    assert t == s[i..];
    assert r == s[i..i + |r|];
    forall j | i + |r| <= j < |s|
      ensures IsWhitespace(s[j])
    {
      assert s[j] == t[j - i];
    }
  }

  /** StripSpec with the two whitespace runs as strings. */
  lemma StripPieces(s: string)
    ensures var r, a := Strip(s), |s| - |TrimStart(s)|;
      && 0 <= a && a + |r| <= |s| && s[a..a + |r|] == r
      && AllWhitespace(s[..a]) && AllWhitespace(s[a + |r|..])
  {
    StripSpec(s);
  }

  /** A string with no whitespace at its ends is its own Strip. */
  lemma StripUntouched(s: string)
    requires s == [] || (!IsWhitespace(s[0]) && !IsWhitespace(s[|s| - 1]))
    ensures Strip(s) == s
  {
    TrimStartSpec(s);
    TrimEndSpec(s);
  }

  /** Strip leaves a first character that is not whitespace in place. */
  lemma StripKeepsFirst(s: string)
    requires |s| > 0 && !IsWhitespace(s[0])
    ensures |Strip(s)| > 0 && Strip(s)[0] == s[0]
  {
    assert TrimStart(s) == s;
    TrimEndKeepsFirst(s);
  }

  /** TrimEnd stops at a first character that is not whitespace. */
  lemma {:induction false} TrimEndKeepsFirst(s: string)
    requires |s| > 0 && !IsWhitespace(s[0])
    ensures |TrimEnd(s)| > 0 && TrimEnd(s)[0] == s[0]
  {
    if IsWhitespace(s[|s| - 1]) {
      assert |s| > 1;
      TrimEndKeepsFirst(s[..|s| - 1]);
    }
  }

  predicate AllWhitespace(w: string)
  {
    forall i :: 0 <= i < |w| ==> IsWhitespace(w[i])
  }

  /**
   * A string made of a whitespace run, a middle piece with no whitespace
   * at its ends, and another whitespace run strips to the middle piece.
   */
  lemma StripBetween(s: string, a: nat, b: nat)
    requires a < b <= |s| && !IsWhitespace(s[a]) && !IsWhitespace(s[b - 1])
    requires AllWhitespace(s[..a]) && AllWhitespace(s[b..])
    ensures Strip(s) == s[a..b]
  {
    TrimStartBefore(s, a);
    TrimEndAfter(s[a..], b - a);
    assert s[a..][..b - a] == s[a..b];
  }

  lemma {:induction false} TrimStartBefore(s: string, a: nat)
    requires a < |s| && AllWhitespace(s[..a]) && !IsWhitespace(s[a])
    ensures TrimStart(s) == s[a..]
  {
    if a > 0 {
      assert IsWhitespace(s[..a][0]);
      assert s[1..][..a - 1] == s[1..a];
      TrimStartBefore(s[1..], a - 1);
      assert s[1..][a - 1..] == s[a..];
    }
  }

  lemma {:induction false} TrimEndAfter(t: string, b: nat)
    requires 0 < b <= |t| && AllWhitespace(t[b..]) && !IsWhitespace(t[b - 1])
    ensures TrimEnd(t) == t[..b]
  {
    if b < |t| {
      assert IsWhitespace(t[b..][|t| - 1 - b]);
      assert t[..|t| - 1][b..] == t[b..|t| - 1];
      TrimEndAfter(t[..|t| - 1], b);
      assert t[..|t| - 1][..b] == t[..b];
    }
  }

  /** Stripping twice is stripping once. */
  lemma StripIdempotent(s: string)
    ensures Strip(Strip(s)) == Strip(s)
  {
    StripSpec(s);
    StripUntouched(Strip(s));
  }

  function UpperChar(c: char): char
  {
    if 'a' <= c <= 'z' then (c as int - 32) as char else c
  }

  function LowerChar(c: char): char
  {
    if 'A' <= c <= 'Z' then (c as int + 32) as char else c
  }

  /** s with f applied to every character. */
  function MapChars(s: string, f: char -> char): (r: string)
  {
    seq(|s|, i requires 0 <= i < |s| => f(s[i]))
  }

  /** Python's `s.upper()`, on ASCII letters. */
  function Upper(s: string): string
  {
    MapChars(s, UpperChar)
  }

  /** Python's `s.lower()`, on ASCII letters. */
  function Lower(s: string): string
  {
    MapChars(s, LowerChar)
  }

  /** Upper-casing is idempotent, and upper-casing ignores an earlier lower-casing. */
  lemma UpperAbsorbs(s: string)
    ensures Upper(Upper(s)) == Upper(s)
    ensures Upper(Lower(s)) == Upper(s)
  {
    forall i | 0 <= i < |s|
      ensures Upper(Upper(s))[i] == Upper(s)[i] && Upper(Lower(s))[i] == Upper(s)[i]
    {
      UpperCharAbsorbs(s[i]);
    }
  }

  lemma UpperCharAbsorbs(c: char)
    ensures UpperChar(UpperChar(c)) == UpperChar(c)
    ensures UpperChar(LowerChar(c)) == UpperChar(c)
  {
    if 'a' <= c <= 'z' {
      assert 'A' as int <= UpperChar(c) as int <= 'Z' as int;
    } else if 'A' <= c <= 'Z' {
      assert 'a' as int <= LowerChar(c) as int <= 'z' as int;
    }
  }

  /** A character map that leaves whitespace as whitespace and nothing else. */
  ghost predicate KeepsWhitespace(f: char -> char)
  {
    forall c :: IsWhitespace(f(c)) <==> IsWhitespace(c)
  }

  lemma CaseMapsKeepWhitespace()
    ensures KeepsWhitespace(UpperChar) && KeepsWhitespace(LowerChar)
  {
  }

  lemma {:induction false} TrimStartMapChars(s: string, f: char -> char)
    requires KeepsWhitespace(f)
    ensures TrimStart(MapChars(s, f)) == MapChars(TrimStart(s), f)
  {
    if |s| > 0 && IsWhitespace(s[0]) {
      assert MapChars(s, f)[1..] == MapChars(s[1..], f);
      TrimStartMapChars(s[1..], f);
    }
  }

  lemma {:induction false} TrimEndMapChars(s: string, f: char -> char)
    requires KeepsWhitespace(f)
    ensures TrimEnd(MapChars(s, f)) == MapChars(TrimEnd(s), f)
  {
    if |s| > 0 && IsWhitespace(s[|s| - 1]) {
      assert MapChars(s, f)[..|s| - 1] == MapChars(s[..|s| - 1], f);
      TrimEndMapChars(s[..|s| - 1], f);
    }
  }

  /**
   * Changing case and stripping commute, so `name.strip().upper()` and
   * `name.upper().strip()` (likewise for lower) name the same operation.
   */
  lemma StripMapChars(s: string, f: char -> char)
    requires KeepsWhitespace(f)
    ensures Strip(MapChars(s, f)) == MapChars(Strip(s), f)
  {
    TrimStartMapChars(s, f);
    TrimEndMapChars(TrimStart(s), f);
  }

  lemma StripUpper(s: string)
    ensures Strip(Upper(s)) == Upper(Strip(s))
    ensures Strip(Lower(s)) == Lower(Strip(s))
  {
    CaseMapsKeepWhitespace();
    StripMapChars(s, UpperChar);
    StripMapChars(s, LowerChar);
  }
}
