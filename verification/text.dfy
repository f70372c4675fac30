/**
 * String helpers shared by the screener model: the ASCII part of Python's
 * str.lower and str.strip, substring search, and decimal rendering of
 * naturals together with its inverse.
 */
module Text {
  import opened Wrappers

  /** Lower-cases ASCII capitals and leaves every other character alone. */
  function LowerChar(c: char): char
  {
    if 'A' <= c <= 'Z' then (c as int + 32) as char else c
  }

  function Lower(s: string): (r: string)
    ensures |r| == |s|
    ensures forall k :: 0 <= k < |s| ==> r[k] == LowerChar(s[k])
    decreases |s|
  {
    if |s| == 0 then [] else [LowerChar(s[0])] + Lower(s[1..])
  }

  /** Lower-casing agrees with a character-by-character check. */
  lemma LowerOf(s: string, l: string)
    requires |s| == |l| && forall k :: 0 <= k < |s| ==> LowerChar(s[k]) == l[k]
    ensures Lower(s) == l
  {
  }

  predicate StartsWith(s: string, prefix: string)
  {
    |prefix| <= |s| && s[..|prefix|] == prefix
  }

  /** Python's `sub in s`. */
  predicate Contains(s: string, sub: string)
    decreases |s|
  {
    StartsWith(s, sub) || (|s| > 0 && Contains(s[1..], sub))
  }

  /** The ASCII whitespace of C's isspace, which float() skips around a
      number: space, tab, line feed, vertical tab, form feed and carriage
      return. */
  predicate IsFloatSpace(c: char)
  {
    c == ' ' || '\t' <= c <= '\r'
  }

  /** The ASCII characters for which str.isspace holds, and so the ones
      str.strip() removes: the float() blanks and the four separators
      0x1C to 0x1F. */
  predicate IsSpace(c: char)
  {
    IsFloatSpace(c) || '\U{001C}' <= c <= '\U{001F}'
  }

  function TrimStart(s: string, blank: char -> bool): string
    decreases |s|
  {
    if |s| > 0 && blank(s[0]) then TrimStart(s[1..], blank) else s
  }

  function TrimEnd(s: string, blank: char -> bool): string
    decreases |s|
  {
    if |s| > 0 && blank(s[|s| - 1]) then TrimEnd(s[..|s| - 1], blank) else s
  }

  /** Removes the characters `blank` accepts from both ends. */
  function Trim(s: string, blank: char -> bool): (r: string)
    ensures |r| <= |s|
    ensures |r| > 0 ==> !blank(r[0]) && !blank(r[|r| - 1])
  {
    TrimStartFacts(s, blank);
    TrimEndFacts(TrimStart(s, blank), blank);
    TrimEnd(TrimStart(s, blank), blank)
  }

  /** Trimming removes exactly the surrounding blanks: what remains is a
      slice of the input with no blank at either end, and everything cut
      off on either side is blank. */
  lemma TrimFacts(s: string, blank: char -> bool)
    ensures exists i, j :: (0 <= i <= j <= |s| && Trim(s, blank) == s[i..j] &&
                            (forall k :: 0 <= k < i ==> blank(s[k])) &&
                            (forall k :: j <= k < |s| ==> blank(s[k])) &&
                            (i < j ==> !blank(s[i]) && !blank(s[j - 1])))
  {
    TrimStartFacts(s, blank);
    TrimEndFacts(TrimStart(s, blank), blank);
    var t := TrimStart(s, blank);
    var r := TrimEnd(t, blank);
    var i := |s| - |t|;
    assert r == s[i..i + |r|];
    assert forall k :: i + |r| <= k < |s| ==> s[k] == t[k - i];
    assert |r| > 0 ==> r[0] == s[i] && r[|r| - 1] == s[i + |r| - 1];
  }

  /** A string with no blank at either end is left as it is. */
  lemma TrimUnchanged(s: string, blank: char -> bool)
    requires |s| > 0 && !blank(s[0]) && !blank(s[|s| - 1])
    ensures Trim(s, blank) == s
  {
    assert TrimStart(s, blank) == s;
  }

  lemma {:induction false} TrimStartFacts(s: string, blank: char -> bool)
    ensures |TrimStart(s, blank)| <= |s| && TrimStart(s, blank) == s[|s| - |TrimStart(s, blank)|..]
    ensures |TrimStart(s, blank)| > 0 ==> !blank(TrimStart(s, blank)[0])
    ensures forall k :: 0 <= k < |s| - |TrimStart(s, blank)| ==> blank(s[k])
    decreases |s|
  {
    if |s| > 0 && blank(s[0]) {
      TrimStartFacts(s[1..], blank);
    }
  }

  lemma {:induction false} TrimEndFacts(s: string, blank: char -> bool)
    ensures |TrimEnd(s, blank)| <= |s| && TrimEnd(s, blank) == s[..|TrimEnd(s, blank)|]
    ensures |TrimEnd(s, blank)| > 0 ==> !blank(TrimEnd(s, blank)[|TrimEnd(s, blank)| - 1])
    ensures forall k :: |TrimEnd(s, blank)| <= k < |s| ==> blank(s[k])
    decreases |s|
  {
    if |s| > 0 && blank(s[|s| - 1]) {
      TrimEndFacts(s[..|s| - 1], blank);
    }
  }

  /** Python's str.strip() restricted to ASCII whitespace: no blank is left
      at either end. */
  function Strip(s: string): (r: string)
    ensures |r| <= |s|
    ensures |r| > 0 ==> !IsSpace(r[0]) && !IsSpace(r[|r| - 1])
  {
    Trim(s, IsSpace)
  }

  /** Stripping removes exactly the surrounding str.isspace blanks. */
  lemma StripFacts(s: string)
    ensures |Strip(s)| > 0 ==> !IsSpace(Strip(s)[0]) && !IsSpace(Strip(s)[|Strip(s)| - 1])
    ensures exists i, j :: (0 <= i <= j <= |s| && Strip(s) == s[i..j] &&
                            (forall k :: 0 <= k < i ==> IsSpace(s[k])) &&
                            (forall k :: j <= k < |s| ==> IsSpace(s[k])))
  {
    TrimFacts(s, IsSpace);
  }

  /** Index of the first occurrence of `c`, like str.find. The model's own
      readers use it: A1.ParseRange splits a range at ':' and
      Normalize.ParseUnsigned splits a decimal at '.'. */
  function IndexOf(s: string, c: char): (r: Option<nat>)
    ensures r.Some? ==> r.value < |s| && s[r.value] == c && c !in s[..r.value]
    ensures r.None? ==> c !in s
    decreases |s|
  {
    if |s| == 0 then None
    else if s[0] == c then Some(0)
    else match IndexOf(s[1..], c)
      case None => None
      case Some(k) => assert s[..k + 1] == [s[0]] + s[1..][..k]; Some(k + 1)
  }

  /** The first occurrence is found wherever it is; A1.ParseRangeText and
      the float lemmas locate the separator with it. */
  lemma {:induction false} IndexOfFirst(s: string, c: char, k: nat)
    requires k < |s| && s[k] == c && c !in s[..k]
    ensures IndexOf(s, c) == Some(k)
    decreases k
  {
    if k > 0 {
      assert s[0] == s[..k][0];
      assert s[1..][..k - 1] == s[..k][1..];
      IndexOfFirst(s[1..], c, k - 1);
    }
  }

  predicate IsDigit(c: char)
  {
    '0' <= c <= '9'
  }

  predicate AllDigits(s: string)
  {
    forall i :: 0 <= i < |s| ==> IsDigit(s[i])
  }

  function DigitValue(c: char): (d: nat)
    requires IsDigit(c)
    ensures d < 10
  {
    c as int - '0' as int
  }

  function DigitChar(d: nat): (c: char)
    requires d < 10
    ensures IsDigit(c) && DigitValue(c) == d
  {
    ('0' as int + d) as char
  }

  /** The natural number a string of decimal digits denotes (most significant first). */
  function DigitsValue(s: string): nat
    requires AllDigits(s)
    decreases |s|
  {
    if |s| == 0 then 0 else DigitsValue(s[..|s| - 1]) * 10 + DigitValue(s[|s| - 1])
  }

  function Pow10(k: nat): (p: nat)
    ensures p >= 1
  {
    if k == 0 then 1 else 10 * Pow10(k - 1)
  }

  /** Python's str(n) for a non-negative int: decimal, no leading zeros. */
  function NatToString(n: nat): (r: string)
    ensures |r| > 0 && AllDigits(r)
    decreases n
  {
    if n < 10 then [DigitChar(n)] else NatToString(n / 10) + [DigitChar(n % 10)]
  }

  /** Reading back a rendered number gives the number. */
  lemma {:induction false} NatToStringRoundTrip(n: nat)
    ensures DigitsValue(NatToString(n)) == n
    decreases n
  {
    if n >= 10 {
      NatToStringRoundTrip(n / 10);
      var s := NatToString(n);
      assert s[..|s| - 1] == NatToString(n / 10);
    }
  }

  /** A rendering has no leading zero unless it is the single digit 0. */
  lemma {:induction false} NatToStringNoLeadingZero(n: nat)
    ensures NatToString(n)[0] == '0' <==> n == 0
    decreases n
  {
    if n >= 10 {
      NatToStringNoLeadingZero(n / 10);
    }
  }
}
