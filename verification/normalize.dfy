/**
 * The value normalisers of the screener: `clean_to_float`, which turns a
 * scraped table cell into a number, and `sanitize`, which turns a provider
 * value into a sheet cell, rounding to two decimals and expanding the
 * B/M/K suffixes. Floating point is replaced by exact reals.
 */
module Normalize {
  import opened Wrappers
  import opened Text

  /** A value written to the sheet: a number, a string (the sentinel 'N/A'
      among them) or Python's None. */
  datatype Cell = Num(x: real) | Str(s: string) | Blank

  const NotAvailable: Cell := Str("N/A")

  /** The typographic minus sign U+2212 that the fundamentals site prints. */
  const UnicodeMinus: char := '\U{2212}'

  // ---------------------------------------------------------------------
  // float(): the decimal sub-grammar [+|-] digits [. digits], surrounding
  // whitespace allowed, at least one digit.

  function ParseUnsigned(s: string): (r: Option<real>)
    ensures r.Some? ==> r.value >= 0.0
  {
    match IndexOf(s, '.')
    case None =>
      if |s| > 0 && AllDigits(s) then Some(DigitsValue(s) as real) else None
    case Some(k) =>
      var whole := s[..k];
      var frac := s[k + 1..];
      if |whole| + |frac| > 0 && AllDigits(whole) && AllDigits(frac)
      then Some(DigitsValue(whole) as real + FractionValue(frac))
      else None
  }

  /** The value of the digits after a decimal point: "25" is 0.25. */
  function FractionValue(frac: string): (r: real)
    requires AllDigits(frac)
    ensures 0.0 <= r < 1.0
    decreases |frac|
  {
    if |frac| == 0 then 0.0 else (DigitValue(frac[0]) as real + FractionValue(frac[1..])) / 10.0
  }

  function Negate(r: Option<real>): Option<real>
  {
    match r
    case None => None
    case Some(x) => Some(-x)
  }

  /** Python's float(s) on the modelled grammar; None where float raises,
      as it does on an empty or blank string. Only the IsFloatSpace blanks
      are skipped around the number: the separators 0x1C to 0x1F, which
      str.strip removes, make float() raise. */
  function ParseFloat(s: string): (r: Option<real>)
    ensures (forall k :: 0 <= k < |s| ==> IsSpace(s[k])) ==> r.None?
  {
    TrimFacts(s, IsFloatSpace);
    var t := Trim(s, IsFloatSpace);
    assert (forall k :: 0 <= k < |s| ==> IsSpace(s[k])) ==> (forall k :: 0 <= k < |t| ==> IsSpace(t[k]));
    ParseSignedBlank(t);
    ParseSigned(t)
  }

  /** float() reads the number left after cutting off the IsFloatSpace
      blanks, and only those, at either end. */
  lemma ParseFloatTrims(s: string)
    ensures exists i, j :: (0 <= i <= j <= |s| && ParseSigned(s[i..j]) == ParseFloat(s) &&
                            (forall k :: 0 <= k < i ==> IsFloatSpace(s[k])) &&
                            (forall k :: j <= k < |s| ==> IsFloatSpace(s[k])) &&
                            (i < j ==> !IsFloatSpace(s[i]) && !IsFloatSpace(s[j - 1])))
  {
    TrimFacts(s, IsFloatSpace);
    var i, j :| 0 <= i <= j <= |s| && Trim(s, IsFloatSpace) == s[i..j] &&
                (forall k :: 0 <= k < i ==> IsFloatSpace(s[k])) &&
                (forall k :: j <= k < |s| ==> IsFloatSpace(s[k])) &&
                (i < j ==> !IsFloatSpace(s[i]) && !IsFloatSpace(s[j - 1]));
    assert ParseSigned(s[i..j]) == ParseFloat(s);
  }

  /** No number is made of blanks alone. */
  lemma ParseSignedBlank(t: string)
    ensures (forall k :: 0 <= k < |t| ==> IsSpace(t[k])) ==> ParseSigned(t).None?
  {
    if |t| > 0 && forall k :: 0 <= k < |t| ==> IsSpace(t[k]) {
      assert !IsDigit(t[0]);
      assert '.' !in t;
    }
  }

  /** float() skips the C whitespace around a number but not the
      separators 0x1C to 0x1F, on either side. */
  lemma ParseFloatSeparators()
    ensures ParseFloat(" 1\n") == Some(1.0)
    ensures ParseFloat("\U{001C}1") == None
    ensures ParseFloat("1\U{001F}") == None
  {
    ParseUnsignedDigits("1");
    TrimUnchanged("1", IsFloatSpace);
    assert TrimStart(" 1\n", IsFloatSpace) == TrimStart("1\n", IsFloatSpace);
    assert TrimEnd("1\n", IsFloatSpace) == TrimEnd("1", IsFloatSpace);
    TrimUnchanged("\U{001C}1", IsFloatSpace);
    TrimUnchanged("1\U{001F}", IsFloatSpace);
    assert !AllDigits("\U{001C}1") && !AllDigits("1\U{001F}");
    assert IndexOf("\U{001C}1", '.').None? && IndexOf("1\U{001F}", '.').None?;
  }

  /** An optional sign followed by an unsigned decimal. */
  function ParseSigned(t: string): Option<real>
  {
    if |t| > 0 && t[0] == '-' then Negate(ParseUnsigned(t[1..]))
    else if |t| > 0 && t[0] == '+' then ParseUnsigned(t[1..])
    else ParseUnsigned(t)
  }

  /** float() accepts the decimal rendering of every natural. */
  lemma ParseFloatOfNat(n: nat)
    ensures ParseFloat(NatToString(n)) == Some(n as real)
  {
    NatToStringRoundTrip(n);
    ParseFloatDigits(NatToString(n));
  }

  /** ... and of its negation. */
  lemma ParseFloatOfNegatedNat(n: nat)
    ensures ParseFloat("-" + NatToString(n)) == Some(-(n as real))
  {
    NatToStringRoundTrip(n);
    ParseFloatDigits(NatToString(n));
  }

  /** float() reads a plain digit string, with or without a leading '-'. */
  lemma ParseFloatDigits(s: string)
    requires |s| > 0 && AllDigits(s)
    ensures ParseFloat(s) == Some(DigitsValue(s) as real)
    ensures ParseFloat("-" + s) == Some(-(DigitsValue(s) as real))
  {
    ParseUnsignedDigits(s);
    assert IsDigit(s[0]) && IsDigit(s[|s| - 1]);
    ParseFloatSign(s, DigitsValue(s) as real);
  }

  lemma ParseUnsignedDigits(s: string)
    requires |s| > 0 && AllDigits(s)
    ensures ParseUnsigned(s) == Some(DigitsValue(s) as real)
  {
    assert !IsDigit('.');
    assert IndexOf(s, '.').None?;
  }

  lemma StripUnchanged(s: string)
    requires |s| > 0 && !IsSpace(s[0]) && !IsSpace(s[|s| - 1])
    ensures Strip(s) == s
  {
    TrimUnchanged(s, IsSpace);
  }

  // ---------------------------------------------------------------------
  // clean_to_float

  /** Python's s.replace(c, rep) for a single character `c`. */
  function ReplaceChar(s: string, c: char, rep: string): string
    decreases |s|
  {
    if |s| == 0 then []
    else (if s[0] == c then rep else [s[0]]) + ReplaceChar(s[1..], c, rep)
  }

  /** What a replacement removes, keeps out, and leaves untouched. */
  lemma {:induction false} ReplaceCharFacts(s: string, c: char, rep: string, d: char)
    ensures c !in rep ==> c !in ReplaceChar(s, c, rep)
    ensures d !in s && d !in rep ==> d !in ReplaceChar(s, c, rep)
    ensures c !in s ==> ReplaceChar(s, c, rep) == s
    decreases |s|
  {
    if |s| > 0 {
      ReplaceCharFacts(s[1..], c, rep, d);
    }
  }

  /** The rewriting chain of clean_to_float: drop thousands separators,
      turn the typographic minus and an opening parenthesis into '-',
      drop closing parentheses. */
  function CleanText(s: string): (r: string)
    ensures ',' !in r && UnicodeMinus !in r && '(' !in r && ')' !in r
  {
    var s1 := ReplaceChar(s, ',', "");
    var s2 := ReplaceChar(s1, UnicodeMinus, "-");
    var s3 := ReplaceChar(s2, '(', "-");
    ReplaceCharFacts(s, ',', "", ',');
    ReplaceCharFacts(s1, UnicodeMinus, "-", ',');
    ReplaceCharFacts(s2, '(', "-", ',');
    ReplaceCharFacts(s3, ')', "", ',');
    ReplaceCharFacts(s1, UnicodeMinus, "-", UnicodeMinus);
    ReplaceCharFacts(s2, '(', "-", UnicodeMinus);
    ReplaceCharFacts(s3, ')', "", UnicodeMinus);
    ReplaceCharFacts(s2, '(', "-", '(');
    ReplaceCharFacts(s3, ')', "", '(');
    ReplaceCharFacts(s3, ')', "", ')');
    ReplaceChar(ReplaceChar(ReplaceChar(ReplaceChar(s, ',', ""), UnicodeMinus, "-"), '(', "-"), ')', "")
  }

  /** The rewrite of each targeted character on its own. */
  lemma CleanTextOfMarks()
    ensures CleanText(",") == "" && CleanText([UnicodeMinus]) == "-"
    ensures CleanText("(") == "-" && CleanText(")") == ""
  {
    assert ReplaceChar(",", ',', "") == "";
    assert ReplaceChar([UnicodeMinus], ',', "") == [UnicodeMinus];
    assert ReplaceChar("(", ',', "") == "(";
    assert ReplaceChar(")", ',', "") == ")";
  }

  /** The rewrite leaves none of the characters it targets, so applying it
      twice is the same as applying it once. */
  lemma CleanTextNormalForm(s: string)
    ensures ',' !in CleanText(s) && UnicodeMinus !in CleanText(s)
    ensures '(' !in CleanText(s) && ')' !in CleanText(s)
    ensures CleanText(CleanText(s)) == CleanText(s)
  {
    var s1 := ReplaceChar(s, ',', "");
    var s2 := ReplaceChar(s1, UnicodeMinus, "-");
    var s3 := ReplaceChar(s2, '(', "-");
    var s4 := ReplaceChar(s3, ')', "");
    ReplaceCharFacts(s, ',', "", ',');
    ReplaceCharFacts(s1, UnicodeMinus, "-", ',');
    ReplaceCharFacts(s2, '(', "-", ',');
    ReplaceCharFacts(s3, ')', "", ',');
    ReplaceCharFacts(s2, '(', "-", UnicodeMinus);
    ReplaceCharFacts(s3, ')', "", UnicodeMinus);
    ReplaceCharFacts(s1, UnicodeMinus, "-", UnicodeMinus);
    ReplaceCharFacts(s3, ')', "", '(');
    ReplaceCharFacts(s2, '(', "-", '(');
    ReplaceCharFacts(s3, ')', "", ')');
    ReplaceCharFacts(s4, ',', "", ',');
    ReplaceCharFacts(s4, UnicodeMinus, "-", ',');
    ReplaceCharFacts(s4, '(', "-", ',');
    ReplaceCharFacts(s4, ')', "", ',');
  }

  /** clean_to_float: None stays None; otherwise rewrite and parse, None on
      failure. A cell with none of the marks the rewrite touches reads
      exactly as float() reads it. */
  function CleanToFloat(v: Option<string>): (r: Option<real>)
    ensures v.None? ==> r.None?
    ensures v.Some? && Unmarked(v.value) ==> r == ParseFloat(v.value)
  {
    match v
    case None => None
    case Some(s) => CleanTextUnmarked(s); ParseFloat(CleanText(s))
  }

  /** No thousands separator, typographic minus or parenthesis. */
  predicate Unmarked(s: string)
  {
    ',' !in s && UnicodeMinus !in s && '(' !in s && ')' !in s
  }

  lemma CleanTextUnmarked(s: string)
    ensures Unmarked(s) ==> CleanText(s) == s
  {
    if Unmarked(s) {
      ReplaceCharFacts(s, ',', "", ',');
      ReplaceCharFacts(s, UnicodeMinus, "-", ',');
      ReplaceCharFacts(s, '(', "-", ',');
      ReplaceCharFacts(s, ')', "", ',');
    }
  }

  /** float() reads "w.f" as w + f / 10^|f|, with an optional leading '-'. */
  lemma ParseFloatDecimal(whole: string, frac: string)
    requires |whole| > 0 && AllDigits(whole) && |frac| > 0 && AllDigits(frac)
    ensures ParseFloat(whole + "." + frac) == Some(DecimalValue(whole, frac))
    ensures ParseFloat("-" + (whole + "." + frac)) == Some(-DecimalValue(whole, frac))
  {
    var u := whole + "." + frac;
    ParseUnsignedDecimal(whole, frac);
    assert IsDigit(u[0]) by { assert u[0] == whole[0]; }
    assert IsDigit(u[|u| - 1]) by { assert u[|u| - 1] == frac[|frac| - 1]; }
    ParseFloatSign(u, DecimalValue(whole, frac));
  }

  lemma ParseUnsignedDecimal(whole: string, frac: string)
    requires |whole| > 0 && AllDigits(whole) && |frac| > 0 && AllDigits(frac)
    ensures ParseUnsigned(whole + "." + frac) == Some(DecimalValue(whole, frac))
  {
    var u := whole + "." + frac;
    assert u[|whole|] == '.' && u[..|whole|] == whole && u[|whole| + 1..] == frac;
    assert forall i :: 0 <= i < |whole| ==> whole[i] != '.';
    IndexOfFirst(u, '.', |whole|);
  }

  /** A leading '-' negates; an unsigned, unpadded string is read as is. */
  lemma ParseFloatSign(u: string, d: real)
    requires |u| > 0 && !IsFloatSpace(u[0]) && !IsFloatSpace(u[|u| - 1]) && u[0] != '-' && u[0] != '+'
    requires ParseUnsigned(u) == Some(d)
    ensures ParseFloat(u) == Some(d)
    ensures ParseFloat("-" + u) == Some(-d)
  {
    TrimUnchanged(u, IsFloatSpace);
    var v := "-" + u;
    TrimUnchanged(v, IsFloatSpace);
    assert v[1..] == u;
  }

  function DecimalValue(whole: string, frac: string): real
    requires AllDigits(whole) && AllDigits(frac)
  {
    DigitsValue(whole) as real + FractionValue(frac)
  }

  lemma {:induction false} ReplaceCharConcat(a: string, b: string, c: char, rep: string)
    ensures ReplaceChar(a + b, c, rep) == ReplaceChar(a, c, rep) + ReplaceChar(b, c, rep)
    decreases |a|
  {
    if |a| == 0 {
      assert a + b == b;
    } else {
      assert (a + b)[0] == a[0] && (a + b)[1..] == a[1..] + b;
      ReplaceCharConcat(a[1..], b, c, rep);
    }
  }

  /** The rewrite works character by character, so it distributes over
      concatenation. */
  lemma CleanTextConcat(a: string, b: string)
    ensures CleanText(a + b) == CleanText(a) + CleanText(b)
  {
    var a1 := ReplaceChar(a, ',', "");
    var b1 := ReplaceChar(b, ',', "");
    var a2 := ReplaceChar(a1, UnicodeMinus, "-");
    var b2 := ReplaceChar(b1, UnicodeMinus, "-");
    var a3 := ReplaceChar(a2, '(', "-");
    var b3 := ReplaceChar(b2, '(', "-");
    ReplaceCharConcat(a, b, ',', "");
    ReplaceCharConcat(a1, b1, UnicodeMinus, "-");
    ReplaceCharConcat(a2, b2, '(', "-");
    ReplaceCharConcat(a3, b3, ')', "");
  }

  /** Digits and the decimal point survive the rewrite unchanged. */
  lemma CleanTextKeepsNumber(s: string)
    requires forall i :: 0 <= i < |s| ==> IsDigit(s[i]) || s[i] == '.'
    ensures CleanText(s) == s
  {
    var s1 := ReplaceChar(s, ',', "");
    ReplaceCharFacts(s, ',', "", ',');
    ReplaceCharFacts(s, UnicodeMinus, "-", ',');
    ReplaceCharFacts(s, '(', "-", ',');
    ReplaceCharFacts(s, ')', "", ',');
    assert ',' !in s && UnicodeMinus !in s && '(' !in s && ')' !in s;
  }

  /** An accounting negative "(w.f)", and a value led by the typographic
      minus, read as the negative of w.f. */
  lemma CleanToFloatNegatives(whole: string, frac: string)
    requires |whole| > 0 && AllDigits(whole) && |frac| > 0 && AllDigits(frac)
    ensures CleanToFloat(Some("(" + (whole + "." + frac) + ")")) == Some(-DecimalValue(whole, frac))
    ensures CleanToFloat(Some([UnicodeMinus] + (whole + "." + frac))) == Some(-DecimalValue(whole, frac))
  {
    var u := whole + "." + frac;
    CleanTextDecimal(whole, frac);
    CleanTextParenthesised(u);
    CleanTextMinusSign(u);
    ParseFloatDecimal(whole, frac);
  }

  /** A run of digits with thousands separators, such as "1,23,456". */
  predicate GroupedDigits(w: string)
  {
    forall i :: 0 <= i < |w| ==> IsDigit(w[i]) || w[i] == ','
  }

  /** Dropping the separators of a digit group leaves plain digits. */
  lemma {:induction false} DropSeparatorsDigits(w: string)
    requires GroupedDigits(w)
    ensures AllDigits(ReplaceChar(w, ',', ""))
    decreases |w|
  {
    if |w| > 0 {
      DropSeparatorsDigits(w[1..]);
    }
  }

  /** The rewrite only drops the separators of a digit group. */
  lemma CleanTextGrouped(w: string)
    requires GroupedDigits(w)
    ensures CleanText(w) == ReplaceChar(w, ',', "")
  {
    var d := ReplaceChar(w, ',', "");
    DropSeparatorsDigits(w);
    assert UnicodeMinus !in d && '(' !in d && ')' !in d by {
      forall i | 0 <= i < |d| ensures IsDigit(d[i]) { }
    }
    ReplaceCharFacts(d, UnicodeMinus, "-", ',');
    ReplaceCharFacts(d, '(', "-", ',');
    ReplaceCharFacts(d, ')', "", ',');
  }

  /** Parentheses around a value, or a typographic minus before it, become
      a leading '-' in front of the rewritten value. */
  lemma CleanTextNegated(u: string)
    ensures CleanText("(" + u + ")") == "-" + CleanText(u)
    ensures CleanText([UnicodeMinus] + u) == "-" + CleanText(u)
  {
    CleanTextConcat("(" + u, ")");
    CleanTextConcat("(", u);
    CleanTextOfMarks();
    CleanTextConcat([UnicodeMinus], u);
  }

  /** A cell with thousands separators, "1,23,456.78", reads as the number
      whose digits `d` they group; in parentheses, or after the typographic
      minus, as its negative. */
  lemma CleanToFloatGrouped(w: string, frac: string, d: string)
    requires GroupedDigits(w) && d == ReplaceChar(w, ',', "") && |d| > 0 && |frac| > 0 && AllDigits(frac)
    ensures AllDigits(d)
    ensures CleanToFloat(Some(w + "." + frac)) == Some(DecimalValue(d, frac))
    ensures CleanToFloat(Some("(" + (w + "." + frac) + ")")) == Some(-DecimalValue(d, frac))
    ensures CleanToFloat(Some([UnicodeMinus] + (w + "." + frac))) == Some(-DecimalValue(d, frac))
  {
    DropSeparatorsDigits(w);
    CleanTextGroupedDecimal(w, frac);
    CleanToFloatDecimalText(w + "." + frac, d, frac);
  }

  /** A whole figure with thousands separators, "1,23,456", reads as the
      number its digits `d` form; in parentheses, or after the typographic
      minus, as its negative. */
  lemma CleanToFloatGroupedWhole(w: string, d: string)
    requires GroupedDigits(w) && d == ReplaceChar(w, ',', "") && |d| > 0
    ensures AllDigits(d)
    ensures CleanToFloat(Some(w)) == Some(DigitsValue(d) as real)
    ensures CleanToFloat(Some("(" + w + ")")) == Some(-(DigitsValue(d) as real))
    ensures CleanToFloat(Some([UnicodeMinus] + w)) == Some(-(DigitsValue(d) as real))
  {
    DropSeparatorsDigits(w);
    CleanTextGrouped(w);
    CleanTextNegated(w);
    ParseFloatDigits(d);
  }

  /** The sales figure "1,234" reads as 1234, and "(1,234)" as -1234. */
  lemma CleanToFloatThousands()
    ensures CleanToFloat(Some("1,234")) == Some(1234.0)
    ensures CleanToFloat(Some("(1,234)")) == Some(-1234.0)
  {
    AccountingDigits();
    assert "(1,234)" == "(" + "1,234" + ")";
    CleanToFloatGroupedWhole("1,234", "1234");
  }

  /** A value whose rewrite is the decimal "d.f" reads as d.f, and as its
      negative in parentheses or after the typographic minus. */
  lemma CleanToFloatDecimalText(u: string, d: string, frac: string)
    requires |d| > 0 && AllDigits(d) && |frac| > 0 && AllDigits(frac)
    requires CleanText(u) == d + "." + frac
    ensures CleanToFloat(Some(u)) == Some(DecimalValue(d, frac))
    ensures CleanToFloat(Some("(" + u + ")")) == Some(-DecimalValue(d, frac))
    ensures CleanToFloat(Some([UnicodeMinus] + u)) == Some(-DecimalValue(d, frac))
  {
    ParseFloatDecimal(d, frac);
    CleanTextNegated(u);
  }

  lemma CleanTextGroupedDecimal(w: string, frac: string)
    requires GroupedDigits(w) && AllDigits(frac)
    ensures CleanText(w + "." + frac) == ReplaceChar(w, ',', "") + "." + frac
  {
    var t := "." + frac;
    CleanTextGrouped(w);
    assert w + "." + frac == w + t;
    CleanTextConcat(w, t);
    CleanTextFraction(frac);
  }

  lemma CleanTextFraction(frac: string)
    requires AllDigits(frac)
    ensures CleanText("." + frac) == "." + frac
  {
    var t := "." + frac;
    forall i | 0 <= i < |t|
      ensures IsDigit(t[i]) || t[i] == '.'
    {
      if i > 0 { assert t[i] == frac[i - 1]; }
    }
    CleanTextKeepsNumber(t);
  }

  /** The accounting figure "(1,234.5)" reads as -1234.5. */
  lemma CleanToFloatAccounting()
    ensures CleanToFloat(Some("(1,234.5)")) == Some(-1234.5)
  {
    AccountingDigits();
    AccountingText();
    CleanToFloatGrouped("1,234", "5", "1234");
  }

  lemma AccountingText()
    ensures "(1,234.5)" == "(" + ("1,234" + "." + "5") + ")"
  {
  }

  lemma AccountingDigits()
    ensures GroupedDigits("1,234") && ReplaceChar("1,234", ',', "") == "1234"
    ensures AllDigits("1234") && AllDigits("5") && DecimalValue("1234", "5") == 1234.5
    ensures DigitsValue("1234") == 1234
  {
    assert GroupedDigits("1,234");
    assert DigitsValue("1234") == 1234 by {
      assert NatToString(1234) == "1234";
      NatToStringRoundTrip(1234);
    }
    assert FractionValue("5") == 0.5;
  }

  /** Digits and the decimal point survive the rewrite unchanged. */
  lemma CleanTextDecimal(whole: string, frac: string)
    requires AllDigits(whole) && AllDigits(frac)
    ensures CleanText(whole + "." + frac) == whole + "." + frac
  {
    var u := whole + "." + frac;
    forall i | 0 <= i < |u|
      ensures IsDigit(u[i]) || u[i] == '.'
    {
      if i < |whole| {
        assert u[i] == whole[i];
      } else if i > |whole| {
        assert u[i] == frac[i - |whole| - 1];
      }
    }
    CleanTextKeepsNumber(u);
  }

  lemma CleanTextParenthesised(u: string)
    requires CleanText(u) == u
    ensures CleanText("(" + u + ")") == "-" + u
  {
    CleanTextConcat("(" + u, ")");
    CleanTextConcat("(", u);
    CleanTextOfMarks();
  }

  lemma CleanTextMinusSign(u: string)
    requires CleanText(u) == u
    ensures CleanText([UnicodeMinus] + u) == "-" + u
  {
    CleanTextConcat([UnicodeMinus], u);
    CleanTextOfMarks();
  }

  /** Thousands separators are dropped wherever they appear. */
  lemma CleanTextDropsSeparators(a: string, b: string)
    ensures CleanText(a + "," + b) == CleanText(a) + CleanText(b)
  {
    CleanTextConcat(a + ",", b);
    CleanTextConcat(a, ",");
    CleanTextOfMarks();
  }

  // ---------------------------------------------------------------------
  // round(x, 2) and sanitize

  predicate HasTwoDecimals(x: real)
  {
    (x * 100.0).Floor as real == x * 100.0
  }

  function Abs(x: real): real
  {
    if x < 0.0 then -x else x
  }

  /** round(x, 2) on exact reals: nearest multiple of 1/100, ties to even. */
  function Round2(x: real): (r: real)
    ensures HasTwoDecimals(r)
    ensures Abs(r - x) <= 0.005
  {
    var scaled := x * 100.0;
    var n := scaled.Floor;
    var frac := scaled - n as real;
    var m := if frac < 0.5 then n
             else if frac > 0.5 then n + 1
             else if n % 2 == 0 then n else n + 1;
    assert (m as real / 100.0) * 100.0 == m as real;
    m as real / 100.0
  }

  /** Rounding keeps the sign and leaves already rounded values alone. */
  lemma Round2Properties(x: real)
    ensures x >= 0.0 ==> Round2(x) >= 0.0
    ensures x <= 0.0 ==> Round2(x) <= 0.0
    ensures HasTwoDecimals(x) ==> Round2(x) == x
  {
  }

  /** The Python values sanitize is applied to. */
  datatype Raw =
    | RNone              // None
    | RNonFinite         // a float that is NaN or infinite
    | RFloat(x: real)    // a finite float
    | RInt(i: int)       // an int
    | RStr(s: string)    // a str

  /** The multiplier a trailing B/M/K (either case) stands for. */
  function SuffixFactor(c: char): Option<real>
  {
    if c == 'B' || c == 'b' then Some(1000000000.0)
    else if c == 'M' || c == 'm' then Some(1000000.0)
    else if c == 'K' || c == 'k' then Some(1000.0)
    else None
  }

  /** The numeric value of a cleaned string with an optional B/M/K suffix:
      the suffix is dropped and the rest scaled, else the whole is parsed. */
  function SuffixedValue(cleaned: string): (r: Option<real>)
    ensures (forall k :: 0 <= k < |cleaned| ==> IsSpace(cleaned[k])) ==> r.None?
  {
    var n := |cleaned|;
    if n > 0 && SuffixFactor(cleaned[n - 1]).Some?
    then Times(ParseFloat(cleaned[..n - 1]), SuffixFactor(cleaned[n - 1]).value)
    else ParseFloat(cleaned)
  }

  function Times(r: Option<real>, factor: real): Option<real>
  {
    match r
    case None => None
    case Some(x) => Some(x * factor)
  }

  /** The number a provider string stands for: commas dropped, surrounding
      blanks stripped, and an optional B/M/K suffix expanded. */
  function StringValue(s: string): Option<real>
  {
    SuffixedValue(Strip(ReplaceChar(s, ',', "")))
  }

  /** sanitize on a string: its number rounded to two decimals, or the
      string itself when it does not stand for one. */
  function SanitizeText(s: string): (r: Cell)
    ensures StringValue(s).None? <==> r == Str(s)
    ensures StringValue(s).Some? ==> r.Num? && HasTwoDecimals(r.x) && Abs(r.x - StringValue(s).value) <= 0.005
  {
    match StringValue(s)
    case Some(x) => Num(Round2(x))
    case None => Str(s)
  }

  /** sanitize: None and non-finite floats become 'N/A', numbers are rounded
      to two decimals (ints pass unchanged), strings are parsed after dropping
      commas and surrounding blanks, and a string that does not parse is
      returned as given. */
  function Sanitize(v: Raw): (r: Cell)
    ensures !r.Blank?
    ensures r.Num? ==> HasTwoDecimals(r.x) || v.RInt?
    ensures v.RNone? || v.RNonFinite? ==> r == NotAvailable
    ensures v.RFloat? ==> r.Num? && Abs(r.x - v.x) <= 0.005
    ensures v.RInt? ==> r == Num(v.i as real)
    ensures r.Str? ==> r == NotAvailable || v == RStr(r.s)
    ensures v.RStr? ==> (StringValue(v.s).None? <==> r == Str(v.s))
    ensures v.RStr? && StringValue(v.s).Some? ==> r.Num? && Abs(r.x - StringValue(v.s).value) <= 0.005
  {
    match v
    case RNone => NotAvailable
    case RNonFinite => NotAvailable
    case RFloat(x) => Num(Round2(x))
    case RInt(i) => Num(i as real)
    case RStr(s) => SanitizeText(s)
  }

  /** A number followed by a B/M/K suffix is scaled by 10^9, 10^6 or 10^3
      and then rounded. */
  lemma SanitizeSuffixed(u: string, d: real, suffix: char, factor: real)
    requires |u| > 0 && forall i :: 0 <= i < |u| ==> IsDigit(u[i]) || u[i] == '.'
    requires ParseUnsigned(u) == Some(d)
    requires SuffixFactor(suffix) == Some(factor)
    ensures Sanitize(RStr(u + [suffix])) == Num(Round2(d * factor))
  {
    var s := u + [suffix];
    assert ',' !in s by {
      forall i | 0 <= i < |s| ensures s[i] != ',' {
        if i < |u| { assert s[i] == u[i]; }
      }
    }
    ReplaceCharFacts(s, ',', "", ',');
    assert s[0] == u[0] && s[|s| - 1] == suffix;
    StripUnchanged(s);
    SuffixedValueOf(u, d, suffix, factor);
    SanitizeParsed(s, d * factor);
  }

  /** str.strip removes a trailing separator 0x1C but float() does not, so
      "1.5\x1cB" is returned as it is, while "1.5B" reads as 1.5e9. */
  lemma SanitizeKeepsSeparated()
    ensures Sanitize(RStr("1.5\U{001C}B")) == Str("1.5\U{001C}B")
  {
    StringValueSeparated();
  }

  lemma StringValueSeparated()
    ensures StringValue("1.5\U{001C}B") == None
  {
    SeparatedCleaned();
    SuffixedSeparated();
  }

  lemma SeparatedCleaned()
    ensures Strip(ReplaceChar("1.5\U{001C}B", ',', "")) == "1.5\U{001C}B"
  {
    var s := "1.5\U{001C}B";
    assert ',' !in s;
    ReplaceCharFacts(s, ',', "", ',');
    StripUnchanged(s);
  }

  lemma SuffixedSeparated()
    ensures SuffixedValue("1.5\U{001C}B") == None
  {
    var s := "1.5\U{001C}B";
    assert s[..|s| - 1] == "1.5\U{001C}" && SuffixFactor(s[|s| - 1]).Some?;
    ParseFloatSeparatedDecimal();
  }

  lemma ParseFloatSeparatedDecimal()
    ensures ParseFloat("1.5\U{001C}") == None
  {
    var u := "1.5\U{001C}";
    TrimUnchanged(u, IsFloatSpace);
    IndexOfFirst(u, '.', 1);
    assert u[2..] == "5\U{001C}" && !AllDigits(u[2..]);
  }

  lemma SanitizeParsed(s: string, x: real)
    requires StringValue(s) == Some(x)
    ensures Sanitize(RStr(s)) == Num(Round2(x))
  {
  }

  lemma SuffixedValueOf(u: string, d: real, suffix: char, factor: real)
    requires |u| > 0 && (u[0] == '.' || IsDigit(u[0])) && (u[|u| - 1] == '.' || IsDigit(u[|u| - 1]))
    requires ParseUnsigned(u) == Some(d)
    requires SuffixFactor(suffix) == Some(factor)
    ensures SuffixedValue(u + [suffix]) == Some(d * factor)
  {
    var s := u + [suffix];
    assert s[..|s| - 1] == u;
    assert s[|s| - 1] == suffix;
    ParseFloatSign(u, d);
    assert ParseFloat(s[..|s| - 1]) == Some(d);
  }

  /** The suffix expansion of sanitize on sample provider strings. */
  lemma SanitizeExamples()
    ensures Sanitize(RStr("1.5B")) == Num(1500000000.0)
    ensures Sanitize(RStr("250M")) == Num(250000000.0)
  {
    SanitizeBillions();
    SanitizeMillions();
  }

  lemma SanitizeBillions()
    ensures Sanitize(RStr("1.5B")) == Num(1500000000.0)
  {
    assert ParseUnsigned("1.5") == Some(1.5) by {
      assert "1.5" == "1" + "." + "5";
      ParseUnsignedDecimal("1", "5");
      assert DigitsValue("1") == 1;
      assert FractionValue("5") == 0.5;
    }
    assert forall i :: 0 <= i < |"1.5"| ==> IsDigit("1.5"[i]) || "1.5"[i] == '.';
    assert "1.5B" == "1.5" + ['B'];
    SanitizeSuffixed("1.5", 1.5, 'B', 1000000000.0);
    assert Round2(1500000000.0) == 1500000000.0 by {
      Round2Properties(1500000000.0);
    }
  }

  lemma SanitizeMillions()
    ensures Sanitize(RStr("250M")) == Num(250000000.0)
  {
    assert ParseUnsigned("250") == Some(250.0) by {
      assert NatToString(250) == "250";
      NatToStringRoundTrip(250);
      ParseUnsignedDigits("250");
    }
    assert forall i :: 0 <= i < |"250"| ==> IsDigit("250"[i]);
    assert "250M" == "250" + ['M'];
    SanitizeSuffixed("250", 250.0, 'M', 1000000.0);
    assert Round2(250000000.0) == 250000000.0 by {
      Round2Properties(250000000.0);
    }
  }
}
