/**
 * Spreadsheet A1 notation as the publisher builds it: a zero-based column
 * index becomes its bijective base-26 letter name (0 is "A", 25 is "Z",
 * 26 is "AA"), and a cell is its column name followed by its one-based row.
 */
module A1 {
  import opened Wrappers
  import opened Text

  predicate IsLetter(c: char)
  {
    'A' <= c <= 'Z'
  }

  /** chr(65 + d) */
  function Letter(d: nat): (c: char)
    requires d < 26
    ensures IsLetter(c)
  {
    (65 + d) as char
  }

  function LetterIndex(c: char): (d: nat)
    requires IsLetter(c)
    ensures d < 26 && Letter(d) == c
  {
    c as int - 65
  }

  /** A non-empty string of capital letters. */
  predicate IsColumnName(s: string)
  {
    |s| > 0 && forall k :: 0 <= k < |s| ==> IsLetter(s[k])
  }

  /** The name of column `i`: the last letter is i % 26 and the rest names
      column i / 26 - 1, until that drops below zero. */
  function ColumnName(i: nat): (r: string)
    ensures IsColumnName(r)
    decreases i
  {
    if i < 26 then [Letter(i)] else ColumnName(i / 26 - 1) + [Letter(i % 26)]
  }

  /** The column a name denotes: the inverse of ColumnName. */
  function ColumnIndex(s: string): nat
    requires IsColumnName(s)
    decreases |s|
  {
    if |s| == 1 then LetterIndex(s[0])
    else (ColumnIndex(s[..|s| - 1]) + 1) * 26 + LetterIndex(s[|s| - 1])
  }

  /** Every column index reads back from its name ... */
  lemma {:induction false} ColumnIndexOfName(i: nat)
    ensures ColumnIndex(ColumnName(i)) == i
    decreases i
  {
    if i >= 26 {
      var s := ColumnName(i);
      ColumnIndexOfName(i / 26 - 1);
      assert s[..|s| - 1] == ColumnName(i / 26 - 1);
      assert LetterIndex(s[|s| - 1]) == i % 26;
    }
  }

  /** ... and every name is the name of the column it denotes, so the two
      are inverse bijections between naturals and non-empty letter strings. */
  lemma {:induction false} ColumnNameOfIndex(s: string)
    requires IsColumnName(s)
    ensures ColumnName(ColumnIndex(s)) == s
    decreases |s|
  {
    if |s| > 1 {
      var p := s[..|s| - 1];
      assert IsColumnName(p);
      ColumnNameOfIndex(p);
      var i := ColumnIndex(s);
      var d := LetterIndex(s[|s| - 1]);
      assert i == (ColumnIndex(p) + 1) * 26 + d;
      assert i / 26 - 1 == ColumnIndex(p) && i % 26 == d;
      assert s == p + [s[|s| - 1]];
    }
  }

  lemma ColumnNameInjective(i: nat, j: nat)
    requires ColumnName(i) == ColumnName(j)
    ensures i == j
  {
    ColumnIndexOfName(i);
    ColumnIndexOfName(j);
  }

  /** Names grow by one letter at 26, 26 + 26^2, ...: the first two-letter
      and the first three-letter names. */
  lemma ColumnNameSamples()
    ensures ColumnName(0) == "A" && ColumnName(25) == "Z"
    ensures ColumnName(26) == "AA" && ColumnName(701) == "ZZ" && ColumnName(702) == "AAA"
  {
    assert ColumnName(26) == ColumnName(0) + [Letter(0)];
    assert ColumnName(701) == ColumnName(25) + [Letter(25)];
    assert ColumnName(702) == ColumnName(26) + [Letter(0)];
  }

  /** The publisher's letter loop: prepend chr(65 + idx % 26), then
      idx := idx // 26 - 1, while idx >= 0. A negative start leaves "". */
  method ColumnLetters(start: int) returns (name: string)
    ensures start >= 0 ==> name == ColumnName(start)
    ensures start < 0 ==> name == ""
  {
    name := "";
    if start < 0 {
      return;  // the loop condition fails at once
    }
    var idx := start;
    while idx >= 0
      invariant idx >= -1
      invariant ColumnName(start) == (if idx >= 0 then ColumnName(idx) else "") + name
      decreases idx + 1
    {
      ColumnLettersStep(start, idx, name);
      name := [Letter(idx % 26)] + name;
      idx := idx / 26 - 1;
    }
  }

  /** One pass of the letter loop: the last letter of the name still to
      build moves to the front of `name`, and the rest of it is empty once
      the quotient drops below zero. */
  lemma ColumnLettersStep(start: nat, idx: nat, name: string)
    requires ColumnName(start) == ColumnName(idx) + name
    ensures idx / 26 - 1 < idx
    ensures ColumnName(start) == (if idx / 26 - 1 >= 0 then ColumnName(idx / 26 - 1) else "") + ([Letter(idx % 26)] + name)
  {
    var rest := if idx / 26 - 1 >= 0 then ColumnName(idx / 26 - 1) else "";
    assert ColumnName(idx) == rest + [Letter(idx % 26)];
  }

  // ---------------------------------------------------------------------
  // Cells and ranges

  /** A cell: zero-based column index and one-based row number. */
  datatype CellRef = CellRef(col: nat, row: nat)

  datatype RangeRef = RangeRef(first: CellRef, last: CellRef)

  function CellText(c: CellRef): string
  {
    ColumnName(c.col) + NatToString(c.row)
  }

  function RangeText(r: RangeRef): string
  {
    CellText(r.first) + ":" + CellText(r.last)
  }

  /** Number of leading capital letters. */
  function LetterPrefix(s: string): (k: nat)
    ensures k <= |s|
    decreases |s|
  {
    if |s| > 0 && IsLetter(s[0]) then 1 + LetterPrefix(s[1..]) else 0
  }

  /** Reads "<letters><digits>" back into a cell. */
  function ParseCell(s: string): Option<CellRef>
  {
    var k := LetterPrefix(s);
    if 0 < k < |s| && AllDigits(s[k..]) && IsColumnName(s[..k])
    then Some(CellRef(ColumnIndex(s[..k]), DigitsValue(s[k..])))
    else None
  }

  /** Reads "<cell>:<cell>" back into a range. */
  function ParseRange(s: string): Option<RangeRef>
  {
    match IndexOf(s, ':')
    case None => None
    case Some(k) =>
      match (ParseCell(s[..k]), ParseCell(s[k + 1..]))
      case (Some(a), Some(b)) => Some(RangeRef(a, b))
      case _ => None
  }

  lemma {:induction false} LetterPrefixOf(a: string, b: string)
    requires forall k :: 0 <= k < |a| ==> IsLetter(a[k])
    requires |b| == 0 || !IsLetter(b[0])
    ensures LetterPrefix(a + b) == |a|
    decreases |a|
  {
    if |a| == 0 {
      assert a + b == b;
    } else {
      assert (a + b)[1..] == a[1..] + b;
      LetterPrefixOf(a[1..], b);
    }
  }

  /** Reading a rendered cell gives the cell back. */
  lemma ParseCellText(c: CellRef)
    ensures ParseCell(CellText(c)) == Some(c)
  {
    var name := ColumnName(c.col);
    var digits := NatToString(c.row);
    var s := name + digits;
    assert !IsLetter(digits[0]);
    LetterPrefixOf(name, digits);
    assert s[..|name|] == name && s[|name|..] == digits;
    ColumnIndexOfName(c.col);
    NatToStringRoundTrip(c.row);
  }

  /** Reading a rendered range gives the range back. */
  lemma ParseRangeText(r: RangeRef)
    ensures ParseRange(RangeText(r)) == Some(r)
  {
    var a := CellText(r.first);
    var b := CellText(r.last);
    var s := a + ":" + b;
    assert ':' !in a by {
      var name := ColumnName(r.first.col);
      var digits := NatToString(r.first.row);
      assert forall k :: 0 <= k < |a| ==> a[k] == (if k < |name| then name[k] else digits[k - |name|]);
    }
    assert s[|a|] == ':' && s[..|a|] == a && s[|a| + 1..] == b;
    IndexOfFirst(s, ':', |a|);
    ParseCellText(r.first);
    ParseCellText(r.last);
  }
}
