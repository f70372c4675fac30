/**
 * What one publish writes: the header row, the data rows with their
 * percentage columns scaled, the A1 range the block goes to, and the
 * number formats applied to columns of it.
 */
module Publisher {
  import opened Wrappers
  import opened Text
  import opened Normalize
  import opened A1
  import opened Scraper
  import opened Fundamentals

  const BasicHeaders: seq<string> := [
    "Ticker", "Sector", "CMP", "PE", "PB", "EPS", "TTM Sales",
    "52W High", "52W Low", "Dividend Yield",
    "YoY EPS Growth", "YoY Sales Growth"
  ]

  const PriceChangeHeaders: seq<string> := [
    "1D %", "5D %", "1M %", "3M %", "6M %", "YTD %", "1Y %", "3Y %"
  ]

  /** Where the quarterly blocks start: after 12 basic and 8 price-change columns. */
  const FixedColumns: nat := 20

  function Suffixed(q: seq<string>, suffix: string): (r: seq<string>)
    ensures |r| == |q| && forall i :: 0 <= i < |q| ==> r[i] == q[i] + suffix
  {
    seq(|q|, i requires 0 <= i < |q| => q[i] + suffix)
  }

  /** create_full_headers */
  function CreateFullHeaders(q: seq<string>): (r: seq<string>)
    ensures |r| == FixedColumns + 3 * |q|
    ensures r[..12] == BasicHeaders && r[12..FixedColumns] == PriceChangeHeaders
    ensures forall i :: 0 <= i < |q| ==>
      r[FixedColumns + i] == q[i] + " EPS" &&
      r[FixedColumns + |q| + i] == q[i] + " Sales" &&
      r[FixedColumns + 2 * |q| + i] == q[i] + " Profit"
  {
    BasicHeaders + PriceChangeHeaders + Suffixed(q, " EPS") + Suffixed(q, " Sales") + Suffixed(q, " Profit")
  }

  /** Reads the quarter labels back out of a full header row, from its EPS block. */
  function QuarterLabels(headers: seq<string>): Option<seq<string>>
  {
    if |headers| < FixedColumns || (|headers| - FixedColumns) % 3 != 0 then None
    else
      var m := (|headers| - FixedColumns) / 3;
      Some(seq(m, i requires 0 <= i < m => DropSuffix(headers[FixedColumns + i], |" EPS"|)))
  }

  /** `s` without its last `n` characters. */
  function DropSuffix(s: string, n: nat): string
  {
    if |s| >= n then s[..|s| - n] else s
  }

  /** The quarter labels and the order they come in are recoverable from the
      header row, so different label lists give different header rows. */
  lemma QuarterLabelsRoundTrip(q: seq<string>)
    ensures QuarterLabels(CreateFullHeaders(q)) == Some(q)
  {
    var h := CreateFullHeaders(q);
    assert (|h| - FixedColumns) / 3 == |q|;
    var labels := QuarterLabels(h).value;
    assert |labels| == |q|;
    forall i | 0 <= i < |q|
      ensures labels[i] == q[i]
    {
      assert labels[i] == DropSuffix(h[FixedColumns + i], |" EPS"|);
      DropSuffixOf(q[i], " EPS");
    }
    assert labels == q;
  }

  lemma DropSuffixOf(a: string, suffix: string)
    ensures DropSuffix(a + suffix, |suffix|) == a
  {
    assert (a + suffix)[..|a|] == a;
  }

  lemma CreateFullHeadersInjective(q1: seq<string>, q2: seq<string>)
    requires CreateFullHeaders(q1) == CreateFullHeaders(q2)
    ensures q1 == q2
  {
    QuarterLabelsRoundTrip(q1);
    QuarterLabelsRoundTrip(q2);
  }

  // ---------------------------------------------------------------------
  // Percentage scaling

  /** Row indices 8 through 19 are divided by 100. */
  predicate IsPercentColumn(idx: int)
  {
    8 <= idx <= 19
  }

  /** The headers over the scaled columns: the 52W low price, the dividend
      yield, the two growth rates and the eight price changes. */
  lemma PercentColumnsNamed(q: seq<string>)
    ensures CreateFullHeaders(q)[8..FixedColumns] ==
      ["52W Low", "Dividend Yield", "YoY EPS Growth", "YoY Sales Growth"] + PriceChangeHeaders
  {
    var h := CreateFullHeaders(q);
    assert h[..FixedColumns] == BasicHeaders + PriceChangeHeaders;
  }

  /** float(value) / 100 for a value other than 'N/A'; a value float()
      rejects stays as it is. */
  function ScaleCell(c: Cell): (r: Cell)
    ensures c.Num? ==> r.Num? && r.x * 100.0 == c.x
    ensures c == NotAvailable || c.Blank? ==> r == c
    ensures c.Str? && c != NotAvailable ==>
      r == (match ParseFloat(c.s) case Some(x) => Num(x / 100.0) case None => c)
  {
    match c
    case Num(x) => Num(x / 100.0)
    case Blank => c
    case Str(s) =>
      if c == NotAvailable then c
      else match ParseFloat(s)
        case Some(x) => Num(x / 100.0)
        case None => c
  }

  /** A percentage text with a separator 0x1C in front is one float()
      rejects, so it is kept; " 5" reads as 5 and becomes 0.05. */
  lemma ScaleCellSeparated()
    ensures ScaleCell(Str("\U{001C}5")) == Str("\U{001C}5")
    ensures ScaleCell(Str(" 5")) == Num(0.05)
  {
    TrimUnchanged("\U{001C}5", IsFloatSpace);
    assert !AllDigits("\U{001C}5");
    assert IndexOf("\U{001C}5", '.').None?;
    assert TrimStart(" 5", IsFloatSpace) == TrimStart("5", IsFloatSpace);
    TrimUnchanged("5", IsFloatSpace);
    ParseUnsignedDigits("5");
    assert DigitsValue("5") == 5;
  }

  function ScaleRow(row: seq<Cell>): (r: seq<Cell>)
    ensures |r| == |row|
    ensures forall i :: 0 <= i < |row| ==> r[i] == if IsPercentColumn(i) then ScaleCell(row[i]) else row[i]
  {
    seq(|row|, i requires 0 <= i < |row| => if IsPercentColumn(i) then ScaleCell(row[i]) else row[i])
  }

  /** A cell that scaling turns into a different value. */
  predicate Scalable(c: Cell)
  {
    (c.Num? && c.x != 0.0) || (c.Str? && c != NotAvailable && ParseFloat(c.s).Some?)
  }

  /** Scaling changes exactly the cells in columns 8..19 that hold a non-zero
      number or a string float() reads. */
  lemma ScaleRowChanges(row: seq<Cell>, i: int)
    requires 0 <= i < |row|
    ensures ScaleRow(row)[i] != row[i] <==> IsPercentColumn(i) && Scalable(row[i])
  {
  }

  /** Scaling multiplies back: every numeric cell of the scaled row, times
      100 in the percentage columns, is the cell it came from. */
  lemma ScaleRowInverse(row: seq<Cell>, i: int)
    requires 0 <= i < |row| && row[i].Num?
    ensures ScaleRow(row)[i].Num?
    ensures IsPercentColumn(i) ==> ScaleRow(row)[i].x * 100.0 == row[i].x
    ensures !IsPercentColumn(i) ==> ScaleRow(row)[i] == row[i]
  {
  }

  function ScaleRows(rows: seq<seq<Cell>>): (r: seq<seq<Cell>>)
    ensures |r| == |rows| && forall k :: 0 <= k < |rows| ==> r[k] == ScaleRow(rows[k])
  {
    seq(|rows|, k requires 0 <= k < |rows| => ScaleRow(rows[k]))
  }

  // ---------------------------------------------------------------------
  // Quarter labels at publish time

  /**
   * The labels update_sheet uses. While it walks the tickers it fills empty
   * stored labels from the first ticker's header lookup and then from the
   * fixed default; with no tickers the stored labels are used as they are.
   */
  function PublishQuarterHeaders(stored: seq<string>, tickerCount: nat, firstHeaders: Fetch): (r: seq<string>)
    ensures tickerCount > 0 ==> |r| > 0
    ensures stored != [] ==> r == stored
    ensures tickerCount == 0 ==> r == stored
    ensures stored == [] && tickerCount > 0 ==> r == HeadersOrDefault(GetQuarterlyHeaders(firstHeaders))
  {
    if tickerCount == 0 || stored != [] then stored
    else HeadersOrDefault(GetQuarterlyHeaders(firstHeaders))
  }

  // ---------------------------------------------------------------------
  // The write

  /** A number format for one column; `column` is the header index. */
  datatype Format = Format(column: nat, pattern: string)

  const FormatPatterns: seq<Format> := [
    Format(2, "0"), Format(3, "0.0"), Format(4, "0.0"), Format(5, "0"), Format(6, "0"),
    Format(7, "0"), Format(8, "0"), Format(9, "0.0%"), Format(10, "0.0%"), Format(11, "0.0%"),
    Format(12, "0%"), Format(13, "0%"), Format(14, "0%"), Format(15, "0%"),
    Format(16, "0%"), Format(17, "0%"), Format(18, "0%"), Format(19, "0%")
  ]

  /** Header indices 2 through 19, once each and in order. */
  lemma FormatColumnsInOrder()
    ensures |FormatPatterns| == 18
    ensures forall k :: 0 <= k < |FormatPatterns| ==> FormatPatterns[k].column == k + 2
  {
  }

  /** The values block starts at sheet column C (index 2), row 2: header
      index h lands in sheet column h + 2. */
  const FirstColumn: nat := 2
  const HeaderRow: nat := 2

  /** One sheet.format call: a range and the number format set on it, whose
      type is always "PERCENT" and whose pattern is the column's. */
  datatype FormatCall = FormatCall(range: string, numberType: string, pattern: string)

  const PercentType: string := "PERCENT"

  /** A format call applies the pattern of `f` to the data rows under its column. */
  predicate Applies(call: FormatCall, f: Format, rowCount: nat)
  {
    call.numberType == PercentType && call.pattern == f.pattern &&
    ParseRange(call.range) == Some(FormatTarget(f.column, rowCount))
  }

  datatype SheetWrite = SheetWrite(range: string, values: seq<seq<Cell>>, formats: seq<FormatCall>)

  /** The header row as cells. */
  function HeaderCellsOf(headers: seq<string>): (r: seq<Cell>)
    ensures |r| == |headers| && forall i :: 0 <= i < |headers| ==> r[i] == Str(headers[i])
  {
    seq(|headers|, i requires 0 <= i < |headers| => Str(headers[i]))
  }

  /** The data block's range: from C2 to the column of the last header and
      the row of the last value row. */
  function BlockRange(headerCount: nat, rowCount: nat): RangeRef
    requires headerCount > 0
  {
    RangeRef(CellRef(FirstColumn, HeaderRow), CellRef(FirstColumn + headerCount - 1, HeaderRow + rowCount))
  }

  /** The range text update_sheet builds for the block: "C2:" and the
      letters of column 2 + count - 1 and the row 2 + rows. */
  method DataRange(headerCount: nat, rowCount: nat) returns (range: string)
    requires headerCount > 0
    ensures ParseRange(range) == Some(BlockRange(headerCount, rowCount))
  {
    var endName := ColumnLetters(FirstColumn + headerCount - 1);
    range := "C2:" + endName + NatToString(HeaderRow + rowCount);
    assert range == RangeText(BlockRange(headerCount, rowCount)) by {
      assert NatToString(2) == "2";
      assert ColumnName(2) == "C";
    }
    ParseRangeText(BlockRange(headerCount, rowCount));
  }

  /** The data cells under header index `column`: rows 3 through the last. */
  function FormatTarget(column: nat, rowCount: nat): RangeRef
  {
    RangeRef(CellRef(FirstColumn + column, HeaderRow + 1), CellRef(FirstColumn + column, HeaderRow + rowCount))
  }

  /** The range text of one format call: "<letters>3:<letters><last row>". */
  method FormatRange(column: nat, rowCount: nat) returns (range: string)
    ensures ParseRange(range) == Some(FormatTarget(column, rowCount))
  {
    var letter := ColumnLetters(column + 2);
    range := letter + "3:" + letter + NatToString(HeaderRow + rowCount);
    assert range == RangeText(FormatTarget(column, rowCount)) by {
      assert NatToString(3) == "3";
    }
    ParseRangeText(FormatTarget(column, rowCount));
  }

  /**
   * The sheet write of update_sheet, for the quarter labels in use and the
   * rows fetched for the tickers. The block is the header row followed by
   * the scaled rows; its range spans one column per header and one row per
   * value row; each format covers the data rows of the column whose header
   * index it names.
   */
  method PlanWrite(q: seq<string>, rows: seq<seq<Cell>>) returns (w: SheetWrite)
    ensures w.values == [HeaderCellsOf(CreateFullHeaders(q))] + ScaleRows(rows)
    ensures ParseRange(w.range) == Some(BlockRange(|CreateFullHeaders(q)|, |rows|))
    ensures |w.formats| == |FormatPatterns|
    ensures forall k :: 0 <= k < |w.formats| ==> Applies(w.formats[k], FormatPatterns[k], |rows|)
  {
    var headers := CreateFullHeaders(q);
    var processed := ScaleRows(rows);
    var range := DataRange(|headers|, |processed|);
    var formats := PlanFormats(FormatPatterns, |processed|);
    w := SheetWrite(range, [HeaderCellsOf(headers)] + processed, formats);
  }

  /** The format calls, one per entry of `patterns`, in order. */
  method PlanFormats(patterns: seq<Format>, rowCount: nat) returns (formats: seq<FormatCall>)
    ensures |formats| == |patterns|
    ensures forall k :: 0 <= k < |patterns| ==> Applies(formats[k], patterns[k], rowCount)
  {
    formats := [];
    var k := 0;
    while k < |patterns|
      invariant 0 <= k <= |patterns| && |formats| == k
      invariant forall j :: 0 <= j < k ==> Applies(formats[j], patterns[j], rowCount)
    {
      var formatRange := FormatRange(patterns[k].column, rowCount);
      formats := formats + [FormatCall(formatRange, PercentType, patterns[k].pattern)];
      k := k + 1;
    }
  }

  /** The block spans one sheet column per header and one sheet row per
      value row, header row included. */
  lemma BlockFitsValues(q: seq<string>, rows: seq<seq<Cell>>)
    ensures var b := BlockRange(|CreateFullHeaders(q)|, |rows|);
      b.last.col - b.first.col + 1 == |CreateFullHeaders(q)| &&
      b.last.row - b.first.row + 1 == |[HeaderCellsOf(CreateFullHeaders(q))] + ScaleRows(rows)|
  {
  }

  /** Every format target is one column of the block, under the header with
      the same index, and spans exactly the block's rows below the header
      row: rows 3 through 2 + the number of value rows. */
  lemma FormatsInsideBlock(q: seq<string>, rowCount: nat, k: int)
    requires 0 <= k < |FormatPatterns|
    ensures FormatPatterns[k].column < |CreateFullHeaders(q)|
    ensures var b := BlockRange(|CreateFullHeaders(q)|, rowCount);
      var t := FormatTarget(FormatPatterns[k].column, rowCount);
      b.first.col <= t.first.col == t.last.col <= b.last.col &&
      t.first.col - b.first.col == FormatPatterns[k].column &&
      t.first.row == b.first.row + 1 && t.last.row == b.last.row
  {
    FormatColumnsInOrder();
  }
}
