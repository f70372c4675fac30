/**
 * Reading the quarterly results table of a company page. Fetching and HTML
 * parsing are abstracted: each page attempt arrives as a `Page` that says
 * how far the lookup got, and a table is its header cells and the data
 * cells of its rows, as text.
 */
module Scraper {
  import opened Wrappers
  import opened Text
  import opened Normalize

  /** The outcome of requesting and parsing one page. */
  datatype Page =
    | Failed                 // status other than 200, or an error while processing this page
    | NoSection              // no <section id="quarters">
    | NoTable                // the section has no <table>
    | Table(head: Option<seq<string>>, rows: seq<seq<string>>)
      // head: the <th> texts of the <thead>, if there is one;
      // rows: the <td> texts of each row of the body

  /** A company's two pages, or an error that escapes the per-page handling. */
  datatype Fetch = Raised | Fetched(consolidated: Page, standalone: Page)

  datatype RowKind = Sales | Eps | Profit

  /** The row label as compared: stripped and lower-cased. */
  function Label(cell: string): string
  {
    Lower(Strip(cell))
  }

  predicate LabelMatches(heading: string, kind: RowKind)
  {
    match kind
    case Sales => Contains(heading, "sales") || Contains(heading, "revenue")
    case Eps => Contains(heading, "eps") && Contains(heading, "in rs")
    case Profit => Contains(heading, "net") && Contains(heading, "profit")
  }

  /** The labels the fundamentals site prints: "Sales +" names sales,
      "EPS in Rs" names EPS, "Net Profit +" names net profit, and a bare
      "EPS" names nothing, since the EPS test also wants "in rs". */
  lemma LabelMatchesExamples()
    ensures LabelMatches(Label("Sales +"), Sales)
    ensures LabelMatches(Label(" EPS in Rs"), Eps)
    ensures LabelMatches(Label("Net Profit +"), Profit)
    ensures !LabelMatches(Label("EPS"), Eps)
  {
    SalesLabel();
    EpsLabel();
    ProfitLabel();
    BareEpsLabel();
  }

  lemma SalesLabel()
    ensures Label("Sales +") == "sales +" && LabelMatches("sales +", Sales)
  {
    StripUnchanged("Sales +");
    LowerOf("Sales +", "sales +");
    assert StartsWith("sales +", "sales");
  }

  lemma EpsLabel()
    ensures Label(" EPS in Rs") == "eps in rs" && LabelMatches("eps in rs", Eps)
  {
    EpsLabelText();
    var l := "eps in rs";
    assert StartsWith(l, "eps");
    assert StartsWith(l[4..], "in rs");
    assert l[1..][1..][1..][1..] == l[4..];
  }

  lemma EpsLabelText()
    ensures Label(" EPS in Rs") == "eps in rs"
  {
    EpsLabelStripped();
    LowerOf("EPS in Rs", "eps in rs");
  }

  lemma EpsLabelStripped()
    ensures Strip(" EPS in Rs") == "EPS in Rs"
  {
    var s := " EPS in Rs";
    assert s[1..] == "EPS in Rs";
    assert TrimStart(s, IsSpace) == TrimStart("EPS in Rs", IsSpace);
    TrimUnchanged("EPS in Rs", IsSpace);
    assert TrimStart("EPS in Rs", IsSpace) == "EPS in Rs";
  }

  lemma ProfitLabel()
    ensures Label("Net Profit +") == "net profit +" && LabelMatches("net profit +", Profit)
  {
    ProfitLabelText();
    ProfitWords();
  }

  lemma ProfitWords()
    ensures Contains("net profit +", "net") && Contains("net profit +", "profit")
  {
    var l := "net profit +";
    assert StartsWith(l, "net");
    assert StartsWith(l[4..], "profit");
    assert l[1..][1..][1..][1..] == l[4..];
  }

  lemma ProfitLabelText()
    ensures Label("Net Profit +") == "net profit +"
  {
    StripUnchanged("Net Profit +");
    LowerOf("Net Profit +", "net profit +");
  }

  lemma BareEpsLabel()
    ensures Label("EPS") == "eps" && !Contains("eps", "in rs")
  {
    StripUnchanged("EPS");
    LowerOf("EPS", "eps");
  }

  /** A row with at least one cell whose label names `kind`. */
  predicate RowMatches(row: seq<string>, kind: RowKind)
  {
    |row| > 0 && LabelMatches(Label(row[0]), kind)
  }

  /** The rows found so far: the cells after the label, or None. */
  datatype Matches = Matches(sales: Option<seq<string>>, eps: Option<seq<string>>, profit: Option<seq<string>>)
  {
    function Get(kind: RowKind): Option<seq<string>>
    {
      match kind
      case Sales => sales
      case Eps => eps
      case Profit => profit
    }
  }

  const NoMatches := Matches(None, None, None)

  /** Python truthiness of a found row: present and not empty. */
  predicate Truthy(row: Option<seq<string>>)
  {
    row.Some? && |row.value| > 0
  }

  /** One row: every kind it matches takes its cells; a row may match several. */
  function ScanRow(m: Matches, row: seq<string>): (r: Matches)
    ensures forall kind :: r.Get(kind) == if RowMatches(row, kind) then Some(row[1..]) else m.Get(kind)
  {
    if |row| == 0 then m
    else
      Matches(if RowMatches(row, Sales) then Some(row[1..]) else m.sales,
              if RowMatches(row, Eps) then Some(row[1..]) else m.eps,
              if RowMatches(row, Profit) then Some(row[1..]) else m.profit)
  }

  /** All rows of one table, in order, with no early exit: for each kind the
      result is either what was carried in or the cells of one of the rows
      that name it. */
  function ScanRows(m: Matches, rows: seq<seq<string>>): (r: Matches)
    ensures forall kind :: (r.Get(kind) == m.Get(kind) ||
                            exists i :: 0 <= i < |rows| && RowMatches(rows[i], kind) && r.Get(kind) == Some(rows[i][1..]))
    decreases |rows|
  {
    if |rows| == 0 then m else ScanRow(ScanRows(m, rows[..|rows| - 1]), rows[|rows| - 1])
  }

  /** Row `i` is the last row of `rows` that names `kind`. */
  predicate IsLastMatch(rows: seq<seq<string>>, i: int, kind: RowKind)
  {
    0 <= i < |rows| && RowMatches(rows[i], kind) &&
    forall j :: i < j < |rows| ==> !RowMatches(rows[j], kind)
  }

  /** The last matching row wins. */
  lemma {:induction false} ScanLastMatch(m: Matches, rows: seq<seq<string>>, kind: RowKind, i: int)
    requires IsLastMatch(rows, i, kind)
    ensures ScanRows(m, rows).Get(kind) == Some(rows[i][1..])
    decreases |rows|
  {
    var n := |rows| - 1;
    assert ScanRows(m, rows) == ScanRow(ScanRows(m, rows[..n]), rows[n]);
    if i < n {
      assert !RowMatches(rows[n], kind);
      assert IsLastMatch(rows[..n], i, kind);
      ScanLastMatch(m, rows[..n], kind, i);
    }
  }

  /** A table without a matching row keeps what earlier pages found. */
  lemma {:induction false} ScanNoMatch(m: Matches, rows: seq<seq<string>>, kind: RowKind)
    requires forall j :: 0 <= j < |rows| ==> !RowMatches(rows[j], kind)
    ensures ScanRows(m, rows).Get(kind) == m.Get(kind)
    decreases |rows|
  {
    if |rows| > 0 {
      ScanNoMatch(m, rows[..|rows| - 1], kind);
    }
  }

  /** Both together: the result for a kind is the last matching row, or the
      carried-over value when there is none. */
  lemma ScanRowsResult(m: Matches, rows: seq<seq<string>>, kind: RowKind)
    ensures (exists i :: IsLastMatch(rows, i, kind)) ==>
      exists i :: IsLastMatch(rows, i, kind) && ScanRows(m, rows).Get(kind) == Some(rows[i][1..])
    ensures (forall j :: 0 <= j < |rows| ==> !RowMatches(rows[j], kind)) ==>
      ScanRows(m, rows).Get(kind) == m.Get(kind)
    ensures (exists j :: 0 <= j < |rows| && RowMatches(rows[j], kind)) ==>
      exists i :: IsLastMatch(rows, i, kind)
  {
    if exists i :: IsLastMatch(rows, i, kind) {
      var i :| IsLastMatch(rows, i, kind);
      ScanLastMatch(m, rows, kind, i);
    }
    if forall j :: 0 <= j < |rows| ==> !RowMatches(rows[j], kind) {
      ScanNoMatch(m, rows, kind);
    }
    if exists j :: 0 <= j < |rows| && RowMatches(rows[j], kind) {
      var j :| 0 <= j < |rows| && RowMatches(rows[j], kind);
      LastMatchExists(rows, kind, j);
    }
  }

  lemma {:induction false} LastMatchExists(rows: seq<seq<string>>, kind: RowKind, j: int)
    requires 0 <= j < |rows| && RowMatches(rows[j], kind)
    ensures exists i :: IsLastMatch(rows, i, kind)
    decreases |rows| - j
  {
    if !IsLastMatch(rows, j, kind) {
      var k :| j < k < |rows| && RowMatches(rows[k], kind);
      LastMatchExists(rows, kind, k);
    }
  }

  /** Whether a page attempt gets as far as scanning rows. */
  predicate HasRows(p: Page)
  {
    p.Table? && |p.rows| > 0
  }

  /** The page loop: pages that fail or have no rows are passed over, found
      rows carry over from one page to the next, and the loop stops after
      the first scanned page that leaves a non-empty sales row. */
  function ScanPages(m: Matches, pages: seq<Page>): (r: Matches)
    ensures (forall i :: 0 <= i < |pages| ==> !HasRows(pages[i])) ==> r == m
    decreases |pages|
  {
    if |pages| == 0 then m
    else if !HasRows(pages[0]) then ScanPages(m, pages[1..])
    else
      var next := ScanRows(m, pages[0].rows);
      if Truthy(next.sales) then next else ScanPages(next, pages[1..])
  }

  /** The value of one cell, as `clean_to_float(col.text.strip())`. */
  function CellValue(cell: string): Option<real>
  {
    CleanToFloat(Some(Strip(cell)))
  }

  /** At most the first thirteen quarters. */
  const MaxQuarters: nat := 13

  function Min(a: nat, b: nat): nat
  {
    if a <= b then a else b
  }

  function ParseCells(cells: seq<string>): (r: seq<Option<real>>)
    ensures |r| == Min(MaxQuarters, |cells|)
    ensures forall k :: 0 <= k < |r| ==> r[k] == CellValue(cells[k])
  {
    seq(Min(MaxQuarters, |cells|), k requires 0 <= k < Min(MaxQuarters, |cells|) => CellValue(cells[k]))
  }

  /** What get_quarterly_data hands back: three lists, or the two-element
      result of a missing sales row. */
  datatype DataResult =
    | Quarterly(eps: seq<Option<real>>, sales: seq<Option<real>>, profit: seq<Option<real>>)
    | SalesMissing

  /** A missing row of another kind stands in as zeros, one per sales value. */
  function RowOrZeros(row: Option<seq<string>>, salesRow: seq<string>): (r: seq<Option<real>>)
    ensures Truthy(row) ==> r == ParseCells(row.value)
    ensures !Truthy(row) ==> |r| == Min(MaxQuarters, |salesRow|) && forall k :: 0 <= k < |r| ==> r[k] == Some(0.0)
  {
    if Truthy(row) then ParseCells(row.value)
    else seq(Min(MaxQuarters, |salesRow|), _ => Some(0.0))
  }

  function Extract(m: Matches): (r: DataResult)
    ensures r.SalesMissing? <==> !Truthy(m.sales)
    ensures r.Quarterly? ==>
      |r.sales| == Min(MaxQuarters, |m.sales.value|) &&
      |r.eps| <= MaxQuarters && |r.profit| <= MaxQuarters &&
      (!Truthy(m.eps) ==> |r.eps| == |r.sales|) &&
      (!Truthy(m.profit) ==> |r.profit| == |r.sales|)
  {
    if !Truthy(m.sales) then SalesMissing
    else
      var salesRow := m.sales.value;
      Quarterly(RowOrZeros(m.eps, salesRow), ParseCells(salesRow), RowOrZeros(m.profit, salesRow))
  }

  /** A page none of whose rows names `kind`. */
  predicate NoRow(p: Page, kind: RowKind)
  {
    p.Table? ==> forall j :: 0 <= j < |p.rows| ==> !RowMatches(p.rows[j], kind)
  }

  /** Scanning a page without a sales row leaves the sales row as it was. */
  lemma ScanPageNoSales(m: Matches, p: Page, rest: seq<Page>)
    requires NoRow(p, Sales) && !Truthy(m.sales)
    ensures exists m': Matches :: m'.sales == m.sales && ScanPages(m, [p] + rest) == ScanPages(m', rest)
  {
    assert ([p] + rest)[1..] == rest;
    if HasRows(p) {
      ScanNoMatch(m, p.rows, Sales);
      assert ScanPages(m, [p] + rest) == ScanPages(ScanRows(m, p.rows), rest);
    } else {
      assert ScanPages(m, [p] + rest) == ScanPages(m, rest);
    }
  }

  /** With no sales row on either page, the page loop finds none. */
  lemma NoSalesScan(c: Page, s: Page)
    ensures NoRow(c, Sales) && NoRow(s, Sales) ==> ScanPages(NoMatches, [c, s]).sales == None
  {
    if NoRow(c, Sales) && NoRow(s, Sales) {
      assert [c, s] == [c] + [s] && [s] == [s] + [];
      ScanPageNoSales(NoMatches, c, [s]);
      var m1: Matches :| m1.sales == None && ScanPages(NoMatches, [c, s]) == ScanPages(m1, [s]);
      ScanPageNoSales(m1, s, []);
      var m2: Matches :| m2.sales == None && ScanPages(m1, [s]) == ScanPages(m2, []);
    }
  }

  /** get_quarterly_data: the consolidated page first, then the standalone
      one. An escaping error gives three empty lists; no sales or revenue
      row on either page gives the two-element result; a consolidated table
      whose sales row has values decides alone; and any three lists hold
      between one and thirteen sales values. */
  function GetQuarterlyData(f: Fetch): (r: DataResult)
    ensures f.Raised? ==> r == Quarterly([], [], [])
    ensures f.Fetched? && NoRow(f.consolidated, Sales) && NoRow(f.standalone, Sales) ==> r == SalesMissing
    ensures f.Fetched? && HasRows(f.consolidated) && Truthy(ScanRows(NoMatches, f.consolidated.rows).sales) ==>
      r == Extract(ScanRows(NoMatches, f.consolidated.rows))
    ensures f.Fetched? && r.Quarterly? ==> 0 < |r.sales| <= MaxQuarters
  {
    match f
    case Raised => Quarterly([], [], [])
    case Fetched(consolidated, standalone) =>
      NoSalesScan(consolidated, standalone);
      Extract(ScanPages(NoMatches, [consolidated, standalone]))
  }

  /** When the consolidated table's last sales row has values, the sales
      list is read from that row, truncated to thirteen quarters. */
  lemma SalesFromLastRow(c: Page, s: Page, i: int)
    requires HasRows(c) && IsLastMatch(c.rows, i, Sales) && |c.rows[i]| > 1
    ensures GetQuarterlyData(Fetched(c, s)).Quarterly?
    ensures GetQuarterlyData(Fetched(c, s)).sales == ParseCells(c.rows[i][1..])
  {
    ScanLastMatch(NoMatches, c.rows, Sales, i);
  }

  /** Rows found on the consolidated page carry over: its EPS row is used
      together with the standalone page's sales row when the consolidated
      table has no sales row and the standalone one has no EPS row. */
  lemma RowsCarryAcrossPages(c: Page, s: Page, i: int, j: int)
    requires HasRows(c) && IsLastMatch(c.rows, i, Eps) && |c.rows[i]| > 1 && NoRow(c, Sales)
    requires HasRows(s) && IsLastMatch(s.rows, j, Sales) && |s.rows[j]| > 1 && NoRow(s, Eps)
    ensures GetQuarterlyData(Fetched(c, s)).Quarterly?
    ensures GetQuarterlyData(Fetched(c, s)).eps == ParseCells(c.rows[i][1..])
    ensures GetQuarterlyData(Fetched(c, s)).sales == ParseCells(s.rows[j][1..])
  {
    var m1 := ScanRows(NoMatches, c.rows);
    ScanNoMatch(NoMatches, c.rows, Sales);
    ScanLastMatch(NoMatches, c.rows, Eps, i);
    assert [c, s][1..] == [s];
    assert ScanPages(NoMatches, [c, s]) == ScanPages(m1, [s]);
    var m2 := ScanRows(m1, s.rows);
    ScanLastMatch(m1, s.rows, Sales, j);
    ScanNoMatch(m1, s.rows, Eps);
    assert ScanPages(m1, [s]) == m2;
  }

  /** A consolidated page that fails, or yields no rows, leaves the result to
      the standalone page alone. */
  lemma FailedFirstPageFallsThrough(c: Page, s: Page)
    requires !HasRows(c)
    ensures GetQuarterlyData(Fetched(c, s)) == GetQuarterlyData(Fetched(s, Failed))
  {
    assert [c, s][1..] == [s];
    assert [s, Failed][1..] == [Failed];
    assert [s][1..] == [] && [Failed][1..] == [];
    assert ScanPages(NoMatches, [c, s]) == ScanPages(NoMatches, [s]);
    if HasRows(s) {
      var next := ScanRows(NoMatches, s.rows);
      assert ScanPages(next, [Failed]) == next;
      assert ScanPages(next, []) == next;
    }
  }

  // ---------------------------------------------------------------------
  // Quarter headers

  /** The header cells a page offers: every <th> after the first, stripped,
      when the header has more than one. */
  function HeaderCells(p: Page): (r: Option<seq<string>>)
    ensures r.Some? <==> p.Table? && p.head.Some? && |p.head.value| > 1
    ensures r.Some? ==> |r.value| > 0
    ensures r.Some? ==> p.Table? && p.head.Some? && |r.value| == |p.head.value| - 1
    ensures r.Some? ==> (forall k :: 0 <= k < |r.value| ==> r.value[k] == Strip(p.head.value[k + 1]))
  {
    if p.Table? && p.head.Some? && |p.head.value| > 1 then
      var ths := p.head.value;
      Some(seq(|ths| - 1, k requires 0 <= k < |ths| - 1 => Strip(ths[k + 1])))
    else None
  }

  /** The first page that offers header cells decides; none gives []. */
  function FirstHeaders(pages: seq<Page>): (r: seq<string>)
    ensures r == [] <==> forall i :: 0 <= i < |pages| ==> HeaderCells(pages[i]).None?
    ensures r != [] ==>
      exists i :: (0 <= i < |pages| && HeaderCells(pages[i]) == Some(r) &&
                   forall j :: 0 <= j < i ==> HeaderCells(pages[j]).None?)
    decreases |pages|
  {
    if |pages| == 0 then []
    else if HeaderCells(pages[0]).Some? then HeaderCells(pages[0]).value
    else
      var r := FirstHeaders(pages[1..]);
      assert forall i :: 0 < i < |pages| ==> pages[i] == pages[1..][i - 1];
      r
  }

  /** get_quarterly_headers: the standalone page first, then the
      consolidated one; an escaping error gives []. */
  function GetQuarterlyHeaders(f: Fetch): (r: seq<string>)
    ensures f.Raised? ==> r == []
    ensures f.Fetched? && HeaderCells(f.standalone).Some? ==> r == HeaderCells(f.standalone).value
    ensures f.Fetched? && HeaderCells(f.standalone).None? ==>
      r == if HeaderCells(f.consolidated).Some? then HeaderCells(f.consolidated).value else []
  {
    match f
    case Raised => []
    case Fetched(consolidated, standalone) =>
      var pages := [standalone, consolidated];
      var r := FirstHeaders(pages);
      assert pages[0] == standalone && pages[1] == consolidated;
      r
  }
}
