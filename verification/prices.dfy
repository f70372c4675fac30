/**
 * The eight price-change columns (1D, 5D, 1M, 3M, 6M, YTD, 1Y, 3Y),
 * computed from a three-year series of daily closes. Each column compares
 * the latest close with an earlier reference close.
 */
module Prices {
  import opened Wrappers
  import opened Normalize

  /** One trading day: its date as a day ordinal, and its close. */
  datatype Bar = Bar(day: int, close: real)

  /** The price history request: an error, or the bars oldest first. */
  datatype History = HistoryRaised | Bars(bars: seq<Bar>)

  const ColumnCount: nat := 8

  /** The trading-day lookbacks of 5D, 1M, 3M, 6M and 1Y. */
  const FiveDays: nat := 5
  const OneMonth: nat := 21
  const ThreeMonths: nat := 63
  const SixMonths: nat := 126
  const OneYear: nat := 252

  /** The bar `k` trading days before the last, or the oldest bar when the
      history is shorter than that. */
  function BackIndex(n: nat, k: nat): (i: nat)
    requires n > 0
    ensures i < n
    ensures k < n ==> i == n - 1 - k
    ensures k >= n ==> i == 0
  {
    var back := if k <= n - 1 then k else n - 1;
    n - 1 - back
  }

  /** ((current - reference) / reference) * 100, sanitized. A zero reference
      yields an infinite or undefined float, which sanitizes to 'N/A'. */
  function PercentChange(current: real, reference: real): (r: Cell)
    ensures reference == 0.0 ==> r == NotAvailable
    ensures reference != 0.0 ==> r.Num? && HasTwoDecimals(r.x)
    ensures reference != 0.0 ==> Abs(r.x - (current - reference) / reference * 100.0) <= 0.005
  {
    if reference == 0.0 then Sanitize(RNonFinite)
    else Sanitize(RFloat((current - reference) / reference * 100.0))
  }

  /** The first bar dated on or after `start`, if any. */
  function FirstOnOrAfter(bars: seq<Bar>, start: int): (r: Option<nat>)
    ensures r.Some? ==> r.value < |bars| && bars[r.value].day >= start &&
                        forall j :: 0 <= j < r.value ==> bars[j].day < start
    ensures r.None? ==> forall j :: 0 <= j < |bars| ==> bars[j].day < start
    decreases |bars|
  {
    if |bars| == 0 then None
    else if bars[0].day >= start then Some(0)
    else
      match FirstOnOrAfter(bars[1..], start)
      case None => None
      case Some(i) => Some(i + 1)
  }

  function AllNotAvailable(): (r: seq<Cell>)
    ensures |r| == ColumnCount && forall k :: 0 <= k < |r| ==> r[k] == NotAvailable
  {
    seq(ColumnCount, _ => NotAvailable)
  }

  /**
   * get_price_changes for a history and the first day of the current IST
   * year. Every path gives eight cells.
   */
  function PriceChanges(h: History, yearStart: int): (r: seq<Cell>)
    ensures |r| == ColumnCount
    ensures h.HistoryRaised? || |h.bars| == 0 ==> r == AllNotAvailable()
    ensures h.Bars? && |h.bars| == 1 ==> r[0] == NotAvailable && r[7] == NotAvailable
    ensures forall k :: 0 <= k < |r| ==> !r[k].Blank?
  {
    match h
    case HistoryRaised => AllNotAvailable()
    case Bars(bars) =>
      if |bars| == 0 then AllNotAvailable()
      else
        var n := |bars|;
        var current := bars[n - 1].close;
        var back := (k: nat) => PercentChange(current, bars[BackIndex(n, k)].close);
        [ if n >= 2 then PercentChange(current, bars[n - 2].close) else NotAvailable,
          back(FiveDays),
          back(OneMonth),
          back(ThreeMonths),
          back(SixMonths),
          match FirstOnOrAfter(bars, yearStart)
          case None => NotAvailable
          case Some(i) => PercentChange(current, bars[i].close),
          back(OneYear),
          if n > 5 then PercentChange(current, bars[0].close) else NotAvailable ]
  }

  /** Cell `c` shows the change from `reference` to `current`: 'N/A'
      exactly when the reference is zero, and otherwise the percentage
      change to within half a hundredth. */
  predicate ShowsChange(c: Cell, current: real, reference: real)
  {
    (c == NotAvailable <==> reference == 0.0) &&
    (reference != 0.0 ==> c.Num? && Abs(c.x - (current - reference) / reference * 100.0) <= 0.005)
  }

  /** Which close each column compares the latest close with, by position in
      the history: the previous bar for 1D; the bar 5, 21, 63, 126 or 252
      trading days back for 5D, 1M, 3M, 6M and 1Y, or the oldest bar when
      the history is not longer than that; the first bar dated in the year
      for YTD; and the oldest bar for 3Y once there are more than five. */
  lemma PriceChangeReferences(bars: seq<Bar>, yearStart: int)
    requires |bars| > 0
    ensures var r := PriceChanges(Bars(bars), yearStart);
      var n := |bars|;
      var cur := bars[n - 1].close;
      (n >= 2 ==> ShowsChange(r[0], cur, bars[n - 2].close)) &&
      (n < 2 ==> r[0] == NotAvailable) &&
      ShowsChange(r[1], cur, bars[if n > 5 then n - 6 else 0].close) &&
      ShowsChange(r[2], cur, bars[if n > 21 then n - 22 else 0].close) &&
      ShowsChange(r[3], cur, bars[if n > 63 then n - 64 else 0].close) &&
      ShowsChange(r[4], cur, bars[if n > 126 then n - 127 else 0].close) &&
      ShowsChange(r[6], cur, bars[if n > 252 then n - 253 else 0].close) &&
      (n > 5 ==> ShowsChange(r[7], cur, bars[0].close)) &&
      (n <= 5 ==> r[7] == NotAvailable)
    ensures var r := PriceChanges(Bars(bars), yearStart);
      (forall j :: 0 <= j < |bars| ==> bars[j].day < yearStart) ==> r[5] == NotAvailable
    ensures var r := PriceChanges(Bars(bars), yearStart);
      forall i :: (0 <= i < |bars| && bars[i].day >= yearStart &&
                   (forall j :: 0 <= j < i ==> bars[j].day < yearStart)) ==>
        ShowsChange(r[5], bars[|bars| - 1].close, bars[i].close)
  {
    ColumnReferences(bars, yearStart);
    var r := PriceChanges(Bars(bars), yearStart);
    var n := |bars|;
    var cur := bars[n - 1].close;
    forall j | 0 <= j < n
      ensures ShowsChange(PercentChange(cur, bars[j].close), cur, bars[j].close)
    {
      PercentChangeShows(cur, bars[j].close);
    }
    forall i | 0 <= i < n && bars[i].day >= yearStart && (forall j :: 0 <= j < i ==> bars[j].day < yearStart)
      ensures ShowsChange(r[5], cur, bars[i].close)
    {
      var f := FirstOnOrAfter(bars, yearStart);
      assert f.Some? && f.value == i;
    }
  }

  lemma PercentChangeShows(current: real, reference: real)
    ensures ShowsChange(PercentChange(current, reference), current, reference)
  {
  }

  /** Each column as the change between the latest close and one bar. */
  lemma ColumnReferences(bars: seq<Bar>, yearStart: int)
    requires |bars| > 0
    ensures var r := PriceChanges(Bars(bars), yearStart);
      var n := |bars|;
      var cur := bars[n - 1].close;
      (n >= 2 ==> r[0] == PercentChange(cur, bars[n - 2].close)) &&
      (n < 2 ==> r[0] == NotAvailable) &&
      r[1] == PercentChange(cur, bars[BackIndex(n, 5)].close) &&
      r[2] == PercentChange(cur, bars[BackIndex(n, 21)].close) &&
      r[3] == PercentChange(cur, bars[BackIndex(n, 63)].close) &&
      r[4] == PercentChange(cur, bars[BackIndex(n, 126)].close) &&
      r[6] == PercentChange(cur, bars[BackIndex(n, 252)].close) &&
      r[5] == (match FirstOnOrAfter(bars, yearStart)
               case None => NotAvailable
               case Some(i) => PercentChange(cur, bars[i].close)) &&
      (n > 5 ==> r[7] == PercentChange(cur, bars[0].close)) &&
      (n <= 5 ==> r[7] == NotAvailable)
  {
  }

  /** A history whose closes never change gives 0 in every column that has
      a reference, provided the close is not zero. */
  lemma FlatHistory(bars: seq<Bar>, c: real, yearStart: int)
    requires |bars| > 0 && c != 0.0
    requires forall k :: 0 <= k < |bars| ==> bars[k].close == c
    ensures var r := PriceChanges(Bars(bars), yearStart);
      forall k :: 0 <= k < |r| ==> r[k] == NotAvailable || r[k] == Num(0.0)
  {
    Round2Properties(0.0);
    assert HasTwoDecimals(0.0);
  }

  /** A rise, or no change, never shows as a loss. */
  lemma PercentChangeNonNegative(current: real, reference: real)
    requires 0.0 < reference <= current
    ensures PercentChange(current, reference).Num? && PercentChange(current, reference).x >= 0.0
  {
    var q := (current - reference) / reference * 100.0;
    assert q >= 0.0;
    Round2Properties(q);
  }

  /** When every close is positive and the latest is the highest, no column
      shows a loss. */
  lemma NoLossAtPeak(bars: seq<Bar>, yearStart: int)
    requires |bars| > 0
    requires forall k :: 0 <= k < |bars| ==> 0.0 < bars[k].close <= bars[|bars| - 1].close
    ensures var r := PriceChanges(Bars(bars), yearStart);
      forall k :: 0 <= k < |r| ==> r[k] == NotAvailable || (r[k].Num? && r[k].x >= 0.0)
  {
    var cur := bars[|bars| - 1].close;
    ColumnReferences(bars, yearStart);
    forall i | 0 <= i < |bars|
      ensures PercentChange(cur, bars[i].close).Num? && PercentChange(cur, bars[i].close).x >= 0.0
    {
      PercentChangeNonNegative(cur, bars[i].close);
    }
  }
}
