/**
 * The quarterly refresh: one pass over the ticker list that settles the
 * quarter labels and stores each ticker's quarterly lists in the cache.
 */
module Fundamentals {
  import opened Wrappers
  import opened Scraper

  datatype QuarterlyRecord = QuarterlyRecord(eps: seq<Option<real>>, sales: seq<Option<real>>, profit: seq<Option<real>>)

  /** The cache of quarterly lists, keyed by ticker symbol. */
  type Cache = map<string, QuarterlyRecord>

  /** The thirteen labels used when no page offers quarter headers. */
  const DefaultQuarterHeaders: seq<string> := [
    "Q4/21-22", "Q1/22-23", "Q2/22-23", "Q3/22-23", "Q4/22-23",
    "Q1/23-24", "Q2/23-24", "Q3/23-24", "Q4/23-24",
    "Q1/24-25", "Q2/24-25", "Q3/24-25", "Q4/24-25"
  ]

  function HeadersOrDefault(fetched: seq<string>): (r: seq<string>)
    ensures |r| > 0
    ensures fetched != [] ==> r == fetched
    ensures fetched == [] ==> r == DefaultQuarterHeaders && |r| == 13
  {
    if fetched != [] then fetched else DefaultQuarterHeaders
  }

  /** What a data result stores: the two-element result makes the unpacking
      fail, so nothing is stored for it. */
  function Stored(r: DataResult): (rec: Option<QuarterlyRecord>)
    ensures rec.None? <==> r.SalesMissing?
    ensures rec.Some? ==> Quarterly(rec.value.eps, rec.value.sales, rec.value.profit) == r
  {
    match r
    case SalesMissing => None
    case Quarterly(eps, sales, profit) => Some(QuarterlyRecord(eps, sales, profit))
  }

  /** Reference definition: the cache after storing, in order, what each
      ticker's fetch yields. */
  function StoreAll(cache: Cache, tickers: seq<string>, fetches: seq<Fetch>): Cache
    requires |fetches| == |tickers|
    decreases |tickers|
  {
    if |tickers| == 0 then cache
    else
      var n := |tickers| - 1;
      var prev := StoreAll(cache, tickers[..n], fetches[..n]);
      match Stored(GetQuarterlyData(fetches[n]))
      case None => prev
      case Some(rec) => prev[tickers[n] := rec]
  }

  /** One more ticker: the cache after it is the cache before, updated with
      what its fetch stores. */
  lemma StoreAllStep(cache: Cache, tickers: seq<string>, fetches: seq<Fetch>, i: nat)
    requires |fetches| == |tickers| && i < |tickers|
    ensures StoreAll(cache, tickers[..i + 1], fetches[..i + 1]) ==
      match Stored(GetQuarterlyData(fetches[i]))
      case None => StoreAll(cache, tickers[..i], fetches[..i])
      case Some(rec) => StoreAll(cache, tickers[..i], fetches[..i])[tickers[i] := rec]
  {
    assert tickers[..i + 1][..i] == tickers[..i] && fetches[..i + 1][..i] == fetches[..i];
    assert tickers[..i + 1][i] == tickers[i] && fetches[..i + 1][i] == fetches[i];
  }

  /** Ticker `i` stores something, and no later entry for the same ticker does. */
  predicate IsLastStore(tickers: seq<string>, fetches: seq<Fetch>, i: int)
    requires |fetches| == |tickers|
  {
    0 <= i < |tickers| && Stored(GetQuarterlyData(fetches[i])).Some? &&
    forall j :: i < j < |tickers| && tickers[j] == tickers[i] ==> Stored(GetQuarterlyData(fetches[j])).None?
  }

  /** The entry of a ticker is what its last storing fetch produced. */
  lemma {:induction false} LastStoreWins(cache: Cache, tickers: seq<string>, fetches: seq<Fetch>, i: int)
    requires |fetches| == |tickers| && IsLastStore(tickers, fetches, i)
    ensures tickers[i] in StoreAll(cache, tickers, fetches)
    ensures StoreAll(cache, tickers, fetches)[tickers[i]] == Stored(GetQuarterlyData(fetches[i])).value
    decreases |tickers|
  {
    var n := |tickers| - 1;
    if i < n {
      assert IsLastStore(tickers[..n], fetches[..n], i);
      LastStoreWins(cache, tickers[..n], fetches[..n], i);
    }
  }

  /** A ticker nothing was stored for keeps its old entry, or stays absent. */
  lemma {:induction false} UnstoredKept(cache: Cache, tickers: seq<string>, fetches: seq<Fetch>, t: string)
    requires |fetches| == |tickers|
    requires forall j :: 0 <= j < |tickers| && tickers[j] == t ==> Stored(GetQuarterlyData(fetches[j])).None?
    ensures t in StoreAll(cache, tickers, fetches) <==> t in cache
    ensures t in cache ==> StoreAll(cache, tickers, fetches)[t] == cache[t]
    decreases |tickers|
  {
    if |tickers| > 0 {
      var n := |tickers| - 1;
      UnstoredKept(cache, tickers[..n], fetches[..n], t);
    }
  }

  /** Storing only ever adds keys, and only keys of listed tickers. */
  lemma {:induction false} StoreAllKeys(cache: Cache, tickers: seq<string>, fetches: seq<Fetch>)
    requires |fetches| == |tickers|
    ensures cache.Keys <= StoreAll(cache, tickers, fetches).Keys
    ensures forall t :: t in StoreAll(cache, tickers, fetches) ==> t in cache || t in tickers
    decreases |tickers|
  {
    if |tickers| > 0 {
      var n := |tickers| - 1;
      StoreAllKeys(cache, tickers[..n], fetches[..n]);
      assert forall t :: t in tickers[..n] ==> t in tickers;
    }
  }

  /**
   * update_quarterly_and_pe_data. `headerFetches[i]` and `dataFetches[i]`
   * are what the pages of ticker `i` yield for the header and the data
   * lookups. The labels are looked up again whenever they are empty, which
   * after the first ticker they never are.
   */
  method RefreshAll(tickers: seq<string>, headerFetches: seq<Fetch>, dataFetches: seq<Fetch>, cache0: Cache)
    returns (headers: seq<string>, cache: Cache)
    requires |headerFetches| == |tickers| && |dataFetches| == |tickers|
    ensures |tickers| == 0 ==> headers == [] && cache == cache0
    ensures |tickers| > 0 ==> |headers| > 0 && headers == HeadersOrDefault(GetQuarterlyHeaders(headerFetches[0]))
    ensures cache == StoreAll(cache0, tickers, dataFetches)
  {
    headers := [];
    cache := cache0;
    var i := 0;
    while i < |tickers|
      invariant 0 <= i <= |tickers|
      invariant i == 0 ==> headers == []
      invariant i > 0 ==> headers == HeadersOrDefault(GetQuarterlyHeaders(headerFetches[0]))
      invariant cache == StoreAll(cache0, tickers[..i], dataFetches[..i])
    {
      if i == 0 || headers == [] {
        headers := GetQuarterlyHeaders(headerFetches[i]);
        if headers == [] {
          headers := DefaultQuarterHeaders;
        }
      }
      var result := GetQuarterlyData(dataFetches[i]);
      match result {
        case SalesMissing =>
        case Quarterly(eps, sales, profit) =>
          cache := cache[tickers[i] := QuarterlyRecord(eps, sales, profit)];
      }
      StoreAllStep(cache0, tickers, dataFetches, i);
      i := i + 1;
    }
    assert tickers[..i] == tickers && dataFetches[..i] == dataFetches;
  }
}
