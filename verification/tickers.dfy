/**
 * Editing the watch list. A ticker is added after a price lookup confirms
 * it, with no duplicate check; removal deletes the first entry equal to
 * the selected one.
 */
module Tickers {
  import opened Wrappers

  /** The `regularMarketPrice` entry of the quote lookup. */
  datatype PriceField = Missing | NullPrice | Price(x: real)

  /** The quote lookup for an entered symbol: an error, or its price field. */
  datatype Lookup = LookupRaised | Info(price: PriceField)

  datatype AddOutcome = Cancelled | Rejected | Failed | Added

  datatype AddResult = AddResult(tickers: seq<string>, outcome: AddOutcome)

  /**
   * add_ticker. `entered` is the dialog's answer: None when cancelled. An
   * empty answer does nothing; a lookup without a price is rejected; a
   * failing lookup is reported; otherwise the symbol is appended as typed.
   */
  function AddTicker(tickers: seq<string>, entered: Option<string>, lookup: Lookup): (r: AddResult)
    ensures r.outcome == Added <==> entered.Some? && entered.value != "" && lookup.Info? && lookup.price.Price?
    ensures r.outcome == Added ==> r.tickers == tickers + [entered.value]
    ensures r.outcome != Added ==> r.tickers == tickers
    ensures r.outcome == Cancelled <==> entered.None? || entered.value == ""
    ensures r.outcome == Rejected <==> entered.Some? && entered.value != "" && lookup.Info? && !lookup.price.Price?
  {
    match entered
    case None => AddResult(tickers, Cancelled)
    case Some(t) =>
      if t == "" then AddResult(tickers, Cancelled)
      else match lookup
        case LookupRaised => AddResult(tickers, Failed)
        case Info(Price(_)) => AddResult(tickers + [t], Added)
        case Info(_) => AddResult(tickers, Rejected)
  }

  /** Adding a symbol already on the list adds a second copy. */
  lemma AddKeepsDuplicates(tickers: seq<string>, t: string, price: real)
    requires t != ""
    ensures multiset(AddTicker(tickers, Some(t), Info(Price(price))).tickers)[t] == multiset(tickers)[t] + 1
  {
  }

  /** list.remove: drop the first element equal to `x`; unchanged when there is none. */
  function RemoveFirst(s: seq<string>, x: string): (r: seq<string>)
    ensures x !in s ==> r == s
    ensures x in s ==> |r| == |s| - 1 && multiset(r) == multiset(s) - multiset{x}
    decreases |s|
  {
    if |s| == 0 then s
    else
      assert s == [s[0]] + s[1..];
      if s[0] == x then s[1..]
      else [s[0]] + RemoveFirst(s[1..], x)
  }

  /** The element removed is the first occurrence, and the rest keep their order. */
  lemma {:induction false} RemoveFirstAt(s: seq<string>, x: string, i: nat)
    requires i < |s| && s[i] == x && x !in s[..i]
    ensures RemoveFirst(s, x) == s[..i] + s[i + 1..]
    decreases i
  {
    if i > 0 {
      assert s[1..][..i - 1] == s[..i][1..];
      RemoveFirstAt(s[1..], x, i - 1);
      assert s[..i] == [s[0]] + s[1..][..i - 1];
    }
  }

  datatype RemoveOutcome = RemoveFailed | Removed(ticker: string)

  datatype RemoveResult = RemoveResult(tickers: seq<string>, outcome: RemoveOutcome)

  /**
   * remove_ticker. The list box shows the tickers in order, so the selection
   * is a position in the list; without a selection nothing changes. The
   * selected symbol is removed by value.
   */
  function RemoveTicker(tickers: seq<string>, selection: Option<nat>): (r: RemoveResult)
    ensures selection.None? || selection.value >= |tickers| ==> r == RemoveResult(tickers, RemoveFailed)
    ensures selection.Some? && selection.value < |tickers| ==>
      r.outcome == Removed(tickers[selection.value]) &&
      |r.tickers| == |tickers| - 1 &&
      multiset(r.tickers) == multiset(tickers) - multiset{tickers[selection.value]}
  {
    match selection
    case None => RemoveResult(tickers, RemoveFailed)
    case Some(i) =>
      if i >= |tickers| then RemoveResult(tickers, RemoveFailed)
      else RemoveResult(RemoveFirst(tickers, tickers[i]), Removed(tickers[i]))
  }

  /** Removing the entry just added restores the list, when the symbol was new. */
  lemma RemoveUndoesAdd(tickers: seq<string>, t: string, price: real)
    requires t != "" && t !in tickers
    ensures RemoveTicker(AddTicker(tickers, Some(t), Info(Price(price))).tickers, Some(|tickers|)).tickers == tickers
  {
    var added := tickers + [t];
    assert added[..|tickers|] == tickers;
    RemoveFirstAt(added, t, |tickers|);
    assert added[|tickers| + 1..] == [];
  }

  /** Selecting a later copy of a duplicated symbol removes its first copy. */
  lemma RemoveDuplicateTakesFirst(tickers: seq<string>, i: nat, j: nat)
    requires i < j < |tickers| && tickers[i] == tickers[j] && tickers[i] !in tickers[..i]
    ensures RemoveTicker(tickers, Some(j)).tickers == tickers[..i] + tickers[i + 1..]
    ensures RemoveTicker(tickers, Some(j)).tickers[j - 1] == tickers[j]
  {
    RemoveFirstAt(tickers, tickers[i], i);
  }
}
