/**
 * When the service publishes to the sheet and when it refreshes the
 * quarterly cache. Clocks are inputs: an IST instant is a proleptic
 * Gregorian day ordinal plus a wall-clock time, and the naive local clock
 * that paces the service loop is a count of microseconds.
 */
module Scheduler {
  import opened Wrappers

  /** A time of day with microsecond resolution, as Python's `time` holds it. */
  datatype ClockTime = ClockTime(hour: nat, minute: nat, second: nat, micro: nat)

  predicate ValidTime(t: ClockTime)
  {
    t.hour < 24 && t.minute < 60 && t.second < 60 && t.micro < 1_000_000
  }

  type Time = t: ClockTime | ValidTime(t) witness ClockTime(0, 0, 0, 0)

  /** An IST instant; `day` is the date's proleptic ordinal (1 is 0001-01-01). */
  datatype Instant = Instant(day: int, time: Time)

  /** Monday is 0 and Sunday is 6; 0001-01-01 was a Monday. */
  function Weekday(day: int): (w: nat)
    ensures w < 7
  {
    (day + 6) % 7
  }

  predicate IsWeekday(now: Instant)
  {
    Weekday(now.day) < 5
  }

  /** Python's ordering of `time` values: field by field. */
  predicate TimeLe(a: Time, b: Time)
  {
    a.hour < b.hour || (a.hour == b.hour &&
    (a.minute < b.minute || (a.minute == b.minute &&
    (a.second < b.second || (a.second == b.second && a.micro <= b.micro)))))
  }

  function MicrosOfDay(t: Time): (m: nat)
    ensures m < 86_400_000_000
  {
    ((t.hour * 60 + t.minute) * 60 + t.second) * 1_000_000 + t.micro
  }

  /** Field-by-field ordering is the ordering of microseconds since midnight. */
  lemma TimeLeIsMicros(a: Time, b: Time)
    ensures TimeLe(a, b) <==> MicrosOfDay(a) <= MicrosOfDay(b)
  {
  }

  predicate InstantLe(a: Instant, b: Instant)
  {
    a.day < b.day || (a.day == b.day && TimeLe(a.time, b.time))
  }

  const MarketStart: Time := ClockTime(9, 15, 0, 0)
  const MarketEnd: Time := ClockTime(15, 30, 0, 0)

  /** A weekday between 09:15 and 15:30, both ends included: the open window
      is exactly the 22,500,000,001 microseconds from 09:15:00.000000 to
      15:30:00.000000. */
  predicate IsMarketOpen(now: Instant)
    ensures IsMarketOpen(now) <==>
      IsWeekday(now) && 33_300_000_000 <= MicrosOfDay(now.time) <= 55_800_000_000
  {
    TimeLeIsMicros(MarketStart, now.time);
    TimeLeIsMicros(now.time, MarketEnd);
    IsWeekday(now) && TimeLe(MarketStart, now.time) && TimeLe(now.time, MarketEnd)
  }

  /** Any instant of the 15:30 minute of a weekday: the 60,000,000
      microseconds from 15:30:00.000000 on. */
  predicate IsMarketClosedExactly(now: Instant)
    ensures IsMarketClosedExactly(now) <==>
      IsWeekday(now) && 55_800_000_000 <= MicrosOfDay(now.time) < 55_860_000_000
  {
    IsWeekday(now) && now.time.hour == 15 && now.time.minute == 30
  }

  datatype Decision = LiveUpdate | EodSnapshot | FallbackUpdate | Skip

  /** What one `update_sheet` call decides and the end-of-day flag it leaves. */
  datatype Outcome = Outcome(decision: Decision, eodDone: bool)

  function Decide(now: Instant, eodDone: bool, force: bool): (o: Outcome)
    // the four branches, in order
    ensures IsMarketOpen(now) ==> o == Outcome(LiveUpdate, false)
    ensures !IsMarketOpen(now) && IsMarketClosedExactly(now) && !eodDone ==> o == Outcome(EodSnapshot, true)
    ensures !IsMarketOpen(now) && !(IsMarketClosedExactly(now) && !eodDone) ==>
      o == Outcome(if force then FallbackUpdate else Skip, eodDone)
    // what a snapshot means: strictly after the close instant, within its minute
    ensures o.decision == EodSnapshot ==>
      IsWeekday(now) && now.time.hour == 15 && now.time.minute == 30 &&
      MicrosOfDay(now.time) > MicrosOfDay(MarketEnd) && !eodDone
    // nothing but the open market or the closing minute touches the flag
    ensures !IsWeekday(now) ==> o.eodDone == eodDone && o.decision in {FallbackUpdate, Skip}
    ensures o.decision == Skip <==> !force && !IsMarketOpen(now) && !(IsMarketClosedExactly(now) && !eodDone)
  {
    if IsMarketOpen(now) then Outcome(LiveUpdate, false)
    else if IsMarketClosedExactly(now) && !eodDone then
      TimeLeIsMicros(now.time, MarketEnd);
      Outcome(EodSnapshot, true)
    else if force then Outcome(FallbackUpdate, eodDone)
    else Outcome(Skip, eodDone)
  }

  // ---------------------------------------------------------------------
  // The service loop

  /** Five minutes on the local clock. */
  const Cadence: int := 300_000_000

  /**
   * What the loop remembers: the end-of-day flag and the day of the last
   * quarterly refresh live on the application and so survive a stop and a
   * start; `lastUpdate` is the local time of the last `update_sheet` call.
   */
  datatype Service = Service(eodDone: bool, lastRefresh: Option<int>, lastUpdate: int)

  /** The clock readings of one pass of the loop: the local clock, the IST
      instant `update_sheet` sees, and the IST instant the refresh check sees. */
  datatype Tick = Tick(local: int, sheetClock: Instant, refreshClock: Instant)

  /** One pass: `published` is None when `update_sheet` was not called. */
  datatype Step = Step(after: Service, published: Option<Decision>, refreshed: bool)

  /** The quarterly refresh is due in the 13:30 minute of an IST day later
      than the last refresh day, or when there has been none. */
  predicate RefreshDue(lastRefresh: Option<int>, now: Instant)
    ensures RefreshDue(lastRefresh, now) <==>
      48_600_000_000 <= MicrosOfDay(now.time) < 48_660_000_000 &&
      (lastRefresh.None? || now.day > lastRefresh.value)
  {
    now.time.hour == 13 && now.time.minute == 30 &&
    (lastRefresh.None? || now.day > lastRefresh.value)
  }

  /** One pass of the service loop. */
  function StepTick(s: Service, t: Tick): (r: Step)
    ensures r.published.Some? <==> t.local - s.lastUpdate >= Cadence
    ensures r.after.lastUpdate == if r.published.Some? then t.local else s.lastUpdate
    ensures r.published.Some? ==> r.published.value == Decide(t.sheetClock, s.eodDone, false).decision
    ensures r.published != Some(FallbackUpdate)
    ensures r.after.eodDone != s.eodDone ==> r.published in {Some(LiveUpdate), Some(EodSnapshot)}
    ensures r.after.eodDone == if r.published.Some? then Decide(t.sheetClock, s.eodDone, false).eodDone else s.eodDone
    ensures r.refreshed <==> RefreshDue(s.lastRefresh, t.refreshClock)
    ensures r.after.lastRefresh == if r.refreshed then Some(t.refreshClock.day) else s.lastRefresh
  {
    var call := t.local - s.lastUpdate >= Cadence;
    var o := if call then Decide(t.sheetClock, s.eodDone, false) else Outcome(Skip, s.eodDone);
    var refresh := RefreshDue(s.lastRefresh, t.refreshClock);
    Step(Service(o.eodDone,
                 if refresh then Some(t.refreshClock.day) else s.lastRefresh,
                 if call then t.local else s.lastUpdate),
         if call then Some(o.decision) else None,
         refresh)
  }

  /** Start-up: an unconditional refresh, then a forced publish, then the
      loop's timer starts at the local time read after it. */
  function Start(s: Service, refreshClock: Instant, sheetClock: Instant, local: int): (r: Step)
    ensures r.refreshed && r.after.lastRefresh == Some(refreshClock.day)
    ensures r.published.Some? && r.published.value != Skip
    ensures r.published.value == Decide(sheetClock, s.eodDone, true).decision
    ensures r.after.eodDone == Decide(sheetClock, s.eodDone, true).eodDone
    ensures r.after.lastUpdate == local
  {
    var o := Decide(sheetClock, s.eodDone, true);
    Step(Service(o.eodDone, Some(refreshClock.day), local), Some(o.decision), true)
  }

  /** The end-of-day flag survives a stop and a start: a restart within the
      closing minute after that day's snapshot publishes only as a fallback
      and keeps the flag set. */
  lemma RestartAfterSnapshot(s: Service, refreshClock: Instant, sheetClock: Instant, local: int)
    requires s.eodDone && IsMarketClosedExactly(sheetClock) && !IsMarketOpen(sheetClock)
    ensures Start(s, refreshClock, sheetClock, local).published == Some(FallbackUpdate)
    ensures Start(s, refreshClock, sheetClock, local).after.eodDone
  {
  }

  /** `trace` is the sequence of passes the loop makes from `s` over `ticks`. */
  predicate Follows(s: Service, ticks: seq<Tick>, trace: seq<Step>)
  {
    |trace| == |ticks| &&
    (|ticks| > 0 ==> trace[0] == StepTick(s, ticks[0])) &&
    forall k :: 0 < k < |ticks| ==> trace[k] == StepTick(trace[k - 1].after, ticks[k])
  }

  function Run(s: Service, ticks: seq<Tick>): (trace: seq<Step>)
    ensures Follows(s, ticks, trace)
    decreases |ticks|
  {
    if |ticks| == 0 then []
    else
      var first := StepTick(s, ticks[0]);
      [first] + Run(first.after, ticks[1..])
  }

  /** The state before pass `k`. */
  function Before(s: Service, trace: seq<Step>, k: nat): Service
    requires k <= |trace|
  {
    if k == 0 then s else trace[k - 1].after
  }

  lemma StepAt(s: Service, ticks: seq<Tick>, trace: seq<Step>, k: nat)
    requires Follows(s, ticks, trace) && k < |ticks|
    ensures trace[k] == StepTick(Before(s, trace, k), ticks[k])
  {
  }

  /** Between two calls the timer keeps the earlier call's time. */
  lemma {:induction false} TimerHeld(s: Service, ticks: seq<Tick>, trace: seq<Step>, i: nat, k: nat)
    requires Follows(s, ticks, trace) && i < k <= |ticks|
    requires trace[i].published.Some?
    requires forall m :: i < m < k ==> trace[m].published.None?
    ensures Before(s, trace, k).lastUpdate == ticks[i].local
    decreases k
  {
    StepAt(s, ticks, trace, k - 1);
    if k - 1 > i {
      TimerHeld(s, ticks, trace, i, k - 1);
    }
  }

  /** Two successive `update_sheet` calls are at least five minutes apart
      on the local clock. */
  lemma CallsSpaced(s: Service, ticks: seq<Tick>, trace: seq<Step>, i: nat, j: nat)
    requires Follows(s, ticks, trace) && i < j < |ticks|
    requires trace[i].published.Some? && trace[j].published.Some?
    requires forall m :: i < m < j ==> trace[m].published.None?
    ensures ticks[j].local - ticks[i].local >= Cadence
  {
    TimerHeld(s, ticks, trace, i, j);
    StepAt(s, ticks, trace, j);
  }

  /** The recorded refresh day never goes back and never disappears. */
  lemma {:induction false} RefreshDayKept(s: Service, ticks: seq<Tick>, trace: seq<Step>, i: nat, k: nat)
    requires Follows(s, ticks, trace) && i <= k <= |ticks|
    requires Before(s, trace, i).lastRefresh.Some?
    ensures Before(s, trace, k).lastRefresh.Some?
    ensures Before(s, trace, k).lastRefresh.value >= Before(s, trace, i).lastRefresh.value
    decreases k
  {
    if k > i {
      RefreshDayKept(s, ticks, trace, i, k - 1);
      StepAt(s, ticks, trace, k - 1);
    }
  }

  /** Scheduled refreshes fall on strictly increasing IST days, whatever the
      clock does: at most one per day. */
  lemma RefreshDaysIncrease(s: Service, ticks: seq<Tick>, trace: seq<Step>, i: nat, j: nat)
    requires Follows(s, ticks, trace) && i < j < |ticks|
    requires trace[i].refreshed && trace[j].refreshed
    ensures ticks[i].refreshClock.day < ticks[j].refreshClock.day
  {
    StepAt(s, ticks, trace, i);
    StepAt(s, ticks, trace, j);
    RefreshDayKept(s, ticks, trace, i + 1, j);
  }

  /** After a start-up refresh, the loop does not refresh again on a day
      up to the start-up day. */
  lemma NoRefreshOnStartDay(s: Service, refreshClock: Instant, sheetClock: Instant, local: int,
                            ticks: seq<Tick>, trace: seq<Step>, j: nat)
    requires Follows(Start(s, refreshClock, sheetClock, local).after, ticks, trace) && j < |ticks|
    requires trace[j].refreshed
    ensures ticks[j].refreshClock.day > refreshClock.day
  {
    var s0 := Start(s, refreshClock, sheetClock, local).after;
    RefreshDayKept(s0, ticks, trace, 0, j);
    StepAt(s0, ticks, trace, j);
  }

  /** The end-of-day flag stays set until a live update clears it. */
  lemma {:induction false} EodFlagHeld(s: Service, ticks: seq<Tick>, trace: seq<Step>, i: nat, k: nat)
    requires Follows(s, ticks, trace) && i < k <= |ticks|
    requires trace[i].published == Some(EodSnapshot)
    requires forall m :: i < m < k ==> trace[m].published != Some(LiveUpdate)
    ensures Before(s, trace, k).eodDone
    decreases k
  {
    StepAt(s, ticks, trace, k - 1);
    if k - 1 > i {
      EodFlagHeld(s, ticks, trace, i, k - 1);
    }
  }

  /** Between two end-of-day snapshots there is a live update. */
  lemma LiveBetweenSnapshots(s: Service, ticks: seq<Tick>, trace: seq<Step>, i: nat, j: nat)
    requires Follows(s, ticks, trace) && i < j < |ticks|
    requires trace[i].published == Some(EodSnapshot) && trace[j].published == Some(EodSnapshot)
    ensures exists m :: i < m < j && trace[m].published == Some(LiveUpdate)
  {
    if forall m :: i < m < j ==> trace[m].published != Some(LiveUpdate) {
      EodFlagHeld(s, ticks, trace, i, j);
      StepAt(s, ticks, trace, j);
      assert false;
    }
  }

  /** With an IST clock that never runs backwards, two end-of-day snapshots
      fall on different days. */
  lemma OneSnapshotPerDay(s: Service, ticks: seq<Tick>, trace: seq<Step>, i: nat, j: nat)
    requires Follows(s, ticks, trace) && i < j < |ticks|
    requires forall a, b :: 0 <= a < b < |ticks| ==> InstantLe(ticks[a].sheetClock, ticks[b].sheetClock)
    requires trace[i].published == Some(EodSnapshot) && trace[j].published == Some(EodSnapshot)
    ensures ticks[i].sheetClock.day < ticks[j].sheetClock.day
  {
    LiveBetweenSnapshots(s, ticks, trace, i, j);
    var m :| i < m < j && trace[m].published == Some(LiveUpdate);
    StepAt(s, ticks, trace, i);
    StepAt(s, ticks, trace, m);
    StepAt(s, ticks, trace, j);
    var ci, cm, cj := ticks[i].sheetClock, ticks[m].sheetClock, ticks[j].sheetClock;
    assert InstantLe(ci, cm) && InstantLe(cm, cj);
    if ci.day == cj.day {
      assert cm.day == ci.day;
      TimeLeIsMicros(ci.time, cm.time);
      TimeLeIsMicros(cm.time, MarketEnd);
      assert false;
    }
  }
}
