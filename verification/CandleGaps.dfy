// Exactly which candle queries are right: not those with a cursor inside a bucket, nor with the zero time as an
// upper bound when that leaves room for bars.
module CandleGaps {
  import opened Sequences
  import opened Trades
  import opened Candles
  import opened Intervals
  import opened Queries
  import opened Filling
  import opened Catalog
  import opened Reader
  import opened ColdCandles
  import opened History
  import opened ArchiveProtocol
  import opened OneHistory
  import opened CandleHistory
  import opened SampleRuns

  // -------------------------------------------------------------------------------------------------
  // What a page of history shows

  lemma SeriesIsGroupBy(all: seq<Trade>, f: CandleFilter, secs: nat)
    requires Ascending(all) && secs > 0
    ensures GroupBy(Series(all, f, secs), By(secs), Filter(Asked(f, secs), all))
    ensures AllAsked(f, secs, Filter(Asked(f, secs), all))
  {
    FilterAscending(Asked(f, secs), all);
    FilteredSatisfy(Asked(f, secs), all);
    BucketsRise(Filter(Asked(f, secs), all), secs);
    BarsAreGroupBy(By(secs), Filter(Asked(f, secs), all));
  }

  /** A filled page of history is a contiguous series between the bounds of the query, and every entry is the true
      bar of its bucket over all of history. */
  lemma FilledHistoryIsTrue(all: seq<Trade>, f: CandleFilter, secs: nat)
    requires Ascending(all) && secs > 0 && f.fill && AlignedCursor(f.before, secs)
    ensures var bars, page := Take(Series(all, f, secs), ClampLimit(f.limit)), RightPage(all, f, secs);
            && Spans(page, bars, f, secs, ClampLimit(f.limit))
            && forall i :: 0 <= i < |page| ==>
                 page[i] == TrueBar(By(secs), page[i].bucket, Filter(Asked(f, secs), all))
  {
    SeriesIsGroupBy(all, f, secs);
    FilledPageIsTrue(f, secs, Filter(Asked(f, secs), all), Series(all, f, secs), ClampLimit(f.limit));
  }

  /** And it leaves out no bar of history that is not older than its last bucket. */
  lemma FilledHistoryHidesNothing(all: seq<Trade>, f: CandleFilter, secs: nat, k: nat)
    requires Ascending(all) && secs > 0 && f.fill && AlignedCursor(f.before, secs) && k < |Series(all, f, secs)|
    ensures Shows(RightPage(all, f, secs), Series(all, f, secs)[k], ClampLimit(f.limit))
  {
    SeriesIsGroupBy(all, f, secs);
    FilledPageShowsBar(f, secs, Filter(Asked(f, secs), all), Series(all, f, secs), ClampLimit(f.limit), k);
  }

  // -------------------------------------------------------------------------------------------------
  // A cursor inside a bucket

  function Sample(locate: nat, time: nat): Trade {
    Trade(0, locate, "", 0, 0, 'B', time)
  }

  /** A wanted trade in the part of the cursor's bucket that is lost. */
  function LostInstant(f: CandleFilter, secs: nat): int
    requires secs > 0 && f.before.Some?
  {
    var first := CutFrom(f.before.value, secs);
    if f.from.Some? && first < f.from.value then f.from.value else first
  }

  lemma LostTrade(f: CandleFilter, secs: nat)
    requires secs > 0 && CutsBar(f, secs)
    ensures var x := LostInstant(f, secs);
            && x >= 0
            && Asked(f, secs)(Sample(f.locate, x))
            && By(secs)(Sample(f.locate, x)) == BucketStart(f.before.value, secs)
            && (f.from.Some? ==> f.from.value <= x)
  {
    var b := f.before.value;
    var start := BucketStart(b, secs);
    BucketIsAligned(b, secs);
    BucketSpan(b, secs, start);
    var x := LostInstant(f, secs);
    BucketSpan(x, secs, start);
    assert Matching(f.locate, f.from, f.to)(Sample(f.locate, x));
  }

  lemma OneBar(key: Trade -> int, t: Trade)
    ensures Bars(key, [t]) == [FirstBar(key(t), t)]
  {
    assert [t][..0] == [];
  }

  lemma SampleIsWanted(f: CandleFilter, secs: nat, t: Trade)
    requires secs > 0 && Asked(f, secs)(t) && !f.fill
    ensures |RightPage([t], f, secs)| == 1
  {
    FilterOne(Asked(f, secs), t);
    OneBar(By(secs), t);
  }

  lemma LiveSampleIsLost(f: CandleFilter, secs: nat, c: Config, t: Trade)
    requires secs > 0 && IntervalSeconds(f.interval) == Some(secs) && !f.fill
    requires f.before.Some? && f.before.value <= t.time
    ensures HistoryPage(Store([t], map[]), c, f) == Ok([])
  {
    FilterOne(LiveRows(f), t);
    assert Filter(LiveRows(f), [t]) == [];
  }

  lemma ArchivedSampleIsLost(f: CandleFilter, secs: nat, c: Config, t: Trade)
    requires secs > 0 && IntervalSeconds(f.interval) == Some(secs) && !f.fill && ArchiveActive(c)
    requires f.before.Some? && Seconds(f.before.value) <= By(secs)(t)
    ensures HistoryPage(Store([], map[DayOf(t.time) := [t]]), c, f) == Ok([])
  {
    var files := map[DayOf(t.time) := [t]];
    assert DayOf(t.time) in files;
    var split := Split(files);
    OneDayStore(t);
    assert !ColdFilter(f, split, secs)(t);
    FilterOne(ColdFilter(f, split, secs), t);
  }

  /** The stores of a run in which a single trade was recorded. */
  ghost predicate Reached(all: seq<Trade>, store: Store, maxAge: nat) {
    exists clock: nat, steps: seq<Step> ::
      var s := Run(Init(clock), steps, maxAge); s.all == all && s.live == store.live && s.files == store.files
  }

  lemma LiveSampleIsReached(t: Trade, maxAge: nat)
    ensures Reached([t], Store([t], map[]), maxAge) && Sound([t], [t], map[])
  {
    InsertRun(t, maxAge);
    var s := Run(Init(t.time), [InsertOf(t)], maxAge);
    assert s.all == [t] && s.live == [t] && s.files == map[];
  }

  lemma ArchivedSampleIsReached(t: Trade, maxAge: nat)
    ensures Reached([t], Store([], map[DayOf(t.time) := [t]]), maxAge)
  {
    DayBefore(t.time, t.time + DAY);
    ArchiveRun(t, maxAge + DAY, maxAge);
    var s := Run(Init(t.time), ArchiveSteps(t, maxAge + DAY), maxAge);
    assert s.all == [t] && s.live == [] && s.files == map[DayOf(t.time) := [t]];
  }

  /** Reachable stores on which a query whose cursor cuts a bar is wrong. */
  lemma CutBarIsWrong(c: Config, f: CandleFilter, secs: nat, maxAge: nat) returns (all: seq<Trade>, store: Store)
    requires ArchiveActive(c) && IntervalSeconds(f.interval) == Some(secs) && !f.fill && CutsBar(f, secs)
    ensures Sound(all, store.live, store.files) && Reached(all, store, maxAge)
    ensures HistoryPage(store, c, f) != Ok(RightPage(all, f, secs))
  {
    LostTrade(f, secs);
    var t := Sample(f.locate, LostInstant(f, secs));
    all := [t];
    SampleIsWanted(f, secs, t);
    if Seconds(f.before.value) == BucketStart(f.before.value, secs) {
      store := Store([], map[DayOf(t.time) := [t]]);
      OneDayStore(t);
      ArchivedSampleIsReached(t, maxAge);
      ArchivedSampleIsLost(f, secs, c, t);
    } else {
      store := Store([t], map[]);
      LiveSampleIsReached(t, maxAge);
      LiveSampleIsLost(f, secs, c, t);
    }
  }

  // -------------------------------------------------------------------------------------------------
  // The zero time as an upper bound

  lemma ZeroTimeAsksForNothing(all: seq<Trade>, f: CandleFilter, secs: nat)
    requires secs > 0 && !f.fill && f.to == Some(ZERO_TIME)
    ensures RightPage(all, f, secs) == []
  {
    forall t | t in all
      ensures !Asked(f, secs)(t)
    {
      assert !Matching(f.locate, f.from, f.to)(t);
    }
    FilterNone(Asked(f, secs), all);
  }

  /** What the archive selects for a query without an upper bound. */
  function Unbounded(f: CandleFilter, secs: nat): Trade -> bool
    requires secs > 0
  {
    ColdRows(f.locate, OrZero(f.from), ZERO_TIME, By(secs), f.before)
  }

  lemma ZeroTimeMerges(all: seq<Trade>, store: Store, f: CandleFilter, secs: nat, limit: nat)
    requires Sound(all, store.live, store.files) && store.files != map[] && f.to == Some(ZERO_TIME)
    requires secs > 0 && limit > 0
    ensures MergedBars(store, f, secs, limit) ==
            Take(Bars(By(secs), Filter(Unbounded(f, secs), Cold(store.files))), limit)
  {
    var split, cold := Split(store.files), Cold(store.files);
    SplitIsPositive(all, store);
    assert ColdTo(f.to, split) == ZERO_TIME;
    assert HotBars(store.live, f, split, secs, limit) == [];
    if f.from.Some? && split <= f.from.value {
      NoneFrom(all, store, f, secs);
    }
    var bars := ColdBars(store.files, f, split, secs, limit);
    assert [] + bars == bars;
  }

  lemma NoneFrom(all: seq<Trade>, store: Store, f: CandleFilter, secs: nat)
    requires Sound(all, store.live, store.files) && store.files != map[] && secs > 0
    requires f.from.Some? && Split(store.files) <= f.from.value && ZERO_TIME < Split(store.files) - 1
    ensures Filter(Unbounded(f, secs), Cold(store.files)) == []
  {
    ColdIsOld(all, store.live, store.files);
    FilteredSatisfy(Before(Split(store.files)), all);
    forall t | t in Cold(store.files)
      ensures !Unbounded(f, secs)(t)
    {
      assert !Matching(f.locate, Bound(OrZero(f.from)), Bound(ZERO_TIME))(t);
    }
    FilterNone(Unbounded(f, secs), Cold(store.files));
  }

  /** The archive takes the zero time for a missing bound: instead of nothing, such a query returns the archived
      bars as if it had no upper bound. */
  lemma ZeroTimeIsUnbounded(all: seq<Trade>, store: Store, c: Config, f: CandleFilter, secs: nat)
    requires Sound(all, store.live, store.files) && store.files != map[] && ArchiveActive(c)
    requires IntervalSeconds(f.interval) == Some(secs) && !f.fill && f.to == Some(ZERO_TIME)
    ensures RightPage(all, f, secs) == []
    ensures HistoryPage(store, c, f) ==
            Ok(Take(Bars(By(secs), Filter(Unbounded(f, secs), Cold(store.files))), ClampLimit(f.limit)))
  {
    var limit := ClampLimit(f.limit);
    ZeroTimeAsksForNothing(all, f, secs);
    ZeroTimeMerges(all, store, f, secs, limit);
    TakeTake(Bars(By(secs), Filter(Unbounded(f, secs), Cold(store.files))), limit, limit);
  }

  lemma SplitIsPositive(all: seq<Trade>, store: Store)
    requires Sound(all, store.live, store.files) && store.files != map[]
    ensures ZERO_TIME < Split(store.files) - 1
  {
    var d := Latest(store.files.Keys);
    var t := store.files[d][0];
    InFilter(OnDay(d), all, t);
    DayStart(t.time, 0);
  }

  /** The first instant a trade can have for a query. */
  function FirstInstant(f: CandleFilter): nat {
    if f.from.Some? && f.from.value > 0 then f.from.value else 0
  }

  /** Whether a query whose upper bound is the zero time leaves room for a bar, were there no such bound: its lower
      bound is a time that day files can have, in a bucket before the cursor. */
  predicate Misleads(f: CandleFilter, secs: nat)
    requires secs > 0
  {
    && f.to == Some(ZERO_TIME) && (f.from.None? || f.from.value <= LAST_SECOND)
    && (f.before.None? || BucketStart(FirstInstant(f), secs) < Seconds(f.before.value))
  }

  lemma MisledSample(f: CandleFilter, secs: nat)
    requires secs > 0 && Misleads(f, secs)
    ensures Unbounded(f, secs)(Sample(f.locate, FirstInstant(f)))
  {
    var t := Sample(f.locate, FirstInstant(f));
    assert Matching(f.locate, Bound(OrZero(f.from)), Bound(ZERO_TIME))(t);
    assert By(secs)(t) == BucketStart(FirstInstant(f), secs);
  }

  lemma MisledBars(f: CandleFilter, secs: nat, t: Trade)
    requires secs > 0 && Misleads(f, secs) && t == Sample(f.locate, FirstInstant(f))
    ensures Bars(By(secs), Filter(Unbounded(f, secs), [t])) == [FirstBar(By(secs)(t), t)]
  {
    MisledSample(f, secs);
    FilterOne(Unbounded(f, secs), t);
    OneBar(By(secs), t);
  }

  lemma TakeOne<T>(x: T, n: nat)
    requires n > 0
    ensures Take([x], n) == [x]
  {
  }

  lemma MisledAnswer(c: Config, f: CandleFilter, secs: nat, t: Trade, store: Store)
    requires ArchiveActive(c) && IntervalSeconds(f.interval) == Some(secs) && !f.fill && Misleads(f, secs)
    requires t == Sample(f.locate, FirstInstant(f))
    requires Sound([t], store.live, store.files) && store.files != map[] && Cold(store.files) == [t]
    ensures HistoryPage(store, c, f) == Ok([FirstBar(By(secs)(t), t)]) && RightPage([t], f, secs) == []
  {
    ZeroTimeIsUnbounded([t], store, c, f, secs);
    MisledBars(f, secs, t);
    TakeOne(FirstBar(By(secs)(t), t), ClampLimit(f.limit));
  }

  /** Reachable stores on which such a query is wrong. */
  lemma MisleadingIsWrong(c: Config, f: CandleFilter, secs: nat, maxAge: nat)
      returns (all: seq<Trade>, store: Store)
    requires ArchiveActive(c) && IntervalSeconds(f.interval) == Some(secs) && !f.fill && Misleads(f, secs)
    ensures Sound(all, store.live, store.files) && InYears(store.files) && Reached(all, store, maxAge)
    ensures HistoryPage(store, c, f) != Ok(RightPage(all, f, secs))
  {
    var t := Sample(f.locate, FirstInstant(f));
    all, store := [t], Store([], map[DayOf(t.time) := [t]]);
    OneDayStore(t);
    ArchivedSampleIsReached(t, maxAge);
    assert DayOf(t.time) in store.files;
    MisledAnswer(c, f, secs, t, store);
  }

  lemma NothingUnbounded(store: Store, f: CandleFilter, secs: nat, t: Trade)
    requires secs > 0 && f.to == Some(ZERO_TIME) && !Misleads(f, secs) && t.time <= LAST_SECOND
    ensures !Unbounded(f, secs)(t)
  {
    if FirstInstant(f) <= t.time {
      BucketMonotone(FirstInstant(f), t.time, secs);
    }
  }

  lemma LiveZeroTime(live: seq<Trade>, f: CandleFilter, secs: nat)
    requires IntervalSeconds(f.interval) == Some(secs) && !f.fill && f.to == Some(ZERO_TIME)
    ensures LivePage(live, f) == Ok([])
  {
    forall t | t in live
      ensures !LiveRows(f)(t)
    {
      assert !Matching(f.locate, f.from, f.to)(t);
    }
    FilterNone(LiveRows(f), live);
  }

  lemma ZeroTimeIsRight(all: seq<Trade>, store: Store, c: Config, f: CandleFilter, secs: nat)
    requires Sound(all, store.live, store.files) && InYears(store.files) && ArchiveActive(c)
    requires IntervalSeconds(f.interval) == Some(secs) && !f.fill && f.to == Some(ZERO_TIME) && !Misleads(f, secs)
    ensures HistoryPage(store, c, f) == Ok(RightPage(all, f, secs))
  {
    ZeroTimeAsksForNothing(all, f, secs);
    if store.files == map[] {
      LiveZeroTime(store.live, f, secs);
    } else {
      ZeroTimeIsUnbounded(all, store, c, f, secs);
      forall t | t in Cold(store.files)
        ensures !Unbounded(f, secs)(t)
      {
        ColdIsFiled(all, store, t);
        NothingUnbounded(store, f, secs, t);
      }
      FilterNone(Unbounded(f, secs), Cold(store.files));
    }
  }

  // -------------------------------------------------------------------------------------------------
  // Exactly which queries are right

  /** The stores a query can meet. Only for the zero time does the archive look at dates beyond the year 9999. */
  ghost predicate CanMeet(all: seq<Trade>, store: Store, f: CandleFilter) {
    Sound(all, store.live, store.files) && (f.to == Some(ZERO_TIME) ==> InYears(store.files))
  }

  lemma RightQuery(all: seq<Trade>, store: Store, c: Config, f: CandleFilter, secs: nat)
    requires ArchiveActive(c) && IntervalSeconds(f.interval) == Some(secs) && !f.fill
    requires CanMeet(all, store, f) && !CutsBar(f, secs) && !Misleads(f, secs)
    ensures HistoryPage(store, c, f) == Ok(RightPage(all, f, secs))
  {
    if f.to == Some(ZERO_TIME) {
      ZeroTimeIsRight(all, store, c, f, secs);
    } else {
      OneGroupBy(all, store, c, f, secs);
    }
  }

  lemma CutsAreBounded(f: CandleFilter, secs: nat)
    requires secs > 0 && CutsBar(f, secs)
    ensures f.to != Some(ZERO_TIME)
  {
    BucketIsAligned(f.before.value, secs);
    BucketSpan(f.before.value, secs, BucketStart(f.before.value, secs));
  }

  lemma WrongQuery(c: Config, f: CandleFilter, secs: nat, maxAge: nat) returns (all: seq<Trade>, store: Store)
    requires ArchiveActive(c) && IntervalSeconds(f.interval) == Some(secs) && !f.fill
    requires CutsBar(f, secs) || Misleads(f, secs)
    ensures CanMeet(all, store, f) && Reached(all, store, maxAge)
    ensures HistoryPage(store, c, f) != Ok(RightPage(all, f, secs))
  {
    if CutsBar(f, secs) {
      CutsAreBounded(f, secs);
      all, store := CutBarIsWrong(c, f, secs, maxAge);
    } else {
      all, store := MisleadingIsWrong(c, f, secs, maxAge);
    }
  }

  /** Exactly the queries whose cursor cuts no bar, and whose zero time leaves room for none, are safe: such a query
      is right on every sound pair of stores, and any other query is wrong on some that a run leads to. */
  lemma CursorCondition(c: Config, f: CandleFilter, secs: nat)
    requires ArchiveActive(c) && IntervalSeconds(f.interval) == Some(secs) && !f.fill
    ensures !CutsBar(f, secs) && !Misleads(f, secs) <==>
            forall all: seq<Trade>, store: Store :: CanMeet(all, store, f) ==>
              HistoryPage(store, c, f) == Ok(RightPage(all, f, secs))
  {
    if CutsBar(f, secs) || Misleads(f, secs) {
      var all, store := WrongQuery(c, f, secs, 0);
    } else {
      forall all: seq<Trade>, store: Store | CanMeet(all, store, f)
        ensures HistoryPage(store, c, f) == Ok(RightPage(all, f, secs))
      {
        RightQuery(all, store, c, f, secs);
      }
    }
  }
}
