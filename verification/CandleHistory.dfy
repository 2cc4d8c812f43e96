// When a candle query is exact: the newest bars of one group-by over every trade ever inserted.
module CandleHistory {
  import opened Sequences
  import opened Trades
  import opened Candles
  import opened Intervals
  import opened Queries
  import opened Filling
  import opened Catalog
  import opened History
  import opened ArchiveProtocol
  import opened OneHistory

  /** The whole series a query is about, newest first. */
  function Series(all: seq<Trade>, f: CandleFilter, secs: nat): seq<Candle>
    requires secs > 0
  {
    Bars(By(secs), Filter(Asked(f, secs), all))
  }

  /** The page a query should return. */
  function RightPage(all: seq<Trade>, f: CandleFilter, secs: nat): seq<Candle>
    requires secs > 0
  {
    CandlePage(Series(all, f, secs), f, secs)
  }

  /** A page that is not filled has as many bars as there are, up to the number asked for and to 1000. */
  lemma UnfilledPageSize(all: seq<Trade>, f: CandleFilter, secs: nat)
    requires secs > 0 && !f.fill
    ensures f.limit >= 1 ==> |RightPage(all, f, secs)| == Min(Min(f.limit, 1000), |Series(all, f, secs)|)
    ensures f.limit <= 0 ==> |RightPage(all, f, secs)| == Min(100, |Series(all, f, secs)|)
  {
  }

  // -------------------------------------------------------------------------------------------------
  // The cursor

  function BucketStart(time: int, secs: nat): int
    requires secs > 0
  {
    AlignDown(Seconds(time), secs)
  }

  /** The first instant of the cursor's bucket whose trades the two stores do not treat as a whole bucket. */
  function CutFrom(before: int, secs: nat): int
    requires secs > 0
  {
    var start := BucketStart(before, secs);
    if Seconds(before) == start then start * NANOS else before
  }

  function CutTo(before: int, secs: nat): int
    requires secs > 0
  {
    (BucketStart(before, secs) + secs) * NANOS
  }

  /** The cursor cuts a bar that the query's bounds let through. */
  predicate CutsBar(f: CandleFilter, secs: nat)
    requires secs > 0
  {
    && f.before.Some? && f.before.value > 0 && f.before.value != BucketStart(f.before.value, secs) * NANOS
    && (f.from.None? || f.from.value < CutTo(f.before.value, secs))
    && (f.to.None? || CutFrom(f.before.value, secs) <= f.to.value)
    && (f.from.None? || f.to.None? || f.from.value <= f.to.value)
  }

  /** A bucket contains exactly the instants that align to it. */
  lemma BucketSpan(time: nat, secs: nat, start: int)
    requires secs > 0 && start % secs == 0
    ensures BucketStart(time, secs) == start <==> start * NANOS <= time < (start + secs) * NANOS
  {
    BucketIsAligned(time, secs);
    AlignKeepsSide(Seconds(time), secs, start);
    SecondsKeepSide(time, start);
    NextMultiple(start, secs);
    AlignKeepsSide(Seconds(time), secs, start + secs);
    SecondsKeepSide(time, start + secs);
    if start <= BucketStart(time, secs) < start + secs {
      NoMultipleBetween(BucketStart(time, secs), start, secs);
    }
  }

  lemma NextMultiple(x: int, secs: nat)
    requires secs > 0 && x % secs == 0
    ensures (x + secs) % secs == 0
  {
    MultipleOf(x, secs);
    Distribute(secs, x / secs, -1);
    MultipleHasNoRest(x / secs + 1, secs);
  }

  lemma NoMultipleBetween(y: int, x: int, secs: nat)
    requires secs > 0 && x % secs == 0 && y % secs == 0 && x <= y < x + secs
    ensures y == x
  {
    if x < y {
      GridGap(x, y, secs);
    }
  }

  /** Unless the cursor cuts a bar, a bucket that starts before it has all its wanted trades before it. */
  lemma CursorKeepsBuckets(f: CandleFilter, secs: nat, t: Trade)
    requires secs > 0 && !CutsBar(f, secs) && f.before.Some? && Matching(f.locate, f.from, f.to)(t)
    ensures By(secs)(t) * NANOS < f.before.value <==> t.time < f.before.value
    ensures By(secs)(t) * NANOS < f.before.value <==> By(secs)(t) < Seconds(f.before.value)
  {
    var b, start := f.before.value, By(secs)(t);
    BucketIsAligned(t.time, secs);
    BucketSpan(t.time, secs, start);
    SecondsKeepSide(b, start);
    if b > 0 && start * NANOS < b < (start + secs) * NANOS {
      BucketSpan(b, secs, start);
    }
  }

  /** A cursor on a bucket boundary cuts nothing. */
  lemma AlignedCursorCutsNothing(f: CandleFilter, secs: nat)
    requires secs > 0 && AlignedCursor(f.before, secs)
    ensures !CutsBar(f, secs)
  {
    if f.before.Some? {
      AlignedStays(f.before.value / NANOS, secs);
      MultipleOf(f.before.value, NANOS);
    }
  }

  // -------------------------------------------------------------------------------------------------
  // The two halves of a page

  lemma HotRowAgrees(f: CandleFilter, secs: nat, split: int, t: Trade)
    requires secs > 0 && !CutsBar(f, secs)
    ensures LiveRows(LiveFilter(f, split))(t) == (Asked(f, secs)(t) && Since(split)(t))
  {
    assert Matching(f.locate, LiveFilter(f, split).from, f.to)(t) ==
           (Matching(f.locate, f.from, f.to)(t) && split <= t.time);
    if f.before.Some? && Matching(f.locate, f.from, f.to)(t) {
      CursorKeepsBuckets(f, secs, t);
    }
  }

  lemma HotRows(f: CandleFilter, secs: nat, split: int, live: seq<Trade>)
    requires secs > 0 && !CutsBar(f, secs)
    ensures Filter(LiveRows(LiveFilter(f, split)), live) == Filter(Asked(f, secs), Filter(Since(split), live))
  {
    forall t | t in live
      ensures LiveRows(LiveFilter(f, split))(t) == (Asked(f, secs)(t) && Since(split)(t))
    {
      HotRowAgrees(f, secs, split, t);
    }
    FilterBoth(Asked(f, secs), Since(split), LiveRows(LiveFilter(f, split)), live);
  }

  lemma ColdRowsAgree(f: CandleFilter, secs: nat, split: int, cold: seq<Trade>)
    requires secs > 0 && !CutsBar(f, secs) && f.to != Some(ZERO_TIME) && split - 1 != ZERO_TIME
    requires forall t :: t in cold ==> t.time < split
    ensures Filter(ColdFilter(f, split, secs), cold) == Filter(Asked(f, secs), cold)
  {
    forall t | t in cold
      ensures ColdFilter(f, split, secs)(t) == Asked(f, secs)(t)
    {
      if f.before.Some? && Matching(f.locate, f.from, f.to)(t) {
        CursorKeepsBuckets(f, secs, t);
      }
    }
    FilterSame(ColdFilter(f, split, secs), Asked(f, secs), cold);
  }

  lemma NothingHot(f: CandleFilter, secs: nat, split: int, rows: seq<Trade>)
    requires secs > 0 && f.to.Some? && f.to.value < split && forall t :: t in rows ==> split <= t.time
    ensures Filter(Asked(f, secs), rows) == []
  {
    forall t | t in rows
      ensures !Asked(f, secs)(t)
    {
      assert !Matching(f.locate, f.from, f.to)(t);
    }
    FilterNone(Asked(f, secs), rows);
  }

  lemma NothingCold(f: CandleFilter, secs: nat, split: int, rows: seq<Trade>)
    requires secs > 0 && f.from.Some? && split <= f.from.value && forall t :: t in rows ==> t.time < split
    ensures Filter(Asked(f, secs), rows) == []
  {
    forall t | t in rows
      ensures !Asked(f, secs)(t)
    {
      assert !Matching(f.locate, f.from, f.to)(t);
    }
    FilterNone(Asked(f, secs), rows);
  }

  /** The bars of the asked-for trades since an instant. */
  function NewBars(all: seq<Trade>, f: CandleFilter, secs: nat, split: int): seq<Candle>
    requires secs > 0
  {
    Bars(By(secs), Filter(Asked(f, secs), Filter(Since(split), all)))
  }

  function OldBars(all: seq<Trade>, f: CandleFilter, secs: nat, split: int): seq<Candle>
    requires secs > 0
  {
    Bars(By(secs), Filter(Asked(f, secs), Filter(Before(split), all)))
  }

  /** The series is the bars of the trades since a midnight, then the bars of those before. */
  lemma SeriesSplits(all: seq<Trade>, f: CandleFilter, secs: nat, day: int)
    requires Ascending(all) && IsInterval(secs)
    ensures Series(all, f, secs) == NewBars(all, f, secs, day * DAY) + OldBars(all, f, secs, day * DAY)
  {
    var earlier, later := Filter(Before(day * DAY), all), Filter(Since(day * DAY), all);
    SplitAt(all, day * DAY);
    FilterConcat(Asked(f, secs), earlier, later);
    var x, y := Filter(Asked(f, secs), earlier), Filter(Asked(f, secs), later);
    forall i | 0 <= i < |x|
      ensures DayOf(x[i].time) < day
    {
      InFilter(Asked(f, secs), earlier, x[i]);
      InFilter(Before(day * DAY), all, x[i]);
      DayStart(x[i].time, day);
    }
    forall i | 0 <= i < |y|
      ensures day <= DayOf(y[i].time)
    {
      InFilter(Asked(f, secs), later, y[i]);
      InFilter(Since(day * DAY), all, y[i]);
      DayStart(y[i].time, day);
    }
    DaysAreApart(x, y, secs, day);
    BarsConcat(By(secs), x, y);
  }

  lemma HotIsRight(all: seq<Trade>, store: Store, f: CandleFilter, secs: nat, limit: nat)
    requires Sound(all, store.live, store.files) && store.files != map[] && secs > 0 && !CutsBar(f, secs)
    ensures var split := Split(store.files);
            HotBars(store.live, f, split, secs, limit) ==
            Take(NewBars(all, f, secs, split), limit)
  {
    var split := Split(store.files);
    LiveIsNew(all, store.live, store.files);
    if f.to.None? || f.to.value >= split {
      HotRows(f, secs, split, store.live);
    } else {
      FilteredSatisfy(Since(split), all);
      NothingHot(f, secs, split, Filter(Since(split), all));
    }
  }

  lemma ColdIsRight(all: seq<Trade>, store: Store, f: CandleFilter, secs: nat, room: nat)
    requires Sound(all, store.live, store.files) && store.files != map[] && secs > 0 && !CutsBar(f, secs)
    requires f.to != Some(ZERO_TIME)
    ensures var split := Split(store.files);
            ColdBars(store.files, f, split, secs, room) ==
            Take(OldBars(all, f, secs, split), room)
  {
    var split := Split(store.files);
    ColdIsOld(all, store.live, store.files);
    FilteredSatisfy(Before(split), all);
    SplitIsNotZero(Latest(store.files.Keys));
    if f.from.None? || f.from.value < split {
      ColdRowsAgree(f, secs, split, Cold(store.files));
    } else {
      NothingCold(f, secs, split, Cold(store.files));
    }
  }

  lemma MergedIsRight(all: seq<Trade>, store: Store, f: CandleFilter, secs: nat, limit: nat)
    requires Sound(all, store.live, store.files) && store.files != map[] && secs > 0 && !CutsBar(f, secs)
    requires f.to != Some(ZERO_TIME)
    ensures var split := Split(store.files);
            MergedBars(store, f, secs, limit) ==
            Take(NewBars(all, f, secs, split) + OldBars(all, f, secs, split), limit)
  {
    var split := Split(store.files);
    HotIsRight(all, store, f, secs, limit);
    var hot := HotBars(store.live, f, split, secs, limit);
    ColdIsRight(all, store, f, secs, limit - |hot|);
    TakeConcat(NewBars(all, f, secs, split), OldBars(all, f, secs, split), limit);
  }

  lemma TwoStoresAreOne(all: seq<Trade>, store: Store, f: CandleFilter, secs: nat, limit: nat)
    requires Sound(all, store.live, store.files) && store.files != map[] && IsInterval(secs) && !CutsBar(f, secs)
    requires f.to != Some(ZERO_TIME)
    ensures MergedBars(store, f, secs, limit) == Take(Series(all, f, secs), limit)
  {
    var split := Split(store.files);
    MergedIsRight(all, store, f, secs, limit);
    SeriesSplits(all, f, secs, Latest(store.files.Keys) + 1);
    assert split == (Latest(store.files.Keys) + 1) * DAY;
    assert Series(all, f, secs) == NewBars(all, f, secs, split) + OldBars(all, f, secs, split);
  }

  lemma FillFits(page: seq<Candle>, f: CandleFilter, secs: nat, limit: nat)
    requires secs > 0 && |page| <= limit
    ensures |Fill(page, f, secs, limit)| <= limit
  {
    match FillHigh(f, secs, page)
    case Some(hi) => FilledStops(page, hi, FillLow(f, secs, page, hi), secs, limit);
    case None =>
  }

  lemma FinishedIsRight(all: seq<Trade>, f: CandleFilter, secs: nat)
    requires secs > 0
    ensures var limit := ClampLimit(f.limit);
            Finished(Take(Series(all, f, secs), limit), f, secs, limit) == RightPage(all, f, secs)
  {
    FillFits(Take(Series(all, f, secs), ClampLimit(f.limit)), f, secs, ClampLimit(f.limit));
  }

  lemma PassedThroughIsRight(all: seq<Trade>, live: seq<Trade>, f: CandleFilter, secs: nat)
    requires live == all && secs > 0 && !CutsBar(f, secs) && IntervalSeconds(f.interval) == Some(secs)
    ensures LivePage(live, f) == Ok(RightPage(all, f, secs))
  {
    forall t | t in all
      ensures LiveRows(f)(t) == Asked(f, secs)(t)
    {
      if f.before.Some? && Matching(f.locate, f.from, f.to)(t) {
        CursorKeepsBuckets(f, secs, t);
      }
    }
    FilterSame(LiveRows(f), Asked(f, secs), all);
  }

  lemma FirstGone(all: seq<Trade>, live: seq<Trade>, files: map<int, seq<Trade>>)
    requires |live| <= |all| && Moved(all, live, files)
    ensures Gone(all, live) == 0 || DayOf(all[0].time) in files
  {
  }

  lemma NothingArchived(all: seq<Trade>, live: seq<Trade>, files: map<int, seq<Trade>>)
    requires Sound(all, live, files) && files == map[]
    ensures live == all
  {
    FirstGone(all, live, files);
  }

  /** A candle query is one group-by over all of history, cut to the page and then filled, unless its cursor cuts
      a bar. Nothing is missed, split or counted twice, wherever the archiver has been interrupted. */
  lemma OneGroupBy(all: seq<Trade>, store: Store, c: Config, f: CandleFilter, secs: nat)
    requires Sound(all, store.live, store.files) && IntervalSeconds(f.interval) == Some(secs)
    requires ArchiveActive(c) || store.files == map[]
    requires !CutsBar(f, secs) && f.to != Some(ZERO_TIME)
    ensures HistoryPage(store, c, f) == Ok(RightPage(all, f, secs))
  {
    var limit := ClampLimit(f.limit);
    if store.files == map[] {
      NothingArchived(all, store.live, store.files);
      PassedThroughIsRight(all, store.live, f, secs);
    } else {
      TwoStoresAreOne(all, store, f, secs, limit);
      FinishedIsRight(all, f, secs);
    }
  }

  /** In every state the archiver can reach, a query with no cursor, or one on a bucket boundary, is exact. */
  lemma ReachableHistoryIsExact(clock: nat, steps: seq<Step>, maxAge: nat, c: Config, f: CandleFilter, secs: nat)
    requires IntervalSeconds(f.interval) == Some(secs) && AlignedCursor(f.before, secs) && f.to != Some(ZERO_TIME)
    requires ArchiveActive(c)
    ensures var s := Run(Init(clock), steps, maxAge);
            && DayFiles(s.files)
            && HistoryPage(Store(s.live, s.files), c, f) == Ok(RightPage(s.all, f, secs))
  {
    var s := Run(Init(clock), steps, maxAge);
    ReachableStatesAreSound(clock, steps, maxAge);
    SoundDayFiles(s.all, s.live, s.files);
    AlignedCursorCutsNothing(f, secs);
    OneGroupBy(s.all, Store(s.live, s.files), c, f, secs);
  }
}
