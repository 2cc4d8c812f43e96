// Paging through candles: the cursor rule of internal/api/handlers.go, handleCandles.
module Paging {
  import opened Sequences
  import opened Trades
  import opened Candles
  import opened Intervals
  import opened Queries
  import opened Filling
  import opened Catalog
  import opened History
  import opened ArchiveProtocol
  import opened OneHistory
  import opened CandleHistory
  import opened CandleGaps

  /** A full page may have older bars behind it: its oldest bucket is the next page's cursor. */
  function NextCursor(page: seq<Candle>, limit: nat): Option<int> {
    if |page| == limit > 0 then Some(page[|page| - 1].bucket * NANOS) else None
  }

  function Flatten(pages: seq<seq<Candle>>): seq<Candle> {
    if pages == [] then [] else Flatten(pages[..|pages| - 1]) + pages[|pages| - 1]
  }

  // -------------------------------------------------------------------------------------------------
  // What lies behind a cursor

  lemma BarsFrom(bars: seq<Candle>, key: Trade -> int, rows: seq<Trade>, bucket: int)
    requires GroupBy(bars, key, rows)
    ensures (forall t :: t in rows ==> bucket <= key(t)) ==>
              forall i :: 0 <= i < |bars| ==> bucket <= bars[i].bucket
    ensures (forall t :: t in rows ==> key(t) < bucket) ==>
              forall i :: 0 <= i < |bars| ==> bars[i].bucket < bucket
  {
    forall i | 0 <= i < |bars|
      ensures exists t :: t in rows && key(t) == bars[i].bucket
    {
      var t := BarHasTrade(bars, key, rows, i);
    }
  }

  lemma SideOf(bars: seq<Candle>, newer: seq<Candle>, older: seq<Candle>, bucket: int, k: nat)
    requires bars == newer + older && k < |bars|
    requires forall i :: 0 <= i < |newer| ==> bucket <= newer[i].bucket
    requires forall i :: 0 <= i < |older| ==> older[i].bucket < bucket
    ensures k < |newer| <==> bucket <= bars[k].bucket
  {
    assert bars[k] == if k < |newer| then newer[k] else older[k - |newer|];
  }

  /** Where two lists of bars, newer and older than a bucket, meet. */
  lemma MeetingPoint(bars: seq<Candle>, newer: seq<Candle>, older: seq<Candle>, n: nat)
    requires bars == newer + older && Sorted(Newer(), bars) && 0 < n <= |bars|
    requires forall i :: 0 <= i < |newer| ==> bars[n - 1].bucket <= newer[i].bucket
    requires forall i :: 0 <= i < |older| ==> older[i].bucket < bars[n - 1].bucket
    ensures older == bars[n..]
  {
    SideOf(bars, newer, older, bars[n - 1].bucket, n - 1);
    if n < |bars| {
      assert Newer()(bars[n - 1], bars[n]);
      SideOf(bars, newer, older, bars[n - 1].bucket, n);
    }
  }

  lemma CursorSplitsRows(rows: seq<Trade>, secs: nat, bucket: int)
    requires secs > 0 && Ascending(rows) && bucket % secs == 0
    ensures Bars(By(secs), rows) ==
            Bars(By(secs), Filter(Since(bucket * NANOS), rows)) + Bars(By(secs), Filter(Before(bucket * NANOS), rows))
    ensures forall t :: t in Filter(Since(bucket * NANOS), rows) ==> bucket <= By(secs)(t)
    ensures forall t :: t in Filter(Before(bucket * NANOS), rows) ==> By(secs)(t) < bucket
  {
    var x, y := Filter(Before(bucket * NANOS), rows), Filter(Since(bucket * NANOS), rows);
    SplitAt(rows, bucket * NANOS);
    FilteredSatisfy(Before(bucket * NANOS), rows);
    FilteredSatisfy(Since(bucket * NANOS), rows);
    forall t | t in x
      ensures By(secs)(t) < bucket
    {
      AlignKeepsSide(Seconds(t.time), secs, bucket);
      SecondsKeepSide(t.time, bucket);
    }
    forall t | t in y
      ensures bucket <= By(secs)(t)
    {
      AlignKeepsSide(Seconds(t.time), secs, bucket);
      SecondsKeepSide(t.time, bucket);
    }
    BarsConcat(By(secs), x, y);
  }

  lemma TradeBefore(f: CandleFilter, secs: nat, bucket: int, t: Trade)
    requires secs > 0 && bucket % secs == 0 && (f.before.Some? ==> bucket * NANOS <= f.before.value)
    ensures Asked(f.(before := Some(bucket * NANOS)), secs)(t) == (Before(bucket * NANOS)(t) && Asked(f, secs)(t))
  {
    AlignKeepsSide(Seconds(t.time), secs, bucket);
    SecondsKeepSide(t.time, bucket);
    assert By(secs)(t) * NANOS < bucket * NANOS <==> t.time < bucket * NANOS;
    var g := f.(before := Some(bucket * NANOS));
    assert Matching(g.locate, g.from, g.to)(t) == Matching(f.locate, f.from, f.to)(t);
  }

  lemma AskedBefore(f: CandleFilter, secs: nat, bucket: int, all: seq<Trade>)
    requires secs > 0 && bucket % secs == 0 && (f.before.Some? ==> bucket * NANOS <= f.before.value)
    ensures Filter(Asked(f.(before := Some(bucket * NANOS)), secs), all) ==
            Filter(Before(bucket * NANOS), Filter(Asked(f, secs), all))
  {
    var g := f.(before := Some(bucket * NANOS));
    forall t | t in all
      ensures Asked(g, secs)(t) == (Before(bucket * NANOS)(t) && Asked(f, secs)(t))
    {
      TradeBefore(f, secs, bucket, t);
    }
    FilterBoth(Before(bucket * NANOS), Asked(f, secs), Asked(g, secs), all);
  }

  lemma RowsAreGroupBy(part: seq<Trade>, secs: nat, rows: seq<Trade>, p: Trade -> bool)
    requires secs > 0 && Ascending(rows) && part == Filter(p, rows)
    ensures GroupBy(Bars(By(secs), part), By(secs), part)
  {
    FilterAscending(p, rows);
    BucketsRise(part, secs);
    BarsAreGroupBy(By(secs), part);
  }

  /** A bucket divides the bars into those from it on and those before it. */
  lemma CursorSplitsBars(rows: seq<Trade>, secs: nat, bucket: int) returns (newer: seq<Candle>, older: seq<Candle>)
    requires secs > 0 && Ascending(rows) && bucket % secs == 0
    ensures Bars(By(secs), rows) == newer + older
    ensures older == Bars(By(secs), Filter(Before(bucket * NANOS), rows))
    ensures forall i :: 0 <= i < |newer| ==> bucket <= newer[i].bucket
    ensures forall i :: 0 <= i < |older| ==> older[i].bucket < bucket
  {
    var later, earlier := Filter(Since(bucket * NANOS), rows), Filter(Before(bucket * NANOS), rows);
    newer, older := Bars(By(secs), later), Bars(By(secs), earlier);
    CursorSplitsRows(rows, secs, bucket);
    RowsAreGroupBy(later, secs, rows, Since(bucket * NANOS));
    RowsAreGroupBy(earlier, secs, rows, Before(bucket * NANOS));
    BarsFrom(newer, By(secs), later, bucket);
    BarsFrom(older, By(secs), earlier, bucket);
  }

  /** The rows before the n-th bar's bucket have the bars behind the n-th. */
  lemma RowsBehind(rows: seq<Trade>, secs: nat, n: nat)
    requires Ascending(rows) && secs > 0 && 0 < n <= |Bars(By(secs), rows)|
    requires Bars(By(secs), rows)[n - 1].bucket % secs == 0 && Sorted(Newer(), Bars(By(secs), rows))
    ensures var bars := Bars(By(secs), rows);
            Bars(By(secs), Filter(Before(bars[n - 1].bucket * NANOS), rows)) == bars[n..]
  {
    var bars := Bars(By(secs), rows);
    var newer, older := CursorSplitsBars(rows, secs, bars[n - 1].bucket);
    MeetingPoint(bars, newer, older, n);
  }

  lemma BarIsBeforeCursor(all: seq<Trade>, f: CandleFilter, secs: nat, k: nat)
    requires Ascending(all) && secs > 0 && k < |Series(all, f, secs)|
    ensures var bucket := Series(all, f, secs)[k].bucket;
            bucket % secs == 0 && (f.before.Some? ==> bucket * NANOS < f.before.value)
  {
    var rows, bars := Filter(Asked(f, secs), all), Series(all, f, secs);
    SeriesIsGroupBy(all, f, secs);
    var t := BarHasTrade(bars, By(secs), rows, k);
    BucketIsAligned(t.time, secs);
    assert Asked(f, secs)(t);
  }

  /** Asking before the n-th bar's bucket gives the series behind the n-th bar. */
  lemma SeriesBehind(all: seq<Trade>, f: CandleFilter, secs: nat, n: nat)
    requires Ascending(all) && secs > 0 && 0 < n <= |Series(all, f, secs)|
    ensures var cursor := Some(Series(all, f, secs)[n - 1].bucket * NANOS);
            && AlignedCursor(cursor, secs)
            && Series(all, f.(before := cursor), secs) == Series(all, f, secs)[n..]
  {
    var bucket := Series(all, f, secs)[n - 1].bucket;
    BarIsBeforeCursor(all, f, secs, n - 1);
    Division(bucket * NANOS, NANOS, bucket);
    AskedBefore(f, secs, bucket, all);
    FilterAscending(Asked(f, secs), all);
    SeriesIsGroupBy(all, f, secs);
    RowsBehind(Filter(Asked(f, secs), all), secs, n);
  }

  // -------------------------------------------------------------------------------------------------
  // A client that follows the cursors

  /** The part of the series that is behind a cursor. */
  function Rest(all: seq<Trade>, f: CandleFilter, secs: nat, cursor: Option<int>): seq<Candle>
    requires secs > 0
  {
    Series(all, f.(before := cursor), secs)
  }

  lemma FlattenStep(pages: seq<seq<Candle>>, page: seq<Candle>)
    ensures Flatten(pages + [page]) == Flatten(pages) + page
  {
    assert (pages + [page])[..|pages|] == pages;
  }

  lemma PageStep(all: seq<Trade>, f: CandleFilter, secs: nat, cursor: Option<int>, page: seq<Candle>, limit: nat)
    requires Ascending(all) && secs > 0 && limit > 0 && page == Take(Rest(all, f, secs, cursor), limit)
    ensures var next := NextCursor(page, limit);
            if next.Some? then
              AlignedCursor(next, secs) && |page| == limit
              && Rest(all, f, secs, cursor) == page + Rest(all, f, secs, next)
              && |Rest(all, f, secs, next)| < |Rest(all, f, secs, cursor)|
            else Rest(all, f, secs, cursor) == page
  {
    if |page| == limit {
      SeriesBehind(all, f.(before := cursor), secs, limit);
    }
  }

  method OnePage(store: Store, c: Config, f: CandleFilter, ghost all: seq<Trade>, ghost secs: nat)
      returns (page: seq<Candle>)
    requires Sound(all, store.live, store.files) && (ArchiveActive(c) || store.files == map[])
    requires IntervalSeconds(f.interval) == Some(secs) && !f.fill && f.to != Some(ZERO_TIME)
    requires AlignedCursor(f.before, secs) && DayFiles(store.files)
    ensures page == Take(Series(all, f, secs), ClampLimit(f.limit))
  {
    var r := QueryCandles(store, c, f);
    AlignedCursorCutsNothing(f, secs);
    OneGroupBy(all, store, c, f, secs);
    page := r.value;
  }

  /** Follows cursors until a page has none. The pages are the whole series: no bar is missing or repeated. */
  method AllPages(store: Store, c: Config, f: CandleFilter, ghost all: seq<Trade>, ghost secs: nat)
      returns (pages: seq<seq<Candle>>)
    requires Sound(all, store.live, store.files) && (ArchiveActive(c) || store.files == map[])
    requires IntervalSeconds(f.interval) == Some(secs) && !f.fill && f.to != Some(ZERO_TIME)
    requires AlignedCursor(f.before, secs)
    ensures Flatten(pages) == Series(all, f, secs)
    ensures forall i :: 0 <= i < |pages| - 1 ==> |pages[i]| == ClampLimit(f.limit)
  {
    pages := [];
    var limit := ClampLimit(f.limit);
    var cursor := f.before;
    SoundDayFiles(all, store.live, store.files);
    while true
      invariant AlignedCursor(cursor, secs)
      invariant Flatten(pages) + Rest(all, f, secs, cursor) == Series(all, f, secs)
      invariant forall i :: 0 <= i < |pages| ==> |pages[i]| == limit
      decreases |Rest(all, f, secs, cursor)|
    {
      var page := OnePage(store, c, f.(before := cursor), all, secs);
      PageStep(all, f, secs, cursor, page, limit);
      FlattenStep(pages, page);
      var next := NextCursor(page, limit);
      ghost var behind := if next.Some? then Rest(all, f, secs, next) else [];
      ConcatAssociates(Flatten(pages), page, behind);
      pages := pages + [page];
      if next.None? {
        return;
      }
      cursor := next;
    }
  }
}
