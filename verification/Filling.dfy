// Filling empty buckets never hides a bar, although it works on a list that is already cut to the page.
module Filling {
  import opened Sequences
  import opened Trades
  import opened Candles
  import opened Intervals
  import opened Queries

  /** The trades a candle query is about: one symbol's, between the bounds, in buckets that start before the
      cursor. */
  function Asked(f: CandleFilter, secs: nat): Trade -> bool
    requires secs > 0
  {
    (t: Trade) => Matching(f.locate, f.from, f.to)(t) && (f.before.None? || By(secs)(t) * NANOS < f.before.value)
  }

  predicate AlignedCursor(before: Option<int>, secs: nat)
    requires secs > 0
  {
    before.Some? ==> before.value % NANOS == 0 && (before.value / NANOS) % secs == 0
  }

  /** The bar of a bucket over a list of trades: the summary of the bucket's trades, or the empty bar. */
  function TrueBar(key: Trade -> int, bucket: int, ts: seq<Trade>): Candle {
    var rows := Bucket(key, bucket, ts);
    if rows == [] then Candle(bucket, 0, 0, 0, 0, 0, 0) else Summary(bucket, rows)
  }

  // -------------------------------------------------------------------------------------------------
  // Looking up bars

  lemma {:induction false} ListedBar(bars: seq<Candle>, i: nat)
    requires Sorted(Newer(), bars) && i < |bars|
    ensures BarAt(bars, bars[i].bucket) == bars[i]
  {
    var last := |bars| - 1;
    if i < last {
      assert Newer()(bars[i], bars[last]);
      ListedBar(bars[..last], i);
    }
  }

  lemma PrefixHasBar(bars: seq<Candle>, n: nat, bucket: int)
    requires n <= |bars|
    ensures HasBar(bars[..n], bucket) ==> HasBar(bars, bucket)
  {
    if HasBar(bars[..n], bucket) {
      var i :| 0 <= i < n && bars[..n][i].bucket == bucket;
      assert bars[i].bucket == bucket;
    }
  }

  lemma {:induction false} UnlistedBar(bars: seq<Candle>, bucket: int)
    requires !HasBar(bars, bucket)
    ensures BarAt(bars, bucket) == EmptyBar(bucket)
  {
    if bars != [] {
      PrefixHasBar(bars, |bars| - 1, bucket);
      UnlistedBar(bars[..|bars| - 1], bucket);
    }
  }

  lemma BucketHasBar(bars: seq<Candle>, key: Trade -> int, ts: seq<Trade>, bucket: int)
    requires GroupBy(bars, key, ts)
    ensures Bucket(key, bucket, ts) != [] ==> HasBar(bars, bucket)
  {
    var rows := Bucket(key, bucket, ts);
    if rows != [] {
      InFilter(InBucket(key, bucket), ts, rows[0]);
      var k :| 0 <= k < |ts| && ts[k] == rows[0];
      assert HasBar(bars, key(ts[k]));
    }
  }

  /** In the group-by of trades, every bucket shows its true bar. */
  lemma LookupIsTrue(bars: seq<Candle>, key: Trade -> int, ts: seq<Trade>, bucket: int)
    requires GroupBy(bars, key, ts)
    ensures BarAt(bars, bucket) == TrueBar(key, bucket, ts)
  {
    if HasBar(bars, bucket) {
      var i :| 0 <= i < |bars| && bars[i].bucket == bucket;
      ListedBar(bars, i);
      assert IsBar(bars[i], Bucket(key, bars[i].bucket, ts));
    } else {
      UnlistedBar(bars, bucket);
      BucketHasBar(bars, key, ts, bucket);
    }
  }

  // -------------------------------------------------------------------------------------------------
  // Counting buckets

  /** The k-th bucket below the newest one. */
  function Below(hi: int, k: nat, secs: nat): int {
    hi - k * secs
  }

  lemma BelowStep(hi: int, k: nat, secs: nat)
    ensures Below(hi, k + 1, secs) == Below(hi, k, secs) - secs
    ensures Below(hi - secs, k, secs) == Below(hi, k + 1, secs)
    ensures Below(hi, 0, secs) == hi
  {
  }

  lemma BelowDescends(hi: int, i: nat, k: nat, secs: nat)
    requires secs > 0
    ensures i < k <==> Below(hi, k, secs) < Below(hi, i, secs)
  {
    MultiplyStep(secs, i, k);
    MultiplyStep(secs, k, i);
  }

  /** Bars with aligned buckets, none newer than hi. */
  ghost predicate OnGrid(bars: seq<Candle>, hi: int, secs: nat)
    requires secs > 0
  {
    && hi % secs == 0
    && forall i :: 0 <= i < |bars| ==> bars[i].bucket % secs == 0 && bars[i].bucket <= hi
  }

  lemma GridGap(a: int, b: int, secs: nat)
    requires secs > 0 && a % secs == 0 && b % secs == 0 && a < b
    ensures a <= b - secs
  {
    MultipleOf(a, secs);
    MultipleOf(b, secs);
    MultiplyStep(secs, a / secs, b / secs);
    MultiplyStep(secs, b / secs, a / secs);
  }

  /** The k-th bar is at least k buckets below the newest one. */
  lemma {:induction false} BarsDescend(bars: seq<Candle>, hi: int, secs: nat, k: nat)
    requires secs > 0 && OnGrid(bars, hi, secs) && Sorted(Newer(), bars) && k < |bars|
    ensures bars[k].bucket <= Below(hi, k, secs)
  {
    if k > 0 {
      BarsDescend(bars, hi, secs, k - 1);
      assert Newer()(bars[k - 1], bars[k]);
      GridGap(bars[k].bucket, bars[k - 1].bucket, secs);
      BelowStep(hi, k - 1, secs);
    }
  }

  /** A bar that is fewer than limit buckets below the newest one is on the page. */
  lemma NearBarIsOnPage(bars: seq<Candle>, hi: int, secs: nat, i: nat, limit: nat)
    requires secs > 0 && OnGrid(bars, hi, secs) && Sorted(Newer(), bars) && i < limit
    ensures BarAt(Take(bars, limit), Below(hi, i, secs)) == BarAt(bars, Below(hi, i, secs))
  {
    var b, page := Below(hi, i, secs), Take(bars, limit);
    if HasBar(bars, b) {
      var k :| 0 <= k < |bars| && bars[k].bucket == b;
      BarsDescend(bars, hi, secs, k);
      BelowDescends(hi, i, k, secs);
      assert page[k] == bars[k];
      ListedBar(bars, k);
      ListedBar(page, k);
    } else {
      PrefixHasBar(bars, |page|, b);
      UnlistedBar(bars, b);
      UnlistedBar(page, b);
    }
  }

  lemma {:induction false} FilledAt(bars: seq<Candle>, hi: int, lo: int, secs: nat, limit: nat, i: nat)
    requires i < |Filled(bars, hi, lo, secs, limit)|
    ensures Filled(bars, hi, lo, secs, limit)[i] == BarAt(bars, Below(hi, i, secs))
    ensures lo <= Below(hi, i, secs) && i < limit
    decreases limit
  {
    BelowStep(hi, 0, secs);
    if i > 0 {
      FilledAt(bars, hi - secs, lo, secs, limit - 1, i - 1);
      BelowStep(hi, i - 1, secs);
    }
  }

  /** The series ends at the page's limit or below the oldest bucket. */
  lemma {:induction false} FilledStops(bars: seq<Candle>, hi: int, lo: int, secs: nat, limit: nat)
    ensures var n := |Filled(bars, hi, lo, secs, limit)|;
            n <= limit && (n < limit ==> Below(hi, n, secs) < lo)
    decreases limit
  {
    BelowStep(hi, 0, secs);
    if hi >= lo && limit > 0 {
      FilledStops(bars, hi - secs, lo, secs, limit - 1);
      BelowStep(hi, |Filled(bars, hi - secs, lo, secs, limit - 1)|, secs);
    }
  }

  /** A grid bucket at or below hi is some steps down. */
  lemma StepsBelow(b: int, hi: int, secs: nat) returns (i: nat)
    requires secs > 0 && b % secs == 0 && hi % secs == 0 && b <= hi
    ensures b == Below(hi, i, secs)
  {
    MultipleOf(b, secs);
    MultipleOf(hi, secs);
    MultiplyStep(secs, hi / secs, b / secs);
    i := hi / secs - b / secs;
    Distribute(secs, hi / secs, b / secs);
  }

  lemma Distribute(n: nat, x: int, y: int)
    ensures n * x - (x - y) * n == n * y
  {
  }

  // -------------------------------------------------------------------------------------------------
  // Filling a page

  lemma AlignedStays(seconds: int, secs: nat)
    requires secs > 0 && seconds % secs == 0
    ensures AlignDown(seconds, secs) == seconds
  {
    if seconds < 0 {
      MultipleOf(seconds, secs);
      Negate(secs, seconds / secs);
      MultipleHasNoRest(-(seconds / secs), secs);
    }
  }

  lemma StepDown(x: int, secs: nat)
    requires secs > 0 && x % secs == 0
    ensures (x - secs) % secs == 0
  {
    MultipleOf(x, secs);
    Distribute(secs, x / secs, x / secs - 1);
    MultipleHasNoRest(x / secs - 1, secs);
  }

  lemma CursorStep(before: int, secs: nat)
    requires secs > 0 && AlignedCursor(Some(before), secs)
    ensures Seconds(before - secs * NANOS) == before / NANOS - secs
    ensures (before / NANOS - secs) % secs == 0
  {
    StepDown(before / NANOS, secs);
    MultipleOf(before, NANOS);
    Division(before - secs * NANOS, NANOS, before / NANOS - secs);
  }

  lemma BucketBeforeCursor(bucket: int, before: int, secs: nat)
    requires secs > 0 && AlignedCursor(Some(before), secs) && bucket % secs == 0 && bucket * NANOS < before
    ensures bucket <= before / NANOS - secs
  {
    MultipleOf(before, NANOS);
    GridGap(bucket, before / NANOS, secs);
  }

  /** No asked-for trade is in a bucket newer than the first one that is filled. */
  lemma TradeIsOnGrid(f: CandleFilter, secs: nat, t: Trade, bars: seq<Candle>)
    requires secs > 0 && AlignedCursor(f.before, secs) && Asked(f, secs)(t) && (f.before.Some? || f.to.Some?)
    ensures By(secs)(t) % secs == 0
    ensures By(secs)(t) <= FillHigh(f, secs, bars).value
  {
    BucketIsAligned(t.time, secs);
    if f.before.Some? {
      CursorStep(f.before.value, secs);
      AlignedStays(f.before.value / NANOS - secs, secs);
      BucketBeforeCursor(By(secs)(t), f.before.value, secs);
    } else {
      assert Matching(f.locate, f.from, f.to)(t);
      BucketMonotone(t.time, f.to.value, secs);
    }
  }

  /** A bar's bucket is some trade's. */
  lemma BarHasTrade(bars: seq<Candle>, key: Trade -> int, ts: seq<Trade>, i: nat) returns (t: Trade)
    requires GroupBy(bars, key, ts) && i < |bars|
    ensures t in ts && key(t) == bars[i].bucket
  {
    assert IsBar(bars[i], Bucket(key, bars[i].bucket, ts));
    t := Bucket(key, bars[i].bucket, ts)[0];
    InFilter(InBucket(key, bars[i].bucket), ts, t);
  }

  ghost predicate AllAsked(f: CandleFilter, secs: nat, rows: seq<Trade>)
    requires secs > 0
  {
    forall t :: t in rows ==> Asked(f, secs)(t)
  }

  lemma HighIsAligned(f: CandleFilter, secs: nat)
    requires secs > 0 && AlignedCursor(f.before, secs) && (f.before.Some? || f.to.Some?)
    ensures FillHigh(f, secs, []).value % secs == 0
  {
    if f.before.Some? {
      AlignsTowardZero(Seconds(f.before.value - secs * NANOS), secs);
    } else {
      AlignsTowardZero(Seconds(f.to.value), secs);
    }
  }

  lemma SeriesIsOnGrid(f: CandleFilter, secs: nat, rows: seq<Trade>, bars: seq<Candle>, limit: nat)
    requires secs > 0 && AlignedCursor(f.before, secs) && AllAsked(f, secs, rows) && limit > 0
    requires GroupBy(bars, By(secs), rows) && FillHigh(f, secs, Take(bars, limit)).Some?
    ensures OnGrid(bars, FillHigh(f, secs, Take(bars, limit)).value, secs)
  {
    var page := Take(bars, limit);
    var hi := FillHigh(f, secs, page).value;
    forall i | 0 <= i < |bars|
      ensures bars[i].bucket % secs == 0 && bars[i].bucket <= hi
    {
      var t := BarHasTrade(bars, By(secs), rows, i);
      BucketIsAligned(t.time, secs);
      if f.before.Some? || f.to.Some? {
        TradeIsOnGrid(f, secs, t, page);
      } else if i > 0 {
        assert Newer()(bars[0], bars[i]);
      }
    }
    if f.before.Some? || f.to.Some? {
      HighIsAligned(f, secs);
    }
  }

  lemma FillIs(f: CandleFilter, secs: nat, page: seq<Candle>, limit: nat)
    requires secs > 0 && FillHigh(f, secs, page).Some?
    ensures var hi := FillHigh(f, secs, page).value;
            Fill(page, f, secs, limit) == Filled(page, hi, FillLow(f, secs, page, hi), secs, limit)
  {
  }

  lemma FilledIsTrue(bars: seq<Candle>, hi: int, lo: int, secs: nat, rows: seq<Trade>, limit: nat, i: nat)
    requires secs > 0 && OnGrid(bars, hi, secs) && GroupBy(bars, By(secs), rows)
    requires i < |Filled(Take(bars, limit), hi, lo, secs, limit)|
    ensures Filled(Take(bars, limit), hi, lo, secs, limit)[i] == TrueBar(By(secs), Below(hi, i, secs), rows)
  {
    FilledAt(Take(bars, limit), hi, lo, secs, limit, i);
    NearBarIsOnPage(bars, hi, secs, i, limit);
    LookupIsTrue(bars, By(secs), rows, Below(hi, i, secs));
  }

  /** The filled page: a contiguous series between the bounds of the query, although it was made from a list
      that was already cut, and every entry is the true bar of its bucket. */
  lemma FilledPageIsTrue(f: CandleFilter, secs: nat, rows: seq<Trade>, bars: seq<Candle>, limit: nat)
    requires secs > 0 && AlignedCursor(f.before, secs) && AllAsked(f, secs, rows) && limit > 0
    requires GroupBy(bars, By(secs), rows)
    ensures var out := Fill(Take(bars, limit), f, secs, limit);
            && Spans(out, Take(bars, limit), f, secs, limit)
            && forall i :: 0 <= i < |out| ==> out[i] == TrueBar(By(secs), out[i].bucket, rows)
  {
    var out := Fill(Take(bars, limit), f, secs, limit);
    FillSpans(Take(bars, limit), f, secs, limit);
    forall i | 0 <= i < |out|
      ensures out[i] == TrueBar(By(secs), out[i].bucket, rows)
    {
      FilledEntryIsTrue(f, secs, rows, bars, limit, i);
    }
  }

  lemma TrueBarOf(key: Trade -> int, bucket: int, ts: seq<Trade>)
    ensures TrueBar(key, bucket, ts).bucket == bucket
  {
  }

  lemma FilledEntryIsTrue(f: CandleFilter, secs: nat, rows: seq<Trade>, bars: seq<Candle>, limit: nat, i: nat)
    requires secs > 0 && AlignedCursor(f.before, secs) && AllAsked(f, secs, rows) && limit > 0
    requires GroupBy(bars, By(secs), rows)
    requires i < |Fill(Take(bars, limit), f, secs, limit)|
    ensures var out := Fill(Take(bars, limit), f, secs, limit);
            out[i] == TrueBar(By(secs), out[i].bucket, rows)
  {
    var page := Take(bars, limit);
    var hi := FillHigh(f, secs, page).value;
    var lo := FillLow(f, secs, page, hi);
    FillIs(f, secs, page, limit);
    SeriesIsOnGrid(f, secs, rows, bars, limit);
    FilledIsTrue(bars, hi, lo, secs, rows, limit, i);
    TrueBarOf(By(secs), Below(hi, i, secs), rows);
  }

  lemma FromIsLow(from: int, time: nat, secs: nat)
    requires secs > 0 && from <= time
    ensures AlignDown(Seconds(from), secs) <= AlignDown(Seconds(time), secs)
  {
    AlignsTowardZero(Seconds(from), secs);
    BucketIsAligned(time, secs);
    if from >= 0 {
      BucketMonotone(from, time, secs);
    }
  }

  /** The bucket of the lower bound of a query is not above any bar. */
  lemma FromIsBelowBars(f: CandleFilter, secs: nat, rows: seq<Trade>, bars: seq<Candle>, k: nat)
    requires secs > 0 && AllAsked(f, secs, rows) && GroupBy(bars, By(secs), rows) && k < |bars| && f.from.Some?
    ensures AlignDown(Seconds(f.from.value), secs) <= bars[k].bucket
  {
    var t := BarHasTrade(bars, By(secs), rows, k);
    assert Asked(f, secs)(t);
    FromIsLow(f.from.value, t.time, secs);
  }

  /** The last bar of a page is not above any bar, unless the page is full. */
  lemma PageEndIsLow(bars: seq<Candle>, limit: nat, k: nat)
    requires Sorted(Newer(), bars) && limit > 0 && k < |bars|
    ensures var page := Take(bars, limit);
            page != [] && (page[|page| - 1].bucket <= bars[k].bucket
                           || (|bars| > limit && page[|page| - 1].bucket == bars[limit - 1].bucket))
  {
    if |bars| <= limit && k < |bars| - 1 {
      assert Newer()(bars[k], bars[|bars| - 1]);
    }
  }

  /** The lower bound is not above any bar, unless the page is full. */
  lemma LowIsLow(f: CandleFilter, secs: nat, bars: seq<Candle>, hi: int, limit: nat, k: nat)
    requires secs > 0 && Sorted(Newer(), bars) && limit > 0 && k < |bars|
    requires f.from.Some? ==> AlignDown(Seconds(f.from.value), secs) <= bars[k].bucket
    ensures var lo := FillLow(f, secs, Take(bars, limit), hi);
            lo <= bars[k].bucket || (|bars| > limit && lo <= bars[limit - 1].bucket)
  {
    PageEndIsLow(bars, limit, k);
  }

  /** When there are more bars than fit and the lower bound is the page's last bar, the page fills up. */
  lemma LongSeriesFillsPage(bars: seq<Candle>, page: seq<Candle>, hi: int, lo: int, secs: nat, limit: nat)
    requires secs > 0 && OnGrid(bars, hi, secs) && Sorted(Newer(), bars) && 0 < limit <= |bars|
    requires lo <= bars[limit - 1].bucket
    ensures |Filled(page, hi, lo, secs, limit)| == limit
  {
    var n := |Filled(page, hi, lo, secs, limit)|;
    FilledStops(page, hi, lo, secs, limit);
    BarsDescend(bars, hi, secs, limit - 1);
    BelowDescends(hi, n, limit - 1, secs);
  }

  /** A filled page that is not full reaches down past every bar. */
  lemma ShortPageIsComplete(bars: seq<Candle>, hi: int, lo: int, secs: nat, limit: nat, k: nat)
    requires secs > 0 && OnGrid(bars, hi, secs) && Sorted(Newer(), bars) && limit > 0 && k < |bars|
    requires lo <= bars[k].bucket || (|bars| > limit && lo <= bars[limit - 1].bucket)
    ensures |Filled(Take(bars, limit), hi, lo, secs, limit)| < limit ==> lo <= bars[k].bucket
  {
    if lo > bars[k].bucket {
      LongSeriesFillsPage(bars, Take(bars, limit), hi, lo, secs, limit);
    }
  }

  /** A bar at or above the last filled bucket is filled in. */
  lemma BarIsFilledIn(bars: seq<Candle>, hi: int, lo: int, secs: nat, limit: nat, k: nat)
    requires secs > 0 && OnGrid(bars, hi, secs) && Sorted(Newer(), bars) && limit > 0 && k < |bars|
    requires Below(hi, |Filled(Take(bars, limit), hi, lo, secs, limit)|, secs) < bars[k].bucket
    ensures bars[k] in Filled(Take(bars, limit), hi, lo, secs, limit)
  {
    var page := Take(bars, limit);
    var out := Filled(page, hi, lo, secs, limit);
    var i := StepsBelow(bars[k].bucket, hi, secs);
    BelowDescends(hi, i, |out|, secs);
    FilledAt(page, hi, lo, secs, limit, i);
    NearBarIsOnPage(bars, hi, secs, i, limit);
    ListedBar(bars, k);
    assert out[i] == bars[k];
  }

  lemma LastFilledBucket(bars: seq<Candle>, hi: int, lo: int, secs: nat, limit: nat)
    requires secs > 0 && lo <= hi && limit > 0
    ensures var out := Filled(bars, hi, lo, secs, limit);
            out != [] && Below(hi, |out|, secs) < out[|out| - 1].bucket
  {
    var out := Filled(bars, hi, lo, secs, limit);
    FilledAt(bars, hi, lo, secs, limit, |out| - 1);
    BarAtBucket(bars, Below(hi, |out| - 1, secs));
    BelowStep(hi, |out| - 1, secs);
  }

  /** A page is filled from a bucket that no bar is above, down to one that a given bar is not below, unless the
      page is full. */
  ghost predicate Reaches(bars: seq<Candle>, hi: int, lo: int, secs: nat, limit: nat, k: nat)
    requires secs > 0 && k < |bars|
  {
    OnGrid(bars, hi, secs) && lo <= hi && (lo <= bars[k].bucket || (|bars| > limit > 0 && lo <= bars[limit - 1].bucket))
  }

  lemma FillReaches(f: CandleFilter, secs: nat, rows: seq<Trade>, bars: seq<Candle>, limit: nat, k: nat)
    requires secs > 0 && AlignedCursor(f.before, secs) && AllAsked(f, secs, rows) && limit > 0
    requires GroupBy(bars, By(secs), rows) && k < |bars|
    ensures var page := Take(bars, limit);
            && FillHigh(f, secs, page).Some?
            && var hi := FillHigh(f, secs, page).value;
               Reaches(bars, hi, FillLow(f, secs, page, hi), secs, limit, k)
  {
    var page := Take(bars, limit);
    var hi := FillHigh(f, secs, page).value;
    SeriesIsOnGrid(f, secs, rows, bars, limit);
    if f.from.Some? {
      FromIsBelowBars(f, secs, rows, bars, k);
    }
    LowIsLow(f, secs, bars, hi, limit, k);
  }

  ghost predicate Shows(out: seq<Candle>, bar: Candle, limit: nat) {
    out != [] && (|out| < limit || out[|out| - 1].bucket <= bar.bucket ==> bar in out)
  }

  lemma FilledShows(f: CandleFilter, secs: nat, bars: seq<Candle>, limit: nat, k: nat)
    requires secs > 0 && limit > 0 && Sorted(Newer(), bars) && k < |bars|
    requires FillHigh(f, secs, Take(bars, limit)).Some?
    requires var hi := FillHigh(f, secs, Take(bars, limit)).value;
             Reaches(bars, hi, FillLow(f, secs, Take(bars, limit), hi), secs, limit, k)
    ensures Shows(Fill(Take(bars, limit), f, secs, limit), bars[k], limit)
  {
    var page := Take(bars, limit);
    var hi := FillHigh(f, secs, page).value;
    FillIs(f, secs, page, limit);
    FilledPageShows(bars, hi, FillLow(f, secs, page, hi), secs, limit, k);
  }

  /** No bar is hidden: a bar that is not older than the filled page is on it, and every bar is when the page is
      not full. */
  lemma FilledPageShowsBar(f: CandleFilter, secs: nat, rows: seq<Trade>, bars: seq<Candle>, limit: nat, k: nat)
    requires secs > 0 && AlignedCursor(f.before, secs) && AllAsked(f, secs, rows) && limit > 0
    requires GroupBy(bars, By(secs), rows) && k < |bars|
    ensures Shows(Fill(Take(bars, limit), f, secs, limit), bars[k], limit)
  {
    FillReaches(f, secs, rows, bars, limit, k);
    FilledShows(f, secs, bars, limit, k);
  }

  lemma FilledPageShows(bars: seq<Candle>, hi: int, lo: int, secs: nat, limit: nat, k: nat)
    requires secs > 0 && Sorted(Newer(), bars) && limit > 0 && k < |bars| && Reaches(bars, hi, lo, secs, limit, k)
    ensures Shows(Filled(Take(bars, limit), hi, lo, secs, limit), bars[k], limit)
  {
    var out := Filled(Take(bars, limit), hi, lo, secs, limit);
    LastFilledBucket(Take(bars, limit), hi, lo, secs, limit);
    FilledStops(Take(bars, limit), hi, lo, secs, limit);
    ShortPageIsComplete(bars, hi, lo, secs, limit, k);
    if |out| < limit || out[|out| - 1].bucket <= bars[k].bucket {
      BarIsFilledIn(bars, hi, lo, secs, limit, k);
    }
  }
}
