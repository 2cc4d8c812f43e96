// Limits, filters and the queries over the live trades table: internal/persist/queries.go.
module Queries {
  import opened Sequences
  import opened Trades
  import opened Candles
  import opened Intervals

  datatype Result<T> = Ok(value: T) | Err(message: string)

  const DEFAULT_LIMIT := 100
  const MAX_LIMIT := 1000

  /** A limit that is not positive means the default; a limit that is too large is cut, not refused. */
  function ClampLimit(n: int): (limit: nat)
    ensures 1 <= limit <= 1000
    ensures n <= 0 ==> limit == 100
    ensures 1 <= n <= 1000 ==> limit == n
    ensures n > 1000 ==> limit == 1000
  {
    if n <= 0 then DEFAULT_LIMIT else if n > MAX_LIMIT then MAX_LIMIT else n
  }

  datatype TradeFilter = TradeFilter(locate: nat, limit: int, offset: int, from: Option<int>, to: Option<int>)

  /** The field before is an exclusive cursor: only buckets that start before it are wanted. */
  datatype CandleFilter = CandleFilter(locate: nat, interval: string, limit: int, from: Option<int>, to: Option<int>,
                                       before: Option<int>, fill: bool)

  // -------------------------------------------------------------------------------------------------
  // The queries on the live table

  /** Newest first, past the offset, at most limit. */
  function SelectTrades(ts: seq<Trade>, f: TradeFilter): seq<Trade>
    requires f.offset >= 0
  {
    Take(Drop(Reverse(Filter(Matching(f.locate, f.from, f.to), ts)), f.offset), ClampLimit(f.limit))
  }

  function LiveTrades(live: seq<Trade>, f: TradeFilter): Result<seq<Trade>> {
    if f.offset < 0 then Err("OFFSET must not be negative") else Ok(SelectTrades(live, f))
  }

  /** What the query on the live table selects before it groups: it compares trades, not buckets, with the cursor. */
  function LiveRows(f: CandleFilter): Trade -> bool {
    (t: Trade) => Matching(f.locate, f.from, f.to)(t) && (f.before.None? || t.time < f.before.value)
  }

  function LivePage(live: seq<Trade>, f: CandleFilter): Result<seq<Candle>> {
    match IntervalSeconds(f.interval)
    case None => Err("unsupported interval: " + f.interval)
    case Some(secs) =>
      Ok(CandlePage(Bars(By(secs), Filter(LiveRows(f), live)), f, secs))
  }

  /** An answer of the live table: the newest bars of a group-by of the selected trades, filled if asked for. */
  ghost predicate Answers(r: Result<seq<Candle>>, live: seq<Trade>, f: CandleFilter) {
    match IntervalSeconds(f.interval)
    case None => r.Err?
    case Some(secs) =>
      exists bars :: GroupBy(bars, By(secs), Filter(LiveRows(f), live)) && r == Ok(CandlePage(bars, f, secs))
  }

  /** The page of a list of bars. */
  function CandlePage(bars: seq<Candle>, f: CandleFilter, secs: nat): seq<Candle>
    requires secs > 0
  {
    var page := Take(bars, ClampLimit(f.limit));
    if f.fill then Fill(page, f, secs, ClampLimit(f.limit)) else page
  }

  lemma LiveBarsAreGroupBy(live: seq<Trade>, f: CandleFilter, secs: nat)
    requires Ascending(live) && secs > 0
    ensures var rows := Filter(LiveRows(f), live); GroupBy(Bars(By(secs), rows), By(secs), rows)
  {
    FilterAscending(LiveRows(f), live);
    BucketsRise(Filter(LiveRows(f), live), secs);
    BarsAreGroupBy(By(secs), Filter(LiveRows(f), live));
  }

  /** The live table's answer is the page of the one group-by of the selected trades: no other list of bars
      satisfies it. */
  lemma LivePageIsGroupBy(live: seq<Trade>, f: CandleFilter)
    requires Ascending(live)
    ensures Answers(LivePage(live, f), live, f)
    ensures forall r :: Answers(r, live, f) && IntervalSeconds(f.interval).Some? ==> r == LivePage(live, f)
  {
    if IntervalSeconds(f.interval).Some? {
      var secs := IntervalSeconds(f.interval).value;
      LiveBarsAreGroupBy(live, f, secs);
      forall r | Answers(r, live, f)
        ensures r == LivePage(live, f)
      {
        var rows := Filter(LiveRows(f), live);
        var bars :| GroupBy(bars, By(secs), rows) && r == Ok(CandlePage(bars, f, secs));
        GroupByIsUnique(bars, Bars(By(secs), rows), By(secs), rows);
      }
    }
  }

  method LiveCandles(live: seq<Trade>, f: CandleFilter) returns (r: Result<seq<Candle>>)
    ensures Ascending(live) ==> Answers(r, live, f)
    ensures r == LivePage(live, f)
  {
    if Ascending(live) {
      LivePageIsGroupBy(live, f);
    }
    var interval := IntervalSeconds(f.interval);
    if interval.None? {
      return Err("unsupported interval: " + f.interval);
    }
    var secs, limit := interval.value, ClampLimit(f.limit);
    var bars := Take(Bars(By(secs), Filter(LiveRows(f), live)), limit);
    if f.fill {
      bars := FillCandles(bars, f, secs, limit);
    }
    r := Ok(bars);
  }

  // -------------------------------------------------------------------------------------------------
  // Filling empty buckets

  /** The newest bucket to show. */
  function FillHigh(f: CandleFilter, secs: nat, bars: seq<Candle>): Option<int>
    requires secs > 0
  {
    if f.before.Some? then Some(AlignDown(Seconds(f.before.value - secs * NANOS), secs))
    else if f.to.Some? then Some(AlignDown(Seconds(f.to.value), secs))
    else if bars != [] then Some(bars[0].bucket)
    else None
  }

  /** The oldest bucket to show. */
  function FillLow(f: CandleFilter, secs: nat, bars: seq<Candle>, hi: int): (lo: int)
    requires secs > 0
    ensures lo <= hi
  {
    var low := if f.from.Some? then AlignDown(Seconds(f.from.value), secs)
               else if bars != [] then bars[|bars| - 1].bucket
               else hi;
    Min(low, hi)
  }

  function EmptyBar(bucket: int): Candle {
    Candle(bucket, 0, 0, 0, 0, 0, 0)
  }

  /** The listed bar of a bucket, or an empty one. */
  function BarAt(bars: seq<Candle>, bucket: int): Candle {
    if bars == [] then EmptyBar(bucket)
    else if bars[|bars| - 1].bucket == bucket then bars[|bars| - 1]
    else BarAt(bars[..|bars| - 1], bucket)
  }

  function Filled(bars: seq<Candle>, hi: int, lo: int, secs: nat, limit: nat): seq<Candle>
    decreases limit
  {
    if hi < lo || limit == 0 then [] else [BarAt(bars, hi)] + Filled(bars, hi - secs, lo, secs, limit - 1)
  }

  function Fill(bars: seq<Candle>, f: CandleFilter, secs: nat, limit: nat): seq<Candle>
    requires secs > 0
  {
    match FillHigh(f, secs, bars)
    case Some(hi) => Filled(bars, hi, FillLow(f, secs, bars, hi), secs, limit)
    case None => bars
  }

  lemma {:induction false} BarAtBucket(bars: seq<Candle>, bucket: int)
    ensures BarAt(bars, bucket).bucket == bucket
  {
    if bars != [] {
      BarAtBucket(bars[..|bars| - 1], bucket);
    }
  }

  /** What a contiguous series from hi down to lo looks like. */
  ghost predicate Contiguous(out: seq<Candle>, hi: int, lo: int, secs: nat, limit: nat) {
    && out != [] && out[0].bucket == hi && |out| <= limit
    && (forall i :: 0 < i < |out| ==> out[i].bucket == out[i - 1].bucket - secs)
    && lo <= out[|out| - 1].bucket && (|out| < limit ==> out[|out| - 1].bucket - secs < lo)
  }

  lemma LongerPage(first: Candle, out: seq<Candle>, lo: int, secs: nat, limit: nat)
    requires Contiguous(out, first.bucket - secs, lo, secs, limit)
    ensures Contiguous([first] + out, first.bucket, lo, secs, limit + 1)
  {
    var s := [first] + out;
    forall i | 0 < i < |s|
      ensures s[i].bucket == s[i - 1].bucket - secs
    {
      assert i > 1 ==> s[i] == out[i - 1] && s[i - 1] == out[i - 2];
    }
  }

  lemma {:induction false} FilledIsContiguous(bars: seq<Candle>, hi: int, lo: int, secs: nat, limit: nat)
    requires lo <= hi && limit > 0
    ensures Contiguous(Filled(bars, hi, lo, secs, limit), hi, lo, secs, limit)
    decreases limit
  {
    BarAtBucket(bars, hi);
    var rest := Filled(bars, hi - secs, lo, secs, limit - 1);
    if lo <= hi - secs && limit > 1 {
      FilledIsContiguous(bars, hi - secs, lo, secs, limit - 1);
      LongerPage(BarAt(bars, hi), rest, lo, secs, limit - 1);
    } else {
      assert [BarAt(bars, hi)] + [] == [BarAt(bars, hi)];
    }
  }

  /** Where a filled page starts. With a cursor: below it, and for a cursor on a bucket boundary in the bucket just
      below; inside a bucket, in the one below that. With an upper bound only: in the bucket that contains it,
      rounded towards the epoch. Else: at the newest bar. */
  ghost predicate StartsRight(first: int, bars: seq<Candle>, f: CandleFilter, secs: nat)
    requires secs > 0
  {
    if f.before.Some? then
      var before := f.before.value;
      && first % secs == 0 && first * NANOS < before
      && (before % NANOS == 0 && (before / NANOS) % secs == 0 ==> before == (first + secs) * NANOS)
      && (before >= secs * NANOS ==> (first + secs) * NANOS <= before < (first + 2 * secs) * NANOS)
    else if f.to.Some? then
      && first % secs == 0
      && (f.to.value >= 0 ==> first * NANOS <= f.to.value < (first + secs) * NANOS)
      && (f.to.value < 0 ==> (first - secs) * NANOS < f.to.value < (first + 1) * NANOS)
    else bars != [] && first == bars[0].bucket
  }

  /** Where a filled page ends unless it is full: in the bucket of the lower bound, or of the oldest bar, or with
      its first bucket when that is older. Full or not, no later entry is older than that. */
  ghost predicate EndsRight(out: seq<Candle>, bars: seq<Candle>, f: CandleFilter, secs: nat, limit: nat)
    requires secs > 0 && out != []
  {
    var first, last := out[0].bucket, out[|out| - 1].bucket;
    if f.from.Some? then
      var from := f.from.value;
      && (0 <= from < (first + secs) * NANOS && first % secs == 0 ==>
            from < (last + secs) * NANOS && (|out| < limit ==> last * NANOS <= from))
      && (from >= 0 && (first + secs) * NANOS <= from ==> |out| == 1)
    else if bars != [] && bars[|bars| - 1].bucket <= first then
      var oldest := bars[|bars| - 1].bucket;
      oldest <= last && (|out| < limit ==> last - secs < oldest)
    else |out| == 1
  }

  /** A filled page: a contiguous series, newest first, between the bounds of the query. */
  ghost predicate Spans(out: seq<Candle>, bars: seq<Candle>, f: CandleFilter, secs: nat, limit: nat)
    requires secs > 0
  {
    && |out| <= limit && (out == [] <==> f.before.None? && f.to.None? && bars == [])
    && (forall i :: 0 < i < |out| ==> out[i].bucket == out[i - 1].bucket - secs)
    && (out != [] ==> StartsRight(out[0].bucket, bars, f, secs) && EndsRight(out, bars, f, secs, limit))
  }

  lemma SecondsBelow(before: int, secs: nat)
    ensures Seconds(before - secs * NANOS) == Seconds(before) - secs
  {
  }

  lemma SecondsContain(time: int, x: int)
    ensures x <= Seconds(time) <==> x * NANOS <= time
    ensures time % NANOS == 0 ==> time == Seconds(time) * NANOS
  {
  }

  lemma AlignedAlready(x: int, secs: nat)
    requires secs > 0 && x % secs == 0
    ensures AlignDown(x - secs, secs) == x - secs
  {
    MultipleOf(x, secs);
    MultipleHasNoRest(x / secs - 1, secs);
    Quotients(x / secs, secs);
    AlignsTowardZero(x - secs, secs);
    SameMultiple(AlignDown(x - secs, secs), x - secs, secs);
  }

  lemma Quotients(q: int, n: nat)
    ensures (q - 1) * n == n * q - n
  {
  }

  /** Two multiples less than a step apart are one. */
  lemma SameMultiple(a: int, b: int, n: nat)
    requires n > 0 && a % n == 0 && b % n == 0 && -(n as int) < a - b < n
    ensures a == b
  {
    MultipleOf(a, n);
    MultipleOf(b, n);
    MultiplyStep(n, a / n, b / n);
    MultiplyStep(n, b / n, a / n);
  }

  lemma CursorStarts(before: int, secs: nat)
    requires secs > 0
    ensures var first := AlignDown(Seconds(before - secs * NANOS), secs);
            && first % secs == 0 && first * NANOS < before
            && (before % NANOS == 0 && (before / NANOS) % secs == 0 ==> before == (first + secs) * NANOS)
            && (before >= secs * NANOS ==> (first + secs) * NANOS <= before < (first + 2 * secs) * NANOS)
  {
    var x := Seconds(before);
    var first := AlignDown(x - secs, secs);
    SecondsBelow(before, secs);
    AlignsTowardZero(x - secs, secs);
    SecondsContain(before, first + 1);
    SecondsContain(before, first + secs);
    SecondsContain(before, first + 2 * secs);
    SecondsContain(before, secs);
    if before % NANOS == 0 && x % secs == 0 {
      AlignedAlready(x, secs);
    }
  }

  lemma BoundStarts(to: int, secs: nat)
    requires secs > 0
    ensures var first := AlignDown(Seconds(to), secs);
            && first % secs == 0
            && (to >= 0 ==> first * NANOS <= to < (first + secs) * NANOS)
            && (to < 0 ==> (first - secs) * NANOS < to < (first + 1) * NANOS)
  {
    var first := AlignDown(Seconds(to), secs);
    AlignsTowardZero(Seconds(to), secs);
    SecondsContain(to, 0);
    SecondsContain(to, first);
    SecondsContain(to, first + secs);
    SecondsContain(to, first - secs + 1);
    SecondsContain(to, first + 1);
  }

  lemma FillStarts(bars: seq<Candle>, f: CandleFilter, secs: nat)
    requires secs > 0 && FillHigh(f, secs, bars).Some?
    ensures StartsRight(FillHigh(f, secs, bars).value, bars, f, secs)
  {
    if f.before.Some? {
      CursorStarts(f.before.value, secs);
    } else if f.to.Some? {
      BoundStarts(f.to.value, secs);
    }
  }

  lemma BoundEnds(from: nat, first: int, last: int, secs: nat)
    requires secs > 0 && first % secs == 0 && last % secs == 0
    ensures var low := AlignDown(Seconds(from), secs);
            && (from < (first + secs) * NANOS <==> low <= first)
            && (low <= last ==> from < (last + secs) * NANOS)
            && (last - secs < low ==> last * NANOS <= from)
  {
    var low := AlignDown(Seconds(from), secs);
    AlignsTowardZero(Seconds(from), secs);
    SecondsContain(from, first + secs);
    SecondsContain(from, last + secs);
    SecondsContain(from, last);
    GridStep(low, first, secs);
    GridStep(last, low, secs);
  }

  lemma GridStep(a: int, b: int, secs: nat)
    requires secs > 0 && a % secs == 0 && b % secs == 0
    ensures a < b + secs <==> a <= b
  {
    if b < a < b + secs {
      SameMultiple(a, b, secs);
    }
  }

  lemma {:induction false} SeriesOnGrid(out: seq<Candle>, k: nat, secs: nat)
    requires secs > 0 && k < |out| && out[0].bucket % secs == 0
    requires forall i :: 0 < i < |out| ==> out[i].bucket == out[i - 1].bucket - secs
    ensures out[k].bucket % secs == 0
  {
    if k > 0 {
      SeriesOnGrid(out, k - 1, secs);
      AlignedAlready(out[k - 1].bucket, secs);
      AlignsTowardZero(out[k - 1].bucket - secs, secs);
    }
  }

  lemma {:induction false} SeriesDescends(out: seq<Candle>, k: nat, secs: nat)
    requires 0 < k < |out| && forall i :: 0 < i < |out| ==> out[i].bucket == out[i - 1].bucket - secs
    ensures out[k].bucket <= out[0].bucket - secs
  {
    if k > 1 {
      SeriesDescends(out, k - 1, secs);
    }
  }

  lemma OneEntry(out: seq<Candle>, hi: int, lo: int, secs: nat, limit: nat)
    requires secs > 0 && Contiguous(out, hi, lo, secs, limit) && lo == hi
    ensures |out| == 1
  {
    if |out| > 1 {
      SeriesDescends(out, |out| - 1, secs);
    }
  }

  lemma LaterBound(from: nat, first: int, secs: nat)
    requires secs > 0 && (first + secs) * NANOS <= from
    ensures first < AlignDown(Seconds(from), secs)
  {
    AlignsTowardZero(Seconds(from), secs);
    SecondsContain(from, first + secs);
  }

  lemma FillEnds(out: seq<Candle>, bars: seq<Candle>, f: CandleFilter, secs: nat, limit: nat)
    requires secs > 0 && FillHigh(f, secs, bars).Some?
    requires var hi := FillHigh(f, secs, bars).value; Contiguous(out, hi, FillLow(f, secs, bars, hi), secs, limit)
    ensures EndsRight(out, bars, f, secs, limit)
  {
    var first, last := out[0].bucket, out[|out| - 1].bucket;
    var lo := FillLow(f, secs, bars, first);
    if f.from.Some? {
      if f.from.value >= 0 && first % secs == 0 {
        SeriesOnGrid(out, |out| - 1, secs);
        BoundEnds(f.from.value, first, last, secs);
      }
      if f.from.value >= 0 && (first + secs) * NANOS <= f.from.value {
        LaterBound(f.from.value, first, secs);
        OneEntry(out, first, lo, secs, limit);
      }
    } else if bars == [] || bars[|bars| - 1].bucket > first {
      OneEntry(out, first, lo, secs, limit);
    }
  }

  lemma FillSpans(bars: seq<Candle>, f: CandleFilter, secs: nat, limit: nat)
    requires secs > 0 && limit > 0
    ensures Spans(Fill(bars, f, secs, limit), bars, f, secs, limit)
  {
    var high := FillHigh(f, secs, bars);
    if high.Some? {
      var lo := FillLow(f, secs, bars, high.value);
      FillStarts(bars, f, secs);
      FilledIsContiguous(bars, high.value, lo, secs, limit);
      FillEnds(Fill(bars, f, secs, limit), bars, f, secs, limit);
    }
  }

  method ZeroFill(bars: seq<Candle>, hi: int, lo: int, secs: nat, limit: nat) returns (out: seq<Candle>)
    requires secs > 0
    ensures out == Filled(bars, hi, lo, secs, limit)
  {
    var byBucket: map<int, Candle> := map[];
    for i := 0 to |bars|
      invariant forall b :: BarAt(bars[..i], b) == if b in byBucket then byBucket[b] else EmptyBar(b)
    {
      assert bars[..i + 1][..i] == bars[..i];
      byBucket := byBucket[bars[i].bucket := bars[i]];
    }
    assert bars[..|bars|] == bars;
    var t := hi;
    out := [];
    while t >= lo && |out| < limit
      invariant |out| <= limit
      invariant Filled(bars, hi, lo, secs, limit) == out + Filled(bars, t, lo, secs, limit - |out|)
      decreases limit - |out|
    {
      assert Filled(bars, t, lo, secs, limit - |out|) ==
             [BarAt(bars, t)] + Filled(bars, t - secs, lo, secs, limit - |out| - 1);
      if t in byBucket {
        out := out + [byBucket[t]];
      } else {
        out := out + [EmptyBar(t)];
      }
      t := t - secs;
    }
  }

  method FillCandles(bars: seq<Candle>, f: CandleFilter, secs: nat, limit: nat) returns (out: seq<Candle>)
    requires secs > 0
    ensures out == Fill(bars, f, secs, limit)
    ensures limit > 0 ==> Spans(out, bars, f, secs, limit)
  {
    if limit > 0 {
      FillSpans(bars, f, secs, limit);
    }
    match FillHigh(f, secs, bars)
    case Some(hi) => out := ZeroFill(bars, hi, FillLow(f, secs, bars, hi), secs, limit);
    case None => out := bars;
  }
}
