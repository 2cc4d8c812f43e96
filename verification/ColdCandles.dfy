// Bars from archived trades, bucketed while the day-files stream by: internal/archive/candles.go.
module ColdCandles {
  import opened Sequences
  import opened Trades
  import opened Candles
  import opened Intervals
  import opened Queries
  import opened Catalog
  import opened Reader

  /** The archived trades a candle query selects: it compares buckets with the cursor, in whole seconds. */
  function ColdRows(locate: nat, from: int, to: int, key: Trade -> int, before: Option<int>): Trade -> bool {
    (t: Trade) => Matching(locate, Bound(from), Bound(to))(t) && (before.None? || key(t) < Seconds(before.value))
  }

  ghost predicate Entry(c: Candle, bucket: int, key: Trade -> int, ts: seq<Trade>) {
    c.bucket == bucket && IsBar(c, Bucket(key, c.bucket, ts))
  }

  ghost predicate Entries(buckets: map<int, Candle>, key: Trade -> int, ts: seq<Trade>) {
    forall b :: b in buckets ==> Entry(buckets[b], b, key, ts)
  }

  ghost predicate Covers(buckets: map<int, Candle>, key: Trade -> int, ts: seq<Trade>) {
    forall i :: 0 <= i < |ts| ==> key(ts[i]) in buckets
  }

  /** A table holds the bars of trades by bucket. */
  ghost predicate Aggregates(buckets: map<int, Candle>, key: Trade -> int, ts: seq<Trade>) {
    Entries(buckets, key, ts) && Covers(buckets, key, ts)
  }

  lemma OtherEntryStays(c: Candle, bucket: int, key: Trade -> int, ts: seq<Trade>, t: Trade)
    requires Entry(c, bucket, key, ts) && bucket != key(t)
    ensures Entry(c, bucket, key, ts + [t])
  {
    OtherBarStays(c, key, ts, t);
  }

  /** A trade changes only its own bucket's entry. */
  lemma EntriesStep(buckets: map<int, Candle>, key: Trade -> int, ts: seq<Trade>, t: Trade, c: Candle)
    requires Entries(buckets, key, ts) && Entry(c, key(t), key, ts + [t])
    ensures Entries(buckets[key(t) := c], key, ts + [t])
  {
    forall b | b in buckets && b != key(t)
      ensures Entry(buckets[b], b, key, ts + [t])
    {
      OtherEntryStays(buckets[b], b, key, ts, t);
    }
  }

  lemma CoversStep(buckets: map<int, Candle>, key: Trade -> int, ts: seq<Trade>, t: Trade, c: Candle)
    requires Covers(buckets, key, ts)
    ensures Covers(buckets[key(t) := c], key, ts + [t])
  {
  }

  lemma AggregateStep(buckets: map<int, Candle>, key: Trade -> int, ts: seq<Trade>, t: Trade, c: Candle)
    requires Aggregates(buckets, key, ts) && Entry(c, key(t), key, ts + [t])
    ensures Aggregates(buckets[key(t) := c], key, ts + [t])
  {
    EntriesStep(buckets, key, ts, t, c);
    CoversStep(buckets, key, ts, t, c);
  }

  /** The table with one more trade in its bucket's aggregate. */
  function Aggregated(buckets: map<int, Candle>, bucket: int, t: Trade): map<int, Candle> {
    buckets[bucket := if bucket in buckets then Extend(buckets[bucket], t) else FirstBar(bucket, t)]
  }

  lemma AggregatedKeeps(buckets: map<int, Candle>, key: Trade -> int, ts: seq<Trade>, t: Trade)
    requires Aggregates(buckets, key, ts)
    ensures Aggregates(Aggregated(buckets, key(t), t), key, ts + [t])
  {
    if key(t) in buckets {
      var c := buckets[key(t)];
      assert Entry(c, key(t), key, ts);
      ExtendedBar(c, key, ts, t);
      AggregateStep(buckets, key, ts, t, Extend(c, t));
    } else {
      NewBar(key, ts, t);
      AggregateStep(buckets, key, ts, t, FirstBar(key(t), t));
    }
  }

  method Aggregate(buckets: map<int, Candle>, bucket: int, d: Trade) returns (more: map<int, Candle>)
    ensures more == Aggregated(buckets, bucket, d)
  {
    if bucket !in buckets {
      return buckets[bucket := Candle(bucket, d.price, d.price, d.price, d.price, d.shares, 1)];
    }
    var a := buckets[bucket];
    if d.price > a.high {
      a := a.(high := d.price);
    }
    if d.price < a.low {
      a := a.(low := d.price);
    }
    a := a.(close := d.price, volume := a.volume + d.shares, count := a.count + 1);
    more := buckets[bucket := a];
  }

  /** A list of the bars of all buckets but those left. */
  ghost predicate Lists(out: seq<Candle>, buckets: map<int, Candle>, left: set<int>) {
    && (forall c :: c in out ==> c.bucket in buckets && c.bucket !in left && buckets[c.bucket] == c)
    && (forall b :: b in buckets && b !in left ==> buckets[b] in out)
  }

  lemma ListsStep(out: seq<Candle>, more: seq<Candle>, buckets: map<int, Candle>, left: set<int>, start: int)
    requires Lists(out, buckets, left) && start in left && start in buckets && buckets[start].bucket == start
    requires forall c :: c in more <==> c in out || c == buckets[start]
    ensures Lists(more, buckets, left - {start})
  {
  }

  /** The aggregates as a list, newest first. */
  method NewestBars(buckets: map<int, Candle>) returns (out: seq<Candle>)
    requires forall b :: b in buckets ==> buckets[b].bucket == b
    ensures Sorted(Newer(), out) && Lists(out, buckets, {})
  {
    out := [];
    var left := buckets.Keys;
    while left != {}
      invariant left <= buckets.Keys && Sorted(Newer(), out) && Lists(out, buckets, left)
      decreases |left|
    {
      EmptyOrNot(left);
      var start :| start in left;
      var more := InsertSorted(Newer(), out, buckets[start]);
      ListsStep(out, more, buckets, left, start);
      out, left := more, left - {start};
    }
  }

  lemma ListsAllBars(out: seq<Candle>, buckets: map<int, Candle>, key: Trade -> int, ts: seq<Trade>)
    requires Aggregates(buckets, key, ts) && Sorted(Newer(), out)
    requires Lists(out, buckets, {})
    ensures GroupBy(out, key, ts)
  {
    forall i | 0 <= i < |out|
      ensures IsBar(out[i], Bucket(key, out[i].bucket, ts))
    {
      assert out[i] in out;
      assert Entry(buckets[out[i].bucket], out[i].bucket, key, ts);
    }
    forall i | 0 <= i < |ts|
      ensures HasBar(out, key(ts[i]))
    {
      var b := key(ts[i]);
      var j :| 0 <= j < |out| && out[j] == buckets[b];
      assert out[j].bucket == b;
    }
  }

  /** One more trade of a day-file, bucketed if it is wanted. */
  lemma BucketStep(buckets: map<int, Candle>, more: map<int, Candle>, key: Trade -> int, p: Trade -> bool,
                   file: seq<Trade>, n: nat)
    requires n < |file| && Aggregates(buckets, key, Filter(p, file[..n]))
    requires more == if p(file[n]) then Aggregated(buckets, key(file[n]), file[n]) else buckets
    ensures Aggregates(more, key, Filter(p, file[..n + 1]))
  {
    FilterStep(p, file, n);
    if p(file[n]) {
      AggregatedKeeps(buckets, key, Filter(p, file[..n]), file[n]);
    }
  }

  method BucketTrades(file: seq<Trade>, locate: nat, from: int, to: int, key: Trade -> int, before: Option<int>)
      returns (buckets: map<int, Candle>)
    ensures Aggregates(buckets, key, Filter(ColdRows(locate, from, to, key, before), file))
  {
    ghost var p := ColdRows(locate, from, to, key, before);
    buckets := map[];
    for n := 0 to |file|
      invariant Aggregates(buckets, key, Filter(p, file[..n]))
    {
      var d, more := file[n], buckets;
      if d.locate == locate && (from == ZERO_TIME || d.time >= from) && (to == ZERO_TIME || d.time <= to) {
        var bucketStart := key(d);
        if before.None? || bucketStart < Seconds(before.value) {
          more := Aggregate(buckets, bucketStart, d);
        }
      }
      BucketStep(buckets, more, key, p, file, n);
      buckets := more;
    }
    assert file[..|file|] == file;
  }

  /** Buckets one day-file's matching trades: the result is their group-by. */
  method ReadDayCandles(file: seq<Trade>, locate: nat, from: int, to: int, key: Trade -> int, before: Option<int>)
      returns (out: seq<Candle>)
    ensures GroupBy(out, key, Filter(ColdRows(locate, from, to, key, before), file))
  {
    var buckets := BucketTrades(file, locate, from, to, key, before);
    ghost var rows := Filter(ColdRows(locate, from, to, key, before), file);
    assert forall b :: b in buckets ==> Entry(buckets[b], b, key, rows);
    out := NewestBars(buckets);
    ListsAllBars(out, buckets, key, rows);
  }

  // -------------------------------------------------------------------------------------------------
  // Day after day

  /** Buckets that follow the order of time and do not cross midnight. */
  ghost predicate WithinDays(key: Trade -> int) {
    && (forall t: Trade, u: Trade :: t.time <= u.time ==> key(t) <= key(u))
    && (forall t: Trade :: DayOf(t.time) * DAY_SECONDS <= key(t) < (DayOf(t.time) + 1) * DAY_SECONDS)
  }

  lemma IntervalsAreWithinDays(secs: nat)
    requires IsInterval(secs)
    ensures WithinDays(By(secs))
  {
    forall t: Trade, u: Trade | t.time <= u.time
      ensures By(secs)(t) <= By(secs)(u)
    {
      BucketMonotone(t.time, u.time, secs);
    }
    forall t: Trade
      ensures DayOf(t.time) * DAY_SECONDS <= By(secs)(t) < (DayOf(t.time) + 1) * DAY_SECONDS
    {
      BucketKeepsDaySide(t.time, secs, DayOf(t.time));
      BucketKeepsDaySide(t.time, secs, DayOf(t.time) + 1);
    }
  }

  /** The bars of some days' archived trades. */
  function DayBars(files: map<int, seq<Trade>>, days: seq<int>, p: Trade -> bool, key: Trade -> int): seq<Candle>
    requires forall d :: d in days ==> d in files
  {
    Bars(key, Filter(p, Archived(files, days)))
  }

  lemma {:induction false} ArchivedFrom(files: map<int, seq<Trade>>, days: seq<int>, t: Trade)
    requires (forall d :: d in days ==> d in files) && DayFiles(files)
    ensures t in Archived(files, days) ==> DayOf(t.time) in days
    decreases |days|
  {
    if days != [] {
      var last := days[|days| - 1];
      assert last in days;
      ArchivedFrom(files, days[..|days| - 1], t);
    }
  }

  lemma EarlierDay(key: Trade -> int, t: Trade, u: Trade)
    requires WithinDays(key) && DayOf(t.time) < DayOf(u.time)
    ensures key(t) < key(u)
  {
  }

  /** An older day's bars come behind the bars of the days after it. */
  lemma OlderBars(files: map<int, seq<Trade>>, days: seq<int>, i: nat, p: Trade -> bool, key: Trade -> int)
    requires (forall d :: d in days ==> d in files) && i < |days| && Sorted(Earlier(), days)
    requires DayFiles(files) && WithinDays(key)
    ensures days[i] in files
    ensures DayBars(files, days[i..], p, key) ==
            DayBars(files, days[i + 1..], p, key) + Bars(key, Filter(p, files[days[i]]))
  {
    OlderDay(files, days, i, p);
    var x, y := Filter(p, files[days[i]]), Filter(p, Archived(files, days[i + 1..]));
    forall j, k | 0 <= j < |x| && 0 <= k < |y|
      ensures key(x[j]) < key(y[k])
    {
      InFilter(p, files[days[i]], x[j]);
      InFilter(p, Archived(files, days[i + 1..]), y[k]);
      ArchivedFrom(files, days[i + 1..], y[k]);
      var n :| i + 1 <= n < |days| && days[n] == DayOf(y[k].time);
      assert Earlier()(days[i], days[n]);
      EarlierDay(key, x[j], y[k]);
    }
    BarsConcat(key, x, y);
  }

  lemma TakeFirst<T>(a: seq<T>, b: seq<T>, n: nat)
    requires n <= |a|
    ensures Take(a + b, n) == Take(a, n)
  {
    TakeConcat(a, b, n);
  }

  /** Once there are enough bars, older days add nothing to the page. */
  lemma {:induction false} MoreDaysSamePage(files: map<int, seq<Trade>>, days: seq<int>, i: nat, p: Trade -> bool,
                                            key: Trade -> int, limit: nat)
    requires (forall d :: d in days ==> d in files) && i <= |days| && Sorted(Earlier(), days)
    requires DayFiles(files) && WithinDays(key) && limit <= |DayBars(files, days[i..], p, key)|
    ensures Take(DayBars(files, days[i..], p, key), limit) == Take(DayBars(files, days, p, key), limit)
    decreases i
  {
    if i == 0 {
      assert days[0..] == days;
    } else {
      OlderBars(files, days, i - 1, p, key);
      TakeFirst(DayBars(files, days[i..], p, key), Bars(key, Filter(p, files[days[i - 1]])), limit);
      MoreDaysSamePage(files, days, i - 1, p, key, limit);
    }
  }

  /** The streamed bars of a day are the bars of its matching trades in the order of time. */
  lemma StreamedDay(out: seq<Candle>, file: seq<Trade>, p: Trade -> bool, key: Trade -> int)
    requires WithinDays(key) && Ascending(file) && GroupBy(out, key, Filter(p, file))
    ensures out == Bars(key, Filter(p, file))
  {
    FilterAscending(p, file);
    BarsAreGroupBy(key, Filter(p, file));
    GroupByIsUnique(out, Bars(key, Filter(p, file)), key, Filter(p, file));
  }

  lemma OlderStep(files: map<int, seq<Trade>>, days: seq<int>, i: nat, p: Trade -> bool, key: Trade -> int,
                  result: seq<Candle>, dayBars: seq<Candle>)
    requires (forall d :: d in days ==> d in files) && i < |days| && days[i] in files && Sorted(Earlier(), days)
    requires DayFiles(files) && WithinDays(key)
    requires result == DayBars(files, days[i + 1..], p, key)
    requires GroupBy(dayBars, key, Filter(p, files[days[i]]))
    ensures result + dayBars == DayBars(files, days[i..], p, key)
  {
    OlderBars(files, days, i, p, key);
    StreamedDay(dayBars, files[days[i]], p, key);
  }

  lemma EnoughDays(files: map<int, seq<Trade>>, days: seq<int>, i: nat, p: Trade -> bool, key: Trade -> int,
                   result: seq<Candle>, limit: nat)
    requires (forall d :: d in days ==> d in files) && i <= |days| && Sorted(Earlier(), days)
    requires DayFiles(files) && WithinDays(key)
    requires result == DayBars(files, days[i..], p, key) && (i == 0 || |result| >= limit)
    ensures Take(result, limit) == Take(DayBars(files, days, p, key), limit)
  {
    if i == 0 {
      assert days[0..] == days;
    } else {
      MoreDaysSamePage(files, days, i, p, key, limit);
    }
  }

  method ReadDaysCandles(files: map<int, seq<Trade>>, days: seq<int>, locate: nat, from: int, to: int,
                         key: Trade -> int, limit: nat, before: Option<int>) returns (result: seq<Candle>)
    requires (forall d :: d in days ==> d in files) && Sorted(Earlier(), days)
    requires DayFiles(files) && WithinDays(key)
    ensures result == Take(DayBars(files, days, ColdRows(locate, from, to, key, before), key), limit)
  {
    result := [];
    ghost var p := ColdRows(locate, from, to, key, before);
    var i := |days|;
    while i > 0 && |result| < limit
      invariant 0 <= i <= |days|
      invariant result == DayBars(files, days[i..], p, key)
    {
      i := i - 1;
      var day := days[i];
      assert day in days;
      var dayBars := ReadDayCandles(files[day], locate, from, to, key, before);
      OlderStep(files, days, i, p, key, result, dayBars);
      result := result + dayBars;
    }
    EnoughDays(files, days, i, p, key, result, limit);
    if |result| > limit {
      result := result[..limit];
    }
  }

  lemma ColdRange(files: map<int, seq<Trade>>, from: int, to: int, locate: nat, key: Trade -> int, before: Option<int>)
    requires DayFiles(files) && (to == ZERO_TIME ==> InYears(files))
    ensures var lo, hi := if from == ZERO_TIME then YEAR_TWO else from, if to == ZERO_TIME then LAST_SECOND else to;
            var p := ColdRows(locate, from, to, key, before);
            Filter(p, Archived(files, InOrder(Touched(files.Keys, lo, hi)))) == Filter(p, Cold(files))
  {
    var lo, hi := if from == ZERO_TIME then YEAR_TWO else from, if to == ZERO_TIME then LAST_SECOND else to;
    var p := ColdRows(locate, from, to, key, before);
    forall d, t | d in files.Keys - Touched(files.Keys, lo, hi) && t in files[d]
      ensures !p(t)
    {
      UntouchedTrade(files, from, to, locate, d, t);
    }
    SkippedDays(files, Touched(files.Keys, lo, hi), files.Keys, p);
  }

  /** The newest bars of archived trades, at most limit: the group-by of all of them, cut to the page. */
  method ReadCandles(files: map<int, seq<Trade>>, locate: nat, from: int, to: int, secs: int, limit: int,
                     before: Option<int>) returns (r: Result<seq<Candle>>)
    requires DayFiles(files) && (to == ZERO_TIME ==> InYears(files)) && (secs > 0 ==> IsInterval(secs))
    ensures secs <= 0 ==> r.Err?
    ensures secs > 0 ==>
              r == Ok(Take(Bars(By(secs), Filter(ColdRows(locate, from, to, By(secs), before), Cold(files))),
                           ClampLimit(limit)))
  {
    if secs <= 0 {
      return Err("invalid interval seconds");
    }
    var most := ClampLimit(limit);
    var lo, hi := if from == ZERO_TIME then YEAR_TWO else from, if to == ZERO_TIME then LAST_SECOND else to;
    var days := Resolve(files, lo, hi);
    IntervalsAreWithinDays(secs);
    ColdRange(files, from, to, locate, By(secs), before);
    var result := ReadDaysCandles(files, days, locate, from, to, By(secs), most, before);
    r := Ok(result);
  }
}
