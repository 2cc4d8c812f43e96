// OHLCV bars: the group-by that internal/persist/queries.go asks of the database, and the streaming form of it
// that internal/archive/candles.go computes.
module Candles {
  import opened Sequences
  import opened Trades

  /** A bar of one bucket; the bucket is named by its first second since the epoch. */
  datatype Candle = Candle(bucket: int, open: int, high: int, low: int, close: int, volume: int, count: nat)

  // -------------------------------------------------------------------------------------------------
  // The group-by, for trades in any order

  function Highest(rows: seq<Trade>): (h: int)
    requires rows != []
    ensures exists i :: 0 <= i < |rows| && rows[i].price == h
    ensures forall i :: 0 <= i < |rows| ==> rows[i].price <= h
  {
    if |rows| == 1 then rows[0].price
    else
      var rest := rows[..|rows| - 1];
      assert forall i :: 0 <= i < |rest| ==> rest[i] == rows[i];
      Max(Highest(rest), rows[|rows| - 1].price)
  }

  function Lowest(rows: seq<Trade>): (l: int)
    requires rows != []
    ensures exists i :: 0 <= i < |rows| && rows[i].price == l
    ensures forall i :: 0 <= i < |rows| ==> l <= rows[i].price
  {
    if |rows| == 1 then rows[0].price
    else
      var rest := rows[..|rows| - 1];
      assert forall i :: 0 <= i < |rest| ==> rest[i] == rows[i];
      Min(Lowest(rest), rows[|rows| - 1].price)
  }

  function Volume(rows: seq<Trade>): int {
    if rows == [] then 0 else Volume(rows[..|rows| - 1]) + rows[|rows| - 1].shares
  }

  /** The bar of a bucket whose trades are rows, in the order of time. */
  function Summary(bucket: int, rows: seq<Trade>): Candle
    requires rows != []
  {
    Candle(bucket, rows[0].price, Highest(rows), Lowest(rows), rows[|rows| - 1].price, Volume(rows), |rows|)
  }

  function InBucket(key: Trade -> int, bucket: int): Trade -> bool {
    (t: Trade) => key(t) == bucket
  }

  function Bucket(key: Trade -> int, bucket: int, ts: seq<Trade>): seq<Trade> {
    Filter(InBucket(key, bucket), ts)
  }

  function Newer(): (Candle, Candle) -> bool {
    (a: Candle, b: Candle) => a.bucket > b.bucket
  }

  /** Bars are the group-by of trades: newest first, one for each bucket that has a trade, and each the summary
      of exactly its bucket's trades. */
  ghost predicate GroupBy(bars: seq<Candle>, key: Trade -> int, ts: seq<Trade>) {
    && Sorted(Newer(), bars)
    && AreBars(bars, key, ts)
    && (forall i :: 0 <= i < |ts| ==> HasBar(bars, key(ts[i])))
  }

  predicate IsBar(c: Candle, rows: seq<Trade>) {
    rows != [] && c == Summary(c.bucket, rows)
  }

  ghost predicate AreBars(bars: seq<Candle>, key: Trade -> int, ts: seq<Trade>) {
    forall i :: 0 <= i < |bars| ==> IsBar(bars[i], Bucket(key, bars[i].bucket, ts))
  }

  predicate HasBar(bars: seq<Candle>, bucket: int) {
    exists i :: 0 <= i < |bars| && bars[i].bucket == bucket
  }

  lemma BarIsListed(bars: seq<Candle>, other: seq<Candle>, key: Trade -> int, ts: seq<Trade>, i: nat)
    requires GroupBy(bars, key, ts) && GroupBy(other, key, ts) && i < |bars|
    ensures bars[i] in other
  {
    var b := bars[i].bucket;
    var t := Bucket(key, b, ts)[0];
    InFilter(InBucket(key, b), ts, t);
    var k :| 0 <= k < |ts| && ts[k] == t;
    assert HasBar(other, key(ts[k]));
    var j :| 0 <= j < |other| && other[j].bucket == b;
    assert other[j] == bars[i];
  }

  /** There is only one group-by. */
  lemma GroupByIsUnique(bars: seq<Candle>, other: seq<Candle>, key: Trade -> int, ts: seq<Trade>)
    requires GroupBy(bars, key, ts) && GroupBy(other, key, ts)
    ensures bars == other
  {
    forall c
      ensures c in bars <==> c in other
    {
      if c in bars {
        var i :| 0 <= i < |bars| && bars[i] == c;
        BarIsListed(bars, other, key, ts, i);
      }
      if c in other {
        var i :| 0 <= i < |other| && other[i] == c;
        BarIsListed(other, bars, key, ts, i);
      }
    }
    SortedIsUnique(Newer(), bars, other);
  }

  // -------------------------------------------------------------------------------------------------
  // The same, one trade at a time

  function FirstBar(bucket: int, t: Trade): Candle {
    Candle(bucket, t.price, t.price, t.price, t.price, t.shares, 1)
  }

  function Extend(c: Candle, t: Trade): Candle {
    c.(high := if t.price > c.high then t.price else c.high, low := if t.price < c.low then t.price else c.low,
       close := t.price, volume := c.volume + t.shares, count := c.count + 1)
  }

  lemma SummaryOfOne(bucket: int, t: Trade)
    ensures Summary(bucket, [t]) == FirstBar(bucket, t)
  {
    assert [t][..0] == [];
    assert Volume([]) == 0;
  }

  lemma SummaryExtends(bucket: int, rows: seq<Trade>, t: Trade)
    requires rows != []
    ensures Summary(bucket, rows + [t]) == Extend(Summary(bucket, rows), t)
  {
    assert (rows + [t])[..|rows|] == rows;
  }

  /** A trade joins the newest bar or starts a new one. */
  function Pushed(key: Trade -> int, bars: seq<Candle>, t: Trade): seq<Candle> {
    if bars != [] && bars[0].bucket == key(t) then [Extend(bars[0], t)] + bars[1..] else [FirstBar(key(t), t)] + bars
  }

  /** The bars of trades that come in the order of time, newest first. */
  function Bars(key: Trade -> int, ts: seq<Trade>): seq<Candle>
    decreases |ts|
  {
    if ts == [] then [] else Pushed(key, Bars(key, ts[..|ts| - 1]), ts[|ts| - 1])
  }

  lemma BarsGrow(key: Trade -> int, ts: seq<Trade>, t: Trade)
    ensures Bars(key, ts + [t]) == Pushed(key, Bars(key, ts), t)
  {
    assert (ts + [t])[..|ts|] == ts;
  }

  /** The newest bar is the last trade's. */
  lemma NewestBar(key: Trade -> int, ts: seq<Trade>)
    requires ts != []
    ensures Bars(key, ts) != [] && Bars(key, ts)[0].bucket == key(ts[|ts| - 1])
  {
  }

  ghost predicate Rising(key: Trade -> int, ts: seq<Trade>) {
    forall i, j :: 0 <= i < j < |ts| ==> key(ts[i]) <= key(ts[j])
  }

  /** All of x's buckets come before all of y's. */
  ghost predicate Apart(key: Trade -> int, x: seq<Trade>, y: seq<Trade>) {
    forall i, j :: 0 <= i < |x| && 0 <= j < |y| ==> key(x[i]) < key(y[j])
  }

  lemma PushOntoConcat(key: Trade -> int, a: seq<Candle>, b: seq<Candle>, t: Trade)
    requires a != []
    ensures Pushed(key, a + b, t) == Pushed(key, a, t) + b
  {
  }

  /** Trades whose buckets do not meet can be bucketed separately. */
  lemma {:induction false} BarsConcat(key: Trade -> int, x: seq<Trade>, y: seq<Trade>)
    requires Apart(key, x, y)
    ensures Bars(key, x + y) == Bars(key, y) + Bars(key, x)
    decreases |y|
  {
    if y == [] {
      assert x + y == x;
    } else {
      var init, t := y[..|y| - 1], y[|y| - 1];
      assert x + y == (x + init) + [t];
      BarsConcat(key, x, init);
      BarsGrow(key, x + init, t);
      if init == [] {
        assert x + init == x;
        NewBucketPushed(key, x, t);
      } else {
        NewestBar(key, init);
        PushOntoConcat(key, Bars(key, init), Bars(key, x), t);
      }
    }
  }

  lemma NewBucketPushed(key: Trade -> int, x: seq<Trade>, t: Trade)
    requires forall i :: 0 <= i < |x| ==> key(x[i]) < key(t)
    ensures Pushed(key, Bars(key, x), t) == Pushed(key, [], t) + Bars(key, x)
  {
    if x != [] {
      NewestBar(key, x);
      assert key(x[|x| - 1]) < key(t);
    }
  }

  lemma BucketGrows(key: Trade -> int, bucket: int, ts: seq<Trade>, t: Trade)
    ensures Bucket(key, bucket, ts + [t]) == Bucket(key, bucket, ts) + if key(t) == bucket then [t] else []
  {
    FilterConcat(InBucket(key, bucket), ts, [t]);
    FilterOne(InBucket(key, bucket), t);
  }

  lemma HasBarGrows(older: seq<Candle>, bars: seq<Candle>, key: Trade -> int, ts: seq<Trade>, t: Trade)
    requires forall i :: 0 <= i < |ts| ==> HasBar(older, key(ts[i]))
    requires forall i :: 0 <= i < |older| ==> HasBar(bars, older[i].bucket)
    requires HasBar(bars, key(t))
    ensures forall i :: 0 <= i < |ts + [t]| ==> HasBar(bars, key((ts + [t])[i]))
  {
    forall i | 0 <= i < |ts|
      ensures HasBar(bars, key(ts[i]))
    {
      assert HasBar(older, key(ts[i]));
      var j :| 0 <= j < |older| && older[j].bucket == key(ts[i]);
      assert HasBar(bars, older[j].bucket);
    }
  }

  lemma OtherBarStays(c: Candle, key: Trade -> int, ts: seq<Trade>, t: Trade)
    requires IsBar(c, Bucket(key, c.bucket, ts)) && c.bucket != key(t)
    ensures IsBar(c, Bucket(key, c.bucket, ts + [t]))
  {
    BucketGrows(key, c.bucket, ts, t);
    assert Bucket(key, c.bucket, ts) + [] == Bucket(key, c.bucket, ts);
  }

  lemma ExtendedBar(c: Candle, key: Trade -> int, ts: seq<Trade>, t: Trade)
    requires IsBar(c, Bucket(key, c.bucket, ts)) && c.bucket == key(t)
    ensures IsBar(Extend(c, t), Bucket(key, c.bucket, ts + [t]))
  {
    BucketGrows(key, c.bucket, ts, t);
    SummaryExtends(c.bucket, Bucket(key, c.bucket, ts), t);
  }

  lemma NewBar(key: Trade -> int, ts: seq<Trade>, t: Trade)
    requires forall u :: u in ts ==> key(u) != key(t)
    ensures IsBar(FirstBar(key(t), t), Bucket(key, key(t), ts + [t]))
  {
    FilterNone(InBucket(key, key(t)), ts);
    BucketGrows(key, key(t), ts, t);
    SummaryOfOne(key(t), t);
    assert [] + [t] == [t];
  }

  lemma SortedPush(c: Candle, rest: seq<Candle>)
    requires Sorted(Newer(), rest) && forall i :: 0 <= i < |rest| ==> rest[i].bucket < c.bucket
    ensures Sorted(Newer(), [c] + rest)
  {
  }

  lemma AreBarsPush(c: Candle, rest: seq<Candle>, key: Trade -> int, ts: seq<Trade>)
    requires IsBar(c, Bucket(key, c.bucket, ts)) && AreBars(rest, key, ts)
    ensures AreBars([c] + rest, key, ts)
  {
    var bars := [c] + rest;
    forall i | 0 <= i < |bars|
      ensures IsBar(bars[i], Bucket(key, bars[i].bucket, ts))
    {
      if i > 0 {
        assert bars[i] == rest[i - 1];
      }
    }
  }

  lemma ExtendKeepsGroupBy(key: Trade -> int, older: seq<Candle>, ts: seq<Trade>, t: Trade)
    requires GroupBy(older, key, ts) && older != [] && older[0].bucket == key(t)
    ensures GroupBy([Extend(older[0], t)] + older[1..], key, ts + [t])
  {
    var c, rest := Extend(older[0], t), older[1..];
    ExtendedBar(older[0], key, ts, t);
    forall i | 0 <= i < |rest|
      ensures rest[i].bucket < c.bucket && IsBar(rest[i], Bucket(key, rest[i].bucket, ts + [t]))
    {
      assert Newer()(older[0], older[i + 1]);
      OtherBarStays(older[i + 1], key, ts, t);
    }
    HasBarsExtended(older, key, ts, t);
    SortedPush(c, rest);
    AreBarsPush(c, rest, key, ts + [t]);
  }

  lemma HasBarsExtended(older: seq<Candle>, key: Trade -> int, ts: seq<Trade>, t: Trade)
    requires older != [] && older[0].bucket == key(t)
    requires forall i :: 0 <= i < |ts| ==> HasBar(older, key(ts[i]))
    ensures forall i :: 0 <= i < |ts + [t]| ==> HasBar([Extend(older[0], t)] + older[1..], key((ts + [t])[i]))
  {
    var bars := [Extend(older[0], t)] + older[1..];
    forall i | 0 <= i < |older|
      ensures HasBar(bars, older[i].bucket)
    {
      assert bars[i].bucket == older[i].bucket;
    }
    HasBarGrows(older, bars, key, ts, t);
  }

  lemma FirstBarKeepsGroupBy(key: Trade -> int, older: seq<Candle>, ts: seq<Trade>, t: Trade)
    requires GroupBy(older, key, ts) && forall i :: 0 <= i < |older| ==> older[i].bucket < key(t)
    ensures GroupBy([FirstBar(key(t), t)] + older, key, ts + [t])
  {
    forall u | u in ts
      ensures key(u) != key(t)
    {
      var i :| 0 <= i < |ts| && ts[i] == u;
      assert HasBar(older, key(ts[i]));
    }
    NewBar(key, ts, t);
    forall i | 0 <= i < |older|
      ensures IsBar(older[i], Bucket(key, older[i].bucket, ts + [t]))
    {
      OtherBarStays(older[i], key, ts, t);
    }
    HasBarsPushed(older, key, ts, t);
    SortedPush(FirstBar(key(t), t), older);
    AreBarsPush(FirstBar(key(t), t), older, key, ts + [t]);
  }

  lemma HasBarsPushed(older: seq<Candle>, key: Trade -> int, ts: seq<Trade>, t: Trade)
    requires forall i :: 0 <= i < |ts| ==> HasBar(older, key(ts[i]))
    ensures forall i :: 0 <= i < |ts + [t]| ==> HasBar([FirstBar(key(t), t)] + older, key((ts + [t])[i]))
  {
    var bars := [FirstBar(key(t), t)] + older;
    forall i | 0 <= i < |older|
      ensures HasBar(bars, older[i].bucket)
    {
      assert bars[i + 1].bucket == older[i].bucket;
    }
    assert bars[0].bucket == key(t);
    HasBarGrows(older, bars, key, ts, t);
  }

  /** Streaming in the order of time computes the group-by. */
  lemma {:induction false} BarsAreGroupBy(key: Trade -> int, ts: seq<Trade>)
    requires Rising(key, ts)
    ensures GroupBy(Bars(key, ts), key, ts)
    decreases |ts|
  {
    if ts != [] {
      var init, t := ts[..|ts| - 1], ts[|ts| - 1];
      var older := Bars(key, init);
      assert ts == init + [t];
      BarsAreGroupBy(key, init);
      if older != [] && older[0].bucket == key(t) {
        ExtendKeepsGroupBy(key, older, init, t);
      } else {
        if init != [] {
          NewestBar(key, init);
          assert key(ts[|ts| - 2]) <= key(t);
        }
        forall i | 0 <= i < |older|
          ensures older[i].bucket < key(t)
        {
          if i > 0 {
            assert Newer()(older[0], older[i]);
          }
        }
        FirstBarKeepsGroupBy(key, older, init, t);
      }
    }
  }

  // -------------------------------------------------------------------------------------------------
  // What the bars of trades add up to

  function SharesTraded(ts: seq<Trade>): int {
    if ts == [] then 0 else ts[0].shares + SharesTraded(ts[1..])
  }

  function VolumeOf(bars: seq<Candle>): int {
    if bars == [] then 0 else bars[0].volume + VolumeOf(bars[1..])
  }

  function CountOf(bars: seq<Candle>): int {
    if bars == [] then 0 else bars[0].count + CountOf(bars[1..])
  }

  lemma {:induction false} SharesOfOneMore(ts: seq<Trade>, t: Trade)
    ensures SharesTraded(ts + [t]) == SharesTraded(ts) + t.shares
  {
    if ts == [] {
      assert ts + [t] == [t] && [t][1..] == [];
    } else {
      assert (ts + [t])[1..] == ts[1..] + [t];
      SharesOfOneMore(ts[1..], t);
    }
  }

  lemma PushedAddsUp(key: Trade -> int, bars: seq<Candle>, t: Trade)
    ensures VolumeOf(Pushed(key, bars, t)) == VolumeOf(bars) + t.shares
    ensures CountOf(Pushed(key, bars, t)) == CountOf(bars) + 1
  {
    var pushed := Pushed(key, bars, t);
    if bars != [] && bars[0].bucket == key(t) {
      assert pushed[1..] == bars[1..];
    } else {
      assert pushed[1..] == bars;
    }
  }

  /** The volumes of all bars are the shares of all trades, and their counts are the number of trades. */
  lemma {:induction false} NothingIsCountedTwice(key: Trade -> int, ts: seq<Trade>)
    ensures VolumeOf(Bars(key, ts)) == SharesTraded(ts) && CountOf(Bars(key, ts)) == |ts|
    decreases |ts|
  {
    if ts != [] {
      var init, t := ts[..|ts| - 1], ts[|ts| - 1];
      NothingIsCountedTwice(key, init);
      PushedAddsUp(key, Bars(key, init), t);
      SharesOfOneMore(init, t);
      assert init + [t] == ts;
    }
  }

  /** What a bar shows of its trades in the order of time: the first price, the extremes, the last price. */
  lemma BarShowsTrades(c: Candle, rows: seq<Trade>)
    requires IsBar(c, rows)
    ensures rows != [] && c.open == rows[0].price && c.close == rows[|rows| - 1].price && c.count == |rows|
    ensures c.volume == SharesTraded(rows)
    ensures forall i :: 0 <= i < |rows| ==> c.low <= rows[i].price <= c.high
    ensures exists i :: 0 <= i < |rows| && rows[i].price == c.high
    ensures exists i :: 0 <= i < |rows| && rows[i].price == c.low
  {
    VolumeIsShares(rows);
  }

  lemma {:induction false} VolumeIsShares(rows: seq<Trade>)
    ensures Volume(rows) == SharesTraded(rows)
    decreases |rows|
  {
    if rows != [] {
      var init, t := rows[..|rows| - 1], rows[|rows| - 1];
      VolumeIsShares(init);
      SharesOfOneMore(init, t);
      assert init + [t] == rows;
    }
  }
}
