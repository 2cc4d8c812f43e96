// Trades, days and filtered trade sequences, as the archive and the query layer use them.
//
// Times are whole nanoseconds since the epoch; days are UTC days since the epoch.
module Trades {
  import opened Sequences

  const NANOS := 1_000_000_000
  const DAY_SECONDS := 86_400
  const DAY := 86_400_000_000_000

  datatype Option<T> = None | Some(value: T)

  /** A row of the trades table. Prices are in ten-thousandths. */
  datatype Trade = Trade(matchNumber: nat, locate: nat, ticker: string, price: int, shares: int, aggressor: char,
                         time: nat)

  function DayOf(time: int): int {
    time / DAY
  }

  lemma DayMonotone(a: int, b: int)
    requires a <= b
    ensures DayOf(a) <= DayOf(b)
  {
  }

  lemma DayBefore(time: int, later: int)
    requires time + DAY <= later
    ensures DayOf(time) < DayOf(later)
  {
  }

  ghost predicate Ascending(ts: seq<Trade>) {
    forall i, j :: 0 <= i < j < |ts| ==> ts[i].time <= ts[j].time
  }

  // -------------------------------------------------------------------------------------------------
  // Filtering

  function Filter(p: Trade -> bool, ts: seq<Trade>): seq<Trade> {
    if ts == [] then [] else (if p(ts[0]) then [ts[0]] else []) + Filter(p, ts[1..])
  }

  lemma {:induction false} FilterConcat(p: Trade -> bool, a: seq<Trade>, b: seq<Trade>)
    ensures Filter(p, a + b) == Filter(p, a) + Filter(p, b)
  {
    if a == [] {
      assert a + b == b;
      assert [] + Filter(p, b) == Filter(p, b);
    } else {
      assert (a + b)[1..] == a[1..] + b;
      FilterConcat(p, a[1..], b);
      ConcatAssociates(if p(a[0]) then [a[0]] else [], Filter(p, a[1..]), Filter(p, b));
    }
  }

  lemma FilterOne(p: Trade -> bool, t: Trade)
    ensures Filter(p, [t]) == if p(t) then [t] else []
  {
    assert [t][1..] == [];
  }

  /** One more trade of a stream. */
  lemma FilterStep(p: Trade -> bool, ts: seq<Trade>, n: nat)
    requires n < |ts|
    ensures Filter(p, ts[..n + 1]) == if p(ts[n]) then Filter(p, ts[..n]) + [ts[n]] else Filter(p, ts[..n])
  {
    assert ts[..n + 1] == ts[..n] + [ts[n]];
    FilterConcat(p, ts[..n], [ts[n]]);
    FilterOne(p, ts[n]);
    assert Filter(p, ts[..n]) + [] == Filter(p, ts[..n]);
  }

  lemma {:induction false} FilterAll(p: Trade -> bool, ts: seq<Trade>)
    requires forall t :: t in ts ==> p(t)
    ensures Filter(p, ts) == ts
  {
    if ts != [] {
      FilterAll(p, ts[1..]);
    }
  }

  lemma {:induction false} FilterNone(p: Trade -> bool, ts: seq<Trade>)
    requires forall t :: t in ts ==> !p(t)
    ensures Filter(p, ts) == []
  {
    if ts != [] {
      FilterNone(p, ts[1..]);
    }
  }

  lemma {:induction false} FilterSame(p: Trade -> bool, q: Trade -> bool, ts: seq<Trade>)
    requires forall t :: t in ts ==> p(t) == q(t)
    ensures Filter(p, ts) == Filter(q, ts)
  {
    if ts != [] {
      FilterSame(p, q, ts[1..]);
    }
  }

  lemma {:induction false} InFilter(p: Trade -> bool, ts: seq<Trade>, t: Trade)
    ensures t in Filter(p, ts) <==> t in ts && p(t)
  {
    if ts != [] {
      InFilter(p, ts[1..], t);
      assert ts == [ts[0]] + ts[1..];
    }
  }

  lemma FilteredSatisfy(p: Trade -> bool, ts: seq<Trade>)
    ensures forall t :: t in Filter(p, ts) ==> p(t)
  {
    forall t | t in Filter(p, ts)
      ensures p(t)
    {
      InFilter(p, ts, t);
    }
  }

  lemma {:induction false} FilterBoth(p: Trade -> bool, q: Trade -> bool, both: Trade -> bool, ts: seq<Trade>)
    requires forall t :: t in ts ==> both(t) == (p(t) && q(t))
    ensures Filter(p, Filter(q, ts)) == Filter(both, ts)
  {
    if ts != [] {
      FilterBoth(p, q, both, ts[1..]);
      FilterConcat(p, if q(ts[0]) then [ts[0]] else [], Filter(q, ts[1..]));
      FilterOne(p, ts[0]);
    }
  }

  lemma {:induction false} FilterAscending(p: Trade -> bool, ts: seq<Trade>)
    requires Ascending(ts)
    ensures Ascending(Filter(p, ts))
  {
    if ts != [] {
      FilterAscending(p, ts[1..]);
      var r := Filter(p, ts[1..]);
      forall j | 0 <= j < |r|
        ensures ts[0].time <= r[j].time
      {
        InFilter(p, ts[1..], r[j]);
      }
    }
  }

  // -------------------------------------------------------------------------------------------------
  // The filters in use

  function OnDay(day: int): Trade -> bool {
    (t: Trade) => DayOf(t.time) == day
  }

  function OffDay(day: int): Trade -> bool {
    (t: Trade) => DayOf(t.time) != day
  }

  /** At or after an instant. */
  function Since(time: int): Trade -> bool {
    (t: Trade) => time <= t.time
  }

  function Before(time: int): Trade -> bool {
    (t: Trade) => t.time < time
  }

  /** One symbol's trades between two optional, inclusive bounds. */
  function Matching(locate: nat, from: Option<int>, to: Option<int>): Trade -> bool {
    (t: Trade) => t.locate == locate && (from.None? || from.value <= t.time) && (to.None? || t.time <= to.value)
  }

  /** The trades of one UTC day. */
  function Rows(day: int, ts: seq<Trade>): seq<Trade> {
    Filter(OnDay(day), ts)
  }

  /** An ascending sequence falls into the part before an instant and the part from it on. */
  lemma {:induction false} SplitAt(ts: seq<Trade>, time: int)
    requires Ascending(ts)
    ensures ts == Filter(Before(time), ts) + Filter(Since(time), ts)
  {
    if ts != [] {
      SplitAt(ts[1..], time);
      if time <= ts[0].time {
        FilterNone(Before(time), ts);
        FilterAll(Since(time), ts);
      } else {
        assert ts == [ts[0]] + ts[1..];
      }
    }
  }

  lemma LaterDays(ts: seq<Trade>, day: int)
    requires Ascending(ts) && ts != [] && day < DayOf(ts[0].time)
    ensures Rows(day, ts) == [] && Filter(OffDay(day), ts) == ts
  {
    forall t | t in ts
      ensures DayOf(t.time) != day
    {
      var i :| 0 <= i < |ts| && ts[i] == t;
      DayMonotone(ts[0].time, ts[i].time);
    }
    FilterNone(OnDay(day), ts);
    FilterAll(OffDay(day), ts);
  }

  lemma FirstOfDay(t: Trade, rest: seq<Trade>, day: int)
    requires DayOf(t.time) == day
    ensures Rows(day, [t] + rest) == [t] + Rows(day, rest)
    ensures Filter(OffDay(day), [t] + rest) == Filter(OffDay(day), rest)
  {
    assert ([t] + rest)[1..] == rest;
    assert [] + Filter(OffDay(day), rest) == Filter(OffDay(day), rest);
  }

  /** When no trade is older than a day, that day's trades come first. */
  lemma {:induction false} FirstDay(ts: seq<Trade>, day: int)
    requires Ascending(ts) && forall t :: t in ts ==> day <= DayOf(t.time)
    ensures ts == Rows(day, ts) + Filter(OffDay(day), ts)
  {
    if ts != [] {
      if DayOf(ts[0].time) == day {
        var rest := ts[1..];
        assert ts == [ts[0]] + rest;
        FirstDay(rest, day);
        FirstOfDay(ts[0], rest, day);
        ConcatAssociates([ts[0]], Rows(day, rest), Filter(OffDay(day), rest));
      } else {
        LaterDays(ts, day);
      }
    }
  }
}
