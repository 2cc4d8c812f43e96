// Candle intervals: internal/persist/queries.go, intervalSeconds and alignDown.
module Intervals {
  import opened Digits
  import opened Trades
  import opened Candles

  /** The seconds of a minute, an hour and a day. */
  function UnitSeconds(unit: char): nat {
    if unit == 'm' then 60 else if unit == 'h' then 60 * 60 else if unit == 'd' then 24 * 60 * 60 else 0
  }

  /** What an interval says: its number times its unit. */
  function Spelled(interval: string): nat {
    if interval == "" then 0
    else Decimal(interval[..|interval| - 1]) * UnitSeconds(interval[|interval| - 1])
  }

  /** The table of supported intervals. */
  function IntervalSeconds(interval: string): (secs: Option<nat>)
    ensures secs.Some? <==> interval in {"1m", "5m", "15m", "1h", "4h", "1d"}
    ensures secs.Some? ==> IsInterval(secs.value)
  {
    if interval == "1m" then Some(60)
    else if interval == "5m" then Some(300)
    else if interval == "15m" then Some(900)
    else if interval == "1h" then Some(3600)
    else if interval == "4h" then Some(14400)
    else if interval == "1d" then Some(86400)
    else None
  }

  lemma OneDigit(digit: char, unit: char)
    ensures Spelled([digit, unit]) == Decimal([digit]) * UnitSeconds(unit)
    ensures '0' <= digit <= '9' ==> Decimal([digit]) == digit as int - '0' as int
  {
    assert [digit, unit][..1] == [digit] && [digit][..0] == [];
  }

  /** Every supported interval lasts what it says. */
  lemma IntervalsLastWhatTheySay(interval: string)
    ensures IntervalSeconds(interval).Some? ==> IntervalSeconds(interval).value == Spelled(interval)
  {
    OneDigit('1', 'm');
    OneDigit('5', 'm');
    OneDigit('1', 'h');
    OneDigit('4', 'h');
    OneDigit('1', 'd');
    var fifteen := "15m";
    assert fifteen[..2] == "15" && "15"[..1] == ['1'];
    assert Decimal("15") == 10 * Decimal(['1']) + 5;
    assert Spelled(fifteen) == 15 * 60;
  }

  /** A whole number of intervals makes a day. */
  predicate IsInterval(secs: nat) {
    secs > 0 && DAY_SECONDS % secs == 0
  }

  /** The language's remainder, which takes the sign of the dividend. */
  function Rem(a: int, n: nat): int
    requires n > 0
  {
    if a >= 0 then a % n else -((-a) % n)
  }

  function AlignDown(seconds: int, secs: nat): int
    requires secs > 0
  {
    seconds - Rem(seconds, secs)
  }

  function Seconds(time: int): int {
    time / NANOS
  }

  /** The bucket of a trade. */
  function By(secs: nat): Trade -> int
    requires secs > 0
  {
    (t: Trade) => AlignDown(Seconds(t.time), secs)
  }

  lemma Quotient(a: nat, n: nat)
    requires n > 0
    ensures a - a % n == n * (a / n)
  {
  }

  lemma MultiplyStep(n: nat, x: int, y: int)
    ensures x < y ==> n * x + n <= n * y
  {
    if x < y {
      MultiplyKeepsOrder(n, x + 1, y);
    }
  }

  lemma MultiplyKeepsOrder(n: nat, x: int, y: int)
    requires x <= y
    ensures n * x <= n * y
  {
  }

  lemma QuotientMonotone(a: nat, b: nat, n: nat)
    requires n > 0 && a <= b
    ensures n * (a / n) <= n * (b / n)
  {
    Quotient(a, n);
    Quotient(b, n);
    MultiplyStep(n, b / n, a / n);
  }

  lemma AlignMonotone(a: nat, b: nat, secs: nat)
    requires secs > 0 && a <= b
    ensures AlignDown(a, secs) <= AlignDown(b, secs)
  {
    Quotient(a, secs);
    Quotient(b, secs);
    QuotientMonotone(a, b, secs);
  }

  lemma MultipleBelow(q: int, m: int, n: nat, rest: nat)
    requires n > 0 && rest < n
    ensures n * q < n * m <==> n * q + rest < n * m
  {
    MultiplyStep(n, q, m);
    MultiplyStep(n, m, q);
  }

  lemma MultipleOf(x: int, n: nat)
    requires n > 0 && x % n == 0
    ensures x == n * (x / n)
  {
  }

  /** Aligning does not move an instant across a multiple of the interval. */
  lemma AlignKeepsSide(seconds: nat, secs: nat, bound: int)
    requires secs > 0 && bound % secs == 0
    ensures AlignDown(seconds, secs) < bound <==> seconds < bound
  {
    Quotient(seconds, secs);
    MultipleOf(bound, secs);
    MultipleBelow(seconds / secs, bound / secs, secs, seconds % secs);
  }

  lemma SecondsKeepSide(time: int, bound: int)
    ensures Seconds(time) < bound <==> time < bound * NANOS
  {
  }

  lemma DayIsWhole(day: int, secs: nat)
    requires IsInterval(secs)
    ensures (day * DAY_SECONDS) % secs == 0
  {
    var k := DAY_SECONDS / secs;
    MultipleOf(DAY_SECONDS, secs);
    assert day * DAY_SECONDS == (day * k) * secs;
    MultipleHasNoRest(day * k, secs);
  }

  lemma MultipleHasNoRest(q: int, n: nat)
    requires n > 0
    ensures (q * n) % n == 0
  {
    Division(q * n, n, q);
  }

  lemma Division(x: int, n: nat, q: int)
    requires n > 0 && x == q * n
    ensures x / n == q
    ensures x % n == 0
  {
    var d := x / n;
    assert x == n * d + x % n;
    assert n * (q - d) == x % n;
    MultiplyStep(n, 0, q - d);
    MultiplyStep(n, q - d, 0);
  }

  lemma Negate(n: nat, x: int)
    ensures n * (-x) == -(n * x) && (-x) * n == -(n * x)
  {
  }

  /** Aligning gives the multiple at or below a time, or above it before the epoch. */
  lemma AlignsTowardZero(seconds: int, secs: nat)
    requires secs > 0
    ensures AlignDown(seconds, secs) % secs == 0
    ensures seconds >= 0 ==> AlignDown(seconds, secs) <= seconds < AlignDown(seconds, secs) + secs
    ensures seconds < 0 ==> AlignDown(seconds, secs) - secs < seconds <= AlignDown(seconds, secs) <= 0
  {
    if seconds >= 0 {
      Quotient(seconds, secs);
      MultipleHasNoRest(seconds / secs, secs);
    } else {
      Quotient(-seconds, secs);
      MultipleHasNoRest(-((-seconds) / secs), secs);
      Negate(secs, (-seconds) / secs);
    }
  }

  lemma DaySide(time: int, day: int)
    ensures DayOf(time) < day <==> Seconds(time) < day * DAY_SECONDS
  {
  }

  /** No bucket crosses midnight. */
  lemma BucketKeepsDaySide(time: nat, secs: nat, day: int)
    requires IsInterval(secs)
    ensures AlignDown(Seconds(time), secs) < day * DAY_SECONDS <==> DayOf(time) < day
  {
    DayIsWhole(day, secs);
    AlignKeepsSide(Seconds(time), secs, day * DAY_SECONDS);
    DaySide(time, day);
  }

  lemma BucketMonotone(a: nat, b: nat, secs: nat)
    requires secs > 0 && a <= b
    ensures AlignDown(Seconds(a), secs) <= AlignDown(Seconds(b), secs)
  {
    AlignMonotone(Seconds(a), Seconds(b), secs);
  }

  lemma BucketIsAligned(time: nat, secs: nat)
    requires secs > 0
    ensures AlignDown(Seconds(time), secs) % secs == 0 && AlignDown(Seconds(time), secs) >= 0
  {
    AlignedQuotient(Seconds(time), secs);
  }

  lemma AlignedQuotient(x: nat, n: nat)
    requires n > 0
    ensures (x - x % n) % n == 0 && x - x % n >= 0
  {
    Quotient(x, n);
    assert n * (x / n) == (x / n) * n;
    MultipleHasNoRest(x / n, n);
  }

  /** In the order of time, buckets only rise. */
  lemma BucketsRise(ts: seq<Trade>, secs: nat)
    requires secs > 0 && Ascending(ts)
    ensures Rising(By(secs), ts)
  {
    forall i, j | 0 <= i < j < |ts|
      ensures By(secs)(ts[i]) <= By(secs)(ts[j])
    {
      BucketMonotone(ts[i].time, ts[j].time, secs);
    }
  }

  /** Trades of earlier days and of a day and later fall into different buckets. */
  lemma DaysAreApart(x: seq<Trade>, y: seq<Trade>, secs: nat, day: int)
    requires IsInterval(secs)
    requires forall i :: 0 <= i < |x| ==> DayOf(x[i].time) < day
    requires forall i :: 0 <= i < |y| ==> day <= DayOf(y[i].time)
    ensures Apart(By(secs), x, y)
  {
    forall i, j | 0 <= i < |x| && 0 <= j < |y|
      ensures By(secs)(x[i]) < By(secs)(y[j])
    {
      BucketKeepsDaySide(x[i].time, secs, day);
      BucketKeepsDaySide(y[j].time, secs, day);
    }
  }
}
