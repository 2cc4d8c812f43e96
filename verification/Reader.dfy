// Reading archived trades: internal/archive/reader.go.
module Reader {
  import opened Sequences
  import opened Trades
  import opened Queries
  import opened Catalog

  function Last<T>(s: seq<T>, n: nat): seq<T> {
    if n <= |s| then s[|s| - n..] else s
  }

  lemma LastGrows<T>(s: seq<T>, v: T, n: nat)
    requires |Last(s, n)| < n
    ensures Last(s + [v], n) == Last(s, n) + [v]
  {
  }

  lemma LastTurns<T>(s: seq<T>, v: T, n: nat)
    requires |Last(s, n)| == n > 0
    ensures Last(s + [v], n) == Last(s, n)[1..] + [v]
  {
  }

  lemma IsReversed<T>(s: seq<T>, r: seq<T>)
    requires |r| == |s| && forall i :: 0 <= i < |s| ==> r[|s| - 1 - i] == s[i]
    ensures r == Reverse(s)
  {
    forall i | 0 <= i < |s|
      ensures r[i] == Reverse(s)[i]
    {
      assert r[|s| - 1 - (|s| - 1 - i)] == s[|s| - 1 - i];
    }
  }

  lemma ReverseLast<T>(s: seq<T>, n: nat)
    ensures Reverse(Last(s, n)) == Take(Reverse(s), n)
  {
    if n <= |s| {
      var older := s[..|s| - n];
      assert s == older + Last(s, n);
      ReverseConcat(older, Last(s, n));
    }
  }

  /** The place of the x-th step around a ring, for x below two rounds. */
  function Slot(x: nat, n: nat): int {
    if x < n then x else x - n
  }

  lemma Wrap(x: nat, n: nat)
    requires x < 2 * n
    ensures x % n == Slot(x, n)
  {
    if n <= x {
      var y := x - n;
      assert x == n * 1 + y;
    }
  }

  method Around(x: nat, n: nat) returns (slot: nat)
    requires x < 2 * n
    ensures slot == Slot(x, n)
  {
    Wrap(x, n);
    slot := x % n;
  }

  /** From the place of the oldest on, around the ring, the ring holds the trades kept. */
  ghost predicate Holds(ring: seq<Trade>, head: nat, kept: seq<Trade>) {
    && |kept| <= |ring| && (head == 0 || (|kept| == |ring| && head < |ring|))
    && forall i :: 0 <= i < |kept| ==> ring[Slot(head + i, |ring|)] == kept[i]
  }

  lemma RingGrows(ring: seq<Trade>, kept: seq<Trade>, v: Trade)
    requires Holds(ring, 0, kept) && |kept| < |ring|
    ensures Holds(ring[|kept| := v], 0, kept + [v])
  {
  }

  lemma RingTurns(ring: seq<Trade>, head: nat, kept: seq<Trade>, v: Trade)
    requires Holds(ring, head, kept) && |kept| == |ring| > 0
    ensures Holds(ring[head := v], Slot(head + 1, |ring|), kept[1..] + [v])
  {
    var next, more := Slot(head + 1, |ring|), kept[1..] + [v];
    forall i | 0 <= i < |more|
      ensures ring[head := v][Slot(next + i, |ring|)] == more[i]
    {
      if i < |more| - 1 {
        assert Slot(next + i, |ring|) == Slot(head + (i + 1), |ring|) != head;
      } else {
        assert Slot(next + i, |ring|) == head;
      }
    }
  }

  /** The ring holds the newest of the trades pushed. */
  ghost predicate Keeps(ring: seq<Trade>, head: nat, count: nat, pushed: seq<Trade>) {
    count == |Last(pushed, |ring|)| && Holds(ring, head, Last(pushed, |ring|))
  }

  lemma KeepsGrows(ring: seq<Trade>, head: nat, count: nat, pushed: seq<Trade>, v: Trade)
    requires Keeps(ring, head, count, pushed) && count < |ring|
    ensures head == 0 && Keeps(ring[count := v], 0, count + 1, pushed + [v])
  {
    LastGrows(pushed, v, |ring|);
    RingGrows(ring, Last(pushed, |ring|), v);
  }

  lemma KeepsNothing(ring: seq<Trade>, head: nat, count: nat, pushed: seq<Trade>, v: Trade)
    requires Keeps(ring, head, count, pushed) && |ring| == 0
    ensures Keeps(ring, head, count, pushed + [v])
  {
  }

  lemma KeepsTurns(ring: seq<Trade>, head: nat, count: nat, pushed: seq<Trade>, v: Trade)
    requires Keeps(ring, head, count, pushed) && count == |ring| > 0
    ensures Keeps(ring[head := v], Slot(head + 1, |ring|), count, pushed + [v])
  {
    LastTurns(pushed, v, |ring|);
    RingTurns(ring, head, Last(pushed, |ring|), v);
  }

  /** A ring buffer that keeps the newest trades pushed into it. */
  class Tail {
    const buf: array<Trade>
    var count: nat
    /** The index of the oldest trade kept. */
    var head: nat
    ghost var pushed: seq<Trade>

    ghost predicate Valid()
      reads this, buf
    {
      Keeps(buf[..], head, count, pushed)
    }

    constructor (capacity: int)
      ensures Valid() && fresh(buf) && pushed == [] && buf.Length == Max(capacity, 0)
    {
      buf := new Trade[if capacity < 0 then 0 else capacity];
      count, head, pushed := 0, 0, [];
    }

    method Push(v: Trade)
      requires Valid()
      modifies this, buf
      ensures Valid() && pushed == old(pushed) + [v]
    {
      ghost var ring := buf[..];
      pushed := pushed + [v];
      if buf.Length == 0 {
        KeepsNothing(ring, head, count, old(pushed), v);
        return;
      }
      if count < buf.Length {
        KeepsGrows(ring, head, count, old(pushed), v);
        var slot := Around(head + count, buf.Length);
        buf[slot] := v;
        assert buf[..] == ring[count := v];
        count := count + 1;
      } else {
        KeepsTurns(ring, head, count, old(pushed), v);
        buf[head] := v;
        assert buf[..] == ring[head := v];
        head := Around(head + 1, buf.Length);
      }
    }

    method NewestFirst() returns (out: array<Trade>)
      requires Valid()
      ensures fresh(out) && out[..] == Take(Reverse(pushed), buf.Length)
    {
      ghost var ring, kept := buf[..], Last(pushed, buf.Length);
      out := new Trade[count];
      for i := 0 to count
        invariant forall j :: 0 <= j < i ==> out[count - 1 - j] == kept[j]
      {
        var slot := Around(head + i, buf.Length);
        assert buf[slot] == ring[slot] == kept[i];
        out[count - 1 - i] := buf[slot];
      }
      IsReversed(kept, out[..]);
      ReverseLast(pushed, buf.Length);
    }
  }

  // -------------------------------------------------------------------------------------------------
  // Reading trades

  /** The zero time stands for no bound. */
  function Bound(time: int): Option<int> {
    if time == ZERO_TIME then None else Some(time)
  }

  datatype ReadFilter = ReadFilter(locate: nat, from: int, to: int, limit: int)

  function Selected(f: ReadFilter): Trade -> bool {
    Matching(f.locate, Bound(f.from), Bound(f.to))
  }

  /** Streams one day-file, keeping its newest matching trades. */
  method ReadDayTail(file: seq<Trade>, locate: nat, from: int, to: int, keep: int) returns (tail: Tail)
    ensures fresh(tail) && fresh(tail.buf) && tail.Valid() && tail.buf.Length == Max(keep, 0)
    ensures tail.pushed == Filter(Matching(locate, Bound(from), Bound(to)), file)
  {
    var p := Matching(locate, Bound(from), Bound(to));
    tail := new Tail(keep);
    for n := 0 to |file|
      invariant fresh(tail) && fresh(tail.buf) && tail.Valid() && tail.pushed == Filter(p, file[..n])
    {
      var d := file[n];
      FilterStep(p, file, n);
      if d.locate != locate {
        continue;
      }
      if from != ZERO_TIME && d.time < from {
        continue;
      }
      if to != ZERO_TIME && d.time > to {
        continue;
      }
      tail.Push(d);
    }
    assert file[..|file|] == file;
  }

  /** The archived trades a filter selects, newest first. */
  ghost function NewestMatching(files: map<int, seq<Trade>>, p: Trade -> bool): seq<Trade> {
    Reverse(Filter(p, Cold(files)))
  }

  /** A day outside the days looked at has no trade between the bounds. */
  lemma UntouchedTrade(files: map<int, seq<Trade>>, from: int, to: int, locate: nat, d: int, t: Trade)
    requires DayFiles(files) && d in files && t in files[d] && (to == ZERO_TIME ==> InYears(files))
    ensures var lo, hi := if from == ZERO_TIME then YEAR_TWO else from, if to == ZERO_TIME then LAST_SECOND else to;
            d !in Touched(files.Keys, lo, hi) ==> !Matching(locate, Bound(from), Bound(to))(t)
  {
    var lo, hi := if from == ZERO_TIME then YEAR_TWO else from, if to == ZERO_TIME then LAST_SECOND else to;
    UnboundedDays();
    if lo <= t.time <= hi {
      DayMonotone(lo, t.time);
      DayMonotone(t.time, hi);
    }
  }

  lemma RangeBounds(files: map<int, seq<Trade>>, from: int, to: int, locate: nat)
    requires DayFiles(files) && (to == ZERO_TIME ==> InYears(files))
    ensures var lo, hi := if from == ZERO_TIME then YEAR_TWO else from, if to == ZERO_TIME then LAST_SECOND else to;
            Filter(Matching(locate, Bound(from), Bound(to)), Archived(files, InOrder(Touched(files.Keys, lo, hi)))) ==
            Filter(Matching(locate, Bound(from), Bound(to)), Cold(files))
  {
    var lo, hi := if from == ZERO_TIME then YEAR_TWO else from, if to == ZERO_TIME then LAST_SECOND else to;
    forall d, t | d in files.Keys - Touched(files.Keys, lo, hi) && t in files[d]
      ensures !Matching(locate, Bound(from), Bound(to))(t)
    {
      UntouchedTrade(files, from, to, locate, d, t);
    }
    SkippedDays(files, Touched(files.Keys, lo, hi), files.Keys, Matching(locate, Bound(from), Bound(to)));
  }

  /** One more, older, day in front of what has been read. */
  lemma OlderDay(files: map<int, seq<Trade>>, days: seq<int>, i: nat, p: Trade -> bool)
    requires (forall d :: d in days ==> d in files) && i < |days|
    ensures days[i] in files
    ensures Filter(p, Archived(files, days[i..])) ==
            Filter(p, files[days[i]]) + Filter(p, Archived(files, days[i + 1..]))
  {
    assert days[i] in days;
    assert days[i..] == [days[i]] + days[i + 1..];
    ArchivedConcat(files, [days[i]], days[i + 1..]);
    assert [days[i]][..0] == [];
    assert [] + files[days[i]] == files[days[i]];
    FilterConcat(p, files[days[i]], Archived(files, days[i + 1..]));
  }

  /** The page of trades read from some days' files. */
  function Page(files: map<int, seq<Trade>>, days: seq<int>, f: ReadFilter, limit: nat): seq<Trade>
    requires forall d :: d in days ==> d in files
  {
    Take(Reverse(Filter(Selected(f), Archived(files, days))), limit)
  }

  lemma TakeReverseConcat(older: seq<Trade>, newer: seq<Trade>, limit: nat)
    ensures Take(Reverse(older + newer), limit) ==
            Take(Reverse(newer), limit) + Take(Reverse(older), limit - |Take(Reverse(newer), limit)|)
  {
    ReverseConcat(older, newer);
    TakeConcat(Reverse(newer), Reverse(older), limit);
  }

  lemma OlderPage(files: map<int, seq<Trade>>, days: seq<int>, i: nat, f: ReadFilter, limit: nat)
    requires (forall d :: d in days ==> d in files) && i < |days|
    ensures var page := Page(files, days[i + 1..], f, limit);
            days[i] in files && Page(files, days[i..], f, limit) ==
            page + Take(Reverse(Filter(Selected(f), files[days[i]])), limit - |page|)
  {
    OlderDay(files, days, i, Selected(f));
    TakeReverseConcat(Filter(Selected(f), files[days[i]]), Filter(Selected(f), Archived(files, days[i + 1..])), limit);
  }

  /** A full page stays as it is, however many older days there are. */
  lemma FullPage(files: map<int, seq<Trade>>, days: seq<int>, i: nat, f: ReadFilter, limit: nat)
    requires (forall d :: d in days ==> d in files) && i <= |days| && |Page(files, days[i..], f, limit)| == limit
    ensures Page(files, days, f, limit) == Page(files, days[i..], f, limit)
  {
    assert days == days[..i] + days[i..];
    ArchivedConcat(files, days[..i], days[i..]);
    FilterConcat(Selected(f), Archived(files, days[..i]), Archived(files, days[i..]));
    TakeReverseConcat(Filter(Selected(f), Archived(files, days[..i])),
                      Filter(Selected(f), Archived(files, days[i..])), limit);
  }

  /** Streams day-files from the newest on, until the limit is reached. */
  method ReadDays(files: map<int, seq<Trade>>, days: seq<int>, f: ReadFilter, limit: nat) returns (result: seq<Trade>)
    requires forall d :: d in days ==> d in files
    ensures result == Page(files, days, f, limit)
  {
    result := [];
    var remaining := limit;
    var i := |days|;
    while i > 0 && remaining > 0
      invariant 0 <= i <= |days|
      invariant result == Page(files, days[i..], f, limit)
      invariant remaining == limit - |result|
    {
      i := i - 1;
      OlderPage(files, days, i, f, limit);
      var tail := ReadDayTail(files[days[i]], f.locate, f.from, f.to, remaining);
      var dayTrades := tail.NewestFirst();
      result := result + dayTrades[..];
      remaining := remaining - dayTrades.Length;
    }
    if i > 0 {
      FullPage(files, days, i, f, limit);
    } else {
      assert days[0..] == days;
    }
  }

  /** The newest archived trades a filter selects, at most limit. */
  method Read(files: map<int, seq<Trade>>, f: ReadFilter) returns (result: seq<Trade>)
    requires DayFiles(files) && (f.to == ZERO_TIME ==> InYears(files))
    ensures result == Take(NewestMatching(files, Matching(f.locate, Bound(f.from), Bound(f.to))), ClampLimit(f.limit))
  {
    var limit := ClampLimit(f.limit);
    var lo, hi := if f.from == ZERO_TIME then YEAR_TWO else f.from, if f.to == ZERO_TIME then LAST_SECOND else f.to;
    var days := Resolve(files, lo, hi);
    RangeBounds(files, f.from, f.to, f.locate);
    result := ReadDays(files, days, f, limit);
  }
}
