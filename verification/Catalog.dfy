// The catalog of archived day-files: internal/archive/catalog.go.
module Catalog {
  import opened Sequences
  import opened Trades

  /** The zero time, 1 January of the year 1, which the reader takes for a missing bound. */
  const ZERO_TIME: int := -62_135_596_800_000_000_000
  /** One year later: the reader's lower bound when there is none. */
  const YEAR_TWO: int := -62_104_060_800_000_000_000
  /** 31 December 9999, 23:59:59: the reader's upper bound when there is none. */
  const LAST_SECOND: int := 253_402_300_799_000_000_000

  lemma UnboundedDays()
    ensures DayOf(YEAR_TWO) < 0 && YEAR_TWO < 0 < LAST_SECOND
  {
  }

  function Earlier(): (int, int) -> bool {
    (a: int, b: int) => a < b
  }

  ghost function Latest(days: set<int>): (latest: int)
    requires days != {}
    ensures latest in days && forall d :: d in days ==> d <= latest
  {
    EmptyOrNot(days);
    var d :| d in days;
    if days == {d} then d
    else
      assert days == (days - {d}) + {d};
      Max(d, Latest(days - {d}))
  }

  /** A set of days in ascending order. */
  ghost function InOrder(days: set<int>): (s: seq<int>)
    ensures Sorted(Earlier(), s) && forall d :: d in s <==> d in days
    decreases |days|
  {
    if days == {} then [] else InOrder(days - {Latest(days)}) + [Latest(days)]
  }

  /** Every archived day, in ascending order. The directory is walked in an order of its own, then sorted. */
  method Days(files: map<int, seq<Trade>>) returns (days: seq<int>)
    ensures days == InOrder(files.Keys)
  {
    days := [];
    var left := files.Keys;
    while left != {}
      invariant left <= files.Keys && Sorted(Earlier(), days)
      invariant forall d :: d in days <==> d in files && d !in left
      decreases |left|
    {
      EmptyOrNot(left);
      var d :| d in left;
      days := InsertSorted(Earlier(), days, d);
      left := left - {d};
    }
    SortedIsUnique(Earlier(), days, InOrder(files.Keys));
  }

  /** The first and the last archived day. */
  method Bounds(files: map<int, seq<Trade>>) returns (r: Option<(int, int)>)
    ensures r.None? <==> files == map[]
    ensures r.Some? ==> && r.value.0 in files && r.value.1 in files
                        && forall d :: d in files ==> r.value.0 <= d <= r.value.1
  {
    var days := Days(files);
    if days == [] {
      assert files.Keys == {} by {
        assert forall d :: d in files.Keys ==> d in days;
      }
      return None;
    }
    assert days[0] in days && days[|days| - 1] in days;
    forall d | d in files
      ensures days[0] <= d <= days[|days| - 1]
    {
      var i :| 0 <= i < |days| && days[i] == d;
      assert 0 < i ==> Earlier()(days[0], days[i]);
      assert i < |days| - 1 ==> Earlier()(days[i], days[|days| - 1]);
    }
    r := Some((days[0], days[|days| - 1]));
  }

  /** The archived days that a range of instants touches. */
  ghost function Touched(days: set<int>, from: int, to: int): set<int> {
    if from > to then {} else set d | d in days && DayOf(from) <= d <= DayOf(to)
  }

  /** The listed days between two days. */
  method Between(days: seq<int>, lo: int, hi: int) returns (out: seq<int>)
    requires Sorted(Earlier(), days)
    ensures Sorted(Earlier(), out) && forall d :: d in out <==> d in days && lo <= d <= hi
  {
    out := [];
    for i := 0 to |days|
      invariant Sorted(Earlier(), out)
      invariant forall d :: d in out <==> d in days[..i] && lo <= d <= hi
    {
      assert days[..i + 1] == days[..i] + [days[i]];
      if lo <= days[i] <= hi {
        forall j | 0 <= j < |out|
          ensures out[j] < days[i]
        {
          assert out[j] in out;
          var k :| 0 <= k < i && days[k] == out[j];
          assert Earlier()(days[k], days[i]);
        }
        out := out + [days[i]];
      }
    }
    assert days[..|days|] == days;
  }

  method Resolve(files: map<int, seq<Trade>>, from: int, to: int) returns (out: seq<int>)
    ensures out == InOrder(Touched(files.Keys, from, to))
  {
    if from > to {
      return [];
    }
    var days := Days(files);
    out := Between(days, DayOf(from), DayOf(to));
    forall d
      ensures d in out <==> d in InOrder(Touched(files.Keys, from, to))
    {
      assert d in days <==> d in files.Keys;
    }
    SortedIsUnique(Earlier(), out, InOrder(Touched(files.Keys, from, to)));
  }

  // -------------------------------------------------------------------------------------------------
  // What day-files hold

  /** Every day-file holds only trades of its day, in the order of time. */
  ghost predicate DayFiles(files: map<int, seq<Trade>>) {
    forall d :: d in files ==> Ascending(files[d]) && forall t :: t in files[d] ==> DayOf(t.time) == d
  }

  /** No trade is later than the reader looks when it has no upper bound. */
  ghost predicate InYears(files: map<int, seq<Trade>>) {
    forall d, t :: d in files && t in files[d] ==> t.time <= LAST_SECOND
  }

  /** The trades of some days' files, one file after the other. */
  function Archived(files: map<int, seq<Trade>>, days: seq<int>): seq<Trade>
    requires forall d :: d in days ==> d in files
  {
    if days == [] then []
    else
      var last := days[|days| - 1];
      assert last in days;
      Archived(files, days[..|days| - 1]) + files[last]
  }

  lemma {:induction false} ArchivedConcat(files: map<int, seq<Trade>>, a: seq<int>, b: seq<int>)
    requires forall d :: d in a + b ==> d in files
    ensures Archived(files, a + b) == Archived(files, a) + Archived(files, b)
    decreases |b|
  {
    if b == [] {
      assert a + b == a;
    } else {
      var init, d := b[..|b| - 1], b[|b| - 1];
      assert a + b == (a + init) + [d];
      assert d in a + b;
      ArchivedConcat(files, a, init);
      ConcatAssociates(Archived(files, a), Archived(files, init), files[d]);
    }
  }

  /** All archived trades, oldest day first. */
  ghost function Cold(files: map<int, seq<Trade>>): seq<Trade> {
    Archived(files, InOrder(files.Keys))
  }

  lemma LatestIsUnique(days: set<int>, d: int)
    requires d in days && forall e :: e in days ==> e <= d
    ensures Latest(days) == d
  {
  }

  lemma ArchivedLatest(files: map<int, seq<Trade>>, days: set<int>, m: int, p: Trade -> bool)
    requires days <= files.Keys && days != {} && m == Latest(days)
    ensures Filter(p, Archived(files, InOrder(days))) ==
            Filter(p, Archived(files, InOrder(days - {m}))) + Filter(p, files[m])
  {
    var older := InOrder(days - {m});
    assert InOrder(days)[..|older|] == older;
    FilterConcat(p, Archived(files, older), files[m]);
  }

  /** Days without matching trades can be skipped. */
  lemma {:induction false} SkippedDays(files: map<int, seq<Trade>>, some: set<int>, days: set<int>, p: Trade -> bool)
    requires some <= days <= files.Keys
    requires forall d, t :: d in days - some && t in files[d] ==> !p(t)
    ensures Filter(p, Archived(files, InOrder(some))) == Filter(p, Archived(files, InOrder(days)))
    decreases |days|
  {
    if days != {} {
      var m := Latest(days);
      var rest := days - {m};
      ArchivedLatest(files, days, m, p);
      if m in some {
        LatestIsUnique(some, m);
        ArchivedLatest(files, some, m, p);
        SkippedDays(files, some - {m}, rest, p);
      } else {
        SkippedDays(files, some, rest, p);
        FilterNone(p, files[m]);
      }
    }
  }

  lemma OneDay(d: int)
    ensures Latest({d}) == d && InOrder({d}) == [d]
  {
    assert {d} - {d} == {};
  }
}
