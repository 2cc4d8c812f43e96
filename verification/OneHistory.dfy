// Candle queries over a live table and an archive are one group-by over all trades ever inserted.
module OneHistory {
  import opened Trades
  import opened Catalog
  import opened History
  import opened ArchiveProtocol

  // -------------------------------------------------------------------------------------------------
  // What the two stores hold

  lemma NoLiveDayBefore(live: seq<Trade>, files: map<int, seq<Trade>>, all: seq<Trade>, j: nat)
    requires Filed(all, live, files) && files != map[] && j < |live|
    ensures Latest(files.Keys) <= DayOf(live[j].time)
  {
    assert LiveFrom(live, Latest(files.Keys));
  }

  /** A trade no newer than the newest archived day is in its day's file. */
  lemma OldDayIsFiled(all: seq<Trade>, live: seq<Trade>, files: map<int, seq<Trade>>, t: Trade)
    requires Sound(all, live, files) && files != map[] && t in all
    ensures DayOf(t.time) <= Latest(files.Keys) ==> DayOf(t.time) in files
  {
    var i :| 0 <= i < |all| && all[i] == t;
    var g := Gone(all, live);
    if i >= g {
      assert live[i - g] == t;
      NoLiveDayBefore(live, files, all, i - g);
    }
  }

  lemma SoundDayFiles(all: seq<Trade>, live: seq<Trade>, files: map<int, seq<Trade>>)
    requires Sound(all, live, files)
    ensures DayFiles(files)
  {
    forall d | d in files
      ensures Ascending(files[d]) && forall t :: t in files[d] ==> DayOf(t.time) == d
    {
      FilterAscending(OnDay(d), all);
      forall t | t in files[d]
        ensures DayOf(t.time) == d
      {
        InFilter(OnDay(d), all, t);
      }
    }
  }

  ghost function DaysBelow(files: map<int, seq<Trade>>, m: int): set<int> {
    set d | d in files && d < m
  }

  lemma DayStart(time: int, day: int)
    ensures time < day * DAY <==> DayOf(time) < day
  {
  }

  lemma NoDaysBelow(all: seq<Trade>, live: seq<Trade>, files: map<int, seq<Trade>>, m: int)
    requires Sound(all, live, files) && files != map[] && m <= Latest(files.Keys) + 1
    requires DaysBelow(files, m) == {}
    ensures Filter(Before(m * DAY), all) == []
  {
    forall t | t in all
      ensures m * DAY <= t.time
    {
      DayStart(t.time, m);
      OldDayIsFiled(all, live, files, t);
      assert DayOf(t.time) !in DaysBelow(files, m);
    }
    FilterNone(Before(m * DAY), all);
  }

  lemma NewestDayBelow(all: seq<Trade>, live: seq<Trade>, files: map<int, seq<Trade>>, m: int, d: int)
    requires Sound(all, live, files) && files != map[] && m <= Latest(files.Keys) + 1
    requires d in DaysBelow(files, m) && forall e :: e in DaysBelow(files, m) ==> e <= d
    ensures Filter(Before(m * DAY), all) == Filter(Before(d * DAY), all) + files[d]
  {
    var x := Filter(Before(m * DAY), all);
    FilterAscending(Before(m * DAY), all);
    SplitAt(x, d * DAY);
    forall t | t in all
      ensures Before(d * DAY)(t) == (Before(d * DAY)(t) && Before(m * DAY)(t))
      ensures OnDay(d)(t) == (Since(d * DAY)(t) && Before(m * DAY)(t))
    {
      DayStart(t.time, d);
      DayStart(t.time, m);
      if d <= DayOf(t.time) < m {
        OldDayIsFiled(all, live, files, t);
        assert DayOf(t.time) in DaysBelow(files, m);
      }
    }
    FilterBoth(Before(d * DAY), Before(m * DAY), Before(d * DAY), all);
    FilterBoth(Since(d * DAY), Before(m * DAY), OnDay(d), all);
  }

  lemma FewerDaysBelow(files: map<int, seq<Trade>>, m: int)
    requires DaysBelow(files, m) != {}
    ensures DaysBelow(files, Latest(DaysBelow(files, m))) == DaysBelow(files, m) - {Latest(DaysBelow(files, m))}
  {
  }

  lemma ArchivedWithLatest(files: map<int, seq<Trade>>, days: set<int>)
    requires days <= files.Keys && days != {}
    ensures Archived(files, InOrder(days)) ==
            Archived(files, InOrder(days - {Latest(days)})) + files[Latest(days)]
  {
    var older := InOrder(days - {Latest(days)});
    assert InOrder(days)[..|older|] == older;
  }

  /** The files of the days before a day hold exactly the trades before that day. */
  lemma {:induction false} ArchivedBelow(all: seq<Trade>, live: seq<Trade>, files: map<int, seq<Trade>>, m: int)
    requires Sound(all, live, files) && files != map[] && m <= Latest(files.Keys) + 1
    ensures Archived(files, InOrder(DaysBelow(files, m))) == Filter(Before(m * DAY), all)
    decreases |DaysBelow(files, m)|
  {
    var days := DaysBelow(files, m);
    if days == {} {
      NoDaysBelow(all, live, files, m);
    } else {
      var d := Latest(days);
      FewerDaysBelow(files, m);
      ArchivedBelow(all, live, files, d);
      NewestDayBelow(all, live, files, m, d);
      ArchivedWithLatest(files, days);
    }
  }

  lemma AllDaysBelow(files: map<int, seq<Trade>>)
    requires files != map[]
    ensures DaysBelow(files, Latest(files.Keys) + 1) == files.Keys
  {
  }

  /** The archive is history before the split. */
  lemma ColdIsOld(all: seq<Trade>, live: seq<Trade>, files: map<int, seq<Trade>>)
    requires Sound(all, live, files) && files != map[]
    ensures Cold(files) == Filter(Before(Split(files)), all)
  {
    var m := Latest(files.Keys) + 1;
    AllDaysBelow(files);
    ArchivedBelow(all, live, files, m);
    var days := DaysBelow(files, m);
    assert days == files.Keys;
    assert Split(files) == m * DAY;
  }

  lemma NoFiles(files: map<int, seq<Trade>>)
    ensures files == map[] ==> Cold(files) == []
  {
    assert files == map[] ==> files.Keys == {};
  }

  /** An archived trade is in its day's file. */
  lemma ColdIsFiled(all: seq<Trade>, store: Store, u: Trade)
    requires Sound(all, store.live, store.files) && u in Cold(store.files)
    ensures u in all && DayOf(u.time) in store.files && u in store.files[DayOf(u.time)]
  {
    NoFiles(store.files);
    ColdIsOld(all, store.live, store.files);
    InFilter(Before(Split(store.files)), all, u);
    DayStart(u.time, Latest(store.files.Keys) + 1);
    OldDayIsFiled(all, store.live, store.files, u);
    InFilter(OnDay(DayOf(u.time)), all, u);
  }

  /** From the split on, all of history is live. */
  lemma LiveIsNew(all: seq<Trade>, live: seq<Trade>, files: map<int, seq<Trade>>)
    requires Sound(all, live, files) && files != map[]
    ensures Filter(Since(Split(files)), live) == Filter(Since(Split(files)), all)
  {
    var g, split := Gone(all, live), Split(files);
    assert all == all[..g] + live;
    forall t | t in all[..g]
      ensures t.time < split
    {
      var i :| 0 <= i < g && all[i] == t;
      DayStart(t.time, Latest(files.Keys) + 1);
    }
    FilterNone(Since(split), all[..g]);
    FilterConcat(Since(split), all[..g], live);
    assert [] + Filter(Since(split), live) == Filter(Since(split), live);
  }

  /** The store of one archived trade. */
  lemma OneDayStore(t: Trade)
    ensures var files := map[DayOf(t.time) := [t]];
            Cold(files) == [t] && Split(files) == (DayOf(t.time) + 1) * DAY && Sound([t], [], files)
  {
    var d := DayOf(t.time);
    var files := map[d := [t]];
    assert files.Keys == {d};
    OneDay(d);
    assert [d][..0] == [];
    assert Archived(files, [d]) == Archived(files, []) + [t] == [t];
    FilterOne(OnDay(d), t);
    DayStart(t.time, d + 1);
  }
}
