// Trade queries over the live table and the archive: internal/archive/history.go, QueryTrades.
module TradeHistory {
  import opened Sequences
  import opened Trades
  import opened Queries
  import opened Catalog
  import opened Reader
  import opened History
  import opened ArchiveProtocol
  import opened OneHistory

  function Wanted(f: TradeFilter): Trade -> bool {
    Matching(f.locate, f.from, f.to)
  }

  /** What a query can see, newest first: the live trades since the cutoff, then the archived ones before it. */
  ghost function Served(store: Store, f: TradeFilter, cutoff: int): seq<Trade> {
    Reverse(Filter(Wanted(f), Filter(Since(cutoff), store.live))) +
    Reverse(Filter(Wanted(f), Filter(Before(cutoff), Cold(store.files))))
  }

  /** How many trades are gathered for a page: the row clamp bounds the offset and the page together. */
  function Need(f: TradeFilter): nat {
    Min(Max(f.offset, 0) + ClampLimit(f.limit), MAX_LIMIT)
  }

  /** One page of what is served. */
  ghost function ServedPage(store: Store, f: TradeFilter, cutoff: int): seq<Trade> {
    Drop(Take(Served(store, f, cutoff), Need(f)), Max(f.offset, 0))
  }

  // -------------------------------------------------------------------------------------------------
  // The query

  lemma SinceRows(f: TradeFilter, cutoff: int, live: seq<Trade>, from: int)
    requires from == if f.from.Some? && f.from.value > cutoff then f.from.value else cutoff
    ensures Filter(Matching(f.locate, Some(from), f.to), live) == Filter(Wanted(f), Filter(Since(cutoff), live))
  {
    FilterBoth(Wanted(f), Since(cutoff), Matching(f.locate, Some(from), f.to), live);
  }

  lemma BeforeRows(f: TradeFilter, cutoff: int, cold: seq<Trade>)
    requires ColdTo(f.to, cutoff) != ZERO_TIME
    ensures Filter(ColdWanted(f, cutoff), cold) == Filter(Wanted(f), Filter(Before(cutoff), cold))
  {
    FilterBoth(Wanted(f), Before(cutoff), ColdWanted(f, cutoff), cold);
  }

  lemma NoneWanted(f: TradeFilter, cutoff: int, ts: seq<Trade>)
    ensures f.to.Some? && f.to.value < cutoff ==> Filter(Wanted(f), Filter(Since(cutoff), ts)) == []
    ensures f.from.Some? && cutoff <= f.from.value ==> Filter(Wanted(f), Filter(Before(cutoff), ts)) == []
  {
    FilteredSatisfy(Since(cutoff), ts);
    FilteredSatisfy(Before(cutoff), ts);
    if f.to.Some? && f.to.value < cutoff {
      FilterNone(Wanted(f), Filter(Since(cutoff), ts));
    }
    if f.from.Some? && cutoff <= f.from.value {
      FilterNone(Wanted(f), Filter(Before(cutoff), ts));
    }
  }

  method QueryLiveTrades(live: seq<Trade>, f: TradeFilter, cutoff: int, need: nat) returns (hot: seq<Trade>)
    requires 1 <= need <= MAX_LIMIT
    ensures hot == Take(Reverse(Filter(Wanted(f), Filter(Since(cutoff), live))), need)
  {
    hot := [];
    NoneWanted(f, cutoff, live);
    if f.to.None? || f.to.value >= cutoff {
      var liveFrom := cutoff;
      if f.from.Some? && f.from.value > cutoff {
        liveFrom := f.from.value;
      }
      SinceRows(f, cutoff, live, liveFrom);
      var r := LiveTrades(live, TradeFilter(f.locate, need, 0, Some(liveFrom), f.to));
      hot := r.value;
    }
  }

  /** What the archive is asked for. */
  function ColdWanted(f: TradeFilter, cutoff: int): Trade -> bool {
    Matching(f.locate, Bound(OrZero(f.from)), Bound(ColdTo(f.to, cutoff)))
  }

  /** The archive's part of an answer, newest first. */
  ghost function ColdTrades(files: map<int, seq<Trade>>, f: TradeFilter, cutoff: int): seq<Trade> {
    if f.from.None? || f.from.value < cutoff then Reverse(Filter(ColdWanted(f, cutoff), Cold(files))) else []
  }

  /** What the pages of a query are cut from. */
  ghost function Answered(store: Store, f: TradeFilter, cutoff: int): seq<Trade> {
    Reverse(Filter(Wanted(f), Filter(Since(cutoff), store.live))) + ColdTrades(store.files, f, cutoff)
  }

  ghost function AnswerPage(store: Store, f: TradeFilter, cutoff: int): seq<Trade> {
    Drop(Take(Answered(store, f, cutoff), Need(f)), Max(f.offset, 0))
  }

  /** Unless the archive's upper bound is the zero time, the answer is what should be served. */
  lemma AnsweredIsServed(store: Store, f: TradeFilter, cutoff: int)
    requires ColdTo(f.to, cutoff) != ZERO_TIME
    ensures Answered(store, f, cutoff) == Served(store, f, cutoff)
  {
    BeforeRows(f, cutoff, Cold(store.files));
    NoneWanted(f, cutoff, Cold(store.files));
  }

  method QueryArchivedTrades(files: map<int, seq<Trade>>, f: TradeFilter, cutoff: int, room: nat)
      returns (cold: seq<Trade>)
    requires DayFiles(files) && (ColdTo(f.to, cutoff) == ZERO_TIME ==> InYears(files)) && room <= MAX_LIMIT
    ensures cold == Take(ColdTrades(files, f, cutoff), room)
  {
    cold := [];
    if 0 < room && (f.from.None? || f.from.value < cutoff) {
      var archiveTo := cutoff - 1;
      if f.to.Some? && f.to.value < archiveTo {
        archiveTo := f.to.value;
      }
      var archiveFrom := ZERO_TIME;
      if f.from.Some? {
        archiveFrom := f.from.value;
      }
      assert archiveFrom == OrZero(f.from) && archiveTo == ColdTo(f.to, cutoff);
      cold := Read(files, ReadFilter(f.locate, archiveFrom, archiveTo, room));
    }
  }

  /** How many of some trades a page shows: as many as asked for, or 100 when no number is, out of the first 1000
      and behind the offset. */
  function PageSize(limit: int, offset: int, available: nat): int {
    var asked := if limit <= 0 then 100 else limit;
    Max(0, Min(asked, Min(1000, available) - Max(offset, 0)))
  }

  lemma AnswerSize(store: Store, f: TradeFilter, cutoff: int)
    ensures |AnswerPage(store, f, cutoff)| == PageSize(f.limit, f.offset, |Answered(store, f, cutoff)|)
  {
  }

  /** A page of trades, live ones first. The archive is read only when there is room left. */
  method QueryTrades(store: Store, c: Config, f: TradeFilter, now: nat) returns (r: Result<seq<Trade>>)
    requires DayFiles(store.files)
    requires ColdTo(f.to, now - c.retentionDays * DAY) == ZERO_TIME ==> InYears(store.files)
    ensures !ArchiveActive(c) ==> r == LiveTrades(store.live, f)
    ensures ArchiveActive(c) ==> r == Ok(AnswerPage(store, f, now - c.retentionDays * DAY))
    ensures c.archiving && c.retentionDays > 0 ==>
              r.Ok? && |r.value| == PageSize(f.limit, f.offset, |Answered(store, f, now - c.retentionDays * DAY)|)
    ensures !c.archiving || c.retentionDays <= 0 ==> r == LiveTrades(store.live, f)
  {
    if !ArchiveActive(c) {
      return LiveTrades(store.live, f);
    }
    var cutoff := now - c.retentionDays * DAY;
    AnswerSize(store, f, cutoff);
    var page := QueryBothStores(store, f, cutoff);
    r := Ok(page);
  }

  /** A page from both stores. */
  method QueryBothStores(store: Store, f: TradeFilter, cutoff: int) returns (page: seq<Trade>)
    requires DayFiles(store.files) && (ColdTo(f.to, cutoff) == ZERO_TIME ==> InYears(store.files))
    ensures page == AnswerPage(store, f, cutoff)
  {
    var limit := ClampLimit(f.limit);
    var offset := f.offset;
    if offset < 0 {
      offset := 0;
    }
    var need := offset + limit;
    if need > MAX_LIMIT {
      need := MAX_LIMIT;
    }
    var combined := Gather(store, f, cutoff, need);
    assert need == Need(f);
    page := Window(combined, offset, limit);
  }

  /** The page behind an offset. */
  method Window<T>(combined: seq<T>, offset: nat, limit: nat) returns (page: seq<T>)
    requires |combined| <= offset + limit
    ensures page == Drop(combined, offset)
  {
    if offset >= |combined| {
      return [];
    }
    var end := offset + limit;
    if end > |combined| {
      end := |combined|;
    }
    page := combined[offset..end];
  }

  /** The newest trades of both stores, enough for the page. */
  method Gather(store: Store, f: TradeFilter, cutoff: int, need: nat) returns (combined: seq<Trade>)
    requires DayFiles(store.files) && (ColdTo(f.to, cutoff) == ZERO_TIME ==> InYears(store.files))
    requires 1 <= need <= MAX_LIMIT
    ensures |combined| <= need
    ensures combined == Take(Answered(store, f, cutoff), need)
  {
    combined := QueryLiveTrades(store.live, f, cutoff, need);
    var cold := QueryArchivedTrades(store.files, f, cutoff, need - |combined|);
    TakeConcat(Reverse(Filter(Wanted(f), Filter(Since(cutoff), store.live))), ColdTrades(store.files, f, cutoff), need);
    combined := combined + cold;
  }

  // -------------------------------------------------------------------------------------------------
  // The zero time as the archive's upper bound

  /** Whether the archive takes its upper bound for a missing one, with a lower bound that day files can reach. */
  predicate Misreads(f: TradeFilter, cutoff: int) {
    ColdTo(f.to, cutoff) == ZERO_TIME && (f.from.None? || (f.from.value < cutoff && f.from.value <= LAST_SECOND))
  }

  lemma FiledTrades(all: seq<Trade>, store: Store)
    requires Sound(all, store.live, store.files) && InYears(store.files)
    ensures forall t :: t in Cold(store.files) ==> 0 <= t.time <= LAST_SECOND
  {
    forall t | t in Cold(store.files)
      ensures t.time <= LAST_SECOND
    {
      ColdIsFiled(all, store, t);
    }
  }

  lemma ZeroTimeIsEarly(f: TradeFilter, cutoff: int, t: Trade)
    requires ColdTo(f.to, cutoff) == ZERO_TIME
    ensures !(Wanted(f)(t) && Before(cutoff)(t))
  {
  }

  lemma NotMisread(all: seq<Trade>, store: Store, f: TradeFilter, cutoff: int)
    requires Sound(all, store.live, store.files) && InYears(store.files)
    requires ColdTo(f.to, cutoff) == ZERO_TIME && !Misreads(f, cutoff)
    ensures Answered(store, f, cutoff) == Served(store, f, cutoff)
  {
    var cold := Cold(store.files);
    FiledTrades(all, store);
    forall t | t in cold
      ensures !(Wanted(f)(t) && Before(cutoff)(t))
    {
      ZeroTimeIsEarly(f, cutoff, t);
    }
    EmptyFilters(Wanted(f), Before(cutoff), cold);
    if f.from.Some? && f.from.value < cutoff {
      FilterNone(ColdWanted(f, cutoff), cold);
    }
  }

  /** A trade that day files can have, past a query's lower bound. */
  function MisreadTrade(f: TradeFilter): Trade {
    Trade(0, f.locate, "", 0, 0, 'B', if f.from.Some? && f.from.value > 0 then f.from.value else 0)
  }

  lemma MisreadIsServed(f: TradeFilter, cutoff: int)
    requires Misreads(f, cutoff)
    ensures var t := MisreadTrade(f);
            var store := Store([], map[DayOf(t.time) := [t]]);
            && Sound([t], store.live, store.files) && InYears(store.files)
            && Answered(store, f, cutoff) == [t] && Served(store, f, cutoff) == []
  {
    var t := MisreadTrade(f);
    var store := Store([], map[DayOf(t.time) := [t]]);
    OneDayStore(t);
    assert ColdWanted(f, cutoff)(t);
    FilterOne(ColdWanted(f, cutoff), t);
    ZeroTimeIsEarly(f, cutoff, t);
    EmptyFilters(Wanted(f), Before(cutoff), [t]);
  }

  /** What a query is answered from is what should be served, on every sound pair of stores, exactly if the query
      does not make the archive take its upper bound for a missing one. */
  lemma ZeroTimeCondition(f: TradeFilter, cutoff: int)
    ensures !Misreads(f, cutoff) <==>
            forall all: seq<Trade>, store: Store :: Sound(all, store.live, store.files) && InYears(store.files) ==>
              Answered(store, f, cutoff) == Served(store, f, cutoff)
  {
    if Misreads(f, cutoff) {
      MisreadIsServed(f, cutoff);
    } else {
      forall all: seq<Trade>, store: Store | Sound(all, store.live, store.files) && InYears(store.files)
        ensures Answered(store, f, cutoff) == Served(store, f, cutoff)
      {
        if ColdTo(f.to, cutoff) == ZERO_TIME {
          NotMisread(all, store, f, cutoff);
        } else {
          AnsweredIsServed(store, f, cutoff);
        }
      }
    }
  }

  // -------------------------------------------------------------------------------------------------
  // When a page is a page of all of history

  /** Every wanted trade since the cutoff is live, and every earlier one is archived. */
  ghost predicate NoGap(all: seq<Trade>, store: Store, f: TradeFilter, cutoff: int) {
    forall t :: t in all && Wanted(f)(t) ==>
      if cutoff <= t.time then t in store.live else DayOf(t.time) in store.files
  }

  /** Wanted trades since the cutoff that have left the live table. */
  ghost function GoneTooSoon(all: seq<Trade>, store: Store, f: TradeFilter, cutoff: int): seq<Trade>
    requires |store.live| <= |all|
  {
    Filter(Wanted(f), Filter(Since(cutoff), all[..Gone(all, store.live)]))
  }

  /** The days of history that are not archived. */
  ghost function Unfiled(all: seq<Trade>, files: map<int, seq<Trade>>): seq<Trade> {
    if files == map[] then all else Filter(Since(Split(files)), all)
  }

  /** Wanted trades before the cutoff that are not archived yet. */
  ghost function NotYetFiled(all: seq<Trade>, store: Store, f: TradeFilter, cutoff: int): seq<Trade> {
    Filter(Wanted(f), Filter(Before(cutoff), Unfiled(all, store.files)))
  }

  lemma RecentHistory(all: seq<Trade>, store: Store, f: TradeFilter, cutoff: int)
    requires Sound(all, store.live, store.files)
    ensures Filter(Wanted(f), Filter(Since(cutoff), all)) ==
            GoneTooSoon(all, store, f, cutoff) + Filter(Wanted(f), Filter(Since(cutoff), store.live))
  {
    var gone := all[..Gone(all, store.live)];
    assert all == gone + store.live;
    FilterConcat(Since(cutoff), gone, store.live);
    FilterConcat(Wanted(f), Filter(Since(cutoff), gone), Filter(Since(cutoff), store.live));
  }

  lemma FiledAndUnfiled(all: seq<Trade>, live: seq<Trade>, files: map<int, seq<Trade>>)
    requires Sound(all, live, files)
    ensures all == Cold(files) + Unfiled(all, files)
  {
    if files != map[] {
      ColdIsOld(all, live, files);
      SplitAt(all, Split(files));
    } else {
      assert files.Keys == {};
      assert Cold(files) == [];
    }
  }

  lemma EarlierHistory(all: seq<Trade>, store: Store, f: TradeFilter, cutoff: int)
    requires Sound(all, store.live, store.files)
    ensures Filter(Wanted(f), Filter(Before(cutoff), all)) ==
            Filter(Wanted(f), Filter(Before(cutoff), Cold(store.files))) + NotYetFiled(all, store, f, cutoff)
  {
    var cold, unfiled := Cold(store.files), Unfiled(all, store.files);
    FiledAndUnfiled(all, store.live, store.files);
    FilterConcat(Before(cutoff), cold, unfiled);
    FilterConcat(Wanted(f), Filter(Before(cutoff), cold), Filter(Before(cutoff), unfiled));
  }

  /** Four parts of a reversed history, of which the middle two are served. */
  lemma ReversedParts(a: seq<Trade>, b: seq<Trade>, c: seq<Trade>, d: seq<Trade>)
    ensures Reverse((a + b) + (c + d)) == Reverse(d) + Reverse(c) + Reverse(b) + Reverse(a)
    ensures Reverse((a + b) + (c + d)) == Reverse(d) + Reverse(a) <==> b == [] && c == []
  {
    ReverseConcat(a + b, c + d);
    ReverseConcat(a, b);
    ReverseConcat(c, d);
    if b == [] && c == [] {
      assert Reverse(d) + Reverse(c) + Reverse(b) + Reverse(a) == Reverse(d) + Reverse(a);
    }
  }

  lemma ServedIsHistoryIff(all: seq<Trade>, store: Store, f: TradeFilter, cutoff: int)
    requires Sound(all, store.live, store.files)
    ensures Served(store, f, cutoff) == Reverse(Filter(Wanted(f), all)) <==>
            GoneTooSoon(all, store, f, cutoff) == [] && NotYetFiled(all, store, f, cutoff) == []
  {
    SplitAt(all, cutoff);
    FilterConcat(Wanted(f), Filter(Before(cutoff), all), Filter(Since(cutoff), all));
    RecentHistory(all, store, f, cutoff);
    EarlierHistory(all, store, f, cutoff);
    ReversedParts(Filter(Wanted(f), Filter(Before(cutoff), Cold(store.files))), NotYetFiled(all, store, f, cutoff),
                  GoneTooSoon(all, store, f, cutoff), Filter(Wanted(f), Filter(Since(cutoff), store.live)));
  }

  lemma {:induction false} EmptyFilter(p: Trade -> bool, ts: seq<Trade>)
    ensures Filter(p, ts) == [] <==> forall t :: t in ts ==> !p(t)
  {
    if forall t :: t in ts ==> !p(t) {
      FilterNone(p, ts);
    } else {
      var t :| t in ts && p(t);
      InFilter(p, ts, t);
    }
  }

  lemma EmptyFilters(p: Trade -> bool, q: Trade -> bool, ts: seq<Trade>)
    ensures Filter(p, Filter(q, ts)) == [] <==> forall t :: t in ts ==> !(p(t) && q(t))
  {
    var both := (t: Trade) => p(t) && q(t);
    FilterBoth(p, q, both, ts);
    EmptyFilter(both, ts);
  }

  lemma LiveIsNotGone(all: seq<Trade>, store: Store, j: nat)
    requires Sound(all, store.live, store.files) && j < |store.live|
    ensures store.live[j] !in all[..Gone(all, store.live)]
  {
    GoneDaysAreOver(all, store.live, store.files, j);
  }

  /** A trade has left the live table exactly if it is not live: no trade is both. */
  lemma GoneIsNotLive(all: seq<Trade>, store: Store, t: Trade)
    requires Sound(all, store.live, store.files) && t in all
    ensures t in all[..Gone(all, store.live)] <==> t !in store.live
  {
    var g := Gone(all, store.live);
    assert all == all[..g] + store.live;
    if t in store.live {
      var j :| 0 <= j < |store.live| && store.live[j] == t;
      LiveIsNotGone(all, store, j);
    }
  }

  lemma FiledIffOld(all: seq<Trade>, store: Store, t: Trade)
    requires Sound(all, store.live, store.files) && t in all
    ensures t in Unfiled(all, store.files) <==> DayOf(t.time) !in store.files
  {
    var files := store.files;
    if files != map[] {
      InFilter(Since(Split(files)), all, t);
      DayStart(t.time, Latest(files.Keys) + 1);
      OldDayIsFiled(all, store.live, files, t);
    }
  }

  lemma NoGapMeansNothingMissing(all: seq<Trade>, store: Store, f: TradeFilter, cutoff: int)
    requires Sound(all, store.live, store.files)
    ensures NoGap(all, store, f, cutoff) <==>
            GoneTooSoon(all, store, f, cutoff) == [] && NotYetFiled(all, store, f, cutoff) == []
  {
    var gone, unfiled := all[..Gone(all, store.live)], Unfiled(all, store.files);
    EmptyFilters(Wanted(f), Since(cutoff), gone);
    EmptyFilters(Wanted(f), Before(cutoff), unfiled);
    FiledAndUnfiled(all, store.live, store.files);
    forall t | t in all
      ensures (t in gone <==> t !in store.live) && (t in unfiled <==> DayOf(t.time) !in store.files)
    {
      GoneIsNotLive(all, store, t);
      FiledIffOld(all, store, t);
    }
  }

  /** What is served is all of history exactly when the stores leave no gap at the cutoff. */
  lemma CompleteIffNoGap(all: seq<Trade>, store: Store, f: TradeFilter, cutoff: int)
    requires Sound(all, store.live, store.files)
    ensures Served(store, f, cutoff) == Reverse(Filter(Wanted(f), all)) <==> NoGap(all, store, f, cutoff)
  {
    ServedIsHistoryIff(all, store, f, cutoff);
    NoGapMeansNothingMissing(all, store, f, cutoff);
  }

  /** Within the row clamp, a page of a complete history is the page the filter asks for. */
  lemma PageOfHistory(all: seq<Trade>, store: Store, f: TradeFilter, cutoff: int)
    requires Sound(all, store.live, store.files) && NoGap(all, store, f, cutoff)
    requires 0 <= f.offset && f.offset + ClampLimit(f.limit) <= MAX_LIMIT
    ensures ServedPage(store, f, cutoff) == SelectTrades(all, f)
  {
    CompleteIffNoGap(all, store, f, cutoff);
    WindowOf(Reverse(Filter(Wanted(f), all)), f.offset, ClampLimit(f.limit));
  }

  /** A request for trades of a complete history returns as many as there are, up to the number asked for and to
      1000; no request is cut to the default because it asks for too many. */
  lemma CompletePageSize(all: seq<Trade>, store: Store, f: TradeFilter, cutoff: int)
    requires Sound(all, store.live, store.files) && NoGap(all, store, f, cutoff)
    requires ColdTo(f.to, cutoff) != ZERO_TIME && f.offset == 0 && f.limit >= 1
    ensures |AnswerPage(store, f, cutoff)| == Min(Min(f.limit, 1000), |Filter(Wanted(f), all)|)
  {
    AnswerSize(store, f, cutoff);
    AnsweredIsServed(store, f, cutoff);
    CompleteIffNoGap(all, store, f, cutoff);
  }

  lemma WindowOf<T>(s: seq<T>, offset: nat, limit: nat)
    ensures Drop(Take(s, offset + limit), offset) == Take(Drop(s, offset), limit)
  {
  }

  /** No trade is served twice, and none that is not wanted: what is served and what is missing make up history. */
  lemma ServedAndMissing(all: seq<Trade>, store: Store, f: TradeFilter, cutoff: int)
    requires Sound(all, store.live, store.files)
    ensures multiset(Served(store, f, cutoff)) + multiset(GoneTooSoon(all, store, f, cutoff))
            + multiset(NotYetFiled(all, store, f, cutoff)) == multiset(Filter(Wanted(f), all))
  {
    SplitAt(all, cutoff);
    FilterConcat(Wanted(f), Filter(Before(cutoff), all), Filter(Since(cutoff), all));
    RecentHistory(all, store, f, cutoff);
    EarlierHistory(all, store, f, cutoff);
    ReverseKeepsElements(Filter(Wanted(f), Filter(Since(cutoff), store.live)));
    ReverseKeepsElements(Filter(Wanted(f), Filter(Before(cutoff), Cold(store.files))));
  }

  ghost predicate Descending(ts: seq<Trade>) {
    forall i, j :: 0 <= i < j < |ts| ==> ts[i].time >= ts[j].time
  }

  lemma ReversedDescends(ts: seq<Trade>)
    requires Ascending(ts)
    ensures Descending(Reverse(ts))
  {
  }

  lemma DescendingConcat(a: seq<Trade>, b: seq<Trade>, cutoff: int)
    requires Descending(a) && Descending(b)
    requires forall i :: 0 <= i < |a| ==> cutoff <= a[i].time
    requires forall i :: 0 <= i < |b| ==> b[i].time < cutoff
    ensures Descending(a + b)
  {
  }

  lemma ReversedPart(p: Trade -> bool, q: Trade -> bool, ts: seq<Trade>)
    requires Ascending(ts)
    ensures Descending(Reverse(Filter(p, Filter(q, ts))))
    ensures forall i :: 0 <= i < |Reverse(Filter(p, Filter(q, ts)))| ==> q(Reverse(Filter(p, Filter(q, ts)))[i])
  {
    var rows := Filter(p, Filter(q, ts));
    FilterAscending(q, ts);
    FilterAscending(p, Filter(q, ts));
    ReversedDescends(rows);
    forall i | 0 <= i < |rows|
      ensures q(Reverse(rows)[i])
    {
      InFilter(p, Filter(q, ts), rows[|rows| - 1 - i]);
      InFilter(q, ts, rows[|rows| - 1 - i]);
    }
  }

  /** Whatever is served comes newest first. */
  lemma ServedDescends(all: seq<Trade>, store: Store, f: TradeFilter, cutoff: int)
    requires Sound(all, store.live, store.files)
    ensures Descending(Served(store, f, cutoff))
  {
    var g := Gone(all, store.live);
    assert forall i :: 0 <= i < |store.live| ==> store.live[i] == all[g + i];
    FiledAndUnfiled(all, store.live, store.files);
    var cold := Cold(store.files);
    assert forall i :: 0 <= i < |cold| ==> cold[i] == all[i];
    ReversedPart(Wanted(f), Since(cutoff), store.live);
    ReversedPart(Wanted(f), Before(cutoff), cold);
    DescendingConcat(Reverse(Filter(Wanted(f), Filter(Since(cutoff), store.live))),
                     Reverse(Filter(Wanted(f), Filter(Before(cutoff), cold))), cutoff);
  }
}
