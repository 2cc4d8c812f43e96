// When trade queries have a gap: the archiver deletes live trades at its own age, the split is at the retention age.
module TradeGaps {
  import opened Trades
  import opened Queries
  import opened Catalog
  import opened History
  import opened ArchiveProtocol
  import opened OneHistory
  import opened TradeHistory
  import opened SampleRuns

  /** The program's defaults: two days of retention, archiving after 24 hours. */
  const DEFAULT_RETENTION_DAYS := 2
  const DEFAULT_MAX_AGE := 86_400_000_000_000

  /** Only days older than the archiver's age are in files, and a running cycle stops before that age. */
  ghost predicate Aged(s: State, maxAge: nat) {
    && (forall day :: day in s.files ==> day < DayOf(s.clock - maxAge))
    && (!s.phase.Idle? ==> s.phase.cutoff <= DayOf(s.clock - maxAge))
  }

  lemma NextKeepsAge(s: State, step: Step, maxAge: nat)
    requires Aged(s, maxAge)
    ensures Aged(Next(s, step, maxAge), maxAge)
  {
    if step.Tick? {
      DayMonotone(s.clock - maxAge, s.clock + step.nanos - maxAge);
    }
  }

  lemma {:induction false} ArchivedDaysAreAged(clock: nat, steps: seq<Step>, maxAge: nat)
    ensures Aged(Run(Init(clock), steps, maxAge), maxAge)
    decreases |steps|
  {
    if steps != [] {
      ArchivedDaysAreAged(clock, steps[..|steps| - 1], maxAge);
      NextKeepsAge(Run(Init(clock), steps[..|steps| - 1], maxAge), steps[|steps| - 1], maxAge);
    }
  }

  /** Every trade since the retention cutoff is live. */
  ghost predicate RecentIsLive(s: State, retentionDays: nat) {
    forall t :: t in s.all && s.clock - retentionDays * DAY <= t.time ==> t in s.live
  }

  lemma DayEnds(time: int, later: int)
    requires DayOf(time) < DayOf(later)
    ensures time < later
  {
  }

  lemma OldEnoughKeepsRecent(clock: nat, steps: seq<Step>, maxAge: nat, retentionDays: nat)
    requires retentionDays * DAY <= maxAge
    ensures RecentIsLive(Run(Init(clock), steps, maxAge), retentionDays)
  {
    var s := Run(Init(clock), steps, maxAge);
    ReachableStatesAreSound(clock, steps, maxAge);
    ArchivedDaysAreAged(clock, steps, maxAge);
    var g := Gone(s.all, s.live);
    forall i | 0 <= i < g
      ensures s.all[i].time < s.clock - maxAge
    {
      DayEnds(s.all[i].time, s.clock - maxAge);
    }
    forall t | t in s.all && s.clock - retentionDays * DAY <= t.time
      ensures t in s.live
    {
      var i :| 0 <= i < |s.all| && s.all[i] == t;
      assert s.live[i - g] == t;
    }
  }

  // -------------------------------------------------------------------------------------------------
  // The two halves of the split

  /** Every trade before the retention cutoff is in a file. */
  ghost predicate OldIsFiled(s: State, retentionDays: nat) {
    forall t :: t in s.all && t.time < s.clock - retentionDays * DAY ==> DayOf(t.time) in s.files
  }

  /** The archiver is up to date: no live trade is on a day that is old enough to be archived. */
  ghost predicate UpToDate(s: State, maxAge: nat) {
    LiveFrom(s.live, DayOf(s.clock - maxAge))
  }

  /** The last trade of day 0. */
  function LateTrade(): Trade {
    Trade(1, 1, "", 0, 100, 'B', DAY - 1)
  }

  /** The first trade of day 0. */
  function EarlyTrade(): Trade {
    Trade(1, 1, "", 0, 100, 'B', 0)
  }

  function GapState(wait: nat): State {
    State([LateTrade()], [], map[0 := [LateTrade()]], None, DAY - 1 + wait, Deleted(0, 1))
  }

  lemma GapDays(later: int)
    requires DAY <= later < 2 * DAY
    ensures DayOf(DAY - 1) == 0 && DayOf(later) == 1
  {
  }

  /** The trade leaves the live table as soon as it is a nanosecond older than the archiver's age. */
  lemma GapRun(maxAge: nat, wait: nat)
    requires maxAge < wait <= maxAge + DAY
    ensures Run(Init(DAY - 1), ArchiveSteps(LateTrade(), wait), maxAge) == GapState(wait)
  {
    GapDays(DAY - 1 + wait - maxAge);
    ArchiveRun(LateTrade(), wait, maxAge);
  }

  /** The live table always reaches back to the retention cutoff exactly if trades are archived no earlier than
      they leave retention. */
  lemma RetentionCondition(maxAge: nat, retentionDays: nat)
    ensures retentionDays * DAY <= maxAge <==>
            forall clock: nat, steps: seq<Step> :: RecentIsLive(Run(Init(clock), steps, maxAge), retentionDays)
  {
    if retentionDays * DAY <= maxAge {
      forall clock: nat, steps: seq<Step>
        ensures RecentIsLive(Run(Init(clock), steps, maxAge), retentionDays)
      {
        OldEnoughKeepsRecent(clock, steps, maxAge, retentionDays);
      }
    } else {
      var wait := maxAge + 1;
      GapRun(maxAge, wait);
      assert LateTrade() in GapState(wait).all;
      assert !RecentIsLive(Run(Init(DAY - 1), ArchiveSteps(LateTrade(), wait), maxAge), retentionDays);
    }
  }

  lemma SuffixAt(all: seq<Trade>, live: seq<Trade>, i: nat)
    requires Suffix(all, live) && i < |all|
    ensures i >= Gone(all, live) ==> live[i - Gone(all, live)] == all[i]
  {
  }

  lemma UpToDateFilesOld(s: State, maxAge: nat, retentionDays: nat)
    requires Inv(s) && UpToDate(s, maxAge) && maxAge + DAY - 1 <= retentionDays * DAY
    ensures OldIsFiled(s, retentionDays)
  {
    forall t | t in s.all && t.time < s.clock - retentionDays * DAY
      ensures DayOf(t.time) in s.files
    {
      var i :| 0 <= i < |s.all| && s.all[i] == t;
      DayBefore(t.time, s.clock - maxAge);
      SuffixAt(s.all, s.live, i);
    }
  }

  /** The first trade of a day leaves retention while its day is not old enough to be archived. */
  lemma EarlyRun(maxAge: nat, retentionDays: nat)
    requires retentionDays * DAY < maxAge + DAY - 1
    ensures var s := Run(Init(0), WaitSteps(EarlyTrade(), retentionDays * DAY + 1), maxAge);
            s == Inserted(EarlyTrade(), retentionDays * DAY + 1) && UpToDate(s, maxAge) && !OldIsFiled(s, retentionDays)
  {
    var wait := retentionDays * DAY + 1;
    WaitRun(EarlyTrade(), wait, maxAge);
    DayMonotone(wait - maxAge, DAY - 1);
    GapDays(DAY);
    assert EarlyTrade() in Inserted(EarlyTrade(), wait).all;
  }

  /** Whenever the archiver is up to date, the archive reaches the retention cutoff, exactly if trades leave
      retention at least a day, less a nanosecond, after they can be archived. */
  lemma ArchiveCondition(maxAge: nat, retentionDays: nat)
    ensures maxAge + DAY - 1 <= retentionDays * DAY <==>
            forall clock: nat, steps: seq<Step> :: UpToDate(Run(Init(clock), steps, maxAge), maxAge) ==>
              OldIsFiled(Run(Init(clock), steps, maxAge), retentionDays)
  {
    if maxAge + DAY - 1 <= retentionDays * DAY {
      forall clock: nat, steps: seq<Step> | UpToDate(Run(Init(clock), steps, maxAge), maxAge)
        ensures OldIsFiled(Run(Init(clock), steps, maxAge), retentionDays)
      {
        ReachableStatesAreSound(clock, steps, maxAge);
        UpToDateFilesOld(Run(Init(clock), steps, maxAge), maxAge, retentionDays);
      }
    } else {
      EarlyRun(maxAge, retentionDays);
    }
  }

  // -------------------------------------------------------------------------------------------------
  // No settings close the gap

  function StoreOf(s: State): Store {
    Store(s.live, s.files)
  }

  lemma LateIsFiled(wait: nat)
    ensures Cold(GapState(wait).files) == [LateTrade()]
  {
    GapDays(DAY);
    OneDayStore(LateTrade());
  }

  /** A page that the archive answers as it is asked to. */
  lemma AnswerIsServedPage(store: Store, f: TradeFilter, cutoff: int)
    requires ColdTo(f.to, cutoff) != ZERO_TIME
    ensures AnswerPage(store, f, cutoff) == ServedPage(store, f, cutoff)
  {
    AnsweredIsServed(store, f, cutoff);
  }

  lemma GapIsNotServed(wait: nat, cutoff: int, f: TradeFilter)
    requires cutoff < DAY
    ensures ServedPage(StoreOf(GapState(wait)), f, cutoff) == []
  {
    LateIsFiled(wait);
    FilterOne(Before(cutoff), LateTrade());
  }

  lemma GapIsEmpty(wait: nat, cutoff: int, f: TradeFilter)
    requires f.to.None? && cutoff < DAY && cutoff - 1 != ZERO_TIME
    ensures AnswerPage(StoreOf(GapState(wait)), f, cutoff) == []
  {
    GapIsNotServed(wait, cutoff, f);
    AnswerIsServedPage(StoreOf(GapState(wait)), f, cutoff);
  }

  lemma EarlyIsEmpty(clock: nat, f: TradeFilter)
    requires f.to.None?
    ensures AnswerPage(StoreOf(Inserted(EarlyTrade(), clock)), f, 1) == []
  {
    FilterOne(Since(1), EarlyTrade());
    NoFiles(map[]);
    AnsweredIsServed(StoreOf(Inserted(EarlyTrade(), clock)), f, 1);
  }

  /** A recorded trade is in no page of a query, although the archiver is up to date. */
  ghost predicate HidesTrade(s: State, f: TradeFilter, maxAge: nat, cutoff: int) {
    UpToDate(s, maxAge) && |Filter(Wanted(f), s.all)| == 1 && AnswerPage(StoreOf(s), f, cutoff) == []
  }

  function RetentionCutoff(s: State, retentionDays: nat): int {
    s.clock - retentionDays * DAY
  }

  lemma EarlyHides(maxAge: nat, retentionDays: nat, f: TradeFilter)
    requires f.locate == 1 && f.from.None? && f.to.None? && retentionDays * DAY < maxAge + DAY - 1
    ensures HidesTrade(Inserted(EarlyTrade(), retentionDays * DAY + 1), f, maxAge, 1)
  {
    EarlyRun(maxAge, retentionDays);
    EarlyIsEmpty(retentionDays * DAY + 1, f);
    FilterOne(Wanted(f), EarlyTrade());
  }

  lemma LateIsRecorded(f: TradeFilter, maxAge: nat, wait: nat)
    requires f.locate == 1 && f.from.None? && f.to.None?
    ensures |Filter(Wanted(f), GapState(wait).all)| == 1 && UpToDate(GapState(wait), maxAge)
  {
    FilterOne(Wanted(f), LateTrade());
  }

  /** How long to wait before the trade is archived: not so that the cutoff follows the zero time, which the
      archive would take for no bound. */
  function GapWait(maxAge: nat, retentionDays: nat): nat {
    if DAY + maxAge - retentionDays * DAY - 1 == ZERO_TIME then maxAge + 2 else maxAge + 1
  }

  lemma LateHides(maxAge: nat, retentionDays: nat, f: TradeFilter)
    requires f.locate == 1 && f.from.None? && f.to.None? && maxAge < retentionDays * DAY
    ensures var s := GapState(GapWait(maxAge, retentionDays));
            HidesTrade(s, f, maxAge, RetentionCutoff(s, retentionDays))
  {
    var wait := GapWait(maxAge, retentionDays);
    GapIsEmpty(wait, RetentionCutoff(GapState(wait), retentionDays), f);
    LateIsRecorded(f, maxAge, wait);
  }

  /** Whatever the archiver's age and the days of retention: after some run, a recorded trade is in no page. */
  lemma NoSettingsCloseTheGap(maxAge: nat, retentionDays: nat, f: TradeFilter)
      returns (clock: nat, steps: seq<Step>)
    requires f.locate == 1 && f.from.None? && f.to.None?
    ensures var s := Run(Init(clock), steps, maxAge);
            HidesTrade(s, f, maxAge, RetentionCutoff(s, retentionDays))
  {
    if retentionDays * DAY <= maxAge {
      clock, steps := 0, WaitSteps(EarlyTrade(), retentionDays * DAY + 1);
      EarlyRun(maxAge, retentionDays);
      EarlyHides(maxAge, retentionDays, f);
    } else {
      var wait := GapWait(maxAge, retentionDays);
      clock, steps := DAY - 1, ArchiveSteps(LateTrade(), wait);
      GapRun(maxAge, wait);
      LateHides(maxAge, retentionDays, f);
    }
  }

  /** With the default settings, the last trade of a day is in no page, although it is archived and recent. */
  lemma DefaultSettingsLoseTrade(f: TradeFilter)
    requires f.locate == 1 && f.from.None? && f.to.None?
    ensures var s := Run(Init(DAY - 1), ArchiveSteps(LateTrade(), DEFAULT_MAX_AGE + 1), DEFAULT_MAX_AGE);
            HidesTrade(s, f, DEFAULT_MAX_AGE, RetentionCutoff(s, DEFAULT_RETENTION_DAYS))
  {
    GapRun(DEFAULT_MAX_AGE, DEFAULT_MAX_AGE + 1);
    LateHides(DEFAULT_MAX_AGE, DEFAULT_RETENTION_DAYS, f);
  }

  // -------------------------------------------------------------------------------------------------
  // When the pages are right

  /** What a caller can check in the two stores: no archived trade since the cutoff has left the live table, and
      no live trade before it is unarchived. */
  ghost predicate Covered(store: Store, cutoff: int) {
    && (forall d, t :: d in store.files && t in store.files[d] && cutoff <= t.time ==> t in store.live)
    && (forall t :: t in store.live && t.time < cutoff ==> DayOf(t.time) in store.files)
  }

  lemma FiledTrade(all: seq<Trade>, store: Store, t: Trade)
    requires Sound(all, store.live, store.files) && t in all && t !in store.live
    ensures DayOf(t.time) in store.files && t in store.files[DayOf(t.time)]
  {
    var i :| 0 <= i < |all| && all[i] == t;
    SuffixAt(all, store.live, i);
    InFilter(OnDay(DayOf(t.time)), all, t);
  }

  lemma CoveredLeavesNoGap(all: seq<Trade>, store: Store, f: TradeFilter, cutoff: int)
    requires Sound(all, store.live, store.files) && Covered(store, cutoff)
    ensures NoGap(all, store, f, cutoff)
  {
    forall t | t in all && Wanted(f)(t)
      ensures if cutoff <= t.time then t in store.live else DayOf(t.time) in store.files
    {
      if t !in store.live {
        FiledTrade(all, store, t);
      }
    }
  }

  /** A trade that neither store has on its side of the cutoff. */
  ghost predicate Missing(store: Store, t: Trade, cutoff: int) {
    if cutoff <= t.time then t !in store.live else DayOf(t.time) !in store.files
  }

  lemma UncoveredMissesTrade(all: seq<Trade>, store: Store, cutoff: int) returns (t: Trade)
    requires Sound(all, store.live, store.files) && !Covered(store, cutoff)
    ensures t in all && Missing(store, t, cutoff)
  {
    var g := Gone(all, store.live);
    if d, u :| d in store.files && u in store.files[d] && cutoff <= u.time && u !in store.live {
      t := u;
      InFilter(OnDay(d), all, u);
    } else {
      t :| t in store.live && t.time < cutoff && DayOf(t.time) !in store.files;
      var j :| 0 <= j < |store.live| && store.live[j] == t;
      assert all[g + j] == t;
    }
  }

  /** The query for exactly one instant. */
  function At(t: Trade): TradeFilter {
    TradeFilter(t.locate, 1, 0, Some(t.time), Some(t.time))
  }

  lemma SameInstantIsLive(all: seq<Trade>, store: Store, t: Trade, u: Trade)
    requires Sound(all, store.live, store.files) && t in all && u in store.live && t.time == u.time
    ensures t in store.live && u in all
  {
    var i :| 0 <= i < |all| && all[i] == t;
    var j :| 0 <= j < |store.live| && store.live[j] == u;
    SuffixAt(all, store.live, i);
    assert all[Gone(all, store.live) + j] == u;
  }

  lemma MissingIsNotLive(all: seq<Trade>, store: Store, t: Trade, cutoff: int)
    requires Sound(all, store.live, store.files) && t in all && Missing(store, t, cutoff)
    ensures Filter(Wanted(At(t)), Filter(Since(cutoff), store.live)) == []
  {
    forall u | u in store.live
      ensures !(Wanted(At(t))(u) && Since(cutoff)(u))
    {
      if u.time == t.time {
        SameInstantIsLive(all, store, t, u);
      }
    }
    EmptyFilters(Wanted(At(t)), Since(cutoff), store.live);
  }

  lemma NotColdAt(store: Store, t: Trade, u: Trade, cutoff: int)
    requires Missing(store, t, cutoff) && DayOf(u.time) in store.files
    ensures !(Wanted(At(t))(u) && Before(cutoff)(u))
  {
  }

  lemma MissingIsNotCold(all: seq<Trade>, store: Store, t: Trade, cutoff: int)
    requires Sound(all, store.live, store.files) && t in all && Missing(store, t, cutoff)
    ensures Filter(Wanted(At(t)), Filter(Before(cutoff), Cold(store.files))) == []
  {
    var cold := Cold(store.files);
    forall u | u in cold
      ensures !(Wanted(At(t))(u) && Before(cutoff)(u))
    {
      ColdIsFiled(all, store, u);
      NotColdAt(store, t, u, cutoff);
    }
    EmptyFilters(Wanted(At(t)), Before(cutoff), cold);
  }

  lemma MissingIsNotServed(all: seq<Trade>, store: Store, t: Trade, cutoff: int)
    requires Sound(all, store.live, store.files) && t in all && Missing(store, t, cutoff)
    ensures Served(store, At(t), cutoff) == []
  {
    MissingIsNotLive(all, store, t, cutoff);
    MissingIsNotCold(all, store, t, cutoff);
  }

  /** A query that stays within the row clamp. */
  predicate WithinClamp(f: TradeFilter) {
    0 <= f.offset && f.offset + ClampLimit(f.limit) <= MAX_LIMIT
  }

  lemma RecordedPage(all: seq<Trade>, t: Trade)
    requires t in all
    ensures SelectTrades(all, At(t)) != []
  {
    InFilter(Wanted(At(t)), all, t);
    var rows := Filter(Wanted(At(t)), all);
    assert rows != [];
  }

  lemma MissingPage(all: seq<Trade>, store: Store, t: Trade, cutoff: int)
    requires Sound(all, store.live, store.files) && t in all && Missing(store, t, cutoff)
    ensures ServedPage(store, At(t), cutoff) == []
  {
    MissingIsNotServed(all, store, t, cutoff);
  }

  lemma MissingPageIsWrong(all: seq<Trade>, store: Store, t: Trade, cutoff: int)
    requires Sound(all, store.live, store.files) && t in all && Missing(store, t, cutoff) && cutoff - 1 != ZERO_TIME
    ensures WithinClamp(At(t)) && ColdTo(At(t).to, cutoff) != ZERO_TIME
    ensures AnswerPage(store, At(t), cutoff) == [] != SelectTrades(all, At(t))
  {
    MissingPage(all, store, t, cutoff);
    AnswerIsServedPage(store, At(t), cutoff);
    RecordedPage(all, t);
  }

  /** Every page is the page of history that it should be exactly if the two stores cover the cutoff. */
  lemma PagesAreRightIffCovered(all: seq<Trade>, store: Store, cutoff: int)
    requires Sound(all, store.live, store.files) && cutoff - 1 != ZERO_TIME
    ensures Covered(store, cutoff) <==>
            forall f: TradeFilter :: WithinClamp(f) && ColdTo(f.to, cutoff) != ZERO_TIME ==>
              AnswerPage(store, f, cutoff) == SelectTrades(all, f)
  {
    if Covered(store, cutoff) {
      forall f: TradeFilter | WithinClamp(f) && ColdTo(f.to, cutoff) != ZERO_TIME
        ensures AnswerPage(store, f, cutoff) == SelectTrades(all, f)
      {
        CoveredLeavesNoGap(all, store, f, cutoff);
        PageOfHistory(all, store, f, cutoff);
        AnswerIsServedPage(store, f, cutoff);
      }
    } else {
      var t := UncoveredMissesTrade(all, store, cutoff);
      MissingPageIsWrong(all, store, t, cutoff);
    }
  }
}
