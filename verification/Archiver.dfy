// The archiver of internal/archive/archiver.go as a protocol that can fail or crash between any two steps.
//
// A cycle goes through whole UTC days in order. For each day it writes the day's live trades to a file that
// appears atomically, deletes the day from the live table, and saves a cursor, which may fail unnoticed.
// Inserts and the passing of time interleave with the cycle's steps.
module ArchiveProtocol {
  import opened Trades

  /** Where a running cycle is: at the start of a day, or past that day's rename, or past its delete. */
  datatype Phase =
    | Idle
    | AtDay(day: int, cutoff: int)
    | Renamed(day: int, cutoff: int)
    | Deleted(day: int, cutoff: int)

  /** The field all is history: every trade ever inserted. No step reads it. */
  datatype State = State(all: seq<Trade>, live: seq<Trade>, files: map<int, seq<Trade>>, cursor: Option<int>,
                         clock: nat, phase: Phase)

  datatype Step =
    | Insert(matchNumber: nat, locate: nat, ticker: string, price: int, shares: int, aggressor: char)
    | Tick(nanos: nat)
    | Begin
    | WriteDay
    | DeleteDay
    | SaveCursor(ok: bool)
    | Halt

  function Init(clock: nat): State {
    State([], [], map[], None, clock, Idle)
  }

  /** The first day of a cycle: the cursor's, or the earliest live trade's when there is no cursor. */
  function StartDay(s: State): Option<int> {
    if s.cursor.Some? then s.cursor
    else if s.live == [] then None
    else Some(DayOf(s.live[0].time))
  }

  /** A step that is not possible in a state leaves it as it is. A trade whose match number is still in the
      live table is not inserted. A cycle halts when it is done, when a step fails, and in a crash. */
  function Next(s: State, step: Step, maxAge: nat): State {
    match step
    case Insert(matchNumber, locate, ticker, price, shares, aggressor) =>
      if exists i :: 0 <= i < |s.live| && s.live[i].matchNumber == matchNumber then s
      else
        var t := Trade(matchNumber, locate, ticker, price, shares, aggressor, s.clock);
        s.(all := s.all + [t], live := s.live + [t])
    case Tick(nanos) => s.(clock := s.clock + nanos)
    case Begin =>
      if s.phase.Idle? && StartDay(s).Some? then
        s.(phase := AtDay(StartDay(s).value, DayOf(s.clock - maxAge)))
      else s
    case WriteDay =>
      if s.phase.AtDay? && s.phase.day < s.phase.cutoff then
        var rows := Rows(s.phase.day, s.live);
        if rows == [] then s.(phase := Deleted(s.phase.day, s.phase.cutoff))
        else s.(files := s.files[s.phase.day := rows], phase := Renamed(s.phase.day, s.phase.cutoff))
      else s
    case DeleteDay =>
      if s.phase.Renamed? then
        s.(live := Filter(OffDay(s.phase.day), s.live), phase := Deleted(s.phase.day, s.phase.cutoff))
      else s
    case SaveCursor(ok) =>
      if s.phase.Deleted? then
        s.(cursor := if ok then Some(s.phase.day + 1) else s.cursor,
           phase := AtDay(s.phase.day + 1, s.phase.cutoff))
      else s
    case Halt => s.(phase := Idle)
  }

  function Run(s: State, steps: seq<Step>, maxAge: nat): State
    decreases |steps|
  {
    if steps == [] then s else Next(Run(s, steps[..|steps| - 1], maxAge), steps[|steps| - 1], maxAge)
  }

  // -------------------------------------------------------------------------------------------------
  // The invariant

  /** How many of the inserted trades have left the live table. */
  function Gone(all: seq<Trade>, live: seq<Trade>): int {
    |all| - |live|
  }

  /** The live table holds the newest trades. */
  ghost predicate Suffix(all: seq<Trade>, live: seq<Trade>) {
    |live| <= |all| && live == all[Gone(all, live)..]
  }

  /** What has left the live table is in the files, and is a day older than anything live. */
  ghost predicate Moved(all: seq<Trade>, live: seq<Trade>, files: map<int, seq<Trade>>)
    requires |live| <= |all|
  {
    && (forall i :: 0 <= i < Gone(all, live) ==> DayOf(all[i].time) in files)
    && (forall i, j :: 0 <= i < Gone(all, live) <= j < |all| ==> DayOf(all[i].time) < DayOf(all[j].time))
  }

  /** No live trade is older than a day. */
  ghost predicate LiveFrom(live: seq<Trade>, day: int) {
    forall i :: 0 <= i < |live| ==> day <= DayOf(live[i].time)
  }

  /** A file holds all trades of its day, and no live trade is older than an archived day. */
  ghost predicate Filed(all: seq<Trade>, live: seq<Trade>, files: map<int, seq<Trade>>) {
    forall day :: day in files ==> files[day] == Rows(day, all) && files[day] != [] && LiveFrom(live, day)
  }

  /** What the query layer can rely on. */
  ghost predicate Sound(all: seq<Trade>, live: seq<Trade>, files: map<int, seq<Trade>>) {
    Ascending(all) && Suffix(all, live) && Moved(all, live, files) && Filed(all, live, files)
  }

  /** Days that are over: no trade can be added to them any more. */
  ghost predicate Past(s: State) {
    && (forall i :: 0 <= i < |s.all| ==> s.all[i].time <= s.clock)
    && (forall day :: day in s.files ==> day < DayOf(s.clock))
  }

  ghost predicate CursorOk(s: State) {
    s.cursor.Some? ==> s.cursor.value <= DayOf(s.clock) && LiveFrom(s.live, s.cursor.value)
  }

  ghost predicate PhaseOk(s: State) {
    match s.phase
    case Idle => true
    case AtDay(day, cutoff) => day <= DayOf(s.clock) && cutoff <= DayOf(s.clock) && LiveFrom(s.live, day)
    case Renamed(day, cutoff) =>
      && day < cutoff <= DayOf(s.clock) && LiveFrom(s.live, day)
      && day in s.files && s.files[day] == Rows(day, s.live)
    case Deleted(day, cutoff) => day < cutoff <= DayOf(s.clock) && LiveFrom(s.live, day + 1)
  }

  ghost predicate Inv(s: State) {
    Sound(s.all, s.live, s.files) && Past(s) && CursorOk(s) && PhaseOk(s)
  }

  // -------------------------------------------------------------------------------------------------
  // Every step keeps it

  lemma {:induction false} RowsGrow(day: int, ts: seq<Trade>, t: Trade)
    ensures Rows(day, ts + [t]) == Rows(day, ts) + (if DayOf(t.time) == day then [t] else [])
  {
    FilterConcat(OnDay(day), ts, [t]);
    FilterOne(OnDay(day), t);
  }

  lemma InsertSuffix(all: seq<Trade>, live: seq<Trade>, t: Trade)
    requires Suffix(all, live)
    ensures Suffix(all + [t], live + [t]) && Gone(all + [t], live + [t]) == Gone(all, live)
  {
    assert live + [t] == (all + [t])[Gone(all, live)..];
  }

  lemma InsertMoved(all: seq<Trade>, live: seq<Trade>, files: map<int, seq<Trade>>, t: Trade)
    requires Suffix(all, live) && Moved(all, live, files)
    requires forall day :: day in files ==> day < DayOf(t.time)
    ensures Moved(all + [t], live + [t], files)
  {
    var g := Gone(all, live);
    forall i, j | 0 <= i < g <= j < |all| + 1
      ensures DayOf((all + [t])[i].time) < DayOf((all + [t])[j].time)
    {
      assert DayOf(all[i].time) in files;
    }
  }

  lemma InsertFiled(all: seq<Trade>, live: seq<Trade>, files: map<int, seq<Trade>>, t: Trade)
    requires Filed(all, live, files) && forall day :: day in files ==> day < DayOf(t.time)
    ensures Filed(all + [t], live + [t], files)
  {
    forall day | day in files
      ensures files[day] == Rows(day, all + [t]) && LiveFrom(live + [t], day)
    {
      RowsGrow(day, all, t);
    }
  }

  lemma InsertSound(all: seq<Trade>, live: seq<Trade>, files: map<int, seq<Trade>>, t: Trade)
    requires Sound(all, live, files) && forall day :: day in files ==> day < DayOf(t.time)
    requires forall i :: 0 <= i < |all| ==> all[i].time <= t.time
    ensures Sound(all + [t], live + [t], files)
  {
    InsertSuffix(all, live, t);
    InsertMoved(all, live, files, t);
    InsertFiled(all, live, files, t);
  }

  lemma InsertLiveFrom(live: seq<Trade>, t: Trade, day: int)
    requires LiveFrom(live, day) && day <= DayOf(t.time)
    ensures LiveFrom(live + [t], day)
  {
  }

  lemma InsertKeepsPhase(s: State, t: Trade)
    requires PhaseOk(s) && t.time == s.clock
    ensures PhaseOk(s.(all := s.all + [t], live := s.live + [t]))
  {
    match s.phase
    case Idle =>
    case AtDay(day, _) => InsertLiveFrom(s.live, t, day);
    case Renamed(day, _) =>
      InsertLiveFrom(s.live, t, day);
      RowsGrow(day, s.live, t);
    case Deleted(day, _) => InsertLiveFrom(s.live, t, day + 1);
  }

  lemma InsertKeeps(s: State, t: Trade)
    requires Inv(s) && t.time == s.clock
    ensures Inv(s.(all := s.all + [t], live := s.live + [t]))
  {
    InsertSound(s.all, s.live, s.files, t);
    InsertKeepsPhase(s, t);
    if s.cursor.Some? {
      InsertLiveFrom(s.live, t, s.cursor.value);
    }
  }

  lemma TickKeeps(s: State, nanos: nat)
    requires Inv(s)
    ensures Inv(s.(clock := s.clock + nanos))
  {
    DayMonotone(s.clock, s.clock + nanos);
  }

  lemma BeginKeeps(s: State, maxAge: nat)
    requires Inv(s) && s.phase.Idle? && StartDay(s).Some?
    ensures Inv(s.(phase := AtDay(StartDay(s).value, DayOf(s.clock - maxAge))))
  {
    DayMonotone(s.clock - maxAge, s.clock);
    if s.cursor.None? {
      var g := Gone(s.all, s.live);
      assert s.live[0] == s.all[g];
      DayMonotone(s.all[g].time, s.clock);
      forall i | 0 <= i < |s.live|
        ensures DayOf(s.live[0].time) <= DayOf(s.live[i].time)
      {
        assert s.live[i] == s.all[g + i];
        DayMonotone(s.all[g].time, s.all[g + i].time);
      }
    }
  }

  lemma GoneDaysAreOver(all: seq<Trade>, live: seq<Trade>, files: map<int, seq<Trade>>, j: nat)
    requires Suffix(all, live) && Moved(all, live, files) && j < |live|
    ensures forall x :: x in all[..Gone(all, live)] ==> DayOf(x.time) < DayOf(live[j].time)
  {
    var g := Gone(all, live);
    assert live[j] == all[g + j];
    forall x | x in all[..g]
      ensures DayOf(x.time) < DayOf(live[j].time)
    {
      var i :| 0 <= i < g && all[i] == x;
      assert DayOf(all[i].time) < DayOf(all[g + j].time);
    }
  }

  /** The rows of a day that still has live trades are all live. */
  lemma LiveDayIsWhole(all: seq<Trade>, live: seq<Trade>, files: map<int, seq<Trade>>, day: int)
    requires Suffix(all, live) && Moved(all, live, files) && Rows(day, live) != []
    ensures Rows(day, all) == Rows(day, live)
  {
    var gone, t := all[..Gone(all, live)], Rows(day, live)[0];
    InFilter(OnDay(day), live, t);
    var j :| 0 <= j < |live| && live[j] == t;
    GoneDaysAreOver(all, live, files, j);
    FilterNone(OnDay(day), gone);
    assert all == gone + live;
    FilterConcat(OnDay(day), gone, live);
    assert [] + Rows(day, live) == Rows(day, live);
  }

  lemma RenameKeeps(s: State)
    requires Inv(s) && s.phase.AtDay? && s.phase.day < s.phase.cutoff && Rows(s.phase.day, s.live) != []
    ensures Inv(s.(files := s.files[s.phase.day := Rows(s.phase.day, s.live)],
                   phase := Renamed(s.phase.day, s.phase.cutoff)))
  {
    LiveDayIsWhole(s.all, s.live, s.files, s.phase.day);
  }

  lemma NothingToRenameKeeps(s: State)
    requires Inv(s) && s.phase.AtDay? && s.phase.day < s.phase.cutoff && Rows(s.phase.day, s.live) == []
    ensures Inv(s.(phase := Deleted(s.phase.day, s.phase.cutoff)))
  {
    forall i | 0 <= i < |s.live|
      ensures s.phase.day + 1 <= DayOf(s.live[i].time)
    {
      InFilter(OnDay(s.phase.day), s.live, s.live[i]);
    }
  }

  lemma SuffixAscending(s: State)
    requires Ascending(s.all) && Suffix(s.all, s.live)
    ensures Ascending(s.live)
  {
    var g := Gone(s.all, s.live);
    assert forall i :: 0 <= i < |s.live| ==> s.live[i] == s.all[g + i];
  }

  /** Deleting the oldest live day cuts a prefix off the live table. */
  lemma DeleteCutsPrefix(live: seq<Trade>, day: int) returns (rows: seq<Trade>, rest: seq<Trade>)
    requires Ascending(live) && LiveFrom(live, day)
    ensures rows == Rows(day, live) && rest == Filter(OffDay(day), live) && live == rows + rest
    ensures forall i :: 0 <= i < |rows| ==> DayOf(rows[i].time) == day
    ensures LiveFrom(rest, day + 1)
  {
    rows, rest := Rows(day, live), Filter(OffDay(day), live);
    forall t | t in live
      ensures day <= DayOf(t.time)
    {
      var i :| 0 <= i < |live| && live[i] == t;
    }
    FirstDay(live, day);
    forall i | 0 <= i < |rows|
      ensures DayOf(rows[i].time) == day
    {
      InFilter(OnDay(day), live, rows[i]);
    }
    forall i | 0 <= i < |rest|
      ensures day + 1 <= DayOf(rest[i].time)
    {
      InFilter(OffDay(day), live, rest[i]);
      var k :| 0 <= k < |live| && live[k] == rest[i];
    }
  }

  lemma DeleteMoved(all: seq<Trade>, rows: seq<Trade>, rest: seq<Trade>, files: map<int, seq<Trade>>, day: int)
    requires Suffix(all, rows + rest) && Moved(all, rows + rest, files) && day in files
    requires LiveFrom(rows + rest, day) && LiveFrom(rest, day + 1)
    requires forall i :: 0 <= i < |rows| ==> DayOf(rows[i].time) == day
    ensures Suffix(all, rest) && Moved(all, rest, files)
  {
    var g, g' := Gone(all, rows + rest), Gone(all, rest);
    assert all[g'..] == (rows + rest)[|rows|..] == rest;
    assert forall k :: 0 <= k < |rows| ==> all[g + k] == (rows + rest)[k] == rows[k];
    forall i | g <= i < g'
      ensures DayOf(all[i].time) == day
    {
      assert all[i] == all[g + (i - g)];
    }
    forall i, j | 0 <= i < g' <= j < |all|
      ensures DayOf(all[i].time) < DayOf(all[j].time)
    {
      assert all[j] == rest[j - g'];
    }
  }

  lemma LiveFromRest(rows: seq<Trade>, rest: seq<Trade>, day: int)
    requires LiveFrom(rows + rest, day)
    ensures LiveFrom(rest, day)
  {
    assert forall i :: 0 <= i < |rest| ==> rest[i] == (rows + rest)[|rows| + i];
  }

  lemma DeleteSound(all: seq<Trade>, rows: seq<Trade>, rest: seq<Trade>, files: map<int, seq<Trade>>, day: int)
    requires Sound(all, rows + rest, files) && day in files
    requires LiveFrom(rows + rest, day) && LiveFrom(rest, day + 1)
    requires forall i :: 0 <= i < |rows| ==> DayOf(rows[i].time) == day
    ensures Sound(all, rest, files)
  {
    DeleteMoved(all, rows, rest, files, day);
    forall d | d in files
      ensures LiveFrom(rest, d)
    {
      LiveFromRest(rows, rest, d);
    }
  }

  lemma DeleteKeeps(s: State)
    requires Inv(s) && s.phase.Renamed?
    ensures Inv(s.(live := Filter(OffDay(s.phase.day), s.live), phase := Deleted(s.phase.day, s.phase.cutoff)))
  {
    SuffixAscending(s);
    var rows, rest := DeleteCutsPrefix(s.live, s.phase.day);
    DeleteSound(s.all, rows, rest, s.files, s.phase.day);
    if s.cursor.Some? {
      LiveFromRest(rows, rest, s.cursor.value);
    }
  }

  /** Every step, possible or not, keeps the invariant. */
  lemma NextKeepsInv(s: State, step: Step, maxAge: nat)
    requires Inv(s)
    ensures Inv(Next(s, step, maxAge))
  {
    match step
    case Insert(m, locate, ticker, price, shares, aggressor) =>
      InsertKeeps(s, Trade(m, locate, ticker, price, shares, aggressor, s.clock));
    case Tick(nanos) => TickKeeps(s, nanos);
    case Begin =>
      if s.phase.Idle? && StartDay(s).Some? {
        BeginKeeps(s, maxAge);
      }
    case WriteDay =>
      if s.phase.AtDay? && s.phase.day < s.phase.cutoff {
        if Rows(s.phase.day, s.live) == [] {
          NothingToRenameKeeps(s);
        } else {
          RenameKeeps(s);
        }
      }
    case DeleteDay =>
      if s.phase.Renamed? {
        DeleteKeeps(s);
      }
    case SaveCursor(_) =>
    case Halt =>
  }

  /** Whatever fails, crashes or interleaves: the invariant holds in every reachable state. */
  lemma {:induction false} ReachableStatesAreSound(clock: nat, steps: seq<Step>, maxAge: nat)
    ensures Inv(Run(Init(clock), steps, maxAge))
    decreases |steps|
  {
    if steps != [] {
      ReachableStatesAreSound(clock, steps[..|steps| - 1], maxAge);
      NextKeepsInv(Run(Init(clock), steps[..|steps| - 1], maxAge), steps[|steps| - 1], maxAge);
    }
  }

  // -------------------------------------------------------------------------------------------------
  // What the invariant means

  /** Every inserted trade is in its day's file or live, and a day is never spread over both. */
  lemma DayIsInOnePlace(all: seq<Trade>, live: seq<Trade>, files: map<int, seq<Trade>>, day: int)
    requires Sound(all, live, files)
    ensures Rows(day, all) == if day in files then files[day] else Rows(day, live)
  {
    if day !in files {
      var g := Gone(all, live);
      forall t | t in all[..g]
        ensures DayOf(t.time) != day
      {
        var i :| 0 <= i < g && all[i] == t;
      }
      FilterNone(OnDay(day), all[..g]);
      assert all == all[..g] + live;
      FilterConcat(OnDay(day), all[..g], live);
      assert [] + Rows(day, live) == Rows(day, live);
    }
  }

  /** A day that is in a file and still live is the newest archived day, and both hold all of it. */
  lemma OverlapIsNewestDay(all: seq<Trade>, live: seq<Trade>, files: map<int, seq<Trade>>, day: int)
    requires Sound(all, live, files) && day in files && Rows(day, live) != []
    ensures files[day] == Rows(day, live)
    ensures forall d :: d in files ==> d <= day
  {
    LiveDayIsWhole(all, live, files, day);
    var t := Rows(day, live)[0];
    InFilter(OnDay(day), live, t);
    var j :| 0 <= j < |live| && live[j] == t;
    forall d | d in files
      ensures d <= day
    {
      assert LiveFrom(live, d);
    }
  }

  /** Archiver safety: after any interleaving of inserts, cycles, failures and restarts, every day's trades
      are all in its file or all live; they are in both only for the newest archived day; and no live trade
      is older than the saved cursor, however stale that is. */
  lemma NothingIsLost(clock: nat, steps: seq<Step>, maxAge: nat, day: int)
    ensures var s := Run(Init(clock), steps, maxAge);
            && Rows(day, s.all) == (if day in s.files then s.files[day] else Rows(day, s.live))
            && (day in s.files && Rows(day, s.live) != [] ==>
                  s.files[day] == Rows(day, s.live) && forall d :: d in s.files ==> d <= day)
            && (s.cursor.Some? ==> LiveFrom(s.live, s.cursor.value))
  {
    var s := Run(Init(clock), steps, maxAge);
    ReachableStatesAreSound(clock, steps, maxAge);
    DayIsInOnePlace(s.all, s.live, s.files, day);
    if day in s.files && Rows(day, s.live) != [] {
      OverlapIsNewestDay(s.all, s.live, s.files, day);
    }
  }

  /** A file, once renamed into place, never changes: archiving its day again writes the same trades. */
  lemma FilesNeverChange(s: State, step: Step, maxAge: nat, day: int)
    requires Inv(s) && day in s.files
    ensures day in Next(s, step, maxAge).files && Next(s, step, maxAge).files[day] == s.files[day]
  {
    if step.WriteDay? && s.phase.AtDay? && s.phase.day == day && Rows(day, s.live) != [] {
      OverlapIsNewestDay(s.all, s.live, s.files, day);
    }
  }

  // -------------------------------------------------------------------------------------------------
  // Match numbers in the live table

  /** The primary key of the table: no two rows have the same match number. */
  ghost predicate Distinct(live: seq<Trade>) {
    forall i, j :: 0 <= i < j < |live| ==> live[i].matchNumber != live[j].matchNumber
  }

  ghost predicate HasNumber(live: seq<Trade>, matchNumber: nat) {
    exists i :: 0 <= i < |live| && live[i].matchNumber == matchNumber
  }

  /** After an insert, a live row has the trade's match number. Every earlier row is still there, in front; and
      the trade itself is recorded, live and in history, unless its number was taken. */
  lemma InsertRecords(s: State, t: Trade, maxAge: nat)
    requires t.time == s.clock
    ensures var n := Next(s, Insert(t.matchNumber, t.locate, t.ticker, t.price, t.shares, t.aggressor), maxAge);
            && HasNumber(n.live, t.matchNumber)
            && (HasNumber(s.live, t.matchNumber) ==> n == s)
            && (!HasNumber(s.live, t.matchNumber) ==> n.live == s.live + [t] && n.all == s.all + [t])
  {
    if !HasNumber(s.live, t.matchNumber) {
      var more := s.live + [t];
      assert more[|s.live|].matchNumber == t.matchNumber;
    }
  }

  lemma {:induction false} FilterKeepsDistinct(p: Trade -> bool, ts: seq<Trade>)
    requires Distinct(ts)
    ensures Distinct(Filter(p, ts))
  {
    if ts != [] {
      var rest := Filter(p, ts[1..]);
      FilterKeepsDistinct(p, ts[1..]);
      forall j | 0 <= j < |rest|
        ensures rest[j].matchNumber != ts[0].matchNumber
      {
        InFilter(p, ts[1..], rest[j]);
        var k :| 0 <= k < |ts[1..]| && ts[1..][k] == rest[j];
        assert ts[k + 1] == rest[j];
      }
    }
  }

  lemma NextKeepsDistinct(s: State, step: Step, maxAge: nat)
    requires Distinct(s.live)
    ensures Distinct(Next(s, step, maxAge).live)
  {
    if step.DeleteDay? && s.phase.Renamed? {
      FilterKeepsDistinct(OffDay(s.phase.day), s.live);
    }
  }

  /** Whatever trades are inserted, also when match numbers are issued again: no two live rows share one. */
  lemma {:induction false} LiveRowsAreDistinct(clock: nat, steps: seq<Step>, maxAge: nat)
    ensures Distinct(Run(Init(clock), steps, maxAge).live)
    decreases |steps|
  {
    if steps != [] {
      LiveRowsAreDistinct(clock, steps[..|steps| - 1], maxAge);
      NextKeepsDistinct(Run(Init(clock), steps[..|steps| - 1], maxAge), steps[|steps| - 1], maxAge);
    }
  }

  lemma {:induction false} RunConcat(s: State, a: seq<Step>, b: seq<Step>, maxAge: nat)
    ensures Run(s, a + b, maxAge) == Run(Run(s, a, maxAge), b, maxAge)
    decreases |b|
  {
    if b == [] {
      assert a + b == a;
    } else {
      assert (a + b)[..|a + b| - 1] == a + b[..|b| - 1];
      RunConcat(s, a, b[..|b| - 1], maxAge);
    }
  }

  lemma RunOne(s: State, step: Step, maxAge: nat)
    ensures Run(s, [step], maxAge) == Next(s, step, maxAge)
  {
    assert [step][..0] == [];
  }
}
