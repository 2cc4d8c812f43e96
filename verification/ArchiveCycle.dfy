// The archiver's cycle as the program runs it: internal/archive/archiver.go, cycle and archiveDay.
//
// Failures are nondeterministic choices, and other parts of the program may insert trades between any two
// steps. Each method returns, as a ghost, the protocol steps it has taken.
module ArchiveCycle {
  import opened Sequences
  import opened Trades
  import opened ArchiveProtocol

  class Archiver {
    var live: seq<Trade>
    var files: map<int, seq<Trade>>
    var cursor: Option<int>
    var clock: nat
    const maxAge: nat
    /** Whether nothing fails: no read, no write and no statement of the database. */
    const reliable: bool
    ghost var all: seq<Trade>
    ghost var phase: Phase

    ghost function Now(): State
      reads this
    {
      State(all, live, files, cursor, clock, phase)
    }

    constructor (maxAge: nat, clock: nat, reliable: bool)
      ensures Now() == Init(clock) && this.maxAge == maxAge && this.reliable == reliable
    {
      this.maxAge, this.clock, this.reliable := maxAge, clock, reliable;
      live, files, cursor, all, phase := [], map[], None, [], Idle;
    }

    /** A trade is persisted, unless its match number is still in the table. */
    method InsertTrade(matchNumber: nat, locate: nat, ticker: string, price: int, shares: int, aggressor: char)
      modifies `live, `all
      ensures Now() == Next(old(Now()), Insert(matchNumber, locate, ticker, price, shares, aggressor), maxAge)
      ensures HasNumber(live, matchNumber) && (Distinct(old(live)) ==> Distinct(live))
      ensures HasNumber(old(live), matchNumber) ==> live == old(live) && all == old(all)
      ensures !HasNumber(old(live), matchNumber) ==>
                && live == old(live) + [Trade(matchNumber, locate, ticker, price, shares, aggressor, clock)]
                && all == old(all) + [Trade(matchNumber, locate, ticker, price, shares, aggressor, clock)]
    {
      InsertRecords(Now(), Trade(matchNumber, locate, ticker, price, shares, aggressor, clock), maxAge);
      for i := 0 to |live|
        invariant forall j :: 0 <= j < i ==> live[j].matchNumber != matchNumber
      {
        if live[i].matchNumber == matchNumber {
          return;
        }
      }
      var t := Trade(matchNumber, locate, ticker, price, shares, aggressor, clock);
      live := live + [t];
      all := all + [t];
    }

    /** Whatever happens between two steps of the archiver: any number of inserts, and time passing. */
    method Others() returns (ghost steps: seq<Step>)
      requires Inv(Now())
      modifies `live, `all, `clock
      ensures Now() == Run(old(Now()), steps, maxAge) && Inv(Now()) && clock >= old(clock)
      ensures forall day :: day < DayOf(old(clock)) ==> Rows(day, live) == Rows(day, old(live))
    {
      steps := [];
      var n: nat :| n >= 0;
      for i := 0 to n
        invariant Now() == Run(old(Now()), steps, maxAge) && Inv(Now()) && clock >= old(clock)
        invariant forall day :: day < DayOf(old(clock)) ==> Rows(day, live) == Rows(day, old(live))
      {
        ghost var before := Now();
        ghost var step: Step;
        if * {
          var matchNumber: nat, locate: nat :| matchNumber >= 0 && locate >= 0;
          var ticker: string, price: int, shares: int, aggressor: char := *, *, *, *;
          step := Insert(matchNumber, locate, ticker, price, shares, aggressor);
          InsertTrade(matchNumber, locate, ticker, price, shares, aggressor);
          InsertLeavesPastDays(before, step, old(clock), maxAge);
        } else {
          var nanos: nat :| nanos >= 0;
          step := Tick(nanos);
          clock := clock + nanos;
        }
        NextKeepsInv(before, step, maxAge);
        RunConcat(old(Now()), steps, [step], maxAge);
        RunOne(before, step, maxAge);
        steps := steps + [step];
      }
    }

    /** Streams one day's live trades into a temporary file. Any row can fail, which discards the file. */
    method StreamDay(day: int) returns (tmp: seq<Trade>, ok: bool)
      ensures ok ==> tmp == Rows(day, live)
      ensures reliable ==> ok
    {
      tmp := [];
      for i := 0 to |live|
        invariant tmp == Rows(day, live[..i])
      {
        var fails: bool := *;
        if fails && !reliable {
          return [], false;
        }
        assert live[..i + 1] == live[..i] + [live[i]];
        RowsGrow(day, live[..i], live[i]);
        if DayOf(live[i].time) == day {
          tmp := tmp + [live[i]];
        }
      }
      assert live[..|live|] == live;
      ok := true;
    }

    /** Performs one protocol step: the caller has changed the fields, and this accounts for it. */
    lemma Account(before: State, taken: seq<Step>, start: State, step: Step)
      requires before == Run(start, taken, maxAge) && Inv(before)
      ensures Next(before, step, maxAge) == Run(start, taken + [step], maxAge) && Inv(Next(before, step, maxAge))
    {
      NextKeepsInv(before, step, maxAge);
      RunConcat(start, taken, [step], maxAge);
      RunOne(before, step, maxAge);
    }

    /** Writes a day's file and renames it into place, unless the day has no live trades. A failure leaves every
        file and the day's live trades as they are, and so does a day without trades. */
    method WriteFile(day: int, ghost cutoff: int) returns (ok: bool, wrote: bool, ghost steps: seq<Step>)
      requires Inv(Now()) && phase == AtDay(day, cutoff) && day < cutoff
      modifies `live, `all, `clock, `files, `phase
      ensures Now() == Run(old(Now()), steps, maxAge) && Inv(Now())
      ensures Rows(day, live) == old(Rows(day, live))
      ensures ok ==> phase == if wrote then Renamed(day, cutoff) else Deleted(day, cutoff)
      ensures ok ==> wrote == (Rows(day, live) != [])
      ensures files == if ok && wrote then old(files)[day := Rows(day, live)] else old(files)
      ensures !ok ==> phase == AtDay(day, cutoff) && !reliable
    {
      var tmp: seq<Trade>;
      tmp, ok := StreamDay(day);
      wrote := tmp != [];
      if !ok {
        return false, false, [];
      }
      steps := Others();
      assert tmp == Rows(day, live);
      var fails: bool := *;
      if wrote && fails && !reliable {
        return false, false, steps;
      }
      Account(Now(), steps, old(Now()), WriteDay);
      steps := steps + [WriteDay];
      if !wrote {
        phase := Deleted(day, cutoff);
      } else {
        files := files[day := tmp];
        phase := Renamed(day, cutoff);
      }
    }

    /** Deletes the renamed day from the live table. If that fails, the day is in both places. */
    method DeleteArchived(day: int, ghost cutoff: int) returns (ok: bool, ghost steps: seq<Step>)
      requires Inv(Now()) && phase == Renamed(day, cutoff)
      modifies `live, `all, `clock, `phase
      ensures Now() == Run(old(Now()), steps, maxAge) && Inv(Now())
      ensures ok ==> phase == Deleted(day, cutoff) && Rows(day, live) == []
      ensures !ok ==> phase == Renamed(day, cutoff) && Rows(day, live) == old(Rows(day, live)) == files[day]
      ensures reliable ==> ok
    {
      steps := Others();
      var fails: bool := *;
      if fails && !reliable {
        return false, steps;
      }
      Account(Now(), steps, old(Now()), DeleteDay);
      steps := steps + [DeleteDay];
      DayIsDeleted(live, day);
      DeleteRows(day);
      phase := Deleted(day, cutoff);
      ok := true;
    }

    /** One day: its file is renamed into place, then the day is deleted from the live table. Every step can
        fail; other inserts interleave. */
    method ArchiveDay(day: int, ghost cutoff: int) returns (ok: bool, ghost steps: seq<Step>)
      requires Inv(Now()) && phase == AtDay(day, cutoff) && day < cutoff
      modifies `live, `all, `clock, `files, `phase
      ensures Now() == Run(old(Now()), steps, maxAge) && Inv(Now())
      ensures ok ==> phase == Deleted(day, cutoff) && Rows(day, live) == []
      ensures !ok ==> phase in {AtDay(day, cutoff), Renamed(day, cutoff)}
      ensures !ok ==> Rows(day, live) == old(Rows(day, live)) && !reliable
    {
      var wrote: bool;
      ok, wrote, steps := WriteFile(day, cutoff);
      if ok && wrote {
        ghost var more;
        ok, more := DeleteArchived(day, cutoff);
        RunConcat(old(Now()), steps, more, maxAge);
        steps := steps + more;
      }
    }

    method DeleteRows(day: int)
      modifies `live
      ensures live == Filter(OffDay(day), old(live))
    {
      var left: seq<Trade> := [];
      for i := 0 to |live|
        invariant live == old(live) && left == Filter(OffDay(day), live[..i])
      {
        assert live[..i + 1] == live[..i] + [live[i]];
        FilterConcat(OffDay(day), live[..i], [live[i]]);
        FilterOne(OffDay(day), live[i]);
        if DayOf(live[i].time) != day {
          left := left + [live[i]];
        }
      }
      assert live[..|live|] == live;
      live := left;
    }

    /** Archives one day and saves the cursor behind it. A cursor that cannot be saved goes unnoticed. */
    method FinishDay(day: int, ghost cutoff: int) returns (ok: bool, ghost steps: seq<Step>)
      requires Inv(Now()) && phase == AtDay(day, cutoff) && day < cutoff
      modifies this
      ensures Now() == Run(old(Now()), steps, maxAge) && Inv(Now())
      ensures ok ==> phase == AtDay(day + 1, cutoff) && cursor in {Some(day + 1), old(cursor)}
      ensures !ok ==> cursor == old(cursor) && !reliable
      ensures reliable ==> cursor == Some(day + 1)
    {
      ok, steps := ArchiveDay(day, cutoff);
      if ok {
        var fails: bool := *;
        var saved := reliable || !fails;
        ghost var next := CursorSaved(Now(), old(Now()), steps, saved);
        steps := steps + [SaveCursor(saved)];
        cursor := if saved then Some(day + 1) else cursor;
        phase := AtDay(day + 1, cutoff);
        assert Now() == next;
      }
    }

    lemma CursorSaved(s: State, start: State, taken: seq<Step>, saved: bool) returns (next: State)
      requires s == Run(start, taken, maxAge) && Inv(s) && s.phase.Deleted?
      ensures next == s.(cursor := if saved then Some(s.phase.day + 1) else s.cursor,
                         phase := AtDay(s.phase.day + 1, s.phase.cutoff))
      ensures next == Run(start, taken + [SaveCursor(saved)], maxAge) && Inv(next)
    {
      next := Next(s, SaveCursor(saved), maxAge);
      Account(s, taken, start, SaveCursor(saved));
    }

    /** One day, some time after the day before. */
    method NextDay(day: int, ghost cutoff: int) returns (ok: bool, ghost steps: seq<Step>)
      requires Inv(Now()) && phase == AtDay(day, cutoff) && day < cutoff
      modifies this
      ensures Now() == Run(old(Now()), steps, maxAge) && Inv(Now())
      ensures ok ==> phase == AtDay(day + 1, cutoff)
      ensures reliable ==> ok && cursor == Some(day + 1)
    {
      steps := Others();
      ghost var more;
      ok, more := FinishDay(day, cutoff);
      RunConcat(old(Now()), steps, more, maxAge);
      steps := steps + more;
    }

    /** The loop over days, with other inserts between any two days. */
    method ArchiveDays(first: int, cutoff: int) returns (completed: bool, ghost steps: seq<Step>)
      requires Inv(Now()) && phase == AtDay(first, cutoff)
      modifies this
      ensures Now() == Run(old(Now()), steps, maxAge) && Inv(Now())
      ensures completed ==> LiveFrom(live, cutoff)
      ensures reliable ==> completed && cursor == if first < cutoff then Some(cutoff) else old(cursor)
    {
      ghost var start := Now();
      var day := first;
      steps, completed := [], true;
      while day < cutoff && completed
        invariant Inv(Now()) && Now() == Run(start, steps, maxAge)
        invariant completed ==> phase == AtDay(day, cutoff)
        invariant reliable ==> completed && day <= Max(first, cutoff)
        invariant reliable ==> cursor == if first < day then Some(day) else old(cursor)
        decreases cutoff - day, completed
      {
        ghost var more;
        completed, more := NextDay(day, cutoff);
        RunConcat(start, steps, more, maxAge);
        steps := steps + more;
        day := day + 1;
      }
    }

    /** A cycle starts at the saved cursor, or at the earliest live trade's day. */
    method BeginCycle() returns (day: int, cutoff: int, found: bool)
      requires Inv(Now()) && phase == Idle
      modifies `phase
      ensures !found ==> Now() == old(Now()) && live == []
      ensures found ==> Now() == Next(old(Now()), Begin, maxAge) && Inv(Now()) && phase == AtDay(day, cutoff)
      ensures found <==> cursor.Some? || live != []
      ensures cursor.Some? ==> day == cursor.value
      ensures cursor.None? && live != [] ==>
                LiveFrom(live, day) && exists i :: 0 <= i < |live| && DayOf(live[i].time) == day
      ensures cutoff == DayOf(clock - maxAge)
    {
      cutoff := DayOf(clock - maxAge);
      if cursor.None? && live == [] {
        return 0, cutoff, false;
      }
      day := if cursor.Some? then cursor.value else DayOf(live[0].time);
      BeginKeeps(Now(), maxAge);
      phase := AtDay(day, cutoff);
      found := true;
    }

    /** A cycle can end, fail or be killed anywhere. */
    method EndCycle()
      requires Inv(Now())
      modifies `phase
      ensures Now() == Next(old(Now()), Halt, maxAge) && Inv(Now()) && phase == Idle
    {
      phase := Idle;
    }

    /** One cycle, from the saved cursor to the last day that is old enough. It may stop anywhere, be killed,
        or lose cursor updates. If it completes, no live trade is older than the cutoff day. */
    method Cycle() returns (completed: bool, ghost steps: seq<Step>)
      requires Inv(Now()) && phase == Idle
      modifies this
      ensures Now() == Run(old(Now()), steps, maxAge) && Inv(Now()) && phase == Idle
      ensures completed ==> LiveFrom(live, DayOf(old(clock) - maxAge))
      ensures reliable ==> completed
    {
      ghost var start := Now();
      var day, cutoff, found := BeginCycle();
      if !found {
        return true, [];
      }
      RunOne(start, Begin, maxAge);
      ghost var begun := Now();
      completed, steps := ArchiveDays(day, cutoff);
      ghost var done := Now();
      EndCycle();
      CycleRun(start, begun, steps, done, maxAge);
      steps := [Begin] + steps + [Halt];
    }
  }

  lemma CycleRun(start: State, begun: State, steps: seq<Step>, done: State, maxAge: nat)
    requires begun == Run(start, [Begin], maxAge) && done == Run(begun, steps, maxAge)
    ensures Run(start, [Begin] + steps + [Halt], maxAge) == Next(done, Halt, maxAge)
  {
    RunConcat(start, [Begin], steps, maxAge);
    RunConcat(start, [Begin] + steps, [Halt], maxAge);
    RunOne(done, Halt, maxAge);
  }

  lemma DayIsDeleted(live: seq<Trade>, day: int)
    ensures Rows(day, Filter(OffDay(day), live)) == []
  {
    FilteredSatisfy(OffDay(day), live);
    FilterNone(OnDay(day), Filter(OffDay(day), live));
  }

  lemma InsertLeavesPastDays(s: State, step: Step, since: nat, maxAge: nat)
    requires step.Insert? && since <= s.clock
    ensures forall day :: day < DayOf(since) ==> Rows(day, Next(s, step, maxAge).live) == Rows(day, s.live)
  {
    var t := Trade(step.matchNumber, step.locate, step.ticker, step.price, step.shares, step.aggressor, s.clock);
    DayMonotone(since, s.clock);
    forall day | day < DayOf(since)
      ensures Rows(day, Next(s, step, maxAge).live) == Rows(day, s.live)
    {
      RowsGrow(day, s.live, t);
    }
  }
}
