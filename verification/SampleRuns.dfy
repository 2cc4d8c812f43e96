// Short runs of the archiver with one trade, from an empty database.
module SampleRuns {
  import opened Trades
  import opened ArchiveProtocol

  function InsertOf(t: Trade): Step {
    Insert(t.matchNumber, t.locate, t.ticker, t.price, t.shares, t.aggressor)
  }

  /** The trade is inserted, time passes, and a cycle starts and ends at once. */
  function WaitSteps(t: Trade, wait: nat): seq<Step> {
    [InsertOf(t), Tick(wait), Begin, Halt]
  }

  /** The trade is inserted, time passes, and its day is moved to a file. */
  function ArchiveSteps(t: Trade, wait: nat): seq<Step> {
    [InsertOf(t), Tick(wait), Begin, WriteDay, DeleteDay]
  }

  function Inserted(t: Trade, clock: nat): State {
    State([t], [t], map[], None, clock, Idle)
  }

  function Cutoff(t: Trade, wait: nat, maxAge: nat): int {
    DayOf(t.time + wait - maxAge)
  }

  function ArchivedState(t: Trade, wait: nat, maxAge: nat): State {
    State([t], [], map[DayOf(t.time) := [t]], None, t.time + wait, Deleted(DayOf(t.time), Cutoff(t, wait, maxAge)))
  }

  lemma RunStep(s: State, steps: seq<Step>, step: Step, maxAge: nat)
    ensures Run(s, steps + [step], maxAge) == Next(Run(s, steps, maxAge), step, maxAge)
  {
    assert (steps + [step])[..|steps|] == steps;
  }

  lemma InsertRun(t: Trade, maxAge: nat)
    ensures Run(Init(t.time), [InsertOf(t)], maxAge) == Inserted(t, t.time)
  {
    RunOne(Init(t.time), InsertOf(t), maxAge);
    assert [] + [t] == [t];
  }

  lemma BeginRun(t: Trade, wait: nat, maxAge: nat)
    ensures Run(Init(t.time), [InsertOf(t), Tick(wait), Begin], maxAge) ==
            Inserted(t, t.time + wait).(phase := AtDay(DayOf(t.time), Cutoff(t, wait, maxAge)))
  {
    InsertRun(t, maxAge);
    RunStep(Init(t.time), [InsertOf(t)], Tick(wait), maxAge);
    assert [InsertOf(t)] + [Tick(wait)] == [InsertOf(t), Tick(wait)];
    RunStep(Init(t.time), [InsertOf(t), Tick(wait)], Begin, maxAge);
    assert [InsertOf(t), Tick(wait)] + [Begin] == [InsertOf(t), Tick(wait), Begin];
  }

  lemma WaitRun(t: Trade, wait: nat, maxAge: nat)
    ensures Run(Init(t.time), WaitSteps(t, wait), maxAge) == Inserted(t, t.time + wait)
  {
    BeginRun(t, wait, maxAge);
    RunStep(Init(t.time), [InsertOf(t), Tick(wait), Begin], Halt, maxAge);
    assert [InsertOf(t), Tick(wait), Begin] + [Halt] == WaitSteps(t, wait);
  }

  lemma MoveDay(s: State, t: Trade, day: int, maxAge: nat)
    requires s.live == [t] && s.files == map[] && DayOf(t.time) == day
    requires s.phase.AtDay? && s.phase.day == day < s.phase.cutoff
    ensures Next(Next(s, WriteDay, maxAge), DeleteDay, maxAge) ==
            s.(live := [], files := map[day := [t]], phase := Deleted(day, s.phase.cutoff))
  {
    FilterOne(OnDay(day), t);
    FilterOne(OffDay(day), t);
    assert Rows(day, s.live) == [t];
    assert s.files[day := [t]] == map[day := [t]];
  }

  lemma ArchiveRun(t: Trade, wait: nat, maxAge: nat)
    requires DayOf(t.time) < Cutoff(t, wait, maxAge)
    ensures Run(Init(t.time), ArchiveSteps(t, wait), maxAge) == ArchivedState(t, wait, maxAge)
  {
    var three := [InsertOf(t), Tick(wait), Begin];
    BeginRun(t, wait, maxAge);
    RunStep(Init(t.time), three, WriteDay, maxAge);
    RunStep(Init(t.time), three + [WriteDay], DeleteDay, maxAge);
    assert three + [WriteDay] + [DeleteDay] == ArchiveSteps(t, wait);
    MoveDay(Run(Init(t.time), three, maxAge), t, DayOf(t.time), maxAge);
  }
}
