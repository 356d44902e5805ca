/** metrics.go, slots: snapshots on which missing data makes the reported range wrong, one for
    each way a report can be incomplete. */
module SlotGaps {
  import opened Common
  import opened UnitSpans
  import opened SlotReport
  import opened SlotWindow
  import opened SlotTruth
  import TaskReplay
  import Vocabulary

  /** A machine with one slot and ready work as given, over a window from since. */
  function OneSlot(units: seq<Unit>, ready: seq<int>): Machine {
    Machine(units, [Capacity(1, None)], ready, 0)
  }

  lemma OneSlotCapacity(units: seq<Unit>, ready: seq<int>, m: nat)
    requires m < |ready|
    ensures OneSlot(units, ready).RowOf(m).cap == 1 && OneSlot(units, ready).RowOf(m).ready == ready[m]
  {}

  /** The slots truly held, the work truly ready, and the sums of a one-minute window. */
  lemma OneMinute(x: Site, c: Choice)
    requires |x.k.ready| == |c.ready| == 1
    ensures LowSum(x.k, 1) == LowAt(x.k.RowOf(0)) && HighSum(x.k, 1) == HighAt(x.k.RowOf(0))
    ensures TrueOverAll(x, c, 1) == TrueEmpty(x, c, 0)
  {
    assert LowSum(x.k, 0) == HighSum(x.k, 0) == TrueOverAll(x, c, 0) == 0;
  }

  lemma OneSpan(x: Span, t: Tick)
    ensures SpansHeld([x], t) == if x.Holds(t) then 1 else 0
  {
    assert [x][..0] == [];
  }

  // ---- ready work that is not known

  /** The only task's history was not fetched, so the minute's ready work is not known, and the
      report counts no empty slot-minute beside ready work, not even as possible. */
  lemma UnknownReadyCanBeWrong(task: TaskReplay.Task)
    requires task.events.None? && task.createdAt <= 0 < task.updatedAt
    ensures var x := Site(OneSlot([], [ReadyAt([task], 0)]), [], [], [], [], "m", 0, MINUTE);
            var c := Choice([], [true]);
            x.Valid() && PossibleChoice(x, c) && HighSum(x.k, 1) == 0 && TrueOverAll(x, c, 1) == 1
  {
    OneUnfetched([task], 0);
    var x, c := Site(OneSlot([], [-1]), [], [], [], [], "m", 0, MINUTE), Choice([], [true]);
    assert Select([], 0, MINUTE) == [] && UnitsOf([], [], [], "m", MINUTE);
    OneSlotCapacity([], [-1], 0);
    OneMinute(x, c);
  }

  lemma OneUnfetched(tasks: seq<TaskReplay.Task>, t: Tick)
    requires |tasks| == 1 && TaskReplay.StateAtSpec(tasks[0], t).Unfetched?
    ensures ReadyAt(tasks, t) == -1
  {
    assert tasks[..0] == [] && tasks[0] in tasks && AnyUnfetched(tasks, t);
    assert ReadyCount(tasks[..0], t) == 0;
  }

  // ---- a claim without a time

  function At(kind: JobEventKind, at: Tick): JobEvent { JobEvent(kind, Some(at)) }

  function Untimed(kind: JobEventKind): JobEvent { JobEvent(kind, None) }

  /** A live builder claimed at a time that is not recorded, and again a minute on: the slot it
      may have held since is reported as certainly empty in the first minute. */
  lemma UntimedClaimCanBeWrong()
    ensures var j := Job("m", Builder, "", true, [Untimed(Claim), At(Spawned, 0), At(Claim, MINUTE)], []);
            var u := Unit(j, MINUTE, 2 * MINUTE, None, []);
            var x := Site(OneSlot([u], [1, 1]), [u], [j], [[]], [None], "m", 0, 2 * MINUTE);
            var c := Choice([Span(0, 2 * MINUTE)], [true, true]);
            x.Valid() && PossibleChoice(x, c) && LowSum(x.k, 2) == 1 && TrueOverAll(x, c, 2) == 0
  {
    var j := Job("m", Builder, "", true, [Untimed(Claim), At(Spawned, 0), At(Claim, MINUTE)], []);
    var u := Unit(j, MINUTE, 2 * MINUTE, None, []);
    var x := Site(OneSlot([u], [1, 1]), [u], [j], [[]], [None], "m", 0, 2 * MINUTE);
    var c := Choice([Span(0, 2 * MINUTE)], [true, true]);
    ClaimedTwice(j, u);
    OneJobSite(u, j, [], None, [1, 1], 2 * MINUTE);
    OneJobChoice(x, c);
    hide IsUnitOf, UnitsOf, ReportsOn, RecordedEnd, FirstClaim;
    SecondMinute(u, j);
    TwoMinutes(x, c);
  }

  lemma TwoMinutes(x: Site, c: Choice)
    requires |x.k.ready| == |c.ready| == 2 && x.k.start == 0 && x.k.ready == [1, 1] && c.ready == [true, true]
    requires x.k.RowOf(0) == Row(1, 1, 0, 0, 0) && x.k.RowOf(1) == Row(1, 1, 1, 0, 0)
    requires c.spans == [Span(0, 2 * MINUTE)]
    ensures LowSum(x.k, 2) == 1 && TrueOverAll(x, c, 2) == 0
  {
    OneSpan(c.spans[0], 0);
    OneSpan(c.spans[0], MINUTE);
    assert LowSum(x.k, 0) == 0 && LowSum(x.k, 1) == LowAt(x.k.RowOf(0));
    assert TrueOverAll(x, c, 0) == 0 && TrueOverAll(x, c, 1) == TrueEmpty(x, c, 0);
  }

  lemma ClaimedTwice(j: Job, u: Unit)
    requires j == Job("m", Builder, "", true, [Untimed(Claim), At(Spawned, 0), At(Claim, MINUTE)], [])
    requires u == Unit(j, MINUTE, 2 * MINUTE, None, [])
    ensures IsUnitOf(u, j, None, 2 * MINUTE) && UntimedClaim(j.events) && !UntimedEnd(j.events)
    ensures RecordedEnd(j, None, 2 * MINUTE) == Some(2 * MINUTE)
  {
    assert j.events[2] == JobEvent(Claim, Some(MINUTE)) && ClaimedAt(j.events, MINUTE);
    assert EndRecorded(j, None, 2 * MINUTE, 2 * MINUTE);
    assert forall t :: EndRecorded(j, None, 2 * MINUTE, t) ==> t == 2 * MINUTE;
  }

  lemma SecondMinute(u: Unit, j: Job)
    requires j.events != [] && j.events[0].at.None? && j.status == []
    requires u == Unit(j, MINUTE, 2 * MINUTE, None, [])
    ensures CountState([u], 0, Working) == CountState([u], 0, Held) == CountState([u], 0, Unknown) == 0
    ensures CountState([u], MINUTE, Working) == 1 && CountState([u], MINUTE, Held) == 0
    ensures CountState([u], MINUTE, Unknown) == 0
  {
    assert [u][..0] == [];
    assert StateAt(u, 0) == NoSlot && StateAt(u, MINUTE) == Working;
  }

  /** One builder's unit, kept by the window, is what the machine's report is about. */
  lemma OneUnit(u: Unit, j: Job, taskEnd: Option<Tick>, since: Tick, until: Tick)
    requires IsUnitOf(u, j, taskEnd, until) && j.machine == "m" && j.role.Builder?
    ensures UnitsOf([u], [j], [taskEnd], "m", until)
    ensures Select([u], since, until) == if Keep(u, since, until).Some? then [Keep(u, since, until).value] else []
  {
    assert FirstClaim(j.events) == Some(u.from);
    assert [u][..0] == [] && [j][..0] == [] && [taskEnd][..0] == [];
    assert UnitsOf([], [], [], "m", until);
  }

  /** The report of a machine whose one builder's unit the window keeps as it is. */
  lemma OneJobSite(u: Unit, j: Job, linked: seq<TaskReplay.Task>, taskEnd: Option<Tick>, ready: seq<int>, until: Tick)
    requires IsUnitOf(u, j, taskEnd, until) && j.machine == "m" && j.role.Builder?
    requires u.unknownFrom.Some? ==> u.until == until
    requires TaskReplay.IsTaskEnd(linked, taskEnd) && Keep(u, 0, until) == Some(u)
    requires |ready| == WindowMinutes(0, until)
    ensures Site(OneSlot([u], ready), [u], [j], [linked], [taskEnd], "m", 0, until).Valid()
  {
    OneUnit(u, j, taskEnd, 0, until);
    hide IsUnitOf, UnitsOf, Select, Keep, TaskReplay.IsTaskEnd, ReportsOn;
    ReportsOnItself([u], ready, 0, until);
  }

  /** The window keeps every unit as it is. */
  lemma ReportsOnItself(units: seq<Unit>, ready: seq<int>, since: Tick, until: Tick)
    requires since == 0 && Select(units, since, until) == units && |ready| == WindowMinutes(0, until)
    requires forall u :: u in units ==> u.unknownFrom.Some? ==> u.until == until
    ensures ReportsOn(OneSlot(units, ready), units, since, until)
  {
    hide Select;
  }

  lemma OneJobChoice(x: Site, c: Choice)
    requires |x.jobs| == |x.linked| == |x.taskEnds| == |c.spans| == 1 && PossibleReady(x.k.ready, c.ready)
    requires Record(x.jobs[0], x.linked[0], x.taskEnds[0], x.machine, x.until).CouldHold(c.spans[0])
    ensures PossibleChoice(x, c)
  {
    assert x.Records()[0] == Record(x.jobs[0], x.linked[0], x.taskEnds[0], x.machine, x.until);
  }

  // ---- an end without a time

  /** A builder was reaped at a time that is not recorded, or its task's history was not fetched:
      the slot is counted as held until the task's end, though it may have been empty before. */
  lemma OpenEndCanBeWrong(reaped: bool)
    ensures var j := Job("m", Builder, "", false, OpenEnded(reaped), []);
            var task := TaskReplay.Task(Vocabulary.Merged, 0, 2 * MINUTE, if reaped then Some([MergedAt2()]) else None);
            var u := Unit(j, 0, 2 * MINUTE, None, []);
            var x := Site(OneSlot([u], [1]), [u], [j], [[task]], [Some(2 * MINUTE)], "m", 0, MINUTE);
            var c := Choice([Span(0, 0)], [true]);
            x.Valid() && PossibleChoice(x, c) && HighSum(x.k, 1) == 0 && TrueOverAll(x, c, 1) == 1
  {
    var j := Job("m", Builder, "", false, OpenEnded(reaped), []);
    var task := TaskReplay.Task(Vocabulary.Merged, 0, 2 * MINUTE, if reaped then Some([MergedAt2()]) else None);
    var u := Unit(j, 0, 2 * MINUTE, None, []);
    var x := Site(OneSlot([u], [1]), [u], [j], [[task]], [Some(2 * MINUTE)], "m", 0, MINUTE);
    var c := Choice([Span(0, 0)], [true]);
    EndsWithTask(j, u);
    TaskEndsAt2(task);
    OneJobSite(u, j, [task], Some(2 * MINUTE), [1], MINUTE);
    if reaped { assert j.events[1] == Untimed(Reaped) && UntimedEnd(j.events); }
    if !reaped { assert [task][..0] == [] && FetchedEnd([task]).None?; }
    assert Record(j, [task], Some(2 * MINUTE), "m", MINUTE).Floor().None?;
    OneJobChoice(x, c);
    hide IsUnitOf, UnitsOf, ReportsOn, RecordedEnd, FirstClaim;
    FirstMinuteTaken(u, j);
    OneSpan(c.spans[0], 0);
    OneSlotCapacity([u], [1], 0);
    OneMinute(x, c);
  }

  function OpenEnded(reaped: bool): seq<JobEvent> {
    if reaped then [At(Claim, 0), Untimed(Reaped)] else [At(Claim, 0)]
  }

  function MergedAt2(): Vocabulary.TaskEvent {
    Vocabulary.TaskEvent(Vocabulary.Transition, Vocabulary.Reviewing, Vocabulary.Merged, None, 2 * MINUTE)
  }

  lemma EndsWithTask(j: Job, u: Unit)
    requires j.events == [At(Claim, 0), Untimed(Reaped)] || j.events == [At(Claim, 0)]
    requires j.status == [] && !j.live && u == Unit(j, 0, 2 * MINUTE, None, [])
    ensures IsUnitOf(u, j, Some(2 * MINUTE), MINUTE) && !UntimedClaim(j.events)
    ensures RecordedEnd(j, Some(2 * MINUTE), MINUTE) == Some(2 * MINUTE)
  {
    assert j.events[0] == JobEvent(Claim, Some(0)) && ClaimedAt(j.events, 0);
    assert EndRecorded(j, Some(2 * MINUTE), MINUTE, 2 * MINUTE);
    assert forall t :: EndRecorded(j, Some(2 * MINUTE), MINUTE, t) ==> t == 2 * MINUTE;
  }

  lemma TaskEndsAt2(task: TaskReplay.Task)
    requires task.state == Vocabulary.Merged && task.updatedAt == 2 * MINUTE
    requires task.events == None || task.events == Some([MergedAt2()])
    ensures TaskReplay.IsTaskEnd([task], Some(2 * MINUTE))
  {
    assert TaskReplay.TerminalAt(task) == Some(2 * MINUTE);
    assert task in [task];
  }

  lemma FirstMinuteTaken(u: Unit, j: Job)
    requires j.events == [At(Claim, 0), Untimed(Reaped)] || j.events == [At(Claim, 0)]
    requires j.status == [] && u == Unit(j, 0, 2 * MINUTE, None, [])
    ensures CountState([u], 0, Working) == 1 && CountState([u], 0, Held) == 0 && CountState([u], 0, Unknown) == 0
  {
    assert [u][..0] == [];
    assert EventState(j.events[1..], true, 0) && EventState(j.events, true, 0);
    assert StateAt(u, 0) == Working;
  }

  // ---- a unit the window leaves out

  /** A window from half past a minute: a builder that ended ten seconds into that minute is
      left out although the minute is sampled at its start, and one slot-minute that was taken
      is reported as certainly empty. */
  lemma FirstMinuteCanBeWrong()
    ensures var j := Job("m", Builder, "", false, [At(Claim, 0), At(Reaped, 10 * SECOND)], []);
            var u := Unit(j, 0, 10 * SECOND, None, []);
            var x := Site(OneSlot([], [1]), [u], [j], [[]], [None], "m", 30 * SECOND, MINUTE);
            var c := Choice([Span(0, 10 * SECOND)], [true]);
            x.Valid() && PossibleChoice(x, c) && LowSum(x.k, 1) == 1 && TrueOverAll(x, c, 1) == 0
  {
    var j := Job("m", Builder, "", false, [At(Claim, 0), At(Reaped, 10 * SECOND)], []);
    var u := Unit(j, 0, 10 * SECOND, None, []);
    var x := Site(OneSlot([], [1]), [u], [j], [[]], [None], "m", 30 * SECOND, MINUTE);
    var c := Choice([Span(0, 10 * SECOND)], [true]);
    ReapedUnit(j, u);
    OneUnit(u, j, None, 30 * SECOND, MINUTE);
    OneSpan(c.spans[0], 0);
    OneSlotCapacity([], [1], 0);
    OneMinute(x, c);
  }

  lemma ReapedUnit(j: Job, u: Unit)
    requires j == Job("m", Builder, "", false, [At(Claim, 0), At(Reaped, 10 * SECOND)], [])
    requires u == Unit(j, 0, 10 * SECOND, None, [])
    ensures IsUnitOf(u, j, None, MINUTE) && !UntimedClaim(j.events) && !UntimedEnd(j.events)
    ensures RecordedEnd(j, None, MINUTE) == Some(10 * SECOND)
  {
    assert j.events[0] == JobEvent(Claim, Some(0)) && ClaimedAt(j.events, 0);
    assert j.events[1] == At(Reaped, 10 * SECOND) && EndRecorded(j, None, MINUTE, 10 * SECOND);
    assert forall t :: EndRecorded(j, None, MINUTE, t) ==> t == 10 * SECOND;
  }

  // ---- a job without a unit

  /** A live builder whose claim carries no time, or a live job without a claim record, has no
      unit: the slot it may hold is reported as certainly empty. */
  lemma UnplacedCanBeWrong(role: Role)
    requires role.Builder? || role.NoRole?
    ensures var j := Job("m", role, "", true, Unclaimed(role), []);
            var x := Site(OneSlot([], [1]), [], [j], [[]], [None], "m", 0, MINUTE);
            var c := Choice([Span(0, MINUTE)], [true]);
            x.Valid() && PossibleChoice(x, c) && LowSum(x.k, 1) == 1 && TrueOverAll(x, c, 1) == 0
  {
    var j := Job("m", role, "", true, Unclaimed(role), []);
    var x := Site(OneSlot([], [1]), [], [j], [[]], [None], "m", 0, MINUTE);
    var c := Choice([Span(0, MINUTE)], [true]);
    assert FirstClaim(j.events).None?;
    assert [j][..0] == [] && x.taskEnds[..0] == [];
    assert UnitsOf([], [], [], "m", MINUTE) && UnitsOf([], [j], [None], "m", MINUTE);
    assert Select([], 0, MINUTE) == [];
    assert EndRecorded(j, None, MINUTE, MINUTE) && forall t :: EndRecorded(j, None, MINUTE, t) ==> t == MINUTE;
    OneSpan(c.spans[0], 0);
    OneSlotCapacity([], [1], 0);
    OneMinute(x, c);
  }

  function Unclaimed(role: Role): seq<JobEvent> {
    if role.Builder? then [Untimed(Claim), At(Spawned, 0)] else [At(Spawned, 0)]
  }
}
