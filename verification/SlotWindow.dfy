/** metrics.go, slots: which units of a snapshot count on a machine, the window's minutes, and
    what a machine's report is about. */
module SlotWindow {
  import opened Common
  import opened UnitSpans
  import opened SlotReport

  // ---- the units of one machine

  /** A unit outside the window is left out; one last seen past it held its slot throughout. */
  function Keep(u: Unit, since: Tick, until: Tick): Option<Unit> {
    if u.from >= until || u.until <= since then None
    else if u.unknownFrom.Some? && u.unknownFrom.value >= until then Some(u.(unknownFrom := None))
    else Some(u)
  }

  function Select(all: seq<Unit>, since: Tick, until: Tick): seq<Unit> {
    if all == [] then []
    else
      var rest, u := Select(all[..|all| - 1], since, until), Keep(all[|all| - 1], since, until);
      if u.Some? then rest + [u.value] else rest
  }

  predicate Candidate(j: Job, machine: string) {
    j.machine == machine && j.role.Builder?
  }

  predicate Claimed(j: Job) {
    FirstClaim(j.events).Some?
  }

  /** One unit for every claimed builder of the machine, in snapshot order. */
  ghost predicate UnitsOf(all: seq<Unit>, jobs: seq<Job>, taskEnds: seq<Option<Tick>>, machine: string, until: Tick)
    requires |taskEnds| == |jobs|
    decreases |jobs|
  {
    if jobs == [] then all == []
    else
      var n := |jobs| - 1;
      if Candidate(jobs[n], machine) && Claimed(jobs[n]) then
        && all != [] && IsUnitOf(all[|all| - 1], jobs[n], taskEnds[n], until)
        && UnitsOf(all[..|all| - 1], jobs[..n], taskEnds[..n], machine, until)
      else UnitsOf(all, jobs[..n], taskEnds[..n], machine, until)
  }

  /** Jobs in snapshot order; taskEnds[i] is when every task linked to jobs[i] had ended. */
  method BuildUnits(jobs: seq<Job>, machine: string, taskEnds: seq<Option<Tick>>, since: Tick, until: Tick)
    returns (units: seq<Unit>, ghost all: seq<Unit>)
    requires |taskEnds| == |jobs|
    ensures units == Select(all, since, until)
    ensures UnitsOf(all, jobs, taskEnds, machine, until)
  {
    hide UnitsOf, Select, IsUnitOf;
    units, all := [], [];
    NoUnitsYet(machine, since, until);
    for i := 0 to |jobs|
      invariant units == Select(all, since, until)
      invariant UnitsOf(all, jobs[..i], taskEnds[..i], machine, until)
    {
      assert jobs[..i + 1] == jobs[..i] + [jobs[i]] && taskEnds[..i + 1] == taskEnds[..i] + [taskEnds[i]];
      var u, kept := UnitInWindow(jobs[i], machine, taskEnds[i], since, until);
      if u.None? {
        NoUnitAdded(all, jobs[..i], taskEnds[..i], jobs[i], taskEnds[i], machine, until);
      } else {
        UnitAdded(all, jobs[..i], taskEnds[..i], jobs[i], taskEnds[i], machine, until, u.value);
        SelectNext(all, u.value, since, until);
        all := all + [u.value];
        if kept.Some? { units := units + [kept.value]; }
      }
    }
    assert jobs[..|jobs|] == jobs && taskEnds[..|jobs|] == taskEnds;
  }

  /** The unit of one job, and what of it the window keeps. */
  method UnitInWindow(j: Job, machine: string, taskEnd: Option<Tick>, since: Tick, until: Tick)
    returns (u: Option<Unit>, kept: Option<Unit>)
    ensures u.Some? <==> Candidate(j, machine) && Claimed(j)
    ensures u.Some? <==>
              && j.machine == machine && j.role == Builder
              && exists e :: e in j.events && e.kind == Claim && e.at.Some?
    ensures u.Some? ==> IsUnitOf(u.value, j, taskEnd, until) && kept == Keep(u.value, since, until)
    ensures u.None? ==> kept.None?
    // it keeps what held a slot in the window, and leaves an end open only inside it
    ensures u.Some? ==> (kept.Some? <==> u.value.from < until && since < u.value.until)
    ensures kept.Some? ==>
              var end := u.value.unknownFrom;
              kept.value == u.value.(unknownFrom := if end.Some? && end.value < until then end else None)
  {
    if j.machine != machine || !j.role.Builder? { return None, None; }
    var observed;
    u, observed := UnitFor(j, taskEnd, until);
    if u.None? { return None, None; }
    if u.value.from >= until || u.value.until <= since { return u, None; }
    kept := u;
    if kept.value.unknownFrom.Some? && kept.value.unknownFrom.value >= until {
      kept := Some(kept.value.(unknownFrom := None));
    }
  }

  lemma NoUnitsYet(machine: string, since: Tick, until: Tick)
    ensures UnitsOf([], [], [], machine, until) && Select([], since, until) == []
  {}

  lemma SelectNext(all: seq<Unit>, u: Unit, since: Tick, until: Tick)
    ensures Select(all + [u], since, until) ==
            Select(all, since, until) + (if Keep(u, since, until).Some? then [Keep(u, since, until).value] else [])
  {
    assert (all + [u])[..|all|] == all;
  }

  /** None of them has a worker attached yet. */
  lemma {:induction false} SelectedIdle(all: seq<Unit>, since: Tick, until: Tick)
    requires forall k :: 0 <= k < |all| ==> all[k].workers == []
    ensures forall k :: 0 <= k < |Select(all, since, until)| ==> Select(all, since, until)[k].workers == []
    decreases |all|
  {
    if all != [] { SelectedIdle(all[..|all| - 1], since, until); }
  }

  lemma NoUnitAdded(all: seq<Unit>, jobs: seq<Job>, taskEnds: seq<Option<Tick>>, j: Job, taskEnd: Option<Tick>,
                    machine: string, until: Tick)
    requires |taskEnds| == |jobs| && UnitsOf(all, jobs, taskEnds, machine, until)
    requires !Candidate(j, machine) || !Claimed(j)
    ensures UnitsOf(all, jobs + [j], taskEnds + [taskEnd], machine, until)
  {
    assert (jobs + [j])[..|jobs|] == jobs && (taskEnds + [taskEnd])[..|jobs|] == taskEnds;
  }

  lemma UnitAdded(all: seq<Unit>, jobs: seq<Job>, taskEnds: seq<Option<Tick>>, j: Job, taskEnd: Option<Tick>,
                  machine: string, until: Tick, u: Unit)
    requires |taskEnds| == |jobs| && UnitsOf(all, jobs, taskEnds, machine, until)
    requires Candidate(j, machine) && Claimed(j) && IsUnitOf(u, j, taskEnd, until)
    ensures UnitsOf(all + [u], jobs + [j], taskEnds + [taskEnd], machine, until)
  {
    assert (jobs + [j])[..|jobs|] == jobs && (taskEnds + [taskEnd])[..|jobs|] == taskEnds;
    assert (all + [u])[..|all|] == all;
  }

  lemma {:induction false} UnitsStartIdle(all: seq<Unit>, jobs: seq<Job>, taskEnds: seq<Option<Tick>>,
                                        machine: string, until: Tick)
    requires |taskEnds| == |jobs| && UnitsOf(all, jobs, taskEnds, machine, until)
    ensures FromUnitFor(all, until) && forall k :: 0 <= k < |all| ==> all[k].workers == []
    decreases |jobs|
  {
    if jobs != [] {
      var n := |jobs| - 1;
      if Candidate(jobs[n], machine) && Claimed(jobs[n]) {
        UnitsStartIdle(all[..|all| - 1], jobs[..n], taskEnds[..n], machine, until);
        assert all == all[..|all| - 1] + [all[|all| - 1]];
      } else {
        UnitsStartIdle(all, jobs[..n], taskEnds[..n], machine, until);
      }
    }
  }

  /** The unit a lane's workers belong to: the last builder with that lane. */
  ghost predicate OwnsLane(units: seq<Unit>, i: int, lane: string) {
    && 0 <= i < |units| && units[i].job.lane == lane && lane != ""
    && forall k :: i < k < |units| ==> units[k].job.lane != lane
  }

  /** The unit of each lane: a later builder of the lane takes it over. */
  method LaneOwners(spans: seq<Unit>) returns (byLane: map<string, nat>)
    ensures forall lane :: lane in byLane && lane != "" ==> OwnsLane(spans, byLane[lane], lane)
    ensures forall i :: 0 <= i < |spans| ==> spans[i].job.lane in byLane
  {
    byLane := map[];
    for i := 0 to |spans|
      invariant forall lane :: lane in byLane ==> byLane[lane] < i && spans[byLane[lane]].job.lane == lane
      invariant forall lane, k :: lane in byLane && byLane[lane] < k < i ==> spans[k].job.lane != lane
      invariant forall k :: 0 <= k < i ==> spans[k].job.lane in byLane
    {
      byLane := byLane[spans[i].job.lane := i];
    }
  }

  ghost predicate WorksFor(w: Job, jobs: seq<Job>, machine: string, spans: seq<Unit>, i: int) {
    w in jobs && w.role.Worker? && w.machine == machine && OwnsLane(spans, i, w.lane)
  }

  ghost predicate Attached(units: seq<Unit>, jobs: seq<Job>, machine: string, spans: seq<Unit>) {
    && |units| == |spans|
    && (forall i :: 0 <= i < |units| ==> units[i].(workers := []) == spans[i])
    && (forall i, w :: 0 <= i < |units| ==> (w in units[i].workers <==> WorksFor(w, jobs, machine, spans, i)))
  }

  /** Workers only decide between working and held; they never change when a slot is held. */
  method AttachWorkers(spans: seq<Unit>, jobs: seq<Job>, machine: string) returns (units: seq<Unit>)
    requires forall k :: 0 <= k < |spans| ==> spans[k].workers == []
    ensures Attached(units, jobs, machine, spans)
  {
    var byLane := LaneOwners(spans);
    units := spans;
    for n := 0 to |jobs|
      invariant Attached(units, jobs[..n], machine, spans)
    {
      var w := jobs[n];
      assert jobs[..n + 1] == jobs[..n] + [w];
      ghost var was := units;
      if w.role.Worker? && w.machine == machine && w.lane in byLane && w.lane != "" {
        var k := byLane[w.lane];
        units := units[k := units[k].(workers := units[k].workers + [w])];
      }
      AttachOne(was, units, jobs[..n], w, machine, spans, byLane);
    }
    assert jobs[..|jobs|] == jobs;
  }

  lemma AttachOne(was: seq<Unit>, units: seq<Unit>, jobs: seq<Job>, w: Job,
                    machine: string, spans: seq<Unit>, byLane: map<string, nat>)
    requires Attached(was, jobs, machine, spans)
    requires forall lane :: lane in byLane && lane != "" ==> OwnsLane(spans, byLane[lane], lane)
    requires forall i :: 0 <= i < |spans| ==> spans[i].job.lane in byLane
    requires |was| == |spans|
    requires if w.role.Worker? && w.machine == machine && w.lane in byLane && w.lane != "" && byLane[w.lane] < |was|
             then var k := byLane[w.lane]; units == was[k := was[k].(workers := was[k].workers + [w])]
             else units == was
    ensures Attached(units, jobs + [w], machine, spans)
  {
    forall i, v | 0 <= i < |units|
      ensures v in units[i].workers <==> WorksFor(v, jobs + [w], machine, spans, i)
    {
      assert v in was[i].workers <==> WorksFor(v, jobs, machine, spans, i);
    }
  }

  // ---- the window

  /** The window's first minute starts at or before Since. */
  function WindowStart(since: Tick): (start: Tick)
    requires since >= 0
    ensures start <= since < start + MINUTE
  {
    since - since % MINUTE
  }

  function WindowMinutes(start: Tick, until: Tick): (n: nat)
    ensures start + n * MINUTE <= Max(start, until) < start + (n + 1) * MINUTE
  {
    if until < start then 0 else (until - start) / MINUTE
  }

  ghost predicate Window(k: Machine, since: Tick, until: Tick) {
    since >= 0 && k.start == WindowStart(since) && |k.ready| == WindowMinutes(k.start, until)
  }

  // ---- what a machine's report is about

  ghost predicate FromUnitFor(all: seq<Unit>, until: Tick) {
    forall i :: 0 <= i < |all| && all[i].unknownFrom.Some? ==> all[i].until == until
  }

  /** k reports on exactly the units of all that the window keeps. */
  ghost predicate ReportsOn(k: Machine, all: seq<Unit>, since: Tick, until: Tick) {
    && Window(k, since, until) && FromUnitFor(all, until)
    && SameSpans(k.units, Select(all, since, until))
  }

  /** The units but for the workers attached to them. */
  ghost predicate SameSpans(units: seq<Unit>, spans: seq<Unit>) {
    |units| == |spans| && forall i :: 0 <= i < |units| ==> units[i].(workers := []) == spans[i].(workers := [])
  }

  lemma {:induction false} WorkersHoldNothing(units: seq<Unit>, spans: seq<Unit>, ends: seq<Tick>, t: Tick)
    requires SameSpans(units, spans) && |ends| == |spans|
    ensures HeldCount(units, ends, t) == HeldCount(spans, ends, t)
    decreases |units|
  {
    if units != [] {
      var n := |units| - 1;
      assert units[n].(workers := []) == spans[n].(workers := []);
      assert Holds(units[n], ends[n], t) == Holds(spans[n], ends[n], t);
      WorkersHoldNothing(units[..n], spans[..n], ends[..n], t);
    }
  }

  lemma MinuteInWindow(k: Machine, since: Tick, until: Tick, m: nat)
    requires Window(k, since, until) && m < |k.ready|
    ensures since < until && k.start + m * MINUTE < until
    ensures m > 0 ==> since <= k.start + m * MINUTE
  {
    assert (m + 1) * MINUTE <= |k.ready| * MINUTE;
    assert (m + 1) * MINUTE == m * MINUTE + MINUTE;
    assert m > 0 ==> m * MINUTE >= MINUTE;
  }

  lemma AttachedReports(k: Machine, jobs: seq<Job>, machine: string, all: seq<Unit>, since: Tick, until: Tick)
    requires Window(k, since, until) && FromUnitFor(all, until)
    requires var spans := Select(all, since, until);
             Attached(k.units, jobs, machine, spans) && forall i :: 0 <= i < |spans| ==> spans[i].workers == []
    ensures ReportsOn(k, all, since, until)
  {}
}
