/** metrics.go: when a builder holds its task slot, and what it is doing at a minute. */
module UnitSpans {
  import opened Common
  import Sentinel

  datatype JobEventKind =
    | Claim | Reaped | Lost | Revoked | QuotaRelease
    | Joined | Completed | Escalate | Reclaim | Spawned | OtherEvent

  datatype JobEvent = JobEvent(kind: JobEventKind, at: Option<Tick>)

  datatype Role = Builder | Worker | NoRole

  datatype Job = Job(machine: string, role: Role, lane: string, live: bool,
                      events: seq<JobEvent>, status: seq<Sentinel.Run>)

  /** A unit holds its slot over [from, until); from unknownFrom on, if any, it may or may not. */
  datatype Unit = Unit(job: Job, from: Tick, until: Tick, unknownFrom: Option<Tick>, workers: seq<Job>)

  predicate EndsSlot(k: JobEventKind): (ends: bool)
    ensures ends <==> k in {Reaped, Lost, Revoked, QuotaRelease}
  { k.Reaped? || k.Lost? || k.Revoked? || k.QuotaRelease? }

  // ---- what unitFor looks for

  /** Time t is recorded as an end of j's slot. */
  ghost predicate EndRecorded(j: Job, taskEnd: Option<Tick>, until: Tick, t: Tick) {
    || (exists i :: 0 <= i < |j.events| && EndsSlot(j.events[i].kind) && j.events[i].at == Some(t))
    || (exists i :: FirstGone(j.status, i) && j.status[i].from == t)
    || taskEnd == Some(t)
    || (j.live && t == until)
  }

  ghost predicate FirstGone(status: seq<Sentinel.Run>, i: int) {
    0 <= i < |status| && status[i].status.Gone? && forall k :: 0 <= k < i ==> !status[k].status.Gone?
  }

  /** The first claim event with a time, as the scan finds it. */
  ghost predicate ClaimedAt(events: seq<JobEvent>, t: Tick) {
    exists i :: 0 <= i < |events| && events[i] == JobEvent(Claim, Some(t))
      && forall k :: 0 <= k < i ==> !(events[k].kind.Claim? && events[k].at.Some?)
  }

  /** Nothing of j was observed after t. */
  ghost predicate NothingAfter(j: Job, t: Tick) {
    && (forall i :: 0 <= i < |j.events| && j.events[i].at.Some? ==> j.events[i].at.value <= t)
    && (forall i :: 0 <= i < |j.status| && !j.status[i].status.Gone? ==> j.status[i].until <= t)
  }

  /** j was last observed at t. */
  ghost predicate LastObserved(j: Job, t: Tick) {
    && NothingAfter(j, t)
    && ((exists e :: e in j.events && e.at == Some(t)) || (exists r :: r in j.status && r.until == t))
  }

  /** The unit of a claimed job: from its first claim to its earliest recorded end, not before
      the claim; without one it may end at any time from the last observation on. */
  ghost predicate IsUnitOf(u: Unit, j: Job, taskEnd: Option<Tick>, until: Tick) {
    && u.job == j && u.workers == [] && ClaimedAt(j.events, u.from)
    && (u.unknownFrom.None? ==>
          exists t :: EndRecorded(j, taskEnd, until, t) && u.until == Max(u.from, t)
            && forall t' :: EndRecorded(j, taskEnd, until, t') ==> t <= t')
    && (u.unknownFrom.Some? ==>
          && (forall t :: !EndRecorded(j, taskEnd, until, t))
          && u.until == until && u.from <= u.unknownFrom.value && LastObserved(j, u.unknownFrom.value))
  }

  function Earlier(end: Option<Tick>, t: Option<Tick>): Option<Tick> {
    if t.Some? && (end.None? || t.value < end.value) then t else end
  }

  /** None when the claim time is missing; observed says whether an end is recorded. */
  method UnitFor(j: Job, taskEnd: Option<Tick>, until: Tick) returns (unit: Option<Unit>, observed: bool)
    ensures unit.None? <==> forall e :: e in j.events && e.kind.Claim? ==> e.at.None?
    ensures unit.Some? ==> IsUnitOf(unit.value, j, taskEnd, until)
    ensures unit.Some? ==> (observed <==> unit.value.unknownFrom.None?)
  {
    var start, end, last := ScanEvents(j.events);
    if start.None? { return None, false; }
    ghost var fromEvents := end;
    var gone: Option<Tick> := None;
    for i := 0 to |j.status|
      invariant gone.None? && last.Some? && start.value <= last.value
      invariant forall k :: 0 <= k < i ==> !j.status[k].status.Gone? && j.status[k].until <= last.value
      invariant (exists e :: e in j.events && e.at == last) || exists k :: 0 <= k < i && j.status[k].until == last.value
      invariant forall k :: 0 <= k < |j.events| && j.events[k].at.Some? ==> j.events[k].at.value <= last.value
    {
      var r := j.status[i];
      if r.status.Gone? {
        gone := Some(r.from);
        assert FirstGone(j.status, i);
        break;
      }
      if last.None? || r.until > last.value { last := Some(r.until); }
    }
    assert gone.None? ==> forall i :: !FirstGone(j.status, i);
    end := Earlier(Earlier(Earlier(end, gone), taskEnd), if j.live then Some(until) else None);
    if end.None? {
      return Some(Unit(j, start.value, until, last, [])), false;
    }
    var stop := if end.value < start.value then start.value else end.value;
    EarliestOf(j, taskEnd, until, fromEvents, gone, end);
    return Some(Unit(j, start.value, stop, None, [])), true;
  }

  /** The first pass: the claim, the earliest terminal event, the last event. */
  method ScanEvents(events: seq<JobEvent>) returns (start: Option<Tick>, end: Option<Tick>, last: Option<Tick>)
    ensures start.None? <==> forall e :: e in events && e.kind.Claim? ==> e.at.None?
    ensures start.Some? ==> ClaimedAt(events, start.value) && last.Some? && start.value <= last.value
    ensures EarliestEnd(events, end)
    ensures last.Some? ==> exists e :: e in events && e.at == last
    ensures forall k :: 0 <= k < |events| && events[k].at.Some? ==> last.Some? && events[k].at.value <= last.value
  {
    start, end, last := None, None, None;
    for i := 0 to |events|
      invariant start.None? ==> forall k :: 0 <= k < i && events[k].kind.Claim? ==> events[k].at.None?
      invariant start.Some? ==> ClaimedAt(events, start.value) && last.Some? && start.value <= last.value
      invariant start.Some? ==> exists k :: 0 <= k < i && events[k] == JobEvent(Claim, start)
      invariant EarliestEnd(events[..i], end)
      invariant last.Some? ==> exists e :: e in events && e.at == last
      invariant forall k :: 0 <= k < i && events[k].at.Some? ==> last.Some? && events[k].at.value <= last.value
    {
      var e := events[i];
      assert events[..i + 1] == events[..i] + [e];
      if e.at.None? { continue; }
      if e.kind.Claim? && start.None? { start := e.at; }
      if last.None? || e.at.value > last.value { last := e.at; }
      if EndsSlot(e.kind) { end := Earlier(end, e.at); }
    }
    assert events[..|events|] == events;
  }

  /** end is the earliest time of a terminal event, None without one. */
  ghost predicate EarliestEnd(events: seq<JobEvent>, end: Option<Tick>) {
    && (end.Some? ==> exists i :: 0 <= i < |events| && EndsSlot(events[i].kind) && events[i].at == end)
    && (forall i :: 0 <= i < |events| && EndsSlot(events[i].kind) && events[i].at.Some? ==>
          end.Some? && end.value <= events[i].at.value)
  }

  lemma EarliestOf(j: Job, taskEnd: Option<Tick>, until: Tick,
                     fromEvents: Option<Tick>, gone: Option<Tick>, end: Option<Tick>)
    requires EarliestEnd(j.events, fromEvents)
    requires gone.Some? ==> exists i :: FirstGone(j.status, i) && j.status[i].from == gone.value
    requires gone.None? ==> forall i :: !FirstGone(j.status, i)
    requires end == Earlier(Earlier(Earlier(fromEvents, gone), taskEnd), if j.live then Some(until) else None)
    requires end.Some?
    ensures EndRecorded(j, taskEnd, until, end.value)
    ensures forall t :: EndRecorded(j, taskEnd, until, t) ==> end.value <= t
  {}

  // ---- the recorded claim and end of any job

  /** The first claim with a time. */
  function FirstClaim(events: seq<JobEvent>): (t: Option<Tick>)
    ensures t.None? <==> forall i :: 0 <= i < |events| && events[i].kind.Claim? ==> events[i].at.None?
    ensures forall at :: ClaimedAt(events, at) <==> t == Some(at)
  {
    if events == [] then None
    else if events[0].kind.Claim? && events[0].at.Some? then events[0].at
    else
      assert forall i :: 0 < i < |events| ==> events[1..][i - 1] == events[i];
      var t := FirstClaim(events[1..]);
      assert t.Some? ==> ClaimedAt(events[1..], t.value);
      ClaimedInTail(events);
      t
  }

  lemma ClaimedInTail(events: seq<JobEvent>)
    requires events != [] && !(events[0].kind.Claim? && events[0].at.Some?)
    ensures forall at :: ClaimedAt(events, at) <==> ClaimedAt(events[1..], at)
  {
    var rest := events[1..];
    forall at ensures ClaimedAt(events, at) <==> ClaimedAt(rest, at) {
      if ClaimedAt(events, at) {
        var i :| 0 <= i < |events| && events[i] == JobEvent(Claim, Some(at))
              && forall k :: 0 <= k < i ==> !(events[k].kind.Claim? && events[k].at.Some?);
        assert rest[i - 1] == JobEvent(Claim, Some(at));
        assert forall k :: 0 <= k < i - 1 ==> rest[k] == events[k + 1];
      }
      if ClaimedAt(rest, at) {
        var i :| 0 <= i < |rest| && rest[i] == JobEvent(Claim, Some(at))
              && forall k :: 0 <= k < i ==> !(rest[k].kind.Claim? && rest[k].at.Some?);
        assert events[i + 1] == JobEvent(Claim, Some(at));
        assert forall k :: 0 < k < i + 1 ==> events[k] == rest[k - 1];
      }
    }
  }

  function EventEnd(events: seq<JobEvent>): (end: Option<Tick>)
    ensures EarliestEnd(events, end)
  {
    if events == [] then None
    else
      var init, e := events[..|events| - 1], events[|events| - 1];
      assert events == init + [e];
      var end := EventEnd(init);
      if EndsSlot(e.kind) then Earlier(end, e.at) else end
  }

  function GoneFrom(status: seq<Sentinel.Run>): (t: Option<Tick>)
    ensures t.None? ==> forall i :: !FirstGone(status, i)
    ensures t.Some? ==> exists i :: FirstGone(status, i) && status[i].from == t.value
  {
    if status == [] then None
    else if status[0].status.Gone? then
      assert FirstGone(status, 0);
      Some(status[0].from)
    else
      assert forall i :: 0 < i < |status| ==> status[1..][i - 1] == status[i];
      assert forall i :: FirstGone(status, i) ==> FirstGone(status[1..], i - 1);
      assert forall i :: FirstGone(status[1..], i) ==> FirstGone(status, i + 1);
      GoneFrom(status[1..])
  }

  /** The earliest recorded end of a job's slot. */
  function RecordedEnd(j: Job, taskEnd: Option<Tick>, until: Tick): (end: Option<Tick>)
    ensures end.None? <==> forall t :: !EndRecorded(j, taskEnd, until, t)
    ensures end.Some? ==> EndRecorded(j, taskEnd, until, end.value)
    ensures end.Some? ==> forall t :: EndRecorded(j, taskEnd, until, t) ==> end.value <= t
  {
    var events, gone := EventEnd(j.events), GoneFrom(j.status);
    var end := Earlier(Earlier(Earlier(events, gone), taskEnd), if j.live then Some(until) else None);
    if end.Some? then
      EarliestOf(j, taskEnd, until, events, gone, end);
      end
    else end
  }

  /** The job's first claim has no time, so its slot began before any timed one. */
  predicate UntimedClaim(events: seq<JobEvent>) {
    if events == [] then false
    else if events[0].kind.Claim? then events[0].at.None?
    else UntimedClaim(events[1..])
  }

  /** Some end of the slot has no time. */
  predicate UntimedEnd(events: seq<JobEvent>) {
    exists i :: 0 <= i < |events| && EndsSlot(events[i].kind) && events[i].at.None?
  }

  function Later(a: Option<Tick>, b: Option<Tick>): Option<Tick> {
    if b.Some? && (a.None? || b.value > a.value) then b else a
  }

  function LastEvent(events: seq<JobEvent>): (t: Option<Tick>)
    ensures forall i :: 0 <= i < |events| && events[i].at.Some? ==> t.Some? && events[i].at.value <= t.value
    ensures t.Some? ==> exists e :: e in events && e.at == t
  {
    if events == [] then None
    else
      var init, e := events[..|events| - 1], events[|events| - 1];
      assert events == init + [e];
      Later(LastEvent(init), e.at)
  }

  function LastSample(status: seq<Sentinel.Run>): (t: Option<Tick>)
    ensures forall i :: 0 <= i < |status| ==> t.Some? && status[i].until <= t.value
    ensures t.Some? ==> exists r :: r in status && r.until == t.value
  {
    if status == [] then None
    else
      var init, r := status[..|status| - 1], status[|status| - 1];
      assert status == init + [r];
      Later(LastSample(init), Some(r.until))
  }

  /** When the job was last observed, if no gone pane was. */
  function LastSeen(j: Job): Option<Tick> {
    Later(LastEvent(j.events), LastSample(j.status))
  }

  lemma LastSeenIsLast(j: Job, t: Tick)
    requires LastObserved(j, t) && forall i :: !FirstGone(j.status, i)
    ensures LastSeen(j) == Some(t)
  {
    NoneGone(j.status, |j.status|);
    var seen := LastSeen(j);
    if e :| e in j.events && e.at == Some(t) {
      var i :| 0 <= i < |j.events| && j.events[i] == e;
    } else {
      var r :| r in j.status && r.until == t;
      var i :| 0 <= i < |j.status| && j.status[i] == r;
    }
    assert seen.Some? && t <= seen.value;
    assert (exists e :: e in j.events && e.at == seen) || (exists r :: r in j.status && r.until == seen.value);
  }

  lemma {:induction false} NoneGone(status: seq<Sentinel.Run>, n: nat)
    requires n <= |status| && forall i :: !FirstGone(status, i)
    ensures forall i :: 0 <= i < n ==> !status[i].status.Gone?
  {
    if n > 0 {
      NoneGone(status, n - 1);
      assert !FirstGone(status, n - 1);
    }
  }

  // ---- the state at a time

  datatype UnitState = NoSlot | Working | Held | Unknown

  /** After it reported, or while an escalation is unanswered, a builder only waits. */
  function EventState(events: seq<JobEvent>, working: bool, t: Tick): bool {
    if events == [] || events[0].at.None? || events[0].at.value > t then working
    else
      var k := events[0].kind;
      EventState(events[1..], if k.Joined? || k.Completed? || k.Escalate? then false
                              else if k.Reclaim? || k.Spawned? then true else working, t)
  }

  /** What the last deciding event at or before t says. */
  function LastWord(events: seq<JobEvent>, t: Tick): bool {
    if events == [] then true
    else
      var e := events[|events| - 1];
      if e.at.Some? && e.at.value <= t && (e.kind.Joined? || e.kind.Completed? || e.kind.Escalate?) then false
      else if e.at.Some? && e.at.value <= t && (e.kind.Reclaim? || e.kind.Spawned?) then true
      else LastWord(events[..|events| - 1], t)
  }

  ghost predicate TimedInOrder(events: seq<JobEvent>) {
    && (forall i :: 0 <= i < |events| ==> events[i].at.Some?)
    && (forall i, j :: 0 <= i < j < |events| ==> events[i].at.value <= events[j].at.value)
  }

  lemma {:induction false} EventStateAppend(events: seq<JobEvent>, e: JobEvent, working: bool, t: Tick)
    requires TimedInOrder(events + [e])
    ensures e.at.Some? && EventState(events + [e], working, t) ==
            if e.at.value > t then EventState(events, working, t)
            else EventState([e], EventState(events, working, t), t)
  {
    var all := events + [e];
    assert all[|events|] == e;
    if events == [] {
      assert all == [e];
    } else {
      assert all[0] == events[0] && all[1..] == events[1..] + [e];
      assert all[0].at.value <= all[|events|].at.value;
      forall i, j | 0 <= i < j < |all| - 1 ensures all[1..][i].at.value <= all[1..][j].at.value {
        assert all[i + 1].at.value <= all[j + 1].at.value;
      }
      var k := events[0].kind;
      EventStateAppend(events[1..], e, if k.Joined? || k.Completed? || k.Escalate? then false
                                       else if k.Reclaim? || k.Spawned? then true else working, t);
    }
  }

  /** Without samples, a builder works unless the last deciding event so far made it wait. */
  lemma {:induction false} EventStateIsLastWord(events: seq<JobEvent>, t: Tick)
    requires TimedInOrder(events)
    ensures EventState(events, true, t) == LastWord(events, t)
    decreases |events|
  {
    if events != [] {
      var init, e := events[..|events| - 1], events[|events| - 1];
      assert init + [e] == events && [e][1..] == [];
      EventStateAppend(init, e, true, t);
      EventStateIsLastWord(init, t);
    }
  }

  function StateAt(u: Unit, t: Tick): UnitState {
    if t < u.from then NoSlot
    else if u.unknownFrom.Some? && t >= u.unknownFrom.value then Unknown
    else if t >= u.until then NoSlot
    else if exists w :: w in u.workers && Sentinel.Lookup(w.status, t) == Some(Sentinel.Working) then Working
    else
      match Sentinel.Lookup(u.job.status, t)
      case Some(Working) => Working
      case Some(Idle) => Held
      case _ => if EventState(u.job.events, true, t) then Working else Held
  }

  /** Whether the unit holds its slot at t when it truly ended at end. The recorded end, where
      there is one, is the true one. */
  predicate Holds(u: Unit, end: Tick, t: Tick) {
    u.from <= t && if u.unknownFrom.Some? && t >= u.unknownFrom.value then t < end else t < u.until
  }

  /** A true end is a time at or after the last observation. */
  predicate CouldEnd(u: Unit, end: Tick) {
    u.unknownFrom.Some? ==> end >= u.unknownFrom.value
  }
}
