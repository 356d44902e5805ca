/** metrics.go, stateAt and the counts of a minute: of the slots held, which are working and
    which are only held, from the words the sentinel logged. */
module SlotWork {
  import opened Common
  import opened UnitSpans
  import opened SlotReport
  import Sentinel

  /** The sentinel's log of every job. */
  type Logs = Job -> seq<Sentinel.Sample>

  // ---- what was logged at a time

  /** w was logged of t: by the last sample before t, when the next one follows within two
      minutes, or else by the first sample at t itself. */
  ghost predicate Logged(samples: seq<Sentinel.Sample>, t: Tick, w: string) {
    exists k :: AtOrAfter(samples, k, t) && LoggedAt(samples, k, t, w)
  }

  ghost predicate LoggedAt(samples: seq<Sentinel.Sample>, k: int, t: Tick, w: string)
    requires 0 <= k < |samples|
  {
    if 0 < k && samples[k].at - samples[k - 1].at <= 2 * MINUTE then w == samples[k - 1].raw
    else samples[k].at == t && w == samples[k].raw
  }

  /** Sample k is the first that is not before t. */
  ghost predicate AtOrAfter(samples: seq<Sentinel.Sample>, k: int, t: Tick) {
    0 <= k < |samples| && t <= samples[k].at && forall i :: 0 <= i < k ==> samples[i].at < t
  }

  lemma LoggedIsObserved(samples: seq<Sentinel.Sample>, t: Tick)
    requires Sentinel.InOrder(samples)
    ensures forall w :: Logged(samples, t, w) ==> Sentinel.Observed(samples, t) == Some(Sentinel.NormalizeStatus(w))
    ensures Sentinel.Observed(samples, t).Some? ==> exists w :: Logged(samples, t, w)
  {
    BeforeIsFirst(samples, t);
    var k := Sentinel.Before(samples, t);
    if k < |samples| {
      assert AtOrAfter(samples, k, t);
      forall i | AtOrAfter(samples, i, t) ensures i == k {}
      assert forall w :: Logged(samples, t, w) <==> LoggedAt(samples, k, t, w);
      var near := 0 < k && samples[k].at - samples[k - 1].at <= 2 * MINUTE;
      var word := if near then samples[k - 1].raw else samples[k].raw;
      assert near || samples[k].at == t ==> LoggedAt(samples, k, t, word);
    } else {
      forall i | AtOrAfter(samples, i, t) ensures false {}
    }
  }

  lemma {:induction false} BeforeIsFirst(samples: seq<Sentinel.Sample>, t: Tick)
    requires Sentinel.InOrder(samples)
    ensures var k := Sentinel.Before(samples, t);
            (k < |samples| ==> t <= samples[k].at) && forall i :: 0 <= i < k ==> samples[i].at < t
    decreases |samples|
  {
    if samples != [] && samples[0].at < t {
      forall i, j | 0 <= i < j < |samples| - 1 ensures samples[1..][i].at <= samples[1..][j].at {
        assert samples[i + 1].at <= samples[j + 1].at;
      }
      BeforeIsFirst(samples[1..], t);
    }
  }

  ghost predicate SaidWorking(samples: seq<Sentinel.Sample>, t: Tick) { Logged(samples, t, "working") }

  ghost predicate SaidWaiting(samples: seq<Sentinel.Sample>, t: Tick) {
    Logged(samples, t, "idle") || Logged(samples, t, "done") || Logged(samples, t, "blocked")
  }

  /** Reading the folded runs is reading the words. */
  lemma WordsRead(j: Job, samples: seq<Sentinel.Sample>, t: Tick)
    requires Sentinel.InOrder(samples) && j.status == Sentinel.Runs(samples)
    ensures Sentinel.Lookup(j.status, t) == Some(Sentinel.Working) <==> SaidWorking(samples, t)
    ensures Sentinel.Lookup(j.status, t) == Some(Sentinel.Idle) <==> SaidWaiting(samples, t)
  {
    Sentinel.RunsReportObserved(samples, t);
    LoggedIsObserved(samples, t);
    hide Sentinel.Observed, Sentinel.Runs, Sentinel.Lookup, Sentinel.NormalizeStatus, Logged;
    WordsOf(samples, t, Sentinel.Observed(samples, t));
  }

  lemma WordsOf(samples: seq<Sentinel.Sample>, t: Tick, o: Option<Sentinel.Status>)
    requires forall w :: Logged(samples, t, w) ==> o == Some(Sentinel.NormalizeStatus(w))
    requires o.Some? ==> exists w :: Logged(samples, t, w)
    ensures o == Some(Sentinel.Working) <==> SaidWorking(samples, t)
    ensures o == Some(Sentinel.Idle) <==> SaidWaiting(samples, t)
  {
    hide Sentinel.NormalizeStatus, Logged;
    forall w | Logged(samples, t, w)
      ensures o == Some(Sentinel.Working) <==> w == "working"
      ensures o == Some(Sentinel.Idle) <==> w == "idle" || w == "done" || w == "blocked"
    {
      WordsMean(w);
    }
  }

  lemma WordsMean(w: string)
    ensures Sentinel.NormalizeStatus(w).Working? <==> w == "working"
    ensures Sentinel.NormalizeStatus(w).Idle? <==> w == "idle" || w == "done" || w == "blocked"
    ensures Sentinel.NormalizeStatus(w).Gone? <==> w == "err:agent_not_found"
  {}

  // ---- what the job's events say

  /** The first n events are read: the next one, if any, is untimed or after t. */
  ghost predicate ReadUpTo(events: seq<JobEvent>, n: nat, t: Tick) {
    && n <= |events| && (forall k :: 0 <= k < n ==> Reached(events[k], t))
    && (n < |events| ==> !Reached(events[n], t))
  }

  predicate Reached(e: JobEvent, t: Tick) { e.at.Some? && e.at.value <= t }

  predicate Reports(k: JobEventKind) { k.Joined? || k.Completed? || k.Escalate? }

  predicate StartsAgain(k: JobEventKind) { k.Reclaim? || k.Spawned? }

  /** By t the builder had reported or asked, and was not started again since. */
  ghost predicate WaitsByEvents(events: seq<JobEvent>, t: Tick) {
    exists n: nat :: ReadUpTo(events, n, t) && LastReports(events, n)
  }

  ghost predicate LastReports(events: seq<JobEvent>, n: nat)
    requires n <= |events|
  {
    exists i :: 0 <= i < n && Reports(events[i].kind) && forall k :: i < k < n ==> !StartsAgain(events[k].kind)
  }

  lemma EventsDecide(events: seq<JobEvent>, t: Tick)
    ensures EventState(events, true, t) <==> !WaitsByEvents(events, t)
  {
    var n := StopsReading(events, true, t);
    PrefixState(events, n, t);
    forall m: nat | ReadUpTo(events, m, t) ensures m == n {}
  }

  lemma {:induction false} StopsReading(events: seq<JobEvent>, working: bool, t: Tick) returns (n: nat)
    ensures ReadUpTo(events, n, t) && EventState(events, working, t) == EventState(events[..n], working, t)
    decreases |events|
  {
    n := 0;
    if |events| > 0 && Reached(events[0], t) {
      var k := events[0].kind;
      n := StopsReading(events[1..], if Reports(k) then false else if StartsAgain(k) then true else working, t);
      assert events[..n + 1][1..] == events[1..][..n];
      assert forall i :: 0 <= i < n ==> events[i + 1] == events[1..][i];
      assert forall i :: 1 <= i < n + 1 ==> events[i] == events[1..][i - 1];
      n := n + 1;
    }
  }

  lemma {:induction false} PrefixState(events: seq<JobEvent>, n: nat, t: Tick)
    requires n <= |events| && forall k :: 0 <= k < n ==> Reached(events[k], t)
    ensures EventState(events[..n], true, t) <==> !LastReports(events, n)
  {
    if n > 0 {
      PrefixState(events, n - 1, t);
      var init, e := events[..n - 1], events[n - 1];
      assert init + [e] == events[..n];
      EventStateSnoc(init, e, true, t);
      if Reports(e.kind) { assert Reports(events[n - 1].kind); }
      if LastReports(events, n - 1) && !StartsAgain(e.kind) {
        var i :| 0 <= i < n - 1 && Reports(events[i].kind)
              && forall k :: i < k < n - 1 ==> !StartsAgain(events[k].kind);
        assert forall k :: i < k < n ==> !StartsAgain(events[k].kind);
      }
    }
  }

  lemma {:induction false} EventStateSnoc(events: seq<JobEvent>, e: JobEvent, working: bool, t: Tick)
    requires Reached(e, t) && forall k :: 0 <= k < |events| ==> Reached(events[k], t)
    ensures EventState(events + [e], working, t) ==
            if Reports(e.kind) then false else if StartsAgain(e.kind) then true else EventState(events, working, t)
    decreases |events|
  {
    var all := events + [e];
    if |events| == 0 {
      assert all[1..] == [];
    } else {
      var k := events[0].kind;
      assert all[1..] == events[1..] + [e];
      EventStateSnoc(events[1..], e, if Reports(k) then false else if StartsAgain(k) then true else working, t);
    }
  }

  // ---- what a unit is doing

  /** The statuses of a unit's jobs are what the logs fold to. */
  ghost predicate FromLogs(u: Unit, logs: Logs) {
    Follows(u.job, logs) && forall w :: w in u.workers ==> Follows(w, logs)
  }

  ghost predicate Follows(j: Job, logs: Logs) {
    Sentinel.InOrder(logs(j)) && j.status == Sentinel.Runs(logs(j))
  }

  /** At t the unit holds its slot beyond doubt. */
  predicate HoldsSurely(u: Unit, t: Tick) {
    u.from <= t < u.until && (u.unknownFrom.Some? ==> t < u.unknownFrom.value)
  }

  /** Some worker of it was seen working, or its builder was; or the builder was seen neither
      working nor waiting, and by its events it is not waiting. */
  ghost predicate Works(u: Unit, logs: Logs, t: Tick) {
    || (exists w :: w in u.workers && SaidWorking(logs(w), t))
    || SaidWorking(logs(u.job), t)
    || (!SaidWaiting(logs(u.job), t) && !WaitsByEvents(u.job.events, t))
  }

  lemma StateExactly(u: Unit, logs: Logs, t: Tick)
    requires FromLogs(u, logs)
    ensures StateAt(u, t) == Working <==> HoldsSurely(u, t) && Works(u, logs, t)
    ensures StateAt(u, t) == Held <==> HoldsSurely(u, t) && !Works(u, logs, t)
    ensures StateAt(u, t) == Unknown <==> u.from <= t && u.unknownFrom.Some? && u.unknownFrom.value <= t
  {
    forall w | w in u.workers
      ensures Sentinel.Lookup(w.status, t) == Some(Sentinel.Working) <==> SaidWorking(logs(w), t)
    {
      WordsRead(w, logs(w), t);
    }
    WordsRead(u.job, logs(u.job), t);
    EventsDecide(u.job.events, t);
    hide SaidWorking, SaidWaiting, WaitsByEvents, EventState, Sentinel.Lookup, Follows;
    assert SaidWorking(logs(u.job), t) ==> !SaidWaiting(logs(u.job), t);
  }

  /** Of the units that surely hold a slot at t, those counted as working are the ones that
      work, and those counted as held the others. */
  lemma CountsExactly(units: seq<Unit>, logs: Logs, t: Tick)
    requires forall u :: u in units ==> FromLogs(u, logs)
    ensures CountState(units, t, Working)
         == |set i: nat | i < |units| && HoldsSurely(units[i], t) && Works(units[i], logs, t)|
    ensures CountState(units, t, Held)
         == |set i: nat | i < |units| && HoldsSurely(units[i], t) && !Works(units[i], logs, t)|
  {
    CountIsSize(units, t, Working);
    CountIsSize(units, t, Held);
    forall i: nat | i < |units|
      ensures StateAt(units[i], t) == Working <==> HoldsSurely(units[i], t) && Works(units[i], logs, t)
      ensures StateAt(units[i], t) == Held <==> HoldsSurely(units[i], t) && !Works(units[i], logs, t)
    {
      StateExactly(units[i], logs, t);
    }
    hide StateAt, Works, FromLogs;
    assert InState(units, t, Working)
        == set i: nat | i < |units| && HoldsSurely(units[i], t) && Works(units[i], logs, t);
    assert InState(units, t, Held)
        == set i: nat | i < |units| && HoldsSurely(units[i], t) && !Works(units[i], logs, t);
  }

  ghost function InState(units: seq<Unit>, t: Tick, st: UnitState): set<nat> {
    set i: nat | i < |units| && StateAt(units[i], t) == st
  }

  lemma {:induction false} CountIsSize(units: seq<Unit>, t: Tick, st: UnitState)
    ensures CountState(units, t, st) == |InState(units, t, st)|
    decreases |units|
  {
    hide StateAt;
    if |units| == 0 {
      assert InState(units, t, st) == {};
    } else {
      var n := |units| - 1;
      CountIsSize(units[..n], t, st);
      var before := InState(units[..n], t, st);
      assert n !in before && forall i: nat :: i in before <==> i < n && StateAt(units[i], t) == st;
      if StateAt(units[n], t) == st {
        assert InState(units, t, st) == before + {n};
      } else {
        assert InState(units, t, st) == before;
      }
    }
  }

  // ---- working instead of idle

  /** The same unit but for what was seen of its builder: at t the same, or working where it
      was idle. */
  ghost predicate SeenWorkingInstead(u: Unit, v: Unit, t: Tick) {
    && v == u.(job := u.job.(status := v.job.status))
    && var was, now := Sentinel.Lookup(u.job.status, t), Sentinel.Lookup(v.job.status, t);
       now == was || (was == Some(Sentinel.Idle) && now == Some(Sentinel.Working))
  }

  /** It moves a slot from held to working at most, and touches nothing else of the minute. */
  lemma MinuteSeenWorking(units: seq<Unit>, i: nat, v: Unit, timeline: seq<Capacity>, ready: int, t: Tick)
    requires i < |units| && SeenWorkingInstead(units[i], v, t)
    ensures var r, q := RowAt(units, timeline, ready, t), RowAt(units[i := v], timeline, ready, t);
            && r.working <= q.working && q.held <= r.held && q.working + q.held == r.working + r.held
            && q.cap == r.cap && q.ready == r.ready && q.unknown == r.unknown
            && (r.cap >= 0 ==> WorkingShare(r) <= WorkingShare(q) && HeldShare(q) <= HeldShare(r))
  {
    CountReplaced(units, i, v, t, Working);
    CountReplaced(units, i, v, t, Held);
    CountReplaced(units, i, v, t, Unknown);
  }

  lemma {:induction false} CountReplaced(units: seq<Unit>, i: nat, v: Unit, t: Tick, st: UnitState)
    requires i < |units|
    ensures CountState(units[i := v], t, st) + (if StateAt(units[i], t) == st then 1 else 0)
         == CountState(units, t, st) + (if StateAt(v, t) == st then 1 else 0)
    decreases |units|
  {
    hide StateAt;
    var n := |units| - 1;
    if i < n {
      assert units[i := v][..n] == units[..n][i := v];
      CountReplaced(units[..n], i, v, t, st);
    } else {
      assert units[i := v][..n] == units[..n];
    }
  }

  /** Over a window: seeing a builder work where it was seen idle never lowers the working
      slot-minutes, never raises the held ones, and leaves their sum and the empty ones alone. */
  lemma {:induction false} SeenWorking(k: Machine, i: nat, v: Unit, n: nat)
    requires i < |k.units| && n <= |k.ready|
    requires forall m :: 0 <= m < n ==> SeenWorkingInstead(k.units[i], v, k.start + m * MINUTE)
    ensures var q := k.(units := k.units[i := v]);
            && Over(k, WorkingShare, n) <= Over(q, WorkingShare, n) && Over(q, HeldShare, n) <= Over(k, HeldShare, n)
            && LowSum(q, n) == LowSum(k, n) && HighSum(q, n) == HighSum(k, n)
            && Over(q, UnobservedShare, n) == Over(k, UnobservedShare, n)
  {
    hide RowAt, SeenWorkingInstead;
    if n > 0 {
      SeenWorking(k, i, v, n - 1);
      MinuteSeenWorking(k.units, i, v, k.timeline, k.ready[n - 1], k.start + (n - 1) * MINUTE);
    }
  }
}
