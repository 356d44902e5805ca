/** metrics.go, slots and readyMinutes: slot-minutes working, held, empty and unobserved on
    every machine, and the range the empty-with-ready minutes are known to lie in. */
module SlotReport {
  import opened Common
  import opened UnitSpans
  import TaskReplay
  import Vocabulary

  // ---- ready work

  /** Per minute: the tasks waiting to be claimed, -1 when none is seen but some task's state
      is unknown. */
  function ReadyAt(tasks: seq<TaskReplay.Task>, t: Tick): int {
    if ReadyCount(tasks, t) == 0 && AnyUnfetched(tasks, t) then -1 else ReadyCount(tasks, t)
  }

  function ReadyCount(tasks: seq<TaskReplay.Task>, t: Tick): nat {
    if tasks == [] then 0
    else
      ReadyCount(tasks[..|tasks| - 1], t) + (if IsReadyAt(tasks[|tasks| - 1], t) then 1 else 0)
  }

  predicate AnyUnfetched(tasks: seq<TaskReplay.Task>, t: Tick) {
    exists task :: task in tasks && TaskReplay.StateAtSpec(task, t).Unfetched?
  }

  predicate IsReadyAt(task: TaskReplay.Task, t: Tick) {
    var s := TaskReplay.StateAtSpec(task, t);
    s.In? && Vocabulary.IsReady(s.state)
  }

  /** The tasks in a state from which they can be claimed; -1 exactly when there is none and some
      task's state is not known. */
  lemma {:induction false} ReadyExactly(tasks: seq<TaskReplay.Task>, t: Tick)
    ensures ReadyCount(tasks, t) == |set i: nat | i < |tasks| && Claimable(tasks[i], t)|
    ensures ReadyAt(tasks, t) == -1 <==>
              && (forall i :: 0 <= i < |tasks| ==> !Claimable(tasks[i], t))
              && exists task :: task in tasks && TaskReplay.StateAtSpec(task, t) == TaskReplay.Unfetched
    decreases |tasks|
  {
    hide TaskReplay.StateAtSpec;
    var ready := set i: nat | i < |tasks| && Claimable(tasks[i], t);
    if |tasks| == 0 {
      assert ready == {};
    } else {
      var n := |tasks| - 1;
      ReadyExactly(tasks[..n], t);
      var before := set i: nat | i < n && Claimable(tasks[..n][i], t);
      assert n !in before && forall i: nat :: i in before <==> i < n && Claimable(tasks[i], t);
      assert ready == before + (if Claimable(tasks[n], t) then {n} else {});
    }
    assert ready == {} <==> forall i :: 0 <= i < |tasks| ==> !Claimable(tasks[i], t);
  }

  ghost predicate Claimable(task: TaskReplay.Task, t: Tick) {
    exists s :: TaskReplay.StateAtSpec(task, t) == TaskReplay.In(s)
      && s in {Vocabulary.Backlog, Vocabulary.Unstarted, Vocabulary.OldReopened}
  }

  /** One task's share of every minute. */
  method CountTask(task: TaskReplay.Task, start: Tick, ready: array<int>, unknown: array<bool>)
    requires ready.Length == unknown.Length
    modifies ready, unknown
    ensures forall m :: 0 <= m < ready.Length ==>
      ready[m] == old(ready[m]) + (if IsReadyAt(task, start + m * MINUTE) then 1 else 0)
    ensures forall m :: 0 <= m < ready.Length ==>
      unknown[m] == (old(unknown[m]) || TaskReplay.StateAtSpec(task, start + m * MINUTE).Unfetched?)
  {
    for m := 0 to ready.Length
      invariant forall k :: 0 <= k < ready.Length ==>
        ready[k] == old(ready[k]) + (if k < m && IsReadyAt(task, start + k * MINUTE) then 1 else 0)
      invariant forall k :: 0 <= k < ready.Length ==>
        unknown[k] == (old(unknown[k]) || (k < m && TaskReplay.StateAtSpec(task, start + k * MINUTE).Unfetched?))
    {
      var s := TaskReplay.StateAt(task, start + m * MINUTE);
      if s.In? && Vocabulary.IsReady(s.state) { ready[m] := ready[m] + 1; }
      else if s.Unfetched? { unknown[m] := true; }
    }
  }

  /** tasks in whatever order the runtime ranges over them. */
  method ReadyMinutes(tasks: seq<TaskReplay.Task>, start: Tick, minutes: nat) returns (ready: array<int>)
    ensures ready.Length == minutes && fresh(ready)
    ensures forall m :: 0 <= m < minutes ==> ready[m] == ReadyAt(tasks, start + m * MINUTE)
  {
    ready := new int[minutes](_ => 0);
    var unknown := new bool[minutes](_ => false);
    for i := 0 to |tasks|
      invariant forall m :: 0 <= m < minutes ==> ready[m] == ReadyCount(tasks[..i], start + m * MINUTE)
      invariant forall m :: 0 <= m < minutes ==> unknown[m] == AnyUnfetched(tasks[..i], start + m * MINUTE)
    {
      assert tasks[..i + 1] == tasks[..i] + [tasks[i]] && tasks[..i + 1][..i] == tasks[..i];
      CountTask(tasks[i], start, ready, unknown);
      forall m | 0 <= m < minutes
        ensures unknown[m] == AnyUnfetched(tasks[..i + 1], start + m * MINUTE)
        ensures ready[m] == ReadyCount(tasks[..i + 1], start + m * MINUTE)
      {
        UnfetchedSnoc(tasks[..i], tasks[i], start + m * MINUTE);
      }
    }
    assert tasks[..|tasks|] == tasks;
    for m := 0 to minutes
      invariant forall k :: 0 <= k < m ==> ready[k] == ReadyAt(tasks, start + k * MINUTE)
      invariant forall k :: m <= k < minutes ==> ready[k] == ReadyCount(tasks, start + k * MINUTE)
      invariant forall k :: 0 <= k < minutes ==> unknown[k] == AnyUnfetched(tasks, start + k * MINUTE)
    {
      if ready[m] == 0 && unknown[m] { ready[m] := -1; }
    }
  }

  lemma UnfetchedSnoc(tasks: seq<TaskReplay.Task>, task: TaskReplay.Task, t: Tick)
    ensures AnyUnfetched(tasks + [task], t) == (AnyUnfetched(tasks, t) || TaskReplay.StateAtSpec(task, t).Unfetched?)
  {
    assert task in tasks + [task];
    assert forall x :: x in tasks ==> x in tasks + [task];
  }

  // ---- capacity

  /** From None is in force over the whole window. */
  datatype Capacity = Capacity(slots: nat, from: Option<Tick>)

  /** The last listed entry in force at t, -1 before the first. */
  function CapAt(timeline: seq<Capacity>, t: Tick): int {
    if timeline == [] then -1
    else
      var c := timeline[|timeline| - 1];
      if InForce(c, t) then c.slots else CapAt(timeline[..|timeline| - 1], t)
  }

  lemma {:induction false} CapAtIsLastInForce(timeline: seq<Capacity>, t: Tick)
    ensures CapAt(timeline, t) == -1 <==>
              forall i :: 0 <= i < |timeline| ==> timeline[i].from.Some? && t < timeline[i].from.value
    ensures forall i :: LastInForce(timeline, i, t) ==> CapAt(timeline, t) == timeline[i].slots
    decreases |timeline|
  {
    if timeline != [] {
      var before := timeline[..|timeline| - 1];
      assert timeline == before + [timeline[|timeline| - 1]];
      CapAtIsLastInForce(before, t);
    }
  }

  ghost predicate LastInForce(timeline: seq<Capacity>, i: int, t: Tick) {
    && 0 <= i < |timeline| && (timeline[i].from.Some? ==> timeline[i].from.value <= t)
    && forall k :: i < k < |timeline| ==> timeline[k].from.Some? && t < timeline[k].from.value
  }

  predicate InForce(c: Capacity, t: Tick) {
    c.from.None? || t >= c.from.value
  }

  // ---- one minute of one machine

  datatype Row = Row(cap: int, ready: int, working: nat, held: nat, unknown: nat)

  function CountState(units: seq<Unit>, t: Tick, st: UnitState): nat {
    if units == [] then 0
    else CountState(units[..|units| - 1], t, st) + (if StateAt(units[|units| - 1], t) == st then 1 else 0)
  }

  function RowAt(units: seq<Unit>, timeline: seq<Capacity>, ready: int, t: Tick): Row {
    Row(CapAt(timeline, t), ready,
        CountState(units, t, Working), CountState(units, t, Held), CountState(units, t, Unknown))
  }

  /** The empty slots when every unit of unknown state holds one, and when none does. */
  function LowEmpty(r: Row): nat { Max(0, r.cap - r.working - r.held - r.unknown) }

  function HighEmpty(r: Row): nat { Max(0, r.cap - r.working - r.held) }

  /** Totals of a machine or of all of them. The last four are the reasons of the report. */
  datatype Slots = Slots(
    slotMinutes: int, working: int, heldIdle: int, empty: int, unobserved: int, overflow: int,
    withReady: int, withReadyMax: int,
    eligibilityUnrecorded: int, upperBoundOnly: int, backlogEmpty: int, readyUnknown: int)

  const NO_SLOTS := Slots(0, 0, 0, 0, 0, 0, 0, 0, 0, 0, 0, 0)

  /** What the report promises of every machine and of the total. */
  ghost predicate Partitioned(s: Slots) {
    && s.working + s.heldIdle + s.empty + s.unobserved == s.slotMinutes
    && s.eligibilityUnrecorded + s.backlogEmpty + s.readyUnknown == s.empty
    && s.upperBoundOnly == s.withReadyMax - s.withReady
    && s.eligibilityUnrecorded == s.withReady
    && s.overflow >= 0 && 0 <= s.withReady <= s.withReadyMax
  }

  // each minute's share of a total

  function Slotted(r: Row): int { r.cap }

  function WorkingShare(r: Row): int { Min(r.working, r.cap) }

  function HeldShare(r: Row): int { Min(r.held, Max(0, r.cap - r.working)) }

  function UnobservedShare(r: Row): int { HighEmpty(r) - LowEmpty(r) }

  function OverflowShare(r: Row): int { Max(0, r.working + r.held - r.cap) }

  function BacklogShare(r: Row): int { if r.ready == 0 then LowEmpty(r) else 0 }

  /** t is s and the shares of one more minute, which must have a declared capacity to count. */
  ghost predicate Adds(s: Slots, r: Row, t: Slots) {
    && (r.cap < 0 ==> t == s)
    && (r.cap >= 0 ==>
          && t.slotMinutes == s.slotMinutes + Slotted(r) && t.working == s.working + WorkingShare(r)
          && t.heldIdle == s.heldIdle + HeldShare(r) && t.unobserved == s.unobserved + UnobservedShare(r)
          && t.overflow == s.overflow + OverflowShare(r) && t.backlogEmpty == s.backlogEmpty + BacklogShare(r)
          && t.empty == s.empty + LowEmpty(r))
    && t.withReady == s.withReady + (if Counts(r) then LowEmpty(r) else 0)
    && t.withReadyMax == s.withReadyMax + (if Counts(r) then HighEmpty(r) else 0)
  }

  /** One minute added to the totals, as the loop body does it. */
  method AddMinute(s: Slots, r: Row) returns (t: Slots)
    requires Partitioned(s)
    ensures Partitioned(t) && Adds(s, r, t)
    // working units come first: the held ones get what slots those leave
    ensures r.cap >= 0 ==> t.working == s.working + Min(r.working, r.cap)
    ensures t.heldIdle > s.heldIdle ==> t.working == s.working + r.working
  {
    t := s;
    if r.cap < 0 { return; }
    var w := Min(r.working, r.cap);
    var h := Min(r.held, r.cap - w);
    var empty := r.cap - w - h;
    assert empty == HighEmpty(r);
    t := t.(slotMinutes := t.slotMinutes + r.cap, working := t.working + w, heldIdle := t.heldIdle + h,
            overflow := t.overflow + r.working + r.held - w - h);
    var lo := empty;
    if r.unknown > 0 {
      lo := Max(0, empty - r.unknown);
      t := t.(unobserved := t.unobserved + empty - lo);
    }
    assert lo == LowEmpty(r);
    t := t.(empty := t.empty + lo);
    if empty == 0 { return; }
    if r.ready > 0 {
      t := t.(eligibilityUnrecorded := t.eligibilityUnrecorded + lo);
      if empty > lo { t := t.(upperBoundOnly := t.upperBoundOnly + empty - lo); }
      t := t.(withReady := t.withReady + lo, withReadyMax := t.withReadyMax + empty);
    } else if r.ready == 0 {
      t := t.(backlogEmpty := t.backlogEmpty + lo);
    } else {
      t := t.(readyUnknown := t.readyUnknown + lo);
    }
  }

  /** The minute has a declared capacity and ready work. */
  predicate Counts(r: Row) { r.cap >= 0 && r.ready > 0 }

  // ---- one machine

  /** A machine's units, its capacity timeline and the ready work per minute of the window. */
  datatype Machine = Machine(units: seq<Unit>, timeline: seq<Capacity>, ready: seq<int>, start: Tick) {
    function RowOf(m: nat): Row
      requires m < |ready|
    {
      RowAt(units, timeline, ready[m], start + m * MINUTE)
    }
  }

  function LowSum(k: Machine, n: nat): nat
    requires n <= |k.ready|
  {
    if n == 0 then 0 else LowSum(k, n - 1) + (if Counts(k.RowOf(n - 1)) then LowEmpty(k.RowOf(n - 1)) else 0)
  }

  function HighSum(k: Machine, n: nat): nat
    requires n <= |k.ready|
  {
    if n == 0 then 0 else HighSum(k, n - 1) + (if Counts(k.RowOf(n - 1)) then HighEmpty(k.RowOf(n - 1)) else 0)
  }

  /** A share of every minute with a declared capacity, added up over the first n. */
  function Over(k: Machine, share: Row -> int, n: nat): int
    requires n <= |k.ready|
  {
    if n == 0 then 0 else Over(k, share, n - 1) + (if k.RowOf(n - 1).cap < 0 then 0 else share(k.RowOf(n - 1)))
  }

  /** The totals are the sums over the minutes; the rest follows from the partition. */
  ghost predicate SumsOver(s: Slots, k: Machine, n: nat)
    requires n <= |k.ready|
  {
    && s.slotMinutes == Over(k, Slotted, n) && s.working == Over(k, WorkingShare, n)
    && s.heldIdle == Over(k, HeldShare, n) && s.unobserved == Over(k, UnobservedShare, n)
    && s.overflow == Over(k, OverflowShare, n) && s.backlogEmpty == Over(k, BacklogShare, n)
    && s.withReady == LowSum(k, n) && s.withReadyMax == HighSum(k, n)
  }

  method CountUnits(units: seq<Unit>, t: Tick) returns (working: nat, held: nat, unknown: nat)
    ensures working == CountState(units, t, Working)
    ensures held == CountState(units, t, Held)
    ensures unknown == CountState(units, t, Unknown)
  {
    working, held, unknown := 0, 0, 0;
    for i := 0 to |units|
      invariant working == CountState(units[..i], t, Working)
      invariant held == CountState(units[..i], t, Held)
      invariant unknown == CountState(units[..i], t, Unknown)
    {
      assert units[..i + 1][..i] == units[..i];
      match StateAt(units[i], t)
      case Working => working := working + 1;
      case Held => held := held + 1;
      case Unknown => unknown := unknown + 1;
      case NoSlot =>
    }
    assert units[..|units|] == units;
  }

  /** The whole window's totals of one machine. */
  ghost predicate Reported(s: Slots, k: Machine) {
    Partitioned(s) && SumsOver(s, k, |k.ready|)
  }

  method MachineSlots(k: Machine) returns (ms: Slots)
    ensures Reported(ms, k)
  {
    ms := NO_SLOTS;
    NothingYet(k);
    for m := 0 to |k.ready|
      invariant Partitioned(ms) && SumsOver(ms, k, m)
    {
      var at := k.start + m * MINUTE;
      var working, held, unknown := CountUnits(k.units, at);
      ghost var was := ms;
      ms := AddMinute(ms, Row(CapAt(k.timeline, at), k.ready[m], working, held, unknown));
      SumsOverNext(was, k, m, ms);
    }
  }

  lemma NothingYet(k: Machine)
    ensures SumsOver(NO_SLOTS, k, 0)
  {}

  lemma SumsOverNext(s: Slots, k: Machine, m: nat, t: Slots)
    requires m < |k.ready| && SumsOver(s, k, m) && Adds(s, k.RowOf(m), t)
    ensures SumsOver(t, k, m + 1)
  {}

  // ---- the truth behind the range

  /** One possible true end per unit. */
  ghost predicate Possible(units: seq<Unit>, ends: seq<Tick>) {
    |ends| == |units| && forall i :: 0 <= i < |units| ==> CouldEnd(units[i], ends[i])
  }

  function HeldCount(units: seq<Unit>, ends: seq<Tick>, t: Tick): nat
    requires |ends| == |units|
  {
    if units == [] then 0
    else
      var n := |units| - 1;
      HeldCount(units[..n], ends[..n], t) + (if Holds(units[n], ends[n], t) then 1 else 0)
  }

  /** The truly empty slot-minutes with ready work, over the first n minutes. */
  function TrueSum(k: Machine, ends: seq<Tick>, n: nat): nat
    requires n <= |k.ready| && |ends| == |k.units|
  {
    if n == 0 then 0
    else
      var r := k.RowOf(n - 1);
      TrueSum(k, ends, n - 1)
      + (if Counts(r) then Max(0, r.cap - HeldCount(k.units, ends, k.start + (n - 1) * MINUTE)) else 0)
  }

  lemma {:induction false} HeldRange(units: seq<Unit>, ends: seq<Tick>, t: Tick)
    requires |ends| == |units|
    ensures var occupied := CountState(units, t, Working) + CountState(units, t, Held);
            occupied <= HeldCount(units, ends, t) <= occupied + CountState(units, t, Unknown)
    decreases |units|
  {
    if units != [] { HeldRange(units[..|units| - 1], ends[..|units| - 1], t); }
  }

  /** Whatever the unobserved ends truly were, the report's range contains the truth. */
  lemma {:induction false} TruthInRange(k: Machine, ends: seq<Tick>, n: nat)
    requires Possible(k.units, ends) && n <= |k.ready|
    ensures LowSum(k, n) <= TrueSum(k, ends, n) <= HighSum(k, n)
  {
    if n > 0 {
      TruthInRange(k, ends, n - 1);
      HeldRange(k.units, ends, k.start + (n - 1) * MINUTE);
    }
  }

  // ---- both ends are reached

  /** Every unit without a recorded end ended when last seen, or outlived the window. */
  function EndsAtOnce(units: seq<Unit>): (ends: seq<Tick>)
    ensures |ends| == |units| && forall i :: 0 <= i < |units| ==> ends[i] == units[i].unknownFrom.GetOr(0)
  {
    seq(|units|, i requires 0 <= i < |units| => units[i].unknownFrom.GetOr(0))
  }

  function EndsLate(units: seq<Unit>, after: Tick): (ends: seq<Tick>)
    ensures |ends| == |units| && forall i :: 0 <= i < |units| ==> ends[i] == Max(after, units[i].unknownFrom.GetOr(0))
  {
    seq(|units|, i requires 0 <= i < |units| => Max(after, units[i].unknownFrom.GetOr(0)))
  }

  lemma {:induction false} HeldLeast(units: seq<Unit>, ends: seq<Tick>, t: Tick)
    requires |ends| == |units|
    requires forall i :: 0 <= i < |units| && units[i].unknownFrom.Some? ==> ends[i] == units[i].unknownFrom.value
    ensures HeldCount(units, ends, t) == CountState(units, t, Working) + CountState(units, t, Held)
    decreases |units|
  {
    if units != [] { HeldLeast(units[..|units| - 1], ends[..|units| - 1], t); }
  }

  lemma {:induction false} HeldMost(units: seq<Unit>, ends: seq<Tick>, t: Tick)
    requires |ends| == |units| && forall i :: 0 <= i < |units| ==> ends[i] > t
    ensures HeldCount(units, ends, t)
         == CountState(units, t, Working) + CountState(units, t, Held) + CountState(units, t, Unknown)
    decreases |units|
  {
    if units != [] { HeldMost(units[..|units| - 1], ends[..|units| - 1], t); }
  }

  /** Both bounds are true counts for some choice of ends: neither can be improved. */
  lemma RangeIsTight(k: Machine)
    ensures exists ends :: Possible(k.units, ends) && TrueSum(k, ends, |k.ready|) == HighSum(k, |k.ready|)
    ensures exists ends :: Possible(k.units, ends) && TrueSum(k, ends, |k.ready|) == LowSum(k, |k.ready|)
  {
    var early, late := EndsAtOnce(k.units), EndsLate(k.units, k.start + |k.ready| * MINUTE);
    HighReached(k, early, |k.ready|);
    LowReached(k, late, |k.ready|);
    assert Possible(k.units, early) && Possible(k.units, late);
  }

  lemma {:induction false} HighReached(k: Machine, ends: seq<Tick>, n: nat)
    requires n <= |k.ready| && ends == EndsAtOnce(k.units)
    ensures TrueSum(k, ends, n) == HighSum(k, n)
  {
    if n > 0 {
      HighReached(k, ends, n - 1);
      HeldLeast(k.units, ends, k.start + (n - 1) * MINUTE);
    }
  }

  lemma {:induction false} LowReached(k: Machine, ends: seq<Tick>, n: nat)
    requires n <= |k.ready| && |ends| == |k.units|
    requires forall i :: 0 <= i < |ends| ==> ends[i] >= k.start + |k.ready| * MINUTE
    ensures TrueSum(k, ends, n) == LowSum(k, n)
  {
    if n > 0 {
      LowReached(k, ends, n - 1);
      assert (n - 1) * MINUTE < |k.ready| * MINUTE;
      HeldMost(k.units, ends, k.start + (n - 1) * MINUTE);
    }
  }
}
