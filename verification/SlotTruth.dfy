/** metrics.go, slots: the range of the empty minutes with ready work against the truth over
    every job of the snapshot that may hold a slot and every task that may have been ready. */
module SlotTruth {
  import opened Common
  import opened UnitSpans
  import opened SlotReport
  import opened SlotWindow
  import TaskReplay

  // ---- what the records leave open about one job

  /** A job with a unit: a builder of the machine with a timed claim. */
  predicate Placed(j: Job, machine: string) {
    Candidate(j, machine) && Claimed(j)
  }

  /** A job that may hold a slot: a builder, or one whose role is unknown. */
  predicate MayBeBuilder(j: Job, machine: string) {
    j.machine == machine && !j.role.Worker?
  }

  /** One job's records: the tasks linked to it, and when they had all ended. */
  datatype Record = Record(job: Job, linked: seq<TaskReplay.Task>, taskEnd: Option<Tick>,
                           machine: string, until: Tick) {
    function End(): Option<Tick> { RecordedEnd(job, taskEnd, until) }

    /** When the slot can have begun at the earliest; None when any time before the claim, if
        there is one, is possible. */
    function Start(): Option<Tick> {
      if UntimedClaim(job.events) then None else FirstClaim(job.events)
    }

    /** When the slot can have ended at the earliest, None when any time is possible: an end
        without a time, or a linked task whose history was not fetched, may have come sooner
        than the recorded end, and without a recorded end the last observation is the bound. */
    function Floor(): Option<Tick> {
      if UntimedEnd(job.events) then None
      else if End().None? then LastSeen(job)
      else if taskEnd.None? then End()
      else if FetchedEnd(linked).None? then None
      else Some(Min(End().value, FetchedEnd(linked).value))
    }

    /** x may be when the job truly held its slot; never when from is not before until. */
    predicate CouldHold(x: Span) {
      if Placed(job, machine) then
        && x.from <= FirstClaim(job.events).value
        && (UntimedClaim(job.events) || x.from == FirstClaim(job.events).value)
        && (End().Some? ==> x.until <= End().value)
        && (Floor().Some? ==> Floor().value <= x.until)
      else
        x.from < x.until ==>
          && MayBeBuilder(job, machine)
          && (Start().Some? ==> Start().value <= x.from)
          && (End().Some? ==> x.until <= End().value)
    }

    /** The job may hold a slot at t. */
    predicate MayHold(t: Tick) {
      && MayBeBuilder(job, machine)
      && (Start().Some? ==> Start().value <= t)
      && (End().Some? ==> t < End().value)
    }

    /** The job surely holds a slot at t. */
    predicate MustHold(t: Tick) {
      && Placed(job, machine) && FirstClaim(job.events).value <= t
      && Floor().Some? && t < Floor().value
    }

    /** Nothing leaves the end of the slot open that the report takes for recorded. */
    predicate FirmEnd() {
      && !UntimedEnd(job.events)
      && (End().Some? && taskEnd.Some? ==>
            FetchedEnd(linked).Some? && End().value <= FetchedEnd(linked).value)
    }
  }

  datatype Span = Span(from: Tick, until: Tick) {
    predicate Holds(t: Tick) { from <= t < until }
  }

  /** The latest end among the linked tasks whose history was fetched. */
  function FetchedEnd(linked: seq<TaskReplay.Task>): Option<Tick> {
    if |linked| == 0 then None
    else
      var t := linked[|linked| - 1];
      Later(FetchedEnd(linked[..|linked| - 1]), if t.events.Some? then TaskReplay.TerminalAt(t) else None)
  }

  /** The widest and the narrowest span the records allow, as seen from start up to bound. */
  function Widest(r: Record, start: Tick, bound: Tick): (x: Span)
    requires start <= bound
    ensures r.CouldHold(x)
    ensures forall t :: start <= t < bound ==> x.Holds(t) == r.MayHold(t)
  {
    var claim := FirstClaim(r.job.events);
    if !MayBeBuilder(r.job, r.machine) then Span(0, 0)
    else
      Span(if r.Start().Some? then r.Start().value else Min(start, claim.GetOr(start)),
           if r.End().Some? then r.End().value else Max(bound, r.Floor().GetOr(bound)))
  }

  function Narrowest(r: Record): (x: Span)
    ensures r.CouldHold(x)
    ensures forall t :: x.Holds(t) == r.MustHold(t)
  {
    var claim := FirstClaim(r.job.events);
    if !Placed(r.job, r.machine) then Span(0, 0)
    else Span(claim.value, if r.Floor().Some? then r.Floor().value else Min(claim.value, r.End().GetOr(claim.value)))
  }

  lemma HoldsBetween(r: Record, x: Span, t: Tick)
    requires r.CouldHold(x)
    ensures r.MustHold(t) ==> x.Holds(t)
    ensures x.Holds(t) ==> r.MayHold(t)
  {}

  // ---- over all jobs of a machine

  function SpansHeld(spans: seq<Span>, t: Tick): nat {
    if |spans| == 0 then 0
    else SpansHeld(spans[..|spans| - 1], t) + (if spans[|spans| - 1].Holds(t) then 1 else 0)
  }

  function MayCount(records: seq<Record>, t: Tick): nat {
    if |records| == 0 then 0
    else MayCount(records[..|records| - 1], t) + (if records[|records| - 1].MayHold(t) then 1 else 0)
  }

  function MustCount(records: seq<Record>, t: Tick): nat {
    if |records| == 0 then 0
    else MustCount(records[..|records| - 1], t) + (if records[|records| - 1].MustHold(t) then 1 else 0)
  }

  ghost predicate PossibleSpans(records: seq<Record>, spans: seq<Span>) {
    |spans| == |records| && forall i :: 0 <= i < |records| ==> records[i].CouldHold(spans[i])
  }

  lemma {:induction false} CountsBetween(records: seq<Record>, spans: seq<Span>, t: Tick)
    requires PossibleSpans(records, spans)
    ensures MustCount(records, t) <= SpansHeld(spans, t) <= MayCount(records, t)
    decreases |records|
  {
    if |records| > 0 {
      var n := |records| - 1;
      CountsBetween(records[..n], spans[..n], t);
      HoldsBetween(records[n], spans[n], t);
    }
  }

  function AllWidest(records: seq<Record>, start: Tick, bound: Tick): (spans: seq<Span>)
    requires start <= bound
    ensures PossibleSpans(records, spans)
  {
    seq(|records|, i requires 0 <= i < |records| => Widest(records[i], start, bound))
  }

  function AllNarrowest(records: seq<Record>): (spans: seq<Span>)
    ensures PossibleSpans(records, spans)
  {
    seq(|records|, i requires 0 <= i < |records| => Narrowest(records[i]))
  }

  lemma {:induction false} WidestCount(records: seq<Record>, start: Tick, bound: Tick, t: Tick)
    requires start <= t < bound
    ensures SpansHeld(AllWidest(records, start, bound), t) == MayCount(records, t)
    decreases |records|
  {
    hide Widest, RecordedEnd, FirstClaim, FetchedEnd;
    if |records| > 0 {
      var n := |records| - 1;
      WidestCount(records[..n], start, bound, t);
      assert AllWidest(records, start, bound)[..n] == AllWidest(records[..n], start, bound);
    }
  }

  lemma {:induction false} NarrowestCount(records: seq<Record>, t: Tick)
    ensures SpansHeld(AllNarrowest(records), t) == MustCount(records, t)
    decreases |records|
  {
    hide Narrowest, RecordedEnd, FirstClaim, FetchedEnd;
    if |records| > 0 {
      var n := |records| - 1;
      NarrowestCount(records[..n], t);
      assert AllNarrowest(records)[..n] == AllNarrowest(records[..n]);
    }
  }

  // ---- the truth on one machine

  /** A machine's report k with the jobs it comes from, the tasks linked to each, and when
      those had ended; all are the units of its builders. */
  datatype Site = Site(k: Machine, all: seq<Unit>, jobs: seq<Job>, linked: seq<seq<TaskReplay.Task>>,
                       taskEnds: seq<Option<Tick>>, machine: string, since: Tick, until: Tick) {
    ghost predicate Valid() {
      && |linked| == |taskEnds| == |jobs|
      && (forall i :: 0 <= i < |jobs| ==> TaskReplay.IsTaskEnd(linked[i], taskEnds[i]))
      && UnitsOf(all, jobs, taskEnds, machine, until) && ReportsOn(k, all, since, until)
    }

    function At(m: nat): Tick { k.start + m * MINUTE }

    function Records(): (records: seq<Record>)
      requires |linked| == |taskEnds| == |jobs|
      ensures |records| == |jobs|
    {
      seq(|jobs|, i requires 0 <= i < |jobs| => Record(jobs[i], linked[i], taskEnds[i], machine, until))
    }

    function May(m: nat): nat
      requires |linked| == |taskEnds| == |jobs|
    {
      MayCount(Records(), At(m))
    }

    function Must(m: nat): nat
      requires |linked| == |taskEnds| == |jobs|
    {
      MustCount(Records(), At(m))
    }
  }

  predicate Sized(x: Site) { |x.linked| == |x.taskEnds| == |x.jobs| }

  /** What was not observed: when each job held a slot, and which minutes had ready work. */
  datatype Choice = Choice(spans: seq<Span>, ready: seq<bool>)

  ghost predicate PossibleChoice(x: Site, c: Choice)
    requires Sized(x)
  {
    PossibleSpans(x.Records(), c.spans) && PossibleReady(x.k.ready, c.ready)
  }

  /** Ready work is as reported, or anything where the report does not know it. */
  predicate PossibleReady(ready: seq<int>, truth: seq<bool>) {
    && |truth| == |ready|
    && forall m :: 0 <= m < |ready| ==> (ready[m] > 0 ==> truth[m]) && (ready[m] == 0 ==> !truth[m])
  }

  /** The truly empty slots of minute m, if it has a declared capacity and ready work. */
  function TrueEmpty(x: Site, c: Choice, m: nat): nat
    requires m < |x.k.ready| == |c.ready|
  {
    var cap := x.k.RowOf(m).cap;
    if cap >= 0 && c.ready[m] then Max(0, cap - SpansHeld(c.spans, x.At(m))) else 0
  }

  function TrueOverAll(x: Site, c: Choice, n: nat): nat
    requires n <= |x.k.ready| == |c.ready|
  {
    if n == 0 then 0 else TrueOverAll(x, c, n - 1) + TrueEmpty(x, c, n - 1)
  }

  // ---- the least and the most the truth can be

  function LeastAt(x: Site, m: nat): nat
    requires Sized(x) && m < |x.k.ready|
  {
    var r := x.k.RowOf(m);
    if r.cap >= 0 && r.ready > 0 then Max(0, r.cap - x.May(m)) else 0
  }

  function MostAt(x: Site, m: nat): nat
    requires Sized(x) && m < |x.k.ready|
  {
    var r := x.k.RowOf(m);
    if r.cap >= 0 && r.ready != 0 then Max(0, r.cap - x.Must(m)) else 0
  }

  function LeastSum(x: Site, n: nat): nat
    requires Sized(x) && n <= |x.k.ready|
  {
    if n == 0 then 0 else LeastSum(x, n - 1) + LeastAt(x, n - 1)
  }

  function MostSum(x: Site, n: nat): nat
    requires Sized(x) && n <= |x.k.ready|
  {
    if n == 0 then 0 else MostSum(x, n - 1) + MostAt(x, n - 1)
  }

  lemma {:induction false} TruthBetween(x: Site, c: Choice, n: nat)
    requires Sized(x) && PossibleChoice(x, c) && n <= |x.k.ready|
    ensures LeastSum(x, n) <= TrueOverAll(x, c, n) <= MostSum(x, n)
  {
    if n > 0 {
      TruthBetween(x, c, n - 1);
      CountsBetween(x.Records(), c.spans, x.At(n - 1));
    }
  }

  function Bound(x: Site): Tick { x.k.start + |x.k.ready| * MINUTE }

  /** Every job held a slot whenever it may have, and nothing unknown was ready. */
  function Fullest(x: Site): (c: Choice)
    requires Sized(x)
    ensures PossibleChoice(x, c)
  {
    Choice(AllWidest(x.Records(), x.k.start, Bound(x)),
           seq(|x.k.ready|, m requires 0 <= m < |x.k.ready| => x.k.ready[m] > 0))
  }

  /** Every job held a slot only when it must have, and everything unknown was ready. */
  function Emptiest(x: Site): (c: Choice)
    requires Sized(x)
    ensures PossibleChoice(x, c)
  {
    Choice(AllNarrowest(x.Records()), seq(|x.k.ready|, m requires 0 <= m < |x.k.ready| => x.k.ready[m] != 0))
  }

  lemma {:induction false} FullestIsLeast(x: Site, n: nat)
    requires Sized(x) && n <= |x.k.ready|
    ensures TrueOverAll(x, Fullest(x), n) == LeastSum(x, n)
  {
    hide LeastAt, TrueEmpty, Fullest;
    if n > 0 {
      FullestIsLeast(x, n - 1);
      FullestMinute(x, n - 1);
    }
  }

  lemma FullestMinute(x: Site, m: nat)
    requires Sized(x) && m < |x.k.ready|
    ensures TrueEmpty(x, Fullest(x), m) == LeastAt(x, m)
  {
    MinuteBefore(m, |x.k.ready|);
    WidestCount(x.Records(), x.k.start, Bound(x), x.At(m));
  }

  lemma MinuteBefore(m: nat, n: nat)
    requires m < n
    ensures m * MINUTE < n * MINUTE
  {}

  lemma {:induction false} EmptiestIsMost(x: Site, n: nat)
    requires Sized(x) && n <= |x.k.ready|
    ensures TrueOverAll(x, Emptiest(x), n) == MostSum(x, n)
  {
    hide MostAt, TrueEmpty, Emptiest;
    if n > 0 {
      EmptiestIsMost(x, n - 1);
      EmptiestMinute(x, n - 1);
    }
  }

  lemma EmptiestMinute(x: Site, m: nat)
    requires Sized(x) && m < |x.k.ready|
    ensures TrueEmpty(x, Emptiest(x), m) == MostAt(x, m)
  {
    NarrowestCount(x.Records(), x.At(m));
  }

  // ---- what the report counts of it

  function LowAt(r: Row): nat { if Counts(r) then LowEmpty(r) else 0 }

  function HighAt(r: Row): nat { if Counts(r) then HighEmpty(r) else 0 }

  function Occupied(r: Row): nat { r.working + r.held }

  /** Every unit the report counts as holding, surely or perhaps, belongs to a job that may. */
  lemma {:induction false} KeptMay(all: seq<Unit>, records: seq<Record>, jobs: seq<Job>, taskEnds: seq<Option<Tick>>,
                                   machine: string, since: Tick, until: Tick, t: Tick)
    requires |taskEnds| == |jobs| && UnitsOf(all, jobs, taskEnds, machine, until)
    requires RecordsOf(records, jobs, taskEnds, machine, until) && t < until
    ensures PerhapsHeld(Select(all, since, until), t) <= MayCount(records, t)
    decreases |jobs|
  {
    hide IsUnitOf, RecordedEnd, FirstClaim, FetchedEnd, Keep;
    if |jobs| > 0 {
      var n := |jobs| - 1;
      if Placed(jobs[n], machine) {
        var a := |all| - 1;
        KeptMay(all[..a], records[..n], jobs[..n], taskEnds[..n], machine, since, until, t);
        LateSnoc(all, since, until, t);
        UnitMay(all[a], records[n], since, t);
      } else {
        KeptMay(all, records[..n], jobs[..n], taskEnds[..n], machine, since, until, t);
      }
    }
  }

  /** The records of the jobs, whatever tasks are linked. */
  ghost predicate RecordsOf(records: seq<Record>, jobs: seq<Job>, taskEnds: seq<Option<Tick>>,
                            machine: string, until: Tick) {
    && |records| == |jobs| == |taskEnds|
    && forall i :: 0 <= i < |jobs| ==>
         records[i] == Record(jobs[i], records[i].linked, taskEnds[i], machine, until)
  }

  lemma UnitMay(u: Unit, r: Record, since: Tick, t: Tick)
    requires Placed(r.job, r.machine) && IsUnitOf(u, r.job, r.taskEnd, r.until) && t < r.until
    ensures HoldsLate(Keep(u, since, r.until), t) ==> r.MayHold(t)
  {
    assert FirstClaim(r.job.events) == Some(u.from);
    UnitEnd(u, r);
  }

  lemma GoneIsEnd(r: Record, i: int)
    requires FirstGone(r.job.status, i)
    ensures exists t :: EndRecorded(r.job, r.taskEnd, r.until, t)
  {
    assert EndRecorded(r.job, r.taskEnd, r.until, r.job.status[i].from);
  }

  /** A unit's end is the job's recorded end, not before the claim, or its last observation. */
  lemma UnitEnd(u: Unit, r: Record)
    requires IsUnitOf(u, r.job, r.taskEnd, r.until)
    ensures u.unknownFrom.None? <==> r.End().Some?
    ensures r.End().Some? ==> u.until == Max(u.from, r.End().value)
    ensures r.End().None? ==> u.unknownFrom == LastSeen(r.job) && u.until == r.until
  {
    var end := r.End();
    if u.unknownFrom.None? {
      var t :| EndRecorded(r.job, r.taskEnd, r.until, t) && u.until == Max(u.from, t)
            && forall t' :: EndRecorded(r.job, r.taskEnd, r.until, t') ==> t <= t';
      assert end.Some? && end.value == t;
    } else {
      forall i ensures !FirstGone(r.job.status, i) {
        if FirstGone(r.job.status, i) { GoneIsEnd(r, i); }
      }
      LastSeenIsLast(r.job, u.unknownFrom.value);
    }
  }

  /** Of the jobs that surely hold a slot at or after Since, the report counts every unit. */
  lemma {:induction false} MustKept(all: seq<Unit>, records: seq<Record>, jobs: seq<Job>, taskEnds: seq<Option<Tick>>,
                                    machine: string, since: Tick, until: Tick, t: Tick)
    requires |taskEnds| == |jobs| && UnitsOf(all, jobs, taskEnds, machine, until)
    requires RecordsOf(records, jobs, taskEnds, machine, until) && since <= t < until
    ensures MustCount(records, t) <= SurelyHeld(Select(all, since, until), t)
    ensures (forall i :: 0 <= i < |records| ==> records[i].FirmEnd()) ==>
              MustCount(records, t) == SurelyHeld(Select(all, since, until), t)
    decreases |jobs|
  {
    hide IsUnitOf, RecordedEnd, FirstClaim, FetchedEnd, Keep;
    if |jobs| > 0 {
      var n := |jobs| - 1;
      if Placed(jobs[n], machine) {
        var a := |all| - 1;
        MustKept(all[..a], records[..n], jobs[..n], taskEnds[..n], machine, since, until, t);
        KeptSnoc(all, since, until, t);
        UnitMust(all[a], records[n], since, t);
      } else {
        MustKept(all, records[..n], jobs[..n], taskEnds[..n], machine, since, until, t);
      }
    }
  }

  lemma KeptSnoc(all: seq<Unit>, since: Tick, until: Tick, t: Tick)
    requires |all| > 0
    ensures SurelyHeld(Select(all, since, until), t)
         == SurelyHeld(Select(all[..|all| - 1], since, until), t)
            + (if HoldsAtOnce(Keep(all[|all| - 1], since, until), t) then 1 else 0)
  {
    var kept, before := Select(all, since, until), Select(all[..|all| - 1], since, until);
    if Keep(all[|all| - 1], since, until).Some? {
      assert kept[..|before|] == before && EndsAtOnce(kept)[..|before|] == EndsAtOnce(before);
    }
  }

  /** The units that hold a slot at t even if they ended when last seen. */
  function SurelyHeld(units: seq<Unit>, t: Tick): nat { HeldCount(units, EndsAtOnce(units), t) }

  predicate HoldsAtOnce(u: Option<Unit>, t: Tick) {
    u.Some? && Holds(u.value, u.value.unknownFrom.GetOr(0), t)
  }

  /** Those that hold one if they outlived t. */
  function PerhapsHeld(units: seq<Unit>, t: Tick): nat { HeldCount(units, EndsLate(units, t + 1), t) }

  predicate HoldsLate(u: Option<Unit>, t: Tick) {
    u.Some? && Holds(u.value, Max(t + 1, u.value.unknownFrom.GetOr(0)), t)
  }

  lemma UnitMust(u: Unit, r: Record, since: Tick, t: Tick)
    requires Placed(r.job, r.machine) && IsUnitOf(u, r.job, r.taskEnd, r.until) && since <= t < r.until
    ensures r.MustHold(t) ==> HoldsAtOnce(Keep(u, since, r.until), t)
    ensures HoldsAtOnce(Keep(u, since, r.until), t) && r.FirmEnd() ==> r.MustHold(t)
  {
    assert FirstClaim(r.job.events) == Some(u.from);
    UnitEnd(u, r);
  }

  // ---- the report of a minute against the truth

  lemma RecordsAreOf(x: Site)
    requires Sized(x)
    ensures RecordsOf(x.Records(), x.jobs, x.taskEnds, x.machine, x.until)
  {}

  lemma SameEnds(units: seq<Unit>, spans: seq<Unit>)
    requires SameSpans(units, spans)
    ensures |units| == |spans| && EndsAtOnce(units) == EndsAtOnce(spans)
    ensures forall i :: 0 <= i < |units| ==> units[i].unknownFrom == spans[i].unknownFrom
  {
    forall i | 0 <= i < |units| ensures units[i].unknownFrom == spans[i].unknownFrom {
      assert units[i].(workers := []) == spans[i].(workers := []);
    }
  }

  /** What the counts of a minute mean for the spans of the units. */
  lemma CountsOfSpans(units: seq<Unit>, spans: seq<Unit>, t: Tick)
    requires SameSpans(units, spans)
    ensures CountState(units, t, Working) + CountState(units, t, Held) == SurelyHeld(spans, t)
    ensures CountState(units, t, Working) + CountState(units, t, Held) + CountState(units, t, Unknown)
         == PerhapsHeld(spans, t)
  {
    SameEnds(units, spans);
    HeldLeast(units, EndsAtOnce(spans), t);
    HeldMost(units, EndsLate(spans, t + 1), t);
    WorkersHoldNothing(units, spans, EndsAtOnce(spans), t);
    WorkersHoldNothing(units, spans, EndsLate(spans, t + 1), t);
  }

  lemma RowCounts(x: Site, m: nat)
    requires x.Valid() && m < |x.k.ready|
    ensures x.At(m) < x.until && (m > 0 ==> x.since <= x.At(m))
    ensures Occupied(x.k.RowOf(m)) == SurelyHeld(Select(x.all, x.since, x.until), x.At(m))
    ensures Occupied(x.k.RowOf(m)) + x.k.RowOf(m).unknown == PerhapsHeld(Select(x.all, x.since, x.until), x.At(m))
  {
    hide UnitsOf, TaskReplay.IsTaskEnd;
    MinuteInWindow(x.k, x.since, x.until, m);
    CountsOfSpans(x.k.units, Select(x.all, x.since, x.until), x.At(m));
  }

  /** No more slots are counted as held, surely or perhaps, than jobs may hold. */
  lemma CountedMay(x: Site, m: nat)
    requires x.Valid() && m < |x.k.ready|
    ensures Occupied(x.k.RowOf(m)) + x.k.RowOf(m).unknown <= x.May(m)
  {
    RowCounts(x, m);
    RecordsAreOf(x);
    KeptMay(x.all, x.Records(), x.jobs, x.taskEnds, x.machine, x.since, x.until, x.At(m));
  }

  /** From Since on, every slot surely held is counted as occupied, and with firm ends no other. */
  lemma CountedMust(x: Site, m: nat)
    requires x.Valid() && m < |x.k.ready| && x.since <= x.At(m)
    ensures x.Must(m) <= Occupied(x.k.RowOf(m))
    ensures (forall i :: 0 <= i < |x.jobs| ==> x.Records()[i].FirmEnd()) ==> x.Must(m) == Occupied(x.k.RowOf(m))
  {
    RowCounts(x, m);
    RecordsAreOf(x);
    MustKept(x.all, x.Records(), x.jobs, x.taskEnds, x.machine, x.since, x.until, x.At(m));
  }

  // ---- when the range holds

  /** In no minute with ready work and a positive lower bound may a job hold a slot that the
      report does not count. */
  predicate LowerComplete(x: Site)
    requires Sized(x)
  {
    forall m :: 0 <= m < |x.k.ready| ==>
      var r := x.k.RowOf(m);
      Counts(r) && LowEmpty(r) > 0 ==> x.May(m) == Occupied(r) + r.unknown
  }

  /** Over the window no more slots may have been empty than the report allows for: none counted
      as held that may have been empty, and none beside work that may have been ready. */
  predicate UpperComplete(x: Site)
    requires Sized(x)
  {
    MostSum(x, |x.k.ready|) <= HighSum(x.k, |x.k.ready|)
  }

  /** The condition a caller can check, from the records alone. */
  predicate Complete(x: Site)
    requires Sized(x)
  {
    LowerComplete(x) && UpperComplete(x)
  }

  lemma {:induction false} LowerExactly(x: Site, n: nat)
    requires x.Valid() && n <= |x.k.ready|
    ensures LeastSum(x, n) <= LowSum(x.k, n)
    ensures LeastSum(x, n) == LowSum(x.k, n) <==>
            forall m :: 0 <= m < n ==> LeastAt(x, m) == LowAt(x.k.RowOf(m))
  {
    hide UnitsOf, ReportsOn, TaskReplay.IsTaskEnd;
    if n > 0 {
      LowerExactly(x, n - 1);
      CountedMay(x, n - 1);
    }
  }

  lemma LowerGuard(x: Site, m: nat)
    requires x.Valid() && m < |x.k.ready|
    ensures var r := x.k.RowOf(m);
            LeastAt(x, m) == LowAt(r) <==> (Counts(r) && LowEmpty(r) > 0 ==> x.May(m) == Occupied(r) + r.unknown)
  {
    CountedMay(x, m);
  }

  lemma LowerMeansComplete(x: Site)
    requires x.Valid()
    ensures LowSum(x.k, |x.k.ready|) <= LeastSum(x, |x.k.ready|) <==> LowerComplete(x)
  {
    LowerExactly(x, |x.k.ready|);
    forall m: nat | m < |x.k.ready|
      ensures var r := x.k.RowOf(m);
              LeastAt(x, m) == LowAt(r) <==> (Counts(r) && LowEmpty(r) > 0 ==> x.May(m) == Occupied(r) + r.unknown)
    {
      LowerGuard(x, m);
    }
  }

  /** The truth lies in the machine's range. */
  ghost predicate InRange(x: Site, c: Choice)
    requires |c.ready| == |x.k.ready|
  {
    LowSum(x.k, |x.k.ready|) <= TrueOverAll(x, c, |x.k.ready|) <= HighSum(x.k, |x.k.ready|)
  }

  /** Over every choice of what was not observed, the truth lies in the machine's range exactly
      when the report is complete. */
  lemma RangeHoldsExactly(x: Site)
    requires x.Valid()
    ensures Complete(x) <==> forall c :: PossibleChoice(x, c) ==> InRange(x, c)
  {
    var n := |x.k.ready|;
    LowerMeansComplete(x);
    forall c | PossibleChoice(x, c) && Complete(x) ensures InRange(x, c) { TruthBetween(x, c, n); }
    FullestIsLeast(x, n);
    EmptiestIsMost(x, n);
  }

  // ---- minute by minute

  /** No slot counted as held in minute m may have been empty beside ready work, and no slot of
      it may have been empty beside unknown work. */
  predicate UpperCompleteAt(x: Site, m: nat)
    requires Sized(x) && m < |x.k.ready|
  {
    var r := x.k.RowOf(m);
    && (Counts(r) ==> r.cap <= x.Must(m) || Occupied(r) <= x.Must(m))
    && (r.cap >= 0 && r.ready < 0 ==> r.cap <= x.Must(m))
  }

  /** On a window from a whole minute the condition is one on each minute. */
  lemma WholeMinuteExactly(x: Site)
    requires x.Valid() && x.since % MINUTE == 0
    ensures Complete(x) <==> LowerComplete(x) && forall m :: 0 <= m < |x.k.ready| ==> UpperCompleteAt(x, m)
    ensures HighSum(x.k, |x.k.ready|) <= MostSum(x, |x.k.ready|)
  {
    UpperByMinute(x, |x.k.ready|);
  }

  lemma {:induction false} UpperByMinute(x: Site, n: nat)
    requires x.Valid() && x.since % MINUTE == 0 && n <= |x.k.ready|
    ensures HighSum(x.k, n) <= MostSum(x, n)
    ensures MostSum(x, n) <= HighSum(x.k, n) <==> forall m :: 0 <= m < n ==> UpperCompleteAt(x, m)
  {
    hide UnitsOf, ReportsOn, TaskReplay.IsTaskEnd;
    if n > 0 {
      UpperByMinute(x, n - 1);
      UpperGuard(x, n - 1);
    }
  }

  lemma UpperGuard(x: Site, m: nat)
    requires x.Valid() && x.since % MINUTE == 0 && m < |x.k.ready|
    ensures HighAt(x.k.RowOf(m)) <= MostAt(x, m)
    ensures MostAt(x, m) <= HighAt(x.k.RowOf(m)) <==> UpperCompleteAt(x, m)
  {
    MinuteInWindow(x.k, x.since, x.until, m);
    CountedMust(x, m);
  }

  /** Enough on such a window: every minute with a capacity knows its ready work, and every job
      that may hold a slot had ended before, or is a builder whose first claim and whose ends
      have times, its linked tasks' included. */
  lemma WholeMinuteIsComplete(x: Site)
    requires x.Valid() && x.since % MINUTE == 0
    requires forall m :: 0 <= m < |x.k.ready| ==> x.k.RowOf(m).cap >= 0 ==> x.k.ready[m] >= 0
    requires forall i :: 0 <= i < |x.jobs| ==> x.Records()[i].FirmEnd()
    requires forall i :: 0 <= i < |x.jobs| && MayBeBuilder(x.jobs[i], x.machine) ==>
               || (Placed(x.jobs[i], x.machine) && !UntimedClaim(x.jobs[i].events))
               || (x.Records()[i].End().Some? && x.Records()[i].End().value <= x.since)
    ensures Complete(x)
  {
    WholeMinuteExactly(x);
    forall m: nat | m < |x.k.ready|
      ensures UpperCompleteAt(x, m) && x.May(m) == Occupied(x.k.RowOf(m)) + x.k.RowOf(m).unknown
    {
      MinuteInWindow(x.k, x.since, x.until, m);
      CountedMust(x, m);
      MayIsCounted(x, m);
    }
  }

  lemma MayIsCounted(x: Site, m: nat)
    requires x.Valid() && m < |x.k.ready| && x.since <= x.At(m)
    requires forall i :: 0 <= i < |x.jobs| && MayBeBuilder(x.jobs[i], x.machine) ==>
               || (Placed(x.jobs[i], x.machine) && !UntimedClaim(x.jobs[i].events))
               || (x.Records()[i].End().Some? && x.Records()[i].End().value <= x.since)
    ensures x.May(m) == Occupied(x.k.RowOf(m)) + x.k.RowOf(m).unknown
  {
    RowCounts(x, m);
    RecordsAreOf(x);
    MayKept(x.all, x.Records(), x.jobs, x.taskEnds, x.machine, x.since, x.until, x.At(m));
  }

  lemma {:induction false} MayKept(all: seq<Unit>, records: seq<Record>, jobs: seq<Job>, taskEnds: seq<Option<Tick>>,
                                   machine: string, since: Tick, until: Tick, t: Tick)
    requires |taskEnds| == |jobs| && UnitsOf(all, jobs, taskEnds, machine, until)
    requires RecordsOf(records, jobs, taskEnds, machine, until) && since <= t < until
    requires forall i :: 0 <= i < |jobs| && MayBeBuilder(jobs[i], machine) ==>
               || (Placed(jobs[i], machine) && !UntimedClaim(jobs[i].events))
               || (records[i].End().Some? && records[i].End().value <= since)
    ensures MayCount(records, t) == PerhapsHeld(Select(all, since, until), t)
    decreases |jobs|
  {
    hide IsUnitOf, RecordedEnd, FirstClaim, FetchedEnd, Keep;
    if |jobs| > 0 {
      var n := |jobs| - 1;
      if Placed(jobs[n], machine) {
        var a := |all| - 1;
        MayKept(all[..a], records[..n], jobs[..n], taskEnds[..n], machine, since, until, t);
        LateSnoc(all, since, until, t);
        UnitKeptMay(all[a], records[n], since, t);
      } else {
        MayKept(all, records[..n], jobs[..n], taskEnds[..n], machine, since, until, t);
      }
    }
  }

  lemma LateSnoc(all: seq<Unit>, since: Tick, until: Tick, t: Tick)
    requires |all| > 0
    ensures PerhapsHeld(Select(all, since, until), t)
         == PerhapsHeld(Select(all[..|all| - 1], since, until), t)
            + (if HoldsLate(Keep(all[|all| - 1], since, until), t) then 1 else 0)
  {
    var kept, before := Select(all, since, until), Select(all[..|all| - 1], since, until);
    if Keep(all[|all| - 1], since, until).Some? {
      assert kept[..|before|] == before && EndsLate(kept, t + 1)[..|before|] == EndsLate(before, t + 1);
    }
  }

  lemma UnitKeptMay(u: Unit, r: Record, since: Tick, t: Tick)
    requires Placed(r.job, r.machine) && IsUnitOf(u, r.job, r.taskEnd, r.until) && since <= t < r.until
    requires !UntimedClaim(r.job.events) || (r.End().Some? && r.End().value <= since)
    ensures r.MayHold(t) <==> HoldsLate(Keep(u, since, r.until), t)
  {
    assert FirstClaim(r.job.events) == Some(u.from);
    UnitEnd(u, r);
  }

  /** Both ends of a complete report are truths for some choice on a window from a whole minute:
      neither bound can be improved. The lower one is reached on any window. */
  lemma BothEndsReached(x: Site)
    requires x.Valid() && Complete(x)
    ensures exists c :: PossibleChoice(x, c) && TrueOverAll(x, c, |x.k.ready|) == LowSum(x.k, |x.k.ready|)
    ensures x.since % MINUTE == 0 ==>
              exists c :: PossibleChoice(x, c) && TrueOverAll(x, c, |x.k.ready|) == HighSum(x.k, |x.k.ready|)
  {
    var n := |x.k.ready|;
    LowerMeansComplete(x);
    LowerExactly(x, n);
    FullestIsLeast(x, n);
    EmptiestIsMost(x, n);
    if x.since % MINUTE == 0 { WholeMinuteExactly(x); }
  }
}
