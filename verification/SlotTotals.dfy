/** metrics.go, slots: the report of every machine from the snapshot's tasks and jobs, and their
    total. */
module SlotTotals {
  import opened Common
  import opened UnitSpans
  import opened SlotReport
  import opened SlotWindow
  import opened SlotTruth
  import TaskReplay

  /** The ready work of every minute of the window. */
  ghost predicate ReadyWork(ready: seq<int>, tasks: seq<TaskReplay.Task>, since: Tick, until: Tick)
    requires since >= 0
  {
    var start := WindowStart(since);
    && |ready| == WindowMinutes(start, until)
    && forall m :: 0 <= m < |ready| ==> ready[m] == ReadyAt(tasks, start + m * MINUTE)
  }

  /** When the tasks linked to each job had all ended, as unitFor is told. */
  ghost predicate TaskEnds(linked: seq<seq<TaskReplay.Task>>, taskEnds: seq<Option<Tick>>) {
    |taskEnds| == |linked| && forall i :: 0 <= i < |linked| ==> TaskReplay.IsTaskEnd(linked[i], taskEnds[i])
  }

  method EndsOfTasks(linked: seq<seq<TaskReplay.Task>>) returns (taskEnds: seq<Option<Tick>>)
    ensures TaskEnds(linked, taskEnds)
  {
    taskEnds := [];
    for i := 0 to |linked|
      invariant |taskEnds| == i && forall k :: 0 <= k < i ==> TaskReplay.IsTaskEnd(linked[k], taskEnds[k])
    {
      var end := TaskReplay.JobTaskEnd(linked[i]);
      taskEnds := taskEnds + [end];
    }
  }

  // ---- one machine, from its jobs

  /** A machine's slots from the snapshot's jobs and the tasks linked to each. The truth over all
      of them lies in the reported range exactly when the report is complete. */
  method MachineReport(jobs: seq<Job>, machine: string, ghost linked: seq<seq<TaskReplay.Task>>,
                       taskEnds: seq<Option<Tick>>, timeline: seq<Capacity>, ready: seq<int>,
                       ghost tasks: seq<TaskReplay.Task>, since: Tick, until: Tick)
    returns (ms: Slots, ghost x: Site)
    requires since >= 0 && |linked| == |jobs| && TaskEnds(linked, taskEnds) && ReadyWork(ready, tasks, since, until)
    ensures x == Site(x.k, x.all, jobs, linked, taskEnds, machine, since, until) && x.Valid()
    ensures x.k.timeline == timeline && x.k.ready == ready && x.k.start == WindowStart(since)
    ensures Attached(x.k.units, jobs, machine, Select(x.all, since, until))
    ensures Reported(ms, x.k)
    ensures Complete(x) <==>
            forall c :: PossibleChoice(x, c) ==> ms.withReady <= TrueOverAll(x, c, |ready|) <= ms.withReadyMax
  {
    hide UnitsOf, Attached, ReportsOn, Reported, ReadyWork;
    WindowOf(ready, tasks, since, until);
    var spans;
    ghost var all;
    spans, all := BuildUnits(jobs, machine, taskEnds, since, until);
    UnitsStartIdle(all, jobs, taskEnds, machine, until);
    SelectedIdle(all, since, until);
    var units := AttachWorkers(spans, jobs, machine);
    var k := Machine(units, timeline, ready, WindowStart(since));
    AttachedReports(k, jobs, machine, all, since, until);
    ms := MachineSlots(k);
    x := Site(k, all, jobs, linked, taskEnds, machine, since, until);
    ReportedRange(ms, k);
    RangeHoldsExactly(x);
  }

  lemma WindowOf(ready: seq<int>, tasks: seq<TaskReplay.Task>, since: Tick, until: Tick)
    requires since >= 0 && ReadyWork(ready, tasks, since, until)
    ensures |ready| == WindowMinutes(WindowStart(since), until)
  {}

  lemma ReportedRange(ms: Slots, k: Machine)
    requires Reported(ms, k)
    ensures Partitioned(ms) && ms.withReady == LowSum(k, |k.ready|) && ms.withReadyMax == HighSum(k, |k.ready|)
  {}

  // ---- all machines

  function Plus(a: Slots, b: Slots): Slots {
    Slots(a.slotMinutes + b.slotMinutes, a.working + b.working, a.heldIdle + b.heldIdle, a.empty + b.empty,
          a.unobserved + b.unobserved, a.overflow + b.overflow, a.withReady + b.withReady,
          a.withReadyMax + b.withReadyMax, a.eligibilityUnrecorded + b.eligibilityUnrecorded,
          a.upperBoundOnly + b.upperBoundOnly, a.backlogEmpty + b.backlogEmpty, a.readyUnknown + b.readyUnknown)
  }

  function Folded(perMachine: seq<Slots>): Slots {
    if |perMachine| == 0 then NO_SLOTS
    else Plus(Folded(perMachine[..|perMachine| - 1]), perMachine[|perMachine| - 1])
  }

  function LowTotal(sites: seq<Site>): nat {
    if |sites| == 0 then 0
    else
      var k := sites[|sites| - 1].k;
      LowTotal(sites[..|sites| - 1]) + LowSum(k, |k.ready|)
  }

  function HighTotal(sites: seq<Site>): nat {
    if |sites| == 0 then 0
    else
      var k := sites[|sites| - 1].k;
      HighTotal(sites[..|sites| - 1]) + HighSum(k, |k.ready|)
  }

  ghost predicate AllValid(sites: seq<Site>) {
    forall i :: 0 <= i < |sites| ==> sites[i].Valid()
  }

  /** The reports are on one window of one snapshot, so they share its ready work. */
  ghost predicate OneWindow(sites: seq<Site>) {
    forall i, j :: 0 <= i < |sites| && 0 <= j < |sites| ==>
      sites[i].k.ready == sites[j].k.ready && sites[i].since == sites[j].since
  }

  /** A choice for every machine, with one choice of the ready work. */
  ghost predicate AllPossible(sites: seq<Site>, choices: seq<Choice>)
    requires AllValid(sites)
  {
    && |choices| == |sites|
    && (forall i :: 0 <= i < |sites| ==> PossibleChoice(sites[i], choices[i]))
    && (forall i, j :: 0 <= i < |sites| && 0 <= j < |sites| ==> choices[i].ready == choices[j].ready)
  }

  /** The truth over every machine. */
  ghost function TrueTotal(sites: seq<Site>, choices: seq<Choice>): nat
    requires AllValid(sites) && AllPossible(sites, choices)
    decreases |sites|
  {
    if |sites| == 0 then 0
    else
      var n := |sites| - 1;
      InitPossible(sites, choices);
      TrueTotal(sites[..n], choices[..n]) + TrueOverAll(sites[n], choices[n], |sites[n].k.ready|)
  }

  lemma InitPossible(sites: seq<Site>, choices: seq<Choice>)
    requires sites != [] && AllValid(sites) && AllPossible(sites, choices)
    ensures AllValid(sites[..|sites| - 1]) && AllPossible(sites[..|sites| - 1], choices[..|sites| - 1])
    ensures sites[|sites| - 1].Valid() && PossibleChoice(sites[|sites| - 1], choices[|sites| - 1])
  {}

  /** The machines that have task slots and job history, in name order, with their timelines;
      linked[i] are the tasks linked to jobs[i]. */
  method SlotTotals(tasks: seq<TaskReplay.Task>, jobs: seq<Job>, linked: seq<seq<TaskReplay.Task>>,
                    machines: seq<(string, seq<Capacity>)>, since: Tick, until: Tick)
    returns (perMachine: seq<Slots>, total: Slots, ghost sites: seq<Site>)
    requires since >= 0 && |linked| == |jobs|
    ensures |perMachine| == |sites| == |machines| && AllValid(sites) && OneWindow(sites)
    ensures forall i :: 0 <= i < |machines| ==> SiteOf(sites[i], tasks, jobs, linked, machines[i], since, until)
    ensures forall i :: 0 <= i < |machines| ==> Reported(perMachine[i], sites[i].k)
    ensures Totals(perMachine, sites, total)
  {
    hide Reported, SiteOf, Totals;
    perMachine, total, sites := [], NO_SLOTS, [];
    NoMachinesYet(perMachine, sites);
    var taskEnds := EndsOfTasks(linked);
    var start := WindowStart(since);
    var ready := ReadyMinutes(tasks, start, WindowMinutes(start, until));
    for i := 0 to |machines|
      invariant |perMachine| == |sites| == i && AllValid(sites)
      invariant ReadyWork(ready[..], tasks, since, until)
      invariant forall k :: 0 <= k < i ==> sites[k].k.ready == ready[..] && sites[k].since == since
      invariant forall k :: 0 <= k < i ==> SiteOf(sites[k], tasks, jobs, linked, machines[k], since, until)
      invariant forall k :: 0 <= k < i ==> Reported(perMachine[k], sites[k].k)
      invariant Totals(perMachine, sites, total)
    {
      var ms;
      ghost var x;
      ms, x := MachineReport(jobs, machines[i].0, linked, taskEnds, machines[i].1, ready[..], tasks, since, until);
      ReportsSite(x, tasks, jobs, linked, machines[i], ready[..], since, until);
      OneMore(perMachine, sites, total, ms, x);
      total := Plus(total, ms);
      perMachine, sites := perMachine + [ms], sites + [x];
    }
  }

  /** x is the report of one machine of the snapshot. */
  ghost predicate SiteOf(x: Site, tasks: seq<TaskReplay.Task>, jobs: seq<Job>, linked: seq<seq<TaskReplay.Task>>,
                         machine: (string, seq<Capacity>), since: Tick, until: Tick)
    requires since >= 0
  {
    && x == Site(x.k, x.all, jobs, linked, x.taskEnds, machine.0, since, until)
    && x.k.timeline == machine.1 && ReadyWork(x.k.ready, tasks, since, until)
    && Attached(x.k.units, jobs, machine.0, Select(x.all, since, until))
  }

  lemma ReportsSite(x: Site, tasks: seq<TaskReplay.Task>, jobs: seq<Job>, linked: seq<seq<TaskReplay.Task>>,
                    machine: (string, seq<Capacity>), ready: seq<int>, since: Tick, until: Tick)
    requires since >= 0 && ReadyWork(ready, tasks, since, until)
    requires x == Site(x.k, x.all, jobs, linked, x.taskEnds, machine.0, since, until)
    requires x.k.timeline == machine.1 && x.k.ready == ready
    requires Attached(x.k.units, jobs, machine.0, Select(x.all, since, until))
    ensures SiteOf(x, tasks, jobs, linked, machine, since, until)
  {}

  /** The total is partitioned like every machine, sums them up, and carries the range. */
  ghost predicate Totals(perMachine: seq<Slots>, sites: seq<Site>, total: Slots) {
    && Partitioned(total) && total == Folded(perMachine)
    && total.withReady == LowTotal(sites) && total.withReadyMax == HighTotal(sites)
  }

  lemma NoMachinesYet(perMachine: seq<Slots>, sites: seq<Site>)
    requires |perMachine| == |sites| == 0
    ensures Totals(perMachine, sites, NO_SLOTS)
  {
    NoSlotsPartitioned();
    hide Partitioned, Plus, LowSum, HighSum;
  }

  lemma NoSlotsPartitioned()
    ensures Partitioned(NO_SLOTS) && NO_SLOTS.withReady == NO_SLOTS.withReadyMax == 0
  {}

  lemma OneMore(perMachine: seq<Slots>, sites: seq<Site>, total: Slots, ms: Slots, x: Site)
    requires Totals(perMachine, sites, total) && Reported(ms, x.k)
    ensures Totals(perMachine + [ms], sites + [x], Plus(total, ms))
  {
    hide Reported, LowSum, HighSum, Plus, Partitioned;
    ReportedRange(ms, x.k);
    FoldedNext(perMachine, ms);
    TotalsNext(sites, x);
    PlusKeeps(total, ms);
  }

  lemma FoldedNext(perMachine: seq<Slots>, ms: Slots)
    ensures Folded(perMachine + [ms]) == Plus(Folded(perMachine), ms)
  {
    assert (perMachine + [ms])[..|perMachine|] == perMachine;
  }

  lemma TotalsNext(sites: seq<Site>, x: Site)
    ensures LowTotal(sites + [x]) == LowTotal(sites) + LowSum(x.k, |x.k.ready|)
    ensures HighTotal(sites + [x]) == HighTotal(sites) + HighSum(x.k, |x.k.ready|)
  {
    assert (sites + [x])[..|sites|] == sites;
  }

  lemma PlusKeeps(a: Slots, b: Slots)
    requires Partitioned(a) && Partitioned(b)
    ensures Partitioned(Plus(a, b))
    ensures Plus(a, b).withReady == a.withReady + b.withReady
    ensures Plus(a, b).withReadyMax == a.withReadyMax + b.withReadyMax
  {}

  // ---- the range of the total

  function LeastTotal(sites: seq<Site>): nat
    requires forall i :: 0 <= i < |sites| ==> Sized(sites[i])
  {
    if |sites| == 0 then 0
    else
      var x := sites[|sites| - 1];
      LeastTotal(sites[..|sites| - 1]) + LeastSum(x, |x.k.ready|)
  }

  function MostTotal(sites: seq<Site>): nat
    requires forall i :: 0 <= i < |sites| ==> Sized(sites[i])
  {
    if |sites| == 0 then 0
    else
      var x := sites[|sites| - 1];
      MostTotal(sites[..|sites| - 1]) + MostSum(x, |x.k.ready|)
  }

  /** The condition a caller can check: no machine has an uncounted holder, and over all of them
      no more slots may have been empty beside ready work than the report allows for. */
  predicate TotalComplete(sites: seq<Site>)
    requires forall i :: 0 <= i < |sites| ==> Sized(sites[i])
  {
    (forall i :: 0 <= i < |sites| ==> LowerComplete(sites[i])) && MostTotal(sites) <= HighTotal(sites)
  }

  lemma {:induction false} TotalBetween(sites: seq<Site>, choices: seq<Choice>)
    requires AllValid(sites) && AllPossible(sites, choices)
    ensures LeastTotal(sites) <= TrueTotal(sites, choices) <= MostTotal(sites)
    decreases |sites|
  {
    hide PossibleChoice, LeastSum, MostSum, TrueOverAll;
    if |sites| > 0 {
      var n := |sites| - 1;
      InitPossible(sites, choices);
      TotalBetween(sites[..n], choices[..n]);
      TruthBetween(sites[n], choices[n], |sites[n].k.ready|);
    }
  }

  /** What every machine does at its fullest, or at its emptiest, is one choice. */
  ghost predicate AllFullest(sites: seq<Site>, choices: seq<Choice>)
    requires forall i :: 0 <= i < |sites| ==> Sized(sites[i])
  {
    |choices| == |sites| && forall i :: 0 <= i < |sites| ==> choices[i] == Fullest(sites[i])
  }

  ghost predicate AllEmptiest(sites: seq<Site>, choices: seq<Choice>)
    requires forall i :: 0 <= i < |sites| ==> Sized(sites[i])
  {
    |choices| == |sites| && forall i :: 0 <= i < |sites| ==> choices[i] == Emptiest(sites[i])
  }

  lemma FullestTogether(sites: seq<Site>) returns (choices: seq<Choice>)
    requires AllValid(sites) && OneWindow(sites)
    ensures AllFullest(sites, choices) && AllPossible(sites, choices)
  {
    choices := seq(|sites|, i requires 0 <= i < |sites| => Fullest(sites[i]));
  }

  lemma EmptiestTogether(sites: seq<Site>) returns (choices: seq<Choice>)
    requires AllValid(sites) && OneWindow(sites)
    ensures AllEmptiest(sites, choices) && AllPossible(sites, choices)
  {
    choices := seq(|sites|, i requires 0 <= i < |sites| => Emptiest(sites[i]));
  }

  lemma {:induction false} FullestTotal(sites: seq<Site>, choices: seq<Choice>)
    requires AllValid(sites) && AllPossible(sites, choices) && AllFullest(sites, choices)
    ensures TrueTotal(sites, choices) == LeastTotal(sites)
    decreases |sites|
  {
    hide PossibleChoice, LeastSum, TrueOverAll, Fullest;
    if |sites| > 0 {
      var n := |sites| - 1;
      InitPossible(sites, choices);
      FullestTotal(sites[..n], choices[..n]);
      FullestIsLeast(sites[n], |sites[n].k.ready|);
    }
  }

  lemma {:induction false} EmptiestTotal(sites: seq<Site>, choices: seq<Choice>)
    requires AllValid(sites) && AllPossible(sites, choices) && AllEmptiest(sites, choices)
    ensures TrueTotal(sites, choices) == MostTotal(sites)
    decreases |sites|
  {
    hide PossibleChoice, MostSum, TrueOverAll, Emptiest;
    if |sites| > 0 {
      var n := |sites| - 1;
      InitPossible(sites, choices);
      EmptiestTotal(sites[..n], choices[..n]);
      EmptiestIsMost(sites[n], |sites[n].k.ready|);
    }
  }

  lemma {:induction false} LowerTotal(sites: seq<Site>)
    requires AllValid(sites)
    ensures LeastTotal(sites) <= LowTotal(sites)
    ensures LowTotal(sites) <= LeastTotal(sites) <==> forall i :: 0 <= i < |sites| ==> LowerComplete(sites[i])
    decreases |sites|
  {
    hide LowerComplete, LeastSum, LowSum, UnitsOf, ReportsOn, TaskReplay.IsTaskEnd;
    if |sites| > 0 {
      var n := |sites| - 1;
      LowerTotal(sites[..n]);
      LowerOfOne(sites[n]);
      assert forall i :: 0 <= i < n ==> sites[..n][i] == sites[i];
    }
  }

  lemma LowerOfOne(x: Site)
    requires x.Valid()
    ensures LeastSum(x, |x.k.ready|) <= LowSum(x.k, |x.k.ready|)
    ensures LowSum(x.k, |x.k.ready|) <= LeastSum(x, |x.k.ready|) <==> LowerComplete(x)
  {
    LowerExactly(x, |x.k.ready|);
    LowerMeansComplete(x);
  }

  /** The total truth lies in the total range. */
  ghost predicate TotalInRange(sites: seq<Site>, choices: seq<Choice>)
    requires AllValid(sites) && AllPossible(sites, choices)
  {
    LowTotal(sites) <= TrueTotal(sites, choices) <= HighTotal(sites)
  }

  /** Over every choice of what was not observed the total truth lies in the total range exactly
      when the total is complete. */
  lemma TotalHoldsExactly(sites: seq<Site>)
    requires AllValid(sites) && OneWindow(sites)
    ensures TotalComplete(sites) <==> forall choices :: AllPossible(sites, choices) ==> TotalInRange(sites, choices)
  {
    LowerTotal(sites);
    forall choices | AllPossible(sites, choices) && TotalComplete(sites) ensures TotalInRange(sites, choices) {
      TotalBetween(sites, choices);
    }
    var full := FullestTogether(sites);
    var bare := EmptiestTogether(sites);
    FullestTotal(sites, full);
    EmptiestTotal(sites, bare);
  }

  /** On a window from a whole minute the total is complete exactly when every machine is. */
  lemma TotalByMachine(sites: seq<Site>)
    requires AllValid(sites) && forall i :: 0 <= i < |sites| ==> sites[i].since % MINUTE == 0
    ensures TotalComplete(sites) <==> forall i :: 0 <= i < |sites| ==> Complete(sites[i])
  {
    UpperTotal(sites);
  }

  lemma {:induction false} UpperTotal(sites: seq<Site>)
    requires AllValid(sites) && forall i :: 0 <= i < |sites| ==> sites[i].since % MINUTE == 0
    ensures HighTotal(sites) <= MostTotal(sites)
    ensures MostTotal(sites) <= HighTotal(sites) <==> forall i :: 0 <= i < |sites| ==> UpperComplete(sites[i])
    decreases |sites|
  {
    hide UpperComplete, MostSum, HighSum, UnitsOf, ReportsOn, TaskReplay.IsTaskEnd;
    if |sites| > 0 {
      var n := |sites| - 1;
      UpperTotal(sites[..n]);
      UpperOfOne(sites[n]);
      assert forall i :: 0 <= i < n ==> sites[..n][i] == sites[i];
    }
  }

  lemma UpperOfOne(x: Site)
    requires x.Valid() && x.since % MINUTE == 0
    ensures HighSum(x.k, |x.k.ready|) <= MostSum(x, |x.k.ready|)
    ensures MostSum(x, |x.k.ready|) <= HighSum(x.k, |x.k.ready|) <==> UpperComplete(x)
  {
    WholeMinuteExactly(x);
  }

  /** The lower end of a complete total is the truth for some choice on every machine. */
  lemma TotalLowReached(sites: seq<Site>)
    requires AllValid(sites) && OneWindow(sites) && TotalComplete(sites)
    ensures exists choices :: AllPossible(sites, choices) && TrueTotal(sites, choices) == LowTotal(sites)
  {
    hide PossibleChoice, LowerComplete;
    var choices := FullestTogether(sites);
    FullestTotal(sites, choices);
    LowerTotal(sites);
  }

  /** So is its upper end on a window from a whole minute. */
  lemma TotalHighReached(sites: seq<Site>)
    requires AllValid(sites) && OneWindow(sites) && TotalComplete(sites)
    requires forall i :: 0 <= i < |sites| ==> sites[i].since % MINUTE == 0
    ensures exists choices :: AllPossible(sites, choices) && TrueTotal(sites, choices) == HighTotal(sites)
  {
    hide PossibleChoice, LowerComplete;
    var choices := EmptiestTogether(sites);
    EmptiestTotal(sites, choices);
    UpperTotal(sites);
  }
}
