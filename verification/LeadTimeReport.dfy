/** metrics.go, leadTime: the lead time of every task merged in the window, its phases, and
    what is missing where it cannot be measured. */
module LeadTimeReport {
  import opened Common
  import opened Vocabulary
  import opened LeadTime
  import opened TaskReplay
  import Waits

  datatype Missing = NoClaimEvent | NoPRLink | NotUsable(state: PRState) | UsableBeforeOrder

  /** implement and verifyFix are recorded together, install for the deploy group only. */
  datatype Phases = Phases(implement: Option<Tick>, verifyFix: Option<Tick>, decisionWait: Tick, install: Option<Tick>)

  datatype Outcome =
    | Counted(order: Tick, usable: Tick, merged: Tick, group: Group, phases: Phases)
    | NotCounted(why: Missing)

  /** What is carried over the task's pull requests. */
  datatype Progress = Progress(usable: Option<Tick>, merged: Option<Tick>, group: Group, state: PRState)

  function Later(a: Option<Tick>, b: Option<Tick>): Option<Tick> {
    if b.Some? && (a.None? || b.value > a.value) then b else a
  }

  /** One more pull request: a failing state sticks, except that a definite one replaces a
      deploy that is only awaited. */
  function Advance(p: Progress, r: PRUsable): Progress {
    var group := if r.group.Deploy? then Deploy else p.group;
    if !r.state.Usable? then
      p.(group := group, state := if p.state.Usable? || p.state.AwaitingDeploy? then r.state else p.state)
    else
      p.(group := group, usable := Later(p.usable, r.usableAt), merged := Later(p.merged, r.mergedAt))
  }

  /** The failing state reported is the first that is not only waiting; waiting if all are. */
  ghost predicate Kept(state: PRState, answers: seq<PRUsable>) {
    exists i :: 0 <= i < |answers| && answers[i].state == state
      && forall k :: 0 <= k < |answers| && (k < i || state.AwaitingDeploy?) ==>
           answers[k].state.Usable? || answers[k].state.AwaitingDeploy?
  }

  /** p sums up the answers: each time is the latest of its kind, over usable ones only. */
  ghost predicate SumsUp(p: Progress, answers: seq<PRUsable>) {
    && (p.state.Usable? <==> forall i :: 0 <= i < |answers| ==> answers[i].state.Usable?)
    && (!p.state.Usable? ==> Kept(p.state, answers))
    && (p.group.Deploy? <==> exists i :: 0 <= i < |answers| && answers[i].group.Deploy?)
    && (forall i :: 0 <= i < |answers| && answers[i].state.Usable? ==>
          && p.usable.Some? && answers[i].usableAt.Some? && answers[i].usableAt.value <= p.usable.value
          && p.merged.Some? && answers[i].mergedAt.Some? && answers[i].mergedAt.value <= p.merged.value)
    && (p.usable.Some? ==>
          exists i :: 0 <= i < |answers| && answers[i].state.Usable? && answers[i].usableAt == p.usable)
    && (p.merged.Some? ==>
          exists i :: 0 <= i < |answers| && answers[i].state.Usable? && answers[i].mergedAt == p.merged)
  }

  lemma AdvanceSumsUp(p: Progress, answers: seq<PRUsable>, r: PRUsable)
    requires SumsUp(p, answers)
    requires r.state.Usable? ==> r.usableAt.Some? && r.mergedAt.Some?
    ensures SumsUp(Advance(p, r), answers + [r])
  {
    var all, q := answers + [r], Advance(p, r);
    assert all[|answers|] == r;
    assert forall i :: 0 <= i < |answers| ==> all[i] == answers[i];
    assert q.usable.Some? ==> exists i :: 0 <= i < |all| && all[i].state.Usable? && all[i].usableAt == q.usable;
    assert q.merged.Some? ==> exists i :: 0 <= i < |all| && all[i].state.Usable? && all[i].mergedAt == q.merged;
  }

  /** The answers for a task's pull requests. */
  ghost predicate Answers(s: Snapshot, prs: seq<PR>, hkMerged: Option<Tick>, answers: seq<PRUsable>) {
    |answers| == |prs| && forall i :: 0 <= i < |prs| ==> Describes(s, prs[i], hkMerged, answers[i])
  }

  /** A counted task has every time it needs, in order, and its phases add up to the whole. */
  ghost predicate Sound(o: Outcome) {
    o.Counted? ==>
      && o.order <= o.usable && o.merged <= o.usable
      && (o.group.MergeOnly? ==> o.usable == o.merged)
      && (o.phases.implement.Some? <==> o.phases.verifyFix.Some?)
      && (o.phases.install.Some? <==> o.group.Deploy?)
      && (o.phases.install.Some? ==> o.phases.install.value == o.usable - o.merged)
      && (o.phases.implement.Some? ==>
            && o.phases.implement.value >= 0 && o.phases.verifyFix.value >= 0
            && o.phases.implement.value + o.phases.verifyFix.value + o.phases.install.GetOr(0) == o.usable - o.order)
  }

  /** The first review entry, if it lies between order and merge, divides the two phases. */
  ghost predicate ReviewDivides(events: seq<TaskEvent>, o: Outcome)
    requires o.Counted?
  {
    exists v :: IsFirst(events, v, IsReview)
      && var divides := v.Some? && o.order <= v.value.at <= o.merged;
         o.phases.implement == (if divides then Some(v.value.at - o.order) else None)
  }

  /** The decision wait is that of the time from the order to the merge. */
  ghost predicate WaitsCounted(events: seq<TaskEvent>, o: Outcome)
    requires o.Counted?
  {
    o.phases.decisionWait == Waits.WaitingTicks(events, false, o.order, o.merged) <= Max(0, o.merged - o.order)
  }

  /** One merged task of the window: term is when it reached its terminal state; prs are the
      pull requests linked to its current cycle, in URL order. */
  datatype Entry = Entry(events: seq<TaskEvent>, term: Option<Tick>, prs: seq<PR>)

  ghost predicate Claimed(x: Entry) { exists e :: IsFirst(x.events, Some(e), IsStartEntry) }

  ghost predicate Asked(x: Entry) { Claimed(x) && x.prs != [] }

  ghost predicate Ready(answers: seq<PRUsable>) {
    forall i :: 0 <= i < |answers| ==> answers[i].state.Usable?
  }

  /** Every pull request was usable before the task was first claimed. */
  ghost predicate ReadyBefore(x: Entry, answers: seq<PRUsable>) {
    exists e :: IsFirst(x.events, Some(e), IsStartEntry)
      && forall i :: 0 <= i < |answers| ==> answers[i].usableAt.Some? && answers[i].usableAt.value < e.at
  }

  /** What a task's outcome says of it; answers are those for its pull requests. */
  ghost predicate Measures(s: Snapshot, x: Entry, o: Outcome, answers: seq<PRUsable>) {
    && Sound(o)
    && (Asked(x) ==> Answers(s, x.prs, x.term, answers))
    // each reason exactly when it applies
    && (o == NotCounted(NoClaimEvent) <==> !Claimed(x))
    && (o == NotCounted(NoPRLink) <==> Claimed(x) && x.prs == [])
    && (o.NotCounted? && o.why.NotUsable? <==> Asked(x) && !Ready(answers))
    && (o.NotCounted? && o.why.NotUsable? ==> !o.why.state.Usable? && Kept(o.why.state, answers))
    && (o == NotCounted(UsableBeforeOrder) <==> Asked(x) && Ready(answers) && ReadyBefore(x, answers))
    && (o.Counted? <==> Asked(x) && Ready(answers) && !ReadyBefore(x, answers))
    && (o.Counted? ==>
          && (exists e :: IsFirst(x.events, Some(e), IsStartEntry) && e.at == o.order)
          && (exists p ::
                SumsUp(p, answers) && p.usable == Some(o.usable) && p.merged == Some(o.merged) && p.group == o.group)
          && ReviewDivides(x.events, o)
          && (InTimeOrder(x.events) ==> WaitsCounted(x.events, o)))
  }

  method OverPRs(s: Snapshot, prs: seq<PR>, term: Option<Tick>) returns (p: Progress, ghost answers: seq<PRUsable>)
    ensures Answers(s, prs, term, answers) && SumsUp(p, answers)
  {
    hide Describes, SumsUp, Advance;
    p, answers := Progress(None, None, MergeOnly, Usable), [];
    NothingSummed(p, answers);
    for i := 0 to |prs|
      invariant |answers| == i && forall k :: 0 <= k < i ==> Describes(s, prs[k], term, answers[k])
      invariant SumsUp(p, answers)
    {
      var r := PrUsable(s, prs[i], term);
      if r.state.Usable? { UsableAfterMerge(s, prs[i], term, r); }
      AdvanceSumsUp(p, answers, r);
      p, answers := Advance(p, r), answers + [r];
    }
  }

  lemma NothingSummed(p: Progress, answers: seq<PRUsable>)
    requires p == Progress(None, None, MergeOnly, Usable) && |answers| == 0
    ensures SumsUp(p, answers)
  {}

  method MeasureTask(s: Snapshot, x: Entry) returns (o: Outcome, ghost answers: seq<PRUsable>)
    ensures Measures(s, x, o, answers)
  {
    hide Describes;
    answers := [];
    var order := FirstInto(x.events, IsStartEntry);
    FirstIsUnique(x.events, order);
    if order.None? { return NotCounted(NoClaimEvent), answers; }
    if |x.prs| == 0 { return NotCounted(NoPRLink), answers; }
    var p;
    p, answers := OverPRs(s, x.prs, x.term);
    if !p.state.Usable? { return NotCounted(NotUsable(p.state)), answers; }
    AllUsable(s, x.prs, x.term, answers, p);
    var start := order.value.at;
    LatestBefore(x, order.value, answers, p);
    if p.usable.value < start { return NotCounted(UsableBeforeOrder), answers; }
    o := Phase(x.events, start, p);
  }

  /** The latest usable time is before the claim exactly when all are. */
  lemma LatestBefore(x: Entry, first: TaskEvent, answers: seq<PRUsable>, p: Progress)
    requires IsFirst(x.events, Some(first), IsStartEntry) && SumsUp(p, answers) && Ready(answers) && p.usable.Some?
    ensures ReadyBefore(x, answers) <==> p.usable.value < first.at
  {}

  lemma FirstIsUnique(events: seq<TaskEvent>, order: Option<TaskEvent>)
    requires IsFirst(events, order, IsStartEntry)
    ensures order.Some? <==> exists e :: IsFirst(events, Some(e), IsStartEntry)
  {}

  lemma AllUsable(s: Snapshot, prs: seq<PR>, term: Option<Tick>, answers: seq<PRUsable>, p: Progress)
    requires Answers(s, prs, term, answers) && SumsUp(p, answers) && prs != [] && p.state.Usable?
    ensures p.usable.Some? && p.merged.Some? && p.merged.value <= p.usable.value
    ensures p.group.MergeOnly? ==> p.usable == p.merged
  {
    assert answers[0].state.Usable?;
    var i :| 0 <= i < |answers| && answers[i].state.Usable? && answers[i].mergedAt == p.merged;
    UsableAfterMerge(s, prs[i], term, answers[i]);
    var k :| 0 <= k < |answers| && answers[k].state.Usable? && answers[k].usableAt == p.usable;
    UsableAfterMerge(s, prs[k], term, answers[k]);
  }

  /** The phases of a task that is counted. */
  method Phase(events: seq<TaskEvent>, order: Tick, p: Progress) returns (o: Outcome)
    requires p.usable.Some? && p.merged.Some? && p.merged.value <= p.usable.value && order <= p.usable.value
    requires p.group.MergeOnly? ==> p.usable == p.merged
    ensures Sound(o) && o.Counted? && o.order == order && o.usable == p.usable.value && o.merged == p.merged.value
    ensures o.group == p.group && ReviewDivides(events, o)
    ensures InTimeOrder(events) ==> WaitsCounted(events, o)
  {
    var usable, merged := p.usable.value, p.merged.value;
    var implement, verifyFix: Option<Tick> := None, None;
    var v := FirstInto(events, IsReview);
    if v.Some? && v.value.at >= order && merged >= v.value.at {
      implement, verifyFix := Some(v.value.at - order), Some(merged - v.value.at);
    }
    var wait := Waits.WaitTime(events, order, merged);
    Waits.TicksBounded(events, false, order, merged);
    var install := if p.group.Deploy? then Some(usable - merged) else None;
    o := Counted(order, usable, merged, p.group, Phases(implement, verifyFix, wait, install));
  }

  // ---- the report

  /** Lead times by group, and how many tasks could not be measured. */
  datatype Report = Report(deploy: seq<Tick>, mergeOnly: seq<Tick>, completed: nat, missing: nat)

  /** The lead times of one group, in the tasks' order. */
  ghost function GroupTimes(outcomes: seq<Outcome>, group: Group): seq<Tick> {
    if outcomes == [] then []
    else
      var o := outcomes[|outcomes| - 1];
      GroupTimes(outcomes[..|outcomes| - 1], group)
        + (if o.Counted? && o.group == group then [o.usable - o.order] else [])
  }

  /** Every merged task of the window is either in one group's times or missing; none becomes
      a zero. */
  method LeadTimes(s: Snapshot, entries: seq<Entry>)
    returns (r: Report, ghost outcomes: seq<Outcome>, ghost answers: seq<seq<PRUsable>>)
    ensures |outcomes| == |answers| == |entries|
    ensures forall i :: 0 <= i < |entries| ==> Measures(s, entries[i], outcomes[i], answers[i])
    ensures r.deploy == GroupTimes(outcomes, Deploy) && r.mergeOnly == GroupTimes(outcomes, MergeOnly)
    ensures r.completed == |entries| == |r.deploy| + |r.mergeOnly| + r.missing
    ensures forall d :: d in r.deploy || d in r.mergeOnly ==> d >= 0
  {
    hide Measures;
    r, outcomes, answers := Report([], [], 0, 0), [], [];
    for i := 0 to |entries|
      invariant |outcomes| == |answers| == i
      invariant forall k :: 0 <= k < i ==> Measures(s, entries[k], outcomes[k], answers[k])
      invariant r.deploy == GroupTimes(outcomes, Deploy) && r.mergeOnly == GroupTimes(outcomes, MergeOnly)
      invariant r.completed == i == |r.deploy| + |r.mergeOnly| + r.missing
      invariant forall d :: d in r.deploy || d in r.mergeOnly ==> d >= 0
    {
      r := r.(completed := r.completed + 1);
      var o, given := MeasureTask(s, entries[i]);
      CountedInOrder(s, entries[i], o, given);
      GroupTimesNext(outcomes, o, Deploy);
      GroupTimesNext(outcomes, o, MergeOnly);
      outcomes, answers := outcomes + [o], answers + [given];
      if o.NotCounted? { r := r.(missing := r.missing + 1); }
      else if o.group.Deploy? { r := r.(deploy := r.deploy + [o.usable - o.order]); }
      else { r := r.(mergeOnly := r.mergeOnly + [o.usable - o.order]); }
    }
  }

  lemma CountedInOrder(s: Snapshot, x: Entry, o: Outcome, answers: seq<PRUsable>)
    requires Measures(s, x, o, answers)
    ensures o.Counted? ==> o.order <= o.usable
  {}

  lemma GroupTimesNext(outcomes: seq<Outcome>, o: Outcome, group: Group)
    ensures GroupTimes(outcomes + [o], group)
         == GroupTimes(outcomes, group) + (if o.Counted? && o.group == group then [o.usable - o.order] else [])
  {
    assert (outcomes + [o])[..|outcomes|] == outcomes;
  }
}
