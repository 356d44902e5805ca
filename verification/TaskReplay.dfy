/** linkage.go and vocab.go: what a task's events say of its state and its current work cycle. */
module TaskReplay {
  import opened Common
  import opened Vocabulary

  /** events is None when the history was not fetched. */
  datatype Task = Task(state: TaskState, createdAt: Tick, updatedAt: Tick, events: Option<seq<TaskEvent>>)

  datatype Standing = Absent | Unfetched | In(state: TaskState)

  // ---- the state at a time

  /** What the forward scan reaches, which stops at the first transition after at. */
  function Scan(events: seq<TaskEvent>, state: TaskState, at: Tick): TaskState {
    if events == [] then state
    else if !StateEvent(events[0]) then Scan(events[1..], state, at)
    else if events[0].at > at then state
    else Scan(events[1..], events[0].to, at)
  }

  /** The direct definition: where the last transition at or before at led. */
  function LastTransition(events: seq<TaskEvent>, at: Tick): TaskState {
    if events == [] then Backlog
    else
      var e := events[|events| - 1];
      if StateEvent(e) && e.at <= at then e.to else LastTransition(events[..|events| - 1], at)
  }

  function StateAtSpec(t: Task, at: Tick): Standing {
    if at < t.createdAt then Absent
    else if t.events.None? then (if at >= t.updatedAt then In(t.state) else Unfetched)
    else In(Scan(t.events.value, Backlog, at))
  }

  method StateAt(t: Task, at: Tick) returns (s: Standing)
    ensures s == StateAtSpec(t, at)
    // absent before it was created, unknown until the last change while its history is missing
    ensures s == Absent <==> at < t.createdAt
    ensures s == Unfetched <==> t.events.None? && t.createdAt <= at < t.updatedAt
    ensures t.events.None? && at >= t.createdAt && at >= t.updatedAt ==> s == In(t.state)
    ensures t.events.Some? && InTimeOrder(t.events.value) && at >= t.createdAt ==>
              s == In(LastTransition(t.events.value, at))
  {
    if at < t.createdAt { return Absent; }
    if t.events.None? { return if at >= t.updatedAt then In(t.state) else Unfetched; }
    var events := t.events.value;
    if InTimeOrder(events) { ScanFindsLast(events, at); }
    var state := Backlog;
    for i := 0 to |events|
      invariant Scan(events, Backlog, at) == Scan(events[i..], state, at)
    {
      assert events[i..][0] == events[i] && events[i..][1..] == events[i + 1..];
      if !StateEvent(events[i]) { continue; }
      if events[i].at > at { break; }
      state := events[i].to;
    }
    s := In(state);
  }

  lemma {:induction false} ScanAppend(events: seq<TaskEvent>, e: TaskEvent, state: TaskState, at: Tick)
    requires InTimeOrder(events + [e])
    ensures Scan(events + [e], state, at) ==
            if StateEvent(e) && e.at <= at then e.to else Scan(events, state, at)
  {
    if events == [] {
      assert ([] + [e])[1..] == [];
    } else {
      var all := events + [e];
      assert all[1..] == events[1..] + [e] && all[0] == events[0];
      assert all[0].at <= all[|events|].at;
      var next := if StateEvent(events[0]) && events[0].at <= at then events[0].to else state;
      OrderedTail(all);
      ScanAppend(events[1..], e, next, at);
    }
  }

  lemma OrderedTail(events: seq<TaskEvent>)
    requires events != [] && InTimeOrder(events)
    ensures InTimeOrder(events[1..]) && InTimeOrder(events[..|events| - 1])
  {
    forall i, j | 0 <= i < j < |events| - 1 ensures events[1..][i].at <= events[1..][j].at {
      assert events[i + 1].at <= events[j + 1].at;
    }
  }

  lemma {:induction false} ScanFindsLast(events: seq<TaskEvent>, at: Tick)
    requires InTimeOrder(events)
    ensures Scan(events, Backlog, at) == LastTransition(events, at)
    decreases |events|
  {
    if events != [] {
      var init, e := events[..|events| - 1], events[|events| - 1];
      assert init + [e] == events;
      ScanAppend(init, e, Backlog, at);
      OrderedTail(events);
      ScanFindsLast(init, at);
    }
  }

  // ---- the current cycle

  /** The first event after the most recent reopen. */
  method CycleStart(events: seq<TaskEvent>) returns (start: nat)
    ensures start == CycleStartOf(events)
  {
    start := 0;
    for i := 0 to |events|
      invariant start == CycleStartOf(events[..i])
    {
      assert events[..i + 1][..i] == events[..i];
      if IsReopen(events[i]) { start := i + 1; }
    }
    assert events[..|events|] == events;
  }

  function CycleStartOf(events: seq<TaskEvent>): (start: nat)
    ensures start <= |events|
    ensures forall i :: start <= i < |events| ==> !IsReopen(events[i])
    ensures start > 0 ==> IsReopen(events[start - 1])
    decreases |events|
  {
    if events == [] then 0
    else if IsReopen(events[|events| - 1]) then |events|
    else CycleStartOf(events[..|events| - 1])
  }

  /** The first transition of the current cycle into a started state, if any. */
  ghost predicate IsFirst(events: seq<TaskEvent>, found: Option<TaskEvent>, wanted: TaskState -> bool) {
    var start := CycleStartOf(events);
    match found
    case None => forall i :: start <= i < |events| ==> !(StateEvent(events[i]) && wanted(events[i].to))
    case Some(e) =>
      exists i :: start <= i < |events| && events[i] == e && StateEvent(e) && wanted(e.to)
        && forall j :: start <= j < i ==> !(StateEvent(events[j]) && wanted(events[j].to))
  }

  method FirstInto(events: seq<TaskEvent>, wanted: TaskState -> bool) returns (found: Option<TaskEvent>)
    ensures IsFirst(events, found, wanted)
  {
    var i := CycleStart(events);
    while i < |events|
      invariant CycleStartOf(events) <= i <= |events|
      invariant forall j :: CycleStartOf(events) <= j < i ==> !(StateEvent(events[j]) && wanted(events[j].to))
    {
      if StateEvent(events[i]) && wanted(events[i].to) { return Some(events[i]); }
      i := i + 1;
    }
    return None;
  }

  /** When a settled task reached its state: its last transition there, or its last change
      when its history was not fetched. */
  function TerminalAt(t: Task): (r: Option<Tick>)
    ensures r.Some? ==> t.state in {Merged, Deployed, Completed, Dropped, Duplicate}
    ensures t.events.None? && IsSettled(t.state) ==> r == Some(t.updatedAt)
    ensures t.events.Some? && r.Some? ==>
              exists i :: LastEventInto(t.events.value, t.state, i) && r.value == t.events.value[i].at
    ensures t.events.Some? && r.None? && IsSettled(t.state) ==>
              forall e :: e in t.events.value ==> !(StateEvent(e) && e.to == t.state)
  {
    if !IsSettled(t.state) then None
    else if t.events.None? then Some(t.updatedAt)
    else LastInto(t.events.value, t.state)
  }

  ghost predicate LastEventInto(events: seq<TaskEvent>, state: TaskState, i: int) {
    && 0 <= i < |events| && StateEvent(events[i]) && events[i].to == state
    && forall k :: i < k < |events| ==> !(StateEvent(events[k]) && events[k].to == state)
  }

  function LastInto(events: seq<TaskEvent>, state: TaskState): (r: Option<Tick>)
    ensures r.None? <==> forall e :: e in events ==> !(StateEvent(e) && e.to == state)
    ensures r.Some? ==> exists i :: LastEventInto(events, state, i) && r.value == events[i].at
    decreases |events|
  {
    if events == [] then None
    else
      var e := events[|events| - 1];
      assert events == events[..|events| - 1] + [e];
      if StateEvent(e) && e.to == state then Some(e.at) else LastInto(events[..|events| - 1], state)
  }

  /** The end of the tasks linked to a job: unknown while one is open or none is linked, else
      when the last of them ended. */
  ghost predicate IsTaskEnd(linked: seq<Task>, end: Option<Tick>) {
    && (end.Some? <==> linked != [] && forall t :: t in linked ==> TerminalAt(t).Some?)
    && (end.Some? ==> exists t :: t in linked && TerminalAt(t) == end)
    && (end.Some? ==> forall t :: t in linked ==> TerminalAt(t).value <= end.value)
  }

  /** linked in whatever order the runtime ranges over them. */
  method JobTaskEnd(linked: seq<Task>) returns (end: Option<Tick>)
    ensures IsTaskEnd(linked, end)
  {
    end := None;
    for i := 0 to |linked|
      invariant end.Some? <==> i > 0
      invariant forall k :: 0 <= k < i ==> TerminalAt(linked[k]).Some? && TerminalAt(linked[k]).value <= end.value
      invariant end.Some? ==> exists k :: 0 <= k < i && TerminalAt(linked[k]) == end
    {
      var at := TerminalAt(linked[i]);
      if at.None? {
        assert linked[i] in linked;
        return None;
      }
      if end.None? || at.value > end.value { end := at; }
    }
  }
}
