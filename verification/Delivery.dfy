/** hubforward/forwarder.go, forward and post, over store/outbox.go: any number of forwarders
    and pollers deliver the same rows, while requests, responses and marks may be lost. */
module Delivery {
  import opened Common

  type EventId = nat
  type Lane = nat
  type HubId = nat

  /** An outbox row: its lane is fixed; sent is the hub row id once marked. */
  datatype Row = Row(lane: Lane, sent: Option<HubId>)

  /** hub is the relay log: the row at index i has id i + 1. receipts are the ids forwarders
      hold and have not stored yet. */
  datatype System = System(
    outbox: map<EventId, Row>,
    hub: seq<(Lane, EventId)>,
    receipts: set<(EventId, HubId)>)

  datatype Step =
    | Insert(event: EventId, lane: Lane)     // a writer owes a notification
    | Post(event: EventId, answered: bool)   // a request reaches the hub; its answer may be lost
    | Other(lane: Lane, event: EventId)      // another sender posts to the hub
    | Mark(event: EventId, id: HubId)        // a forwarder stores a receipt it holds
    | Forget(event: EventId, id: HubId)      // a forwarder stops before storing it

  /** The hub's id for a key, 0 when it has none. */
  function HubIdOf(hub: seq<(Lane, EventId)>, key: (Lane, EventId)): (id: HubId)
    ensures id > 0 ==> id <= |hub| && hub[id - 1] == key
    ensures id == 0 ==> key !in hub
  {
    if hub == [] then 0
    else
      var earlier := HubIdOf(hub[..|hub| - 1], key);
      if earlier > 0 then earlier
      else if hub[|hub| - 1] == key then |hub|
      else 0
  }

  /** The hub dedupes on lane and event id: 201 appends, 409 answers with the existing row. */
  function Accept(hub: seq<(Lane, EventId)>, key: (Lane, EventId)): seq<(Lane, EventId)> {
    if HubIdOf(hub, key) > 0 then hub else hub + [key]
  }

  /** MarkNotificationSent: sets an unsent row; a different id on a sent row is a conflict. */
  function Marked(row: Row, id: HubId): Result<Row, string> {
    if row.sent.None? then Ok(row.(sent := Some(id)))
    else if row.sent.value == id then Ok(row)
    else Err("notification_outbox_conflict")
  }

  function Next(s: System, step: Step): Option<System> {
    match step
    case Insert(event, lane) =>
      Some(if event in s.outbox then s else s.(outbox := s.outbox[event := Row(lane, None)]))
    case Post(event, answered) =>
      if event !in s.outbox then None
      else
        var key := (s.outbox[event].lane, event);
        var hub := Accept(s.hub, key);
        Some(s.(hub := hub, receipts := if answered then s.receipts + {(event, HubIdOf(hub, key))} else s.receipts))
    case Other(lane, event) =>
      // nobody posts an outbox event id under another lane
      if event in s.outbox && s.outbox[event].lane == lane then Some(s.(hub := Accept(s.hub, (lane, event)))) else None
    case Mark(event, id) =>
      if (event, id) !in s.receipts || event !in s.outbox then None
      else
        var row := Marked(s.outbox[event], id);
        Some(if row.Ok? then s.(outbox := s.outbox[event := row.value]) else s)
    case Forget(event, id) => Some(s.(receipts := s.receipts - {(event, id)}))
  }

  // ---- the invariant

  /** The receipt names the hub row of the event, under the event's own lane. */
  ghost predicate Genuine(s: System, event: EventId, id: HubId) {
    event in s.outbox && 0 < id <= |s.hub| && s.hub[id - 1] == (s.outbox[event].lane, event)
  }

  ghost predicate OncePerEvent(s: System) {
    forall i, j :: 0 <= i < j < |s.hub| ==> s.hub[i].1 != s.hub[j].1
  }

  ghost predicate Inv(s: System) {
    && OncePerEvent(s)
    && (forall i :: 0 <= i < |s.hub| ==> s.hub[i].1 in s.outbox && s.outbox[s.hub[i].1].lane == s.hub[i].0)
    && (forall r :: r in s.receipts ==> Genuine(s, r.0, r.1))
    && (forall e :: e in s.outbox && s.outbox[e].sent.Some? ==> Genuine(s, e, s.outbox[e].sent.value))
  }

  lemma StepKeepsInv(s: System, step: Step)
    requires Inv(s) && Next(s, step).Some?
    ensures Inv(Next(s, step).value)
  {
    match step
    case Post(event, answered) => PostKeeps(s, event, answered);
    case Other(_, event) => AcceptKeeps(s, event);
    case Insert(event, lane) => InsertKeeps(s, event, lane);
    case Mark(event, id) => MarkKeeps(s, event, id);
    case Forget(_, _) =>
  }

  lemma PostKeeps(s: System, event: EventId, answered: bool)
    requires Inv(s) && event in s.outbox
    ensures Inv(Next(s, Post(event, answered)).value)
  {
    AcceptKeeps(s, event);
    var s', hub := Next(s, Post(event, answered)).value, Next(s, Post(event, answered)).value.hub;
    assert forall e, id :: Genuine(s.(hub := hub), e, id) ==> Genuine(s', e, id);
  }

  lemma InsertKeeps(s: System, event: EventId, lane: Lane)
    requires Inv(s)
    ensures Inv(Next(s, Insert(event, lane)).value)
  {
    var s' := Next(s, Insert(event, lane)).value;
    assert forall e, id :: Genuine(s, e, id) ==> Genuine(s', e, id);
  }

  lemma MarkKeeps(s: System, event: EventId, id: HubId)
    requires Inv(s) && Next(s, Mark(event, id)).Some?
    ensures Inv(Next(s, Mark(event, id)).value)
  {
    var s' := Next(s, Mark(event, id)).value;
    assert Genuine(s, (event, id).0, (event, id).1);
    forall e, i | Genuine(s, e, i) ensures Genuine(s', e, i) {}
    forall e | e in s'.outbox && s'.outbox[e].sent.Some? ensures Genuine(s', e, s'.outbox[e].sent.value) {
      if e == event { assert s'.outbox[e].sent.value == id || s'.outbox[e] == s.outbox[e]; }
    }
  }

  lemma AcceptKeeps(s: System, event: EventId)
    requires Inv(s) && event in s.outbox
    ensures var key := (s.outbox[event].lane, event);
            var hub := Accept(s.hub, key);
            && Inv(s.(hub := hub)) && s.hub <= hub && Genuine(s.(hub := hub), event, HubIdOf(hub, key))
  {
    var key := (s.outbox[event].lane, event);
    if HubIdOf(s.hub, key) == 0 {
      AppendKeeps(s, event);
      assert (s.hub + [key])[..|s.hub|] == s.hub;
    } else {
      assert s.(hub := s.hub) == s;
    }
  }

  lemma AppendKeeps(s: System, event: EventId)
    requires Inv(s) && event in s.outbox && (s.outbox[event].lane, event) !in s.hub
    ensures var s' := s.(hub := s.hub + [(s.outbox[event].lane, event)]);
            Inv(s') && forall e, id :: Genuine(s, e, id) ==> Genuine(s', e, id)
  {
    var s' := s.(hub := s.hub + [(s.outbox[event].lane, event)]);
    forall i | 0 <= i < |s.hub| ensures s.hub[i].1 != event { assert s.hub[i] in s.hub; }
    assert forall e, id :: Genuine(s, e, id) ==> Genuine(s', e, id);
  }

  // ---- runs

  function Exec(s: System, run: seq<Step>): Option<System>
    decreases |run|
  {
    if run == [] then Some(s)
    else
      var before := Exec(s, run[..|run| - 1]);
      if before.None? then None else Next(before.value, run[|run| - 1])
  }

  const EMPTY := System(map[], [], {})

  /** In every run each event is in the hub at most once, a row marked sent carries the id of
      exactly that hub row, and no receipt anybody holds conflicts with the one stored. */
  lemma {:induction false} DeliveredOnce(run: seq<Step>)
    requires Exec(EMPTY, run).Some?
    ensures var s := Exec(EMPTY, run).value;
            && Inv(s)
            && (forall e :: e in s.outbox && s.outbox[e].sent.Some? ==>
                  s.outbox[e].sent.value == HubIdOf(s.hub, (s.outbox[e].lane, e)))
            && (forall e, id :: (e, id) in s.receipts ==> e in s.outbox && Marked(s.outbox[e], id).Ok?)
    decreases |run|
  {
    var s := Exec(EMPTY, run).value;
    if run != [] {
      DeliveredOnce(run[..|run| - 1]);
      StepKeepsInv(Exec(EMPTY, run[..|run| - 1]).value, run[|run| - 1]);
    }
    forall e, id | Genuine(s, e, id) ensures id == HubIdOf(s.hub, (s.outbox[e].lane, e)) {
      GenuineIsHubId(s, e, id);
    }
    forall e, id | (e, id) in s.receipts ensures e in s.outbox && Marked(s.outbox[e], id).Ok? {
      assert Genuine(s, (e, id).0, (e, id).1);
    }
  }

  lemma GenuineIsHubId(s: System, e: EventId, id: HubId)
    requires Inv(s) && Genuine(s, e, id)
    ensures id == HubIdOf(s.hub, (s.outbox[e].lane, e))
  {
    var other := HubIdOf(s.hub, (s.outbox[e].lane, e));
    assert s.hub[id - 1] in s.hub;
    assert s.hub[other - 1].1 == s.hub[id - 1].1;
  }

  /** A receipt, once stored, is never replaced, and the hub's rows never move. */
  lemma {:induction false} ReceiptsStay(s: System, run: seq<Step>)
    requires Inv(s) && Exec(s, run).Some?
    ensures var t := Exec(s, run).value;
            Inv(t) && RowsKept(s, t)
    decreases |run|
  {
    if run != [] {
      ReceiptsStay(s, run[..|run| - 1]);
      StepKeepsInv(Exec(s, run[..|run| - 1]).value, run[|run| - 1]);
      StepKeepsRows(Exec(s, run[..|run| - 1]).value, run[|run| - 1]);
    }
  }

  ghost predicate RowKept(s: System, t: System, e: EventId)
    requires e in s.outbox
  {
    && e in t.outbox && t.outbox[e].lane == s.outbox[e].lane
    && (s.outbox[e].sent.Some? ==> t.outbox[e].sent == s.outbox[e].sent)
  }

  ghost predicate RowsKept(s: System, t: System) {
    s.hub <= t.hub && forall e :: e in s.outbox ==> RowKept(s, t, e)
  }

  lemma StepKeepsRows(s: System, step: Step)
    requires Next(s, step).Some?
    ensures var t := Next(s, step).value;
            RowsKept(s, t)
  {}
}
