/** hubforward/forwarder.go, Once, forward and post, in their own form: unsent notifications
    posted to the hub until a receipt is stored, with a backoff per row. Its effects on the
    outbox and the hub are a run of the delivery. */
module Outbox {
  import opened Common
  import opened Delivery

  const BASE_BACKOFF: Tick := 30 * SECOND
  const MAX_BACKOFF: Tick := 10 * MINUTE

  datatype Retry = Retry(at: Tick, delay: Tick)

  function Get(retries: map<EventId, Retry>, id: EventId): Option<Retry> {
    if id in retries then Some(retries[id]) else None
  }

  predicate Waiting(retry: Option<Retry>, now: Tick) {
    retry.Some? && now < retry.value.at
  }

  /** A row's retry entry after a pass at now whose attempt, if any, went as ok says. */
  function AfterPass(retry: Option<Retry>, now: Tick, ok: bool): Option<Retry> {
    if Waiting(retry, now) then retry
    else if ok then None
    else
      var delay := Min(Max((if retry.Some? then retry.value.delay else 0) * 2, BASE_BACKOFF), MAX_BACKOFF);
      Some(Retry(now + delay, delay))
  }

  ghost predicate Distinct(rows: seq<EventId>) {
    forall i, j :: 0 <= i < j < |rows| ==> rows[i] != rows[j]
  }

  /** What a pass did with a row. */
  datatype Outcome = Skipped | Sent | Failed

  function Count(outcomes: seq<Outcome>, o: Outcome): nat {
    if outcomes == [] then 0
    else Count(outcomes[..|outcomes| - 1], o) + (if outcomes[|outcomes| - 1] == o then 1 else 0)
  }

  lemma CountSnoc(outcomes: seq<Outcome>, last: Outcome, o: Outcome)
    ensures Count(outcomes + [last], o) == Count(outcomes, o) + (if last == o then 1 else 0)
  {
    assert (outcomes + [last])[..|outcomes|] == outcomes;
  }

  /** The row is marked sent, with the hub's id for it. */
  ghost predicate Delivered(s: System, e: EventId) {
    e in s.outbox && s.outbox[e].sent == Some(HubIdOf(s.hub, (s.outbox[e].lane, e))) && (s.outbox[e].lane, e) in s.hub
  }

  /** A pass leaves a row's retry entry as its outcome says, and delivers what it counts. */
  ghost predicate Done(was: Option<Retry>, now: Tick, o: Outcome, retry: Option<Retry>, s: System, e: EventId) {
    && (o.Skipped? <==> was.Some? && now < was.value.at)
    && retry == AfterPass(was, now, o.Sent?)
    && (o.Skipped? ==> retry == was) && (o.Failed? ==> retry.Some? && now < retry.value.at)
    && (o.Sent? ==> retry.None? && e in s.outbox && s.outbox[e].sent.Some?)
  }

  class Forwarder {
    var retries: map<EventId, Retry>
    var s: System
    ghost var run: seq<Step>
    ghost var faults: nat   // requests, answers and marks that were lost

    ghost predicate Valid()
      reads this
    {
      Exec(EMPTY, run) == Some(s)
    }

    constructor ()
      ensures Valid() && retries == map[] && s == EMPTY && run == [] && faults == 0
    {
      retries, s, run, faults := map[], EMPTY, [], 0;
    }

    method Take(step: Step)
      requires Valid() && Next(s, step).Some?
      modifies this`s, this`run
      ensures Valid() && s == Next(old(s), step).value && run == old(run) + [step] && RowsKept(old(s), s)
    {
      assert (run + [step])[..|run|] == run;
      StepKeepsRows(s, step);
      s, run := Next(s, step).value, run + [step];
    }

    /** Writers, pollers and other forwarders go on; a receipt this forwarder holds is its own. */
    method Elsewhere(held: set<(EventId, HubId)>)
      requires Valid() && held <= s.receipts
      modifies this`s, this`run
      ensures Valid() && old(run) <= run && RowsKept(old(s), s) && held <= s.receipts
    {
      var steps: seq<Step> := *;
      for i := 0 to |steps|
        invariant Valid() && old(run) <= run && RowsKept(old(s), s) && held <= s.receipts
      {
        if !(steps[i].Forget? && (steps[i].event, steps[i].id) in held) && Next(s, steps[i]).Some? {
          ReceiptsHeld(s, steps[i], held);
          Take(steps[i]);
        }
      }
    }

    /** Posts the row and stores the receipt; ok only when both are known to have happened, and
        unless one of them is lost. */
    method Forward(event: EventId) returns (ok: bool)
      requires Valid() && event in s.outbox
      modifies this`s, this`run, this`faults
      ensures Valid() && old(run) <= run && RowsKept(old(s), s)
      ensures ok ==> s.outbox[event].sent.Some?
      ensures faults == old(faults) + (if ok then 0 else 1)
    {
      hide Exec;
      var receipt := PostRow(event);
      if receipt.None? { return false; }
      var id := receipt.value;
      Elsewhere({(event, id)});
      var stores, known := *, *;
      if !stores {
        Take(Forget(event, id));
        faults := faults + 1;
        return false;
      }
      DeliveredOnce(run);
      assert (event, id) in s.receipts;
      Take(Mark(event, id));
      if !known { faults := faults + 1; }
      return known;
    }

    /** The hub's row id, or None when the request or its answer is lost. */
    method PostRow(event: EventId) returns (receipt: Option<HubId>)
      requires Valid() && event in s.outbox
      modifies this`s, this`run, this`faults
      ensures Valid() && old(run) <= run && RowsKept(old(s), s)
      ensures receipt.Some? ==> (event, receipt.value) in s.receipts
      ensures faults == old(faults) + (if receipt.Some? then 0 else 1)
    {
      hide Exec;
      Elsewhere({});
      var reaches, answered := *, *;
      if reaches { Take(Post(event, answered)); }
      if !reaches || !answered {
        faults := faults + 1;
        return None;
      }
      return Some(HubIdOf(s.hub, (s.outbox[event].lane, event)));
    }

    /** One row: skipped while it waits, else tried, and its entry set or removed. */
    method TryRow(id: EventId, now: Tick) returns (o: Outcome)
      requires Valid() && id in s.outbox
      modifies this
      ensures Valid() && old(run) <= run && RowsKept(old(s), s)
      ensures Done(Get(old(retries), id), now, o, Get(retries, id), s, id)
      ensures forall other :: other != id ==> Get(retries, other) == Get(old(retries), other)
      ensures faults == old(faults) + (if o.Failed? then 1 else 0)
    {
      if id in retries && now < retries[id].at { return Skipped; }
      var ok := Forward(id);
      if !ok {
        var delay := (if id in retries then retries[id].delay else 0) * 2;
        delay := Max(delay, BASE_BACKOFF);
        delay := Min(delay, MAX_BACKOFF);
        retries := retries[id := Retry(now + delay, delay)];
        return Failed;
      }
      retries := retries - {id};
      return Sent;
    }

    /** One pass over the listed unsent rows. Event ids are unique in the outbox. */
    method Once(rows: seq<EventId>, now: Tick) returns (sent: nat, failed: nat, ghost outcomes: seq<Outcome>)
      requires Valid() && Distinct(rows) && forall i :: 0 <= i < |rows| ==> rows[i] in s.outbox
      modifies this
      ensures Valid() && old(run) <= run && RowsKept(old(s), s)
      // every listed row moves as its own attempt went, and nothing else is kept
      ensures |outcomes| == |rows|
      ensures forall i :: 0 <= i < |rows| ==>
                Done(Get(old(retries), rows[i]), now, outcomes[i], Get(retries, rows[i]), s, rows[i])
      ensures forall id :: id in retries ==> id in rows
      // a row counts as sent only when it is marked with the hub's id for it
      ensures sent == Count(outcomes, Sent) && failed == Count(outcomes, Failed)
      ensures forall i :: 0 <= i < |rows| && outcomes[i].Sent? ==> Delivered(s, rows[i])
      // and as failed only when a request, an answer or a mark of it was lost
      ensures faults == old(faults) + failed
    {
      sent, failed, outcomes := 0, 0, [];
      for i := 0 to |rows|
        invariant Valid() && old(run) <= run && RowsKept(old(s), s) && |outcomes| == i
        invariant forall k :: 0 <= k < i ==>
          Done(Get(old(retries), rows[k]), now, outcomes[k], Get(retries, rows[k]), s, rows[k])
        invariant forall k :: i <= k < |rows| ==> Get(retries, rows[k]) == Get(old(retries), rows[k])
        invariant sent == Count(outcomes, Sent) && failed == Count(outcomes, Failed)
        invariant faults == old(faults) + failed
      {
        assert RowKept(old(s), s, rows[i]);
        ghost var was, before := s, retries;
        var o := TryRow(rows[i], now);
        EarlierStayDone(rows, i, outcomes, old(retries), before, retries, now, was, s);
        CountSnoc(outcomes, o, Sent);
        CountSnoc(outcomes, o, Failed);
        outcomes := outcomes + [o];
        if o == Sent { sent := sent + 1; }
        if o == Failed { failed := failed + 1; }
      }
      MarkedIsDelivered(run);
      retries := map id | id in retries && id in rows :: retries[id];
    }
  }

  lemma ReceiptsHeld(s: System, step: Step, held: set<(EventId, HubId)>)
    requires held <= s.receipts && Next(s, step).Some?
    requires !(step.Forget? && (step.event, step.id) in held)
    ensures held <= Next(s, step).value.receipts
  {}

  /** Trying one row leaves the rows before it as they were done. */
  lemma EarlierStayDone(rows: seq<EventId>, i: nat, outcomes: seq<Outcome>, start: map<EventId, Retry>,
                        before: map<EventId, Retry>, after: map<EventId, Retry>, now: Tick, s: System, t: System)
    requires Distinct(rows) && i < |rows| && |outcomes| == i && RowsKept(s, t)
    requires forall k :: 0 <= k < i ==> Done(Get(start, rows[k]), now, outcomes[k], Get(before, rows[k]), s, rows[k])
    requires forall other :: other != rows[i] ==> Get(after, other) == Get(before, other)
    ensures forall k :: 0 <= k < i ==> Done(Get(start, rows[k]), now, outcomes[k], Get(after, rows[k]), t, rows[k])
  {
    forall k | 0 <= k < i ensures Done(Get(start, rows[k]), now, outcomes[k], Get(after, rows[k]), t, rows[k]) {
      assert rows[k] != rows[i];
      if outcomes[k].Sent? { assert RowKept(s, t, rows[k]); }
    }
  }

  /** In every run of the delivery a marked row is in the hub under the id it is marked with. */
  lemma MarkedIsDelivered(run: seq<Step>)
    requires Exec(EMPTY, run).Some?
    ensures var s := Exec(EMPTY, run).value;
            forall e :: e in s.outbox && s.outbox[e].sent.Some? ==> Delivered(s, e)
  {
    DeliveredOnce(run);
    var s := Exec(EMPTY, run).value;
    forall e | e in s.outbox && s.outbox[e].sent.Some? ensures Delivered(s, e) {
      assert Genuine(s, e, s.outbox[e].sent.value);
    }
  }

  // ---- the backoff of a row that stays listed

  /** The retry entry, and how often the row was tried, after passes at the given times none
      of which got a receipt. */
  function FailingRun(times: seq<Tick>): (Option<Retry>, nat)
    decreases |times|
  {
    if times == [] then (None, 0)
    else
      var (retry, tries) := FailingRun(times[..|times| - 1]);
      var now := times[|times| - 1];
      (AfterPass(retry, now, false), if Waiting(retry, now) then tries else tries + 1)
  }

  function Doubled(k: nat): Tick {
    if k == 0 then 30 * SECOND else 2 * Doubled(k - 1)
  }

  /** When the row was last tried. */
  function LastTry(times: seq<Tick>): Tick
    requires times != []
    decreases |times|
  {
    var init, now := times[..|times| - 1], times[|times| - 1];
    if init == [] || !Waiting(FailingRun(init).0, now) then now else LastTry(init)
  }

  /** After its k-th failure in a row, a row waits min(30s * 2^(k-1), 10min) from that try. */
  lemma {:induction false} BackoffDoubles(times: seq<Tick>)
    requires times != []
    ensures var (retry, k) := FailingRun(times);
            k > 0 && var wait := Min(Doubled(k - 1), 10 * MINUTE); retry == Some(Retry(LastTry(times) + wait, wait))
    decreases |times|
  {
    var init := times[..|times| - 1];
    if init != [] {
      BackoffDoubles(init);
      var (retry, k) := FailingRun(init);
      DoubledAtLeast(k - 1);
      assert Doubled(k) == 2 * Doubled(k - 1);
    }
  }

  lemma {:induction false} DoubledAtLeast(k: nat)
    ensures Doubled(k) >= BASE_BACKOFF
  {
    if k > 0 { DoubledAtLeast(k - 1); }
  }
}
