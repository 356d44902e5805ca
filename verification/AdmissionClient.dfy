/** linear_admission.go, admittedCreate in its own form: one call through the gate, operation
    by operation, each of which may fail while the remote moves on. Its effects are exactly a
    run of the step machine, so everything proved of runs holds of it. */
module AdmissionClient {
  import opened Common
  import opened Capacity
  import opened Admission

  datatype Refusal =
    | OperationFailed        // an operation failed or its answer was lost
    | EarlierCreateUncertain // a reservation whose create may still land
    | MirrorExcluded
    | CapacityHeld
    | CeilingReached
    | RemoteRejected(capacity: bool)
    | RecordingFailed        // the remote rejected the create, and that could not be recorded

  /** Refusals that come before anything is sent. */
  predicate BeforeSending(e: Refusal) {
    e.EarlierCreateUncertain? || e.MirrorExcluded? || e.CapacityHeld? || e.CeilingReached?
  }

  /** Refusals that come of a failed operation or a lost reply. */
  predicate OfFault(e: Refusal) { e.OperationFailed? || e.RecordingFailed? }

  /** What a refusal says of the state it leaves. */
  ghost predicate RefusedFor(w: World, a: Attempt, e: Refusal) {
    match e
    case EarlierCreateUncertain => w.todo != [] && (w.todo[0] in w.pending ==> w.pending[w.todo[0]])
    case MirrorExcluded => w.pending == map[]
    case CapacityHeld =>
      && w.pending == map[] && w.hold.Some? && w.count > a.policy.ArchiveLow()
      && (a.policy.Limit() >= w.hold.value || w.count >= a.policy.CreateCeiling())
    case CeilingReached => w.pending == map[] && w.hold.None? && w.count >= a.policy.CreateCeiling()
    case _ => true
  }

  /** A rejection is on record: its hold if it was for capacity, and its mark unless the
      reservation is gone. */
  ghost predicate Recorded(w: World, a: Attempt, capacity: bool) {
    (capacity ==> w.hold == Some(a.policy.Limit())) && (a.id in w.pending ==> !w.pending[a.id])
  }

  /** What a create that was sent leaves: its issue, its reservation, or its rejection. */
  ghost predicate Accounted(w: World, a: Attempt, r: Result<IssueId, Refusal>) {
    a.id in w.existing || a.id in w.pending || (r.Err? && r.error.RemoteRejected?)
  }

  /** How many creates a run sends. */
  ghost function Sends(run: seq<Step>): nat {
    if run == [] then 0 else Sends(run[..|run| - 1]) + (if run[|run| - 1].Send? then 1 else 0)
  }

  /** From step n on, a reservation was made and then a create sent. */
  ghost predicate ReservedThenSent(run: seq<Step>, n: nat) {
    exists i, j :: n <= i < j < |run| && run[i] == Reserve && run[j] == Send
  }

  /** The durable records of two states agree. */
  ghost predicate SameRecords(w: World, v: World) { w.pending == v.pending && w.hold == v.hold }

  /** w has the records of was, or those after step s, taken while the remote moved on. */
  ghost predicate TriedOn(was: World, s: Step, w: World) {
    exists v: World :: SameAttempt(was, v) && v.existing <= w.existing
      && (SameRecords(w, v) || (Next(v, s).Some? && SameRecords(w, Next(v, s).value)))
  }

  class Client {
    var w: World
    ghost var run: seq<Step>
    ghost var faults: nat   // operations that failed and replies that were lost
    ghost const start: World
    ghost const bound: nat

    ghost predicate Valid()
      reads this
    {
      Admissible(run, bound) && Exec(start, run) == Some(w)
    }

    /** What a call may change: it extends the run, sending this many creates, and never
        undoes an issue. */
    twostate predicate Advanced(sent: nat)
      reads this
    {
      && old(run) <= run && old(w.existing) <= w.existing && Sends(run) == Sends(old(run)) + sent
      && old(faults) <= faults
    }

    constructor (initial: World, ghost ceiling: nat)
      ensures Valid() && w == initial == start && run == [] && faults == 0 && bound == ceiling
    {
      w, run, faults, start, bound := initial, [], 0, initial, ceiling;
    }

    method Take(s: Step)
      requires Valid() && Next(w, s).Some?
      requires s.Begin? ==> Known(s.attempt, bound)
      modifies this
      ensures Valid() && w == Next(old(w), s).value && run == old(run) + [s] && faults == old(faults)
      ensures Sends(run) == Sends(old(run)) + (if s.Send? then 1 else 0)
    {
      ExecSnoc(start, run, s);
      assert (run + [s])[..|run|] == run;
      w, run := Next(w, s).value, run + [s];
    }

    /** The remote works through some of what it received, operators archive issues, and the
        board takes ownership of issues it has read back. */
    method Elsewhere()
      requires Valid()
      modifies this
      ensures Valid() && Advanced(0) && SameAttempt(old(w), w) && faults == old(faults)
    {
      var steps: seq<Step> := *;
      for i := 0 to |steps|
        invariant Valid() && Advanced(0) && SameAttempt(old(w), w) && faults == old(faults)
      {
        var s := steps[i];
        if (s.Land? || s.Drop? || s.Archive? || s.Own?) && Next(w, s).Some? {
          LeavesAttempt(old(w), w, s);
          Take(s);
        }
      }
    }

    /** Operation s is tried. It may fail, before or after it took effect; then the call
        returns and the gate is free. */
    method Fails(s: Step) returns (failed: bool)
      requires Valid() && OwnStep(s) && !s.Send?
      modifies this
      ensures Valid() && Advanced(0)
      ensures if failed then w.pc.Idle? && TriedOn(old(w), s, w) else SameAttempt(old(w), w)
      ensures !failed && old(w.pending) == map[] ==> w.pending == map[]
      ensures faults == old(faults) + (if failed then 1 else 0)
    {
      Elsewhere();
      failed := *;
      if failed { Abandon(s); }
    }

    /** The operation may have taken effect before the call gives up. */
    method Abandon(s: Step)
      requires Valid() && OwnStep(s) && !s.Send?
      modifies this
      ensures Valid() && Advanced(0) && w.pc.Idle?
      ensures SameRecords(w, old(w)) || (Next(old(w), s).Some? && SameRecords(w, Next(old(w), s).value))
      ensures faults == old(faults) + 1
    {
      var applied := *;
      if applied && Next(w, s).Some? {
        OwnStepsRemoveNothing(w, s);
        Take(s);
      }
      Take(Stop);
      faults := faults + 1;
    }

    method AdmittedCreate(a: Attempt, eligible: bool) returns (r: Result<IssueId, Refusal>)
      requires Valid() && w.pc.Idle? && Known(a, bound)
      modifies this
      // a run of the machine that sends at most one create, reserved first, and accounts for it
      ensures Valid() && w.pc.Idle? && (Advanced(0) || Advanced(1))
      ensures Advanced(1) ==> ReservedThenSent(run, |old(run)|) && Accounted(w, a, r)
      // a success is a created issue with its reservation given up
      ensures r.Ok? ==> r.value == a.id && a.id in w.existing && a.id !in w.pending
      // a refusal sends nothing, and leaves in the state what it was refused for
      ensures !eligible || (r.Err? && BeforeSending(r.error)) ==> Advanced(0)
      ensures r.Err? && BeforeSending(r.error) ==> RefusedFor(w, a, r.error) && (r.error.MirrorExcluded? ==> !eligible)
      // a rejection was answered to the create, and is on record
      ensures r.Err? && r.error.RemoteRejected? ==> Advanced(1) && Recorded(w, a, r.error.capacity)
      // and it fails in no other way unless an operation failed or a reply was lost
      ensures r.Err? && OfFault(r.error) ==> faults > old(faults)
    {
      hide Exec, Sends, RefusedFor, ReservedThenSent, Recorded, TriedOn, Accounted;
      Take(Begin(a));
      var failed := Fails(ReadIdentity);
      if failed { return Err(OperationFailed); }
      var found := a.id in w.existing;
      Take(ReadIdentity);
      if found {
        r := Complete(a);
        return;
      }
      var blocked := DrainReservations(a);
      if blocked.Some? { return Err(blocked.value); }
      ghost var before := run;
      r := CreateUnreserved(a, eligible);
      SentLater(run, |old(run)|, |before|);
    }

    /** With no reservation left: the task check, the capacity check, the create. */
    method CreateUnreserved(a: Attempt, eligible: bool) returns (r: Result<IssueId, Refusal>)
      requires Valid() && w.pc == Draining && w.todo == [] && w.pending == map[] && w.a == a && Known(a, bound)
      modifies this
      ensures Valid() && w.pc.Idle? && (Advanced(0) || Advanced(1))
      ensures Advanced(1) ==> ReservedThenSent(run, |old(run)|) && Accounted(w, a, r)
      ensures r.Ok? ==> r.value == a.id && a.id in w.existing && a.id !in w.pending
      ensures !eligible || (r.Err? && BeforeSending(r.error)) ==> Advanced(0)
      ensures r.Err? && BeforeSending(r.error) ==> RefusedFor(w, a, r.error) && (r.error.MirrorExcluded? ==> !eligible)
      ensures r.Err? && r.error.RemoteRejected? ==> Advanced(1) && Recorded(w, a, r.error.capacity)
      ensures r.Err? && OfFault(r.error) ==> faults > old(faults)
    {
      hide Exec, Sends, Releases, ReservedThenSent, Recorded, TriedOn, Accounted;
      Take(Drained);
      var failed := Fails(CheckTask(eligible));
      if failed { return Err(OperationFailed); }
      Take(CheckTask(eligible));
      if !eligible { return Err(MirrorExcluded); }
      var refused := AdmissionCapacity(a);
      if refused.Some? { return Err(refused.value); }
      ghost var before := run;
      r := ReserveAndSend(a);
      SentLater(run, |old(run)|, |before|);
    }

    /** The reservation commits before the request leaves. */
    method ReserveAndSend(a: Attempt) returns (r: Result<IssueId, Refusal>)
      requires Valid() && w.pc == Reserving && w.a == a
      modifies this
      ensures Valid() && w.pc.Idle? && (Advanced(0) || Advanced(1))
      ensures Advanced(1) ==> ReservedThenSent(run, |old(run)|) && Accounted(w, a, r)
      ensures r.Ok? ==> r.value == a.id && a.id in w.existing && a.id !in w.pending
      ensures r.Err? ==> !BeforeSending(r.error)
      ensures r.Err? && r.error.RemoteRejected? ==> Advanced(1) && Recorded(w, a, r.error.capacity)
      ensures r.Err? && OfFault(r.error) ==> faults > old(faults)
    {
      hide Exec, Sends, Recorded, TriedOn, Accounted, Admissible, Releases;
      var failed := Fails(Reserve);
      if failed { return Err(OperationFailed); }
      ghost var i := |run|;
      Take(Reserve);
      Elsewhere();
      ghost var j := |run|;
      Take(Send);
      assert run[i] == Reserve && run[j] == Send;
      r := Reply(a);
      assert run[i] == Reserve && run[j] == Send;
    }

    /** Gives up every earlier reservation whose create is resolved; one that is not blocks. */
    method DrainReservations(a: Attempt) returns (blocked: Option<Refusal>)
      requires Valid() && w.pc == Listing && w.a == a
      modifies this
      ensures Valid() && Advanced(0)
      ensures if blocked.None? then w.pc == Draining && w.a == a && w.todo == [] && w.pending == map[] else w.pc.Idle?
      ensures blocked.Some? ==> blocked.value in {OperationFailed, EarlierCreateUncertain}
      ensures blocked.Some? ==> RefusedFor(w, a, blocked.value)
      ensures blocked.Some? && OfFault(blocked.value) ==> faults > old(faults)
    {
      hide Exec, Sends, TriedOn;
      var failed := Fails(ListPending([]));
      if failed { return Some(OperationFailed); }
      var order := Pending();
      Take(ListPending(order));
      while w.todo != []
        invariant Valid() && Advanced(0) && w.pc == Draining && w.a == a && Listed(w)
        decreases |w.todo|
      {
        blocked := DrainOne(a);
        if blocked.Some? { return; }
      }
      assert w.pending.Keys == {};
      return None;
    }

    /** One earlier reservation: given up when its issue exists or its create was rejected. */
    method DrainOne(a: Attempt) returns (blocked: Option<Refusal>)
      requires Valid() && w.pc == Draining && w.a == a && w.todo != [] && Listed(w)
      modifies this
      ensures Valid() && Advanced(0)
      ensures blocked.Some? ==> w.pc.Idle?
      ensures blocked.None? ==> w.pc == Draining && w.a == a && w.todo == old(w.todo)[1..] && Listed(w)
      // it is given up, and nothing uncertain is without its issue
      ensures blocked.None? ==> old(w.todo)[0] !in w.pending && w.pending.Keys <= old(w.pending).Keys
      ensures blocked.None? ==> forall id :: id in old(w.pending) && id !in w.pending ==>
                id in w.existing || !old(w.pending)[id]
      ensures blocked.Some? ==> blocked.value in {OperationFailed, EarlierCreateUncertain}
      ensures blocked.Some? ==> RefusedFor(w, a, blocked.value)
      ensures blocked.Some? && OfFault(blocked.value) ==> faults > old(faults)
    {
      hide Exec, Sends, TriedOn, Admissible;
      assert w.todo[0] in IdSet(w.todo);
      TailIds(w.todo);
      blocked := Resolved(a);
      if blocked.Some? { return; }
      var failed := Fails(Clear);
      if failed { return Some(OperationFailed); }
      Take(Clear);
      return None;
    }

    /** The first reservation listed is read, and failing that its rejection looked up. */
    method Resolved(a: Attempt) returns (blocked: Option<Refusal>)
      requires Valid() && w.pc == Draining && w.a == a && w.todo != []
      modifies this
      ensures Valid() && Advanced(0)
      ensures blocked.None? ==> w.pc == Clearing && SameReservations(old(w), w)
      ensures blocked.None? && w.todo[0] in old(w.pending) ==> w.todo[0] in w.existing || !old(w.pending)[w.todo[0]]
      ensures blocked.Some? ==> w.pc.Idle? && blocked.value in {OperationFailed, EarlierCreateUncertain}
      ensures blocked.Some? ==> RefusedFor(w, a, blocked.value)
      ensures blocked.Some? && OfFault(blocked.value) ==> faults > old(faults)
    {
      hide Exec, Sends, TriedOn, Admissible;
      var failed := Fails(ReadEarlier);
      if failed { return Some(OperationFailed); }
      Take(ReadEarlier);
      if w.pc == AskingRejection {
        failed := Fails(ReadRejection);
        if failed { return Some(OperationFailed); }
        Take(ReadRejection);
        if w.pc == Idle { return Some(EarlierCreateUncertain); }
      }
      return None;
    }

    method AdmissionCapacity(a: Attempt) returns (refused: Option<Refusal>)
      requires Valid() && w.pc == Counting && w.a == a && Known(a, bound) && w.pending == map[]
      modifies this
      ensures Valid() && Advanced(0)
      ensures if refused.None? then w.pc == Reserving && w.a == a && w.pending == map[] else w.pc.Idle?
      // it goes on without a hold, on a count below the ceiling
      ensures refused.None? ==> w.hold.None? && w.count < a.policy.CreateCeiling()
      ensures refused.Some? ==> refused.value in {OperationFailed, CapacityHeld, CeilingReached}
      ensures refused.Some? ==> RefusedFor(w, a, refused.value)
      ensures refused.Some? && OfFault(refused.value) ==> faults > old(faults)
    {
      CeilingNotNegative(a, bound);
      hide Exec, Sends, Releases, TriedOn, Known;
      var failed := Fails(Count);
      if failed { return Some(OperationFailed); }
      Take(Count);
      refused := CheckCapacityHold(a);
      if refused.Some? { return; }
      Take(CheckCeiling);
      if w.pc == Idle { return Some(CeilingReached); }
      return None;
    }

    method CheckCapacityHold(a: Attempt) returns (refused: Option<Refusal>)
      requires Valid() && w.pc == CheckingHold && w.a == a && w.pending == map[]
      modifies this
      ensures Valid() && Advanced(0)
      ensures if refused.None? then w.pc == CheckingCeiling && w.a == a && w.hold.None? else w.pc.Idle?
      ensures refused.None? ==> w.pending == map[] && w.count == old(w.count)
      // a hold is cleared only on a count that releases it
      ensures refused.None? && old(w.hold).Some? ==>
                || w.count <= a.policy.ArchiveLow()
                || (a.policy.Limit() < old(w.hold).value && w.count < a.policy.CreateCeiling())
      ensures refused.Some? ==> refused.value in {OperationFailed, CapacityHeld}
      ensures refused.Some? ==> RefusedFor(w, a, refused.value)
      ensures refused.Some? && OfFault(refused.value) ==> faults > old(faults)
    {
      hide Exec, Sends, TriedOn;
      var failed := Fails(CheckHold);
      if failed { return Some(OperationFailed); }
      Take(CheckHold);
      if w.pc == Idle { return Some(CapacityHeld); }
      if w.pc == ClearingHold {
        failed := Fails(ClearHold);
        if failed { return Some(OperationFailed); }
        Take(ClearHold);
      }
      return None;
    }

    /** What comes back for the create, and what is recorded of it. */
    method Reply(a: Attempt) returns (r: Result<IssueId, Refusal>)
      requires Valid() && w.pc == Awaiting && w.a == a && (a.id in w.pending || a.id in w.existing)
      modifies this
      ensures Valid() && w.pc.Idle? && Advanced(0) && Accounted(w, a, r)
      ensures r.Ok? ==> r.value == a.id && a.id in w.existing && a.id !in w.pending
      ensures r.Err? ==> !BeforeSending(r.error)
      ensures r.Err? && r.error.RemoteRejected? ==> Recorded(w, a, r.error.capacity)
      ensures r.Err? && OfFault(r.error) ==> faults > old(faults)
    {
      hide Exec, Sends, Recorded;
      var failed := Fails(Created);
      if failed { return Err(OperationFailed); }
      var rejected, capacity := *, *;
      if !rejected && a.id in w.existing {
        Take(Created);
        r := Complete(a);
        return;
      }
      if !rejected || a.id in w.inFlight {
        Take(Stop);
        faults := faults + 1;
        return Err(OperationFailed);
      }
      Take(Rejected(capacity));
      r := RecordRefusal(a, capacity);
    }

    /** A received rejection is recorded, and the id read back before its reservation goes. */
    method RecordRefusal(a: Attempt, capacity: bool) returns (r: Result<IssueId, Refusal>)
      requires Valid() && w.pc == (if capacity then RecordingHold else RecordingRejection)
      requires w.a == a && (a.id in w.pending || a.id in w.existing)
      modifies this
      ensures Valid() && w.pc.Idle? && Advanced(0) && Accounted(w, a, r)
      ensures r.Ok? ==> r.value == a.id && a.id in w.existing && a.id !in w.pending
      ensures r.Err? ==> !BeforeSending(r.error)
      ensures r.Ok? || r.error.RemoteRejected? ==> (capacity ==> w.hold == Some(a.policy.Limit()))
      ensures r.Err? && r.error.RemoteRejected? ==> r.error.capacity == capacity && Recorded(w, a, capacity)
      ensures r.Err? && OfFault(r.error) ==> faults > old(faults)
    {
      hide Exec, Sends;
      if capacity {
        var failed := Fails(RecordHold);
        if failed { return Err(RecordingFailed); }
        Take(RecordHold);
      }
      r := RecordAndReadBack(a, capacity);
    }

    method RecordAndReadBack(a: Attempt, capacity: bool) returns (r: Result<IssueId, Refusal>)
      requires Valid() && w.pc == RecordingRejection && w.a == a && (a.id in w.pending || a.id in w.existing)
      modifies this
      ensures Valid() && w.pc.Idle? && Advanced(0) && Accounted(w, a, r) && w.hold == old(w.hold)
      ensures r.Ok? ==> r.value == a.id && a.id in w.existing && a.id !in w.pending
      ensures r.Err? ==> !BeforeSending(r.error)
      ensures r.Err? && r.error.RemoteRejected? ==> r.error.capacity == capacity
      ensures r.Err? && r.error.RemoteRejected? && a.id in w.pending ==> !w.pending[a.id]
      ensures r.Err? && OfFault(r.error) ==> faults > old(faults)
    {
      hide Exec, Sends, TriedOn, Admissible, IdSet, Releases;
      var failed := Fails(RecordRejection);
      if failed {
        TriedKeepsAccount(old(w), RecordRejection, w, a);
        return Err(RecordingFailed);
      }
      Take(RecordRejection);
      r := ReadRejected(a, capacity);
    }

    /** The id is read back: the rejected create may have been decided the other way before. */
    method ReadRejected(a: Attempt, capacity: bool) returns (r: Result<IssueId, Refusal>)
      requires Valid() && w.pc == ReadingBack && w.a == a && (a.id in w.pending || a.id in w.existing)
      requires a.id in w.pending ==> !w.pending[a.id]
      modifies this
      ensures Valid() && w.pc.Idle? && Advanced(0) && Accounted(w, a, r) && w.hold == old(w.hold)
      ensures r.Ok? ==> r.value == a.id && a.id in w.existing && a.id !in w.pending
      ensures r.Err? ==> r.error == RemoteRejected(capacity) || r.error == OperationFailed
      ensures r.Err? && a.id in w.pending ==> !w.pending[a.id]
      ensures r.Err? && OfFault(r.error) ==> faults > old(faults)
    {
      hide Exec, Sends, TriedOn, Admissible, IdSet, Releases;
      var failed := Fails(ReadBack);
      if failed {
        TriedKeepsAccount(old(w), ReadBack, w, a);
        return Err(RemoteRejected(capacity));
      }
      var found := a.id in w.existing;
      Take(ReadBack);
      r := Complete(a);
      if !found { r := Err(RemoteRejected(capacity)); }
    }

    method Complete(a: Attempt) returns (r: Result<IssueId, Refusal>)
      requires Valid() && w.pc == Finishing && w.a == a
      modifies this
      ensures Valid() && w.pc.Idle? && Advanced(0) && w.hold == old(w.hold)
      ensures r == Ok(a.id) || r == Err(OperationFailed)
      ensures r.Ok? ==> a.id !in w.pending
      ensures forall id :: id in w.pending ==> id in old(w.pending) && w.pending[id] == old(w.pending)[id]
      ensures r.Err? && OfFault(r.error) ==> faults > old(faults)
    {
      hide Exec, Sends;
      var failed := Fails(Finish);
      if failed { return Err(OperationFailed); }
      Take(Finish);
      return Ok(a.id);
    }

    /** The reserved ids, in the order the query returns them. */
    method Pending() returns (order: seq<IssueId>)
      requires Valid()
      ensures IdSet(order) == w.pending.Keys && NoRepeats(order)
    {
      hide Exec, Admissible;
      order := [];
      var rest := w.pending.Keys;
      while rest != {}
        invariant rest <= w.pending.Keys && rest !! IdSet(order)
        invariant IdSet(order) + rest == w.pending.Keys && NoRepeats(order)
        decreases |rest|
      {
        var id :| id in rest;
        assert id !in IdSet(order);
        assert IdSet(order + [id]) == IdSet(order) + {id};
        order, rest := order + [id], rest - {id};
      }
    }
  }

  /** Whether or not the mark or the read took effect, the create is still accounted for. */
  lemma TriedKeepsAccount(was: World, s: Step, w: World, a: Attempt)
    requires TriedOn(was, s, w) && (s == RecordRejection || s == ReadBack) && was.a == a
    requires a.id in was.pending || a.id in was.existing
    requires was.existing <= w.existing
    ensures w.hold == was.hold && (a.id in w.pending || a.id in w.existing)
    ensures s == ReadBack && a.id in w.pending ==> a.id in was.pending && w.pending[a.id] == was.pending[a.id]
  {
    hide IdSet, Releases;
  }

  lemma OwnStepsRemoveNothing(w: World, s: Step)
    requires OwnStep(s) && Next(w, s).Some?
    ensures Next(w, s).value.existing == w.existing
  {}

  /** What is reserved is in the list being drained. */
  ghost predicate Listed(w: World) {
    NoRepeats(w.todo) && w.pending.Keys <= IdSet(w.todo)
  }

  lemma CeilingNotNegative(a: Attempt, bound: nat)
    requires Known(a, bound)
    ensures a.policy.CreateCeiling() >= 0
  {}

  lemma SentLater(run: seq<Step>, n: nat, m: nat)
    requires n <= m
    ensures ReservedThenSent(run, m) ==> ReservedThenSent(run, n)
  {}

  /** The remote, its operators and the board leave the gate holder and the hold alone. */
  ghost predicate SameAttempt(was: World, now: World) {
    now.pc == was.pc && SameReservations(was, now)
  }

  /** Of the reservations only those are gone whose issue exists. */
  ghost predicate SameReservations(was: World, now: World) {
    && now.a == was.a && now.todo == was.todo && now.count == was.count && now.hold == was.hold
    && (forall id :: id in now.pending ==> id in was.pending && now.pending[id] == was.pending[id])
    && (forall id :: id in was.pending && id !in now.pending ==> id in now.existing)
  }

  lemma LeavesAttempt(was: World, v: World, s: Step)
    requires SameAttempt(was, v) && Next(v, s).Some? && (s.Land? || s.Drop? || s.Archive? || s.Own?)
    ensures SameAttempt(was, Next(v, s).value) && v.existing <= Next(v, s).value.existing
  {}

  /** After any calls on a client, whatever failed in them, the guarantees of runs hold. */
  lemma ClientIsSafe(c: Client)
    requires c.Valid() && Initial(c.start, c.bound)
    ensures |Unresolved(c.w)| <= 1
    ensures |c.w.active| + |Unresolved(c.w)| <= c.bound
  {
    SafeInEveryRun(c.start, c.run, c.bound);
  }
}
