/** linear_admission.go, admittedCreate over store/linear_admission.go: serialized issue
    creation with durable reservations, as a step machine. One attempt holds the gate at a
    time; the network may delay, lose or apply its request, and it may crash between any two
    steps. */
module Admission {
  import opened Common
  import opened Capacity

  /** A stable issue id; only its identity matters here. */
  type IssueId = nat

  function IdSet(order: seq<IssueId>): set<IssueId> { set id | id in order }

  /** One create attempt: the stable id it creates and the policy of its process. */
  datatype Attempt = Attempt(id: IssueId, policy: Policy)

  /** The next operation of the attempt holding the gate; Idle while nobody holds it. */
  datatype Pc =
    | Idle | ReadingIdentity | Listing | Draining | AskingRejection | Clearing
    | CheckingTask | Counting | CheckingHold | ClearingHold | CheckingCeiling
    | Reserving | Sending | Awaiting | RecordingHold | RecordingRejection | ReadingBack | Finishing

  /** The gate holder's locals: the attempt a, the reservations still to look at, the count it
      took. pending maps each durably reserved id to whether its outcome is uncertain; hold is
      the limit recorded with a vendor capacity rejection; existing are the remote's issues,
      active those not archived; inFlight the create requests it has not decided yet. */
  datatype World = World(
    pc: Pc,
    a: Attempt,
    todo: seq<IssueId>,
    count: nat,
    pending: map<IssueId, bool>,
    hold: Option<int>,
    existing: set<IssueId>,
    active: set<IssueId>,
    inFlight: multiset<IssueId>)

  /** What can happen next. Arguments are the adversary's choices. */
  datatype Step =
    | Begin(attempt: Attempt)
    | ReadIdentity
    | ListPending(order: seq<IssueId>)
    | ReadEarlier
    | ReadRejection
    | Clear
    | Drained
    | CheckTask(eligible: bool)
    | Count
    | CheckHold
    | ClearHold
    | CheckCeiling
    | Reserve
    | Send
    | Created
    | Rejected(capacity: bool)
    | RecordHold
    | RecordRejection
    | ReadBack
    | Finish
    // an operation that fails, an ambiguous reply, or a crash: the gate is released
    | Stop
    // the remote and its operators
    | Land(id: IssueId)
    | Drop(id: IssueId)
    | Archive(id: IssueId)
    // elsewhere: the board has read the issue back and owns it now
    | Own(id: IssueId)

  /** The state after a step, or None where the step cannot be taken. */
  function Next(w: World, s: Step): Option<World> {
    match s
    case Land(id) =>
      if id in w.inFlight && id !in w.existing then
        Some(w.(inFlight := w.inFlight - multiset{id}, existing := w.existing + {id}, active := w.active + {id}))
      else None
    case Drop(id) => if id in w.inFlight then Some(w.(inFlight := w.inFlight - multiset{id})) else None
    case Archive(id) => Some(w.(active := w.active - {id}))
    case Own(id) => if id in w.existing then Some(w.(pending := w.pending - {id})) else None
    case Stop => Some(w.(pc := Idle))
    case Begin(a) => if w.pc.Idle? then Some(w.(pc := ReadingIdentity, a := a)) else None
    case _ => if w.pc == StepPc(s) then Operate(w, s) else None
  }

  /** Where the attempt must be to take a step of its own. */
  function StepPc(s: Step): Pc {
    match s
    case ReadIdentity => ReadingIdentity
    case ListPending(_) => Listing
    case ReadEarlier => Draining
    case Drained => Draining
    case ReadRejection => AskingRejection
    case Clear => Clearing
    case CheckTask(_) => CheckingTask
    case Count => Counting
    case CheckHold => CheckingHold
    case ClearHold => ClearingHold
    case CheckCeiling => CheckingCeiling
    case Reserve => Reserving
    case Send => Sending
    case Created => Awaiting
    case Rejected(_) => Awaiting
    case RecordHold => RecordingHold
    case RecordRejection => RecordingRejection
    case ReadBack => ReadingBack
    case Finish => Finishing
    case _ => Idle
  }

  /** The steps of the attempt itself. A read of an id answers whether the issue exists. */
  function Operate(w: World, s: Step): Option<World> {
    match s
    case ReadIdentity => Some(w.(pc := if w.a.id in w.existing then Finishing else Listing))
    case ListPending(order) =>
      if IdSet(order) == w.pending.Keys && NoRepeats(order) then Some(w.(pc := Draining, todo := order)) else None
    case ReadEarlier =>
      if w.todo == [] then None
      else Some(w.(pc := if w.todo[0] in w.existing then Clearing else AskingRejection))
    case Drained => if w.todo == [] then Some(w.(pc := CheckingTask)) else None
    case ReadRejection =>
      if w.todo == [] then None
      else Some(w.(pc := if w.todo[0] in w.pending && !w.pending[w.todo[0]] then Clearing else Idle))
    case Clear =>
      if w.todo == [] then None
      else Some(w.(pc := Draining, todo := w.todo[1..], pending := w.pending - {w.todo[0]}))
    case CheckTask(eligible) => Some(w.(pc := if eligible then Counting else Idle))
    case Count =>
      if w.a.policy.CreateCeiling() < 0 then None
      else Some(w.(pc := CheckingHold, count := Min(|w.active|, w.a.policy.CreateCeiling())))
    case CheckHold =>
      Some(w.(pc := if w.hold.None? then CheckingCeiling
                    else if Releases(w.a.policy, w.count, w.hold.value) then ClearingHold
                    else Idle))
    case ClearHold => Some(w.(pc := CheckingCeiling, hold := None))
    case CheckCeiling => Some(w.(pc := if w.count >= w.a.policy.CreateCeiling() then Idle else Reserving))
    case Reserve =>
      Some(w.(pc := Sending, pending := if w.a.id in w.pending then w.pending else w.pending[w.a.id := true]))
    case Send => Some(w.(pc := Awaiting, inFlight := w.inFlight + multiset{w.a.id}))
    // a reply means the remote has decided this request
    case Created => if w.a.id in w.existing then Some(w.(pc := Finishing)) else None
    case Rejected(capacity) =>
      if w.a.id in w.inFlight then None
      else Some(w.(pc := if capacity then RecordingHold else RecordingRejection))
    case RecordHold => Some(w.(pc := RecordingRejection, hold := Some(w.a.policy.Limit())))
    case RecordRejection =>
      Some(w.(pc := ReadingBack, pending := if w.a.id in w.pending then w.pending[w.a.id := false] else w.pending))
    case ReadBack => Some(w.(pc := Finishing))
    case Finish => Some(w.(pc := Idle, pending := w.pending - {w.a.id}))
    case _ => None
  }

  predicate NoRepeats(order: seq<IssueId>) {
    forall i, j :: 0 <= i < j < |order| ==> order[i] != order[j]
  }

  // ---- the invariant

  /** Creates that may still make an issue. */
  ghost function Unresolved(w: World): set<IssueId> {
    Undecided(w.inFlight, w.existing)
  }

  ghost function Undecided(inFlight: multiset<IssueId>, existing: set<IssueId>): set<IssueId> {
    set id | id in inFlight && id !in existing
  }

  ghost predicate Inv(w: World, bound: nat) {
    Durable(w, bound) && PhaseInv(w, bound)
  }

  ghost predicate Durable(w: World, bound: nat) {
    && w.active <= w.existing
    && |w.pending| <= 1
    // an unresolved create is covered by an uncertain reservation, and was sent once
    && (forall id :: id in Unresolved(w) ==> id in w.pending && w.pending[id] && w.inFlight[id] == 1)
    && |w.active + w.pending.Keys| <= bound
  }

  ghost predicate PhaseInv(w: World, bound: nat) {
    var p, id, policy := w.pc, w.a.id, w.a.policy;
    && (!p.Idle? ==> Known(w.a, bound))
    // what is reserved is in the list being drained
    && (InDrain(p) ==> NoRepeats(w.todo) && w.pending.Keys <= IdSet(w.todo))
    && (p.AskingRejection? || p.Clearing? ==> w.todo != [])
    && (p.Clearing? ==> w.todo[0] !in Unresolved(w))
    // past it nothing is reserved until the attempt reserves its own id
    && (p.CheckingTask? || p.Counting? || HasCount(p) || p.Reserving? ==> w.pending == map[])
    && (p.Sending? ==> ReservedOrOwned(w) && Unresolved(w) == {})
    && (HasCount(p) ==> Counted(w))
    && (p.Reserving? || p.Sending? ==> |w.active| < policy.CreateCeiling())
    // and no vendor rejection is held against the create
    && (p.ClearingHold? ==> w.hold.Some? && Releases(policy, w.count, w.hold.value))
    && (p.CheckingCeiling? || p.Reserving? || p.Sending? ==> w.hold.None?)
    // past the reply the attempt's own create is resolved
    && (Decided(p) ==> id !in Unresolved(w))
  }

  /** The attempt's id alone is reserved, or its issue exists and has an owner. */
  ghost predicate ReservedOrOwned(w: World) {
    w.pending == map[w.a.id := true] || (w.pending == map[] && w.a.id in w.existing)
  }

  predicate InDrain(p: Pc) { p.Draining? || p.AskingRejection? || p.Clearing? }

  predicate HasCount(p: Pc) { p.CheckingHold? || p.ClearingHold? || p.CheckingCeiling? }

  predicate Decided(p: Pc) { p.RecordingHold? || p.RecordingRejection? || p.ReadingBack? || p.Finishing? }

  ghost predicate Known(a: Attempt, bound: nat) {
    a.policy.Configured() && a.policy.CreateCeiling() <= bound
  }

  /** The count was taken under this gate; since then issues can only have been archived. */
  ghost predicate Counted(w: World) {
    var ceiling := w.a.policy.CreateCeiling();
    w.count <= ceiling && (w.count < ceiling ==> |w.active| <= w.count)
  }

  // ---- every step keeps it

  predicate OwnStep(s: Step) {
    !s.Begin? && !s.Stop? && !s.Land? && !s.Drop? && !s.Archive? && !s.Own?
  }

  lemma StepKeepsInv(w: World, s: Step, bound: nat)
    requires Inv(w, bound) && Next(w, s).Some?
    requires s.Begin? ==> Known(s.attempt, bound)
    ensures Inv(Next(w, s).value, bound)
  {
    if OwnStep(s) { OwnStepKeepsInv(w, s, bound); }
    else if s.Land? { LandKeepsInv(w, s.id, bound); }
    else if s.Drop? { DropKeepsInv(w, s.id, bound); }
    else if s.Archive? { ArchiveKeepsInv(w, s.id, bound); }
    else if s.Own? { OwnKeepsInv(w, s.id, bound); }
    else if s.Stop? { StopKeepsInv(w, bound); }
    else { BeginKeepsInv(w, s.attempt, bound); }
  }

  lemma OwnStepKeepsInv(w: World, s: Step, bound: nat)
    requires Inv(w, bound) && Next(w, s).Some? && OwnStep(s)
    ensures Inv(Next(w, s).value, bound)
  {
    match s
    case Clear => ClearKeepsInv(w, bound);
    case Reserve => ReserveKeepsInv(w, bound);
    case Send => SendKeepsInv(w, bound);
    case RecordRejection => RejectKeepsInv(w, bound);
    case Finish => FinishKeepsInv(w, bound);
    case ReadEarlier => ReadEarlierKeepsInv(w, bound);
    case ReadRejection => ReadRejectionKeepsInv(w, bound);
    case Drained => DrainedKeepsInv(w, bound);
    case _ => ReadKeepsInv(w, s, bound);
  }

  lemma ReadKeepsInv(w: World, s: Step, bound: nat)
    requires Inv(w, bound) && Next(w, s).Some? && OwnStep(s)
    requires !s.Clear? && !s.Reserve? && !s.Send? && !s.RecordRejection? && !s.Finish?
    requires !s.ReadEarlier? && !s.ReadRejection? && !s.Drained?
    ensures Inv(Next(w, s).value, bound)
  {
    match s
    case ReadIdentity => ReadIdentityKeepsInv(w, bound);
    case ListPending(order) => ListPendingKeepsInv(w, order, bound);
    case CheckTask(eligible) => CheckTaskKeepsInv(w, eligible, bound);
    case Count => CountKeepsInv(w, bound);
    case CheckHold => CheckHoldKeepsInv(w, bound);
    case ClearHold => ClearHoldKeepsInv(w, bound);
    case CheckCeiling => CheckCeilingKeepsInv(w, bound);
    case Created => CreatedKeepsInv(w, bound);
    case Rejected(capacity) => RejectedKeepsInv(w, capacity, bound);
    case RecordHold => RecordHoldKeepsInv(w, bound);
    case ReadBack => ReadBackKeepsInv(w, bound);
  }

  /** Taking or giving up the gate touches nothing durable. */
  lemma StopKeepsInv(w: World, bound: nat)
    requires Inv(w, bound) && Next(w, Stop).Some?
    ensures Inv(Next(w, Stop).value, bound)
  {
    SameKeepsDurable(w, w.(pc := Idle), bound);
    IdleInv(w.(pc := Idle), bound);
  }

  lemma BeginKeepsInv(w: World, a: Attempt, bound: nat)
    requires Inv(w, bound) && Next(w, Begin(a)).Some? && Known(a, bound)
    ensures Inv(Next(w, Begin(a)).value, bound)
  {
    hide Durable, PhaseInv;
    var w' := w.(pc := ReadingIdentity, a := a);
    SameKeepsDurable(w, w', bound);
    ReadingPhase(w', bound);
  }

  lemma LandKeepsInv(w: World, id: IssueId, bound: nat)
    requires Inv(w, bound) && Next(w, Land(id)).Some?
    ensures Inv(Next(w, Land(id)).value, bound)
  {
    var w' := Next(w, Land(id)).value;
    assert id in Unresolved(w);
    assert Unresolved(w') == Unresolved(w) - {id};
    assert w'.active + w'.pending.Keys == w.active + w.pending.Keys;
  }

  lemma DropKeepsInv(w: World, id: IssueId, bound: nat)
    requires Inv(w, bound) && Next(w, Drop(id)).Some?
    ensures Inv(Next(w, Drop(id)).value, bound)
  {
    var w' := Next(w, Drop(id)).value;
    assert Unresolved(w') <= Unresolved(w);
  }

  lemma Smaller<T>(a: set<T>, b: set<T>)
    requires a <= b
    ensures |a| <= |b|
  {
    assert b == a + (b - a);
  }

  lemma ArchiveKeepsInv(w: World, id: IssueId, bound: nat)
    requires Inv(w, bound)
    ensures Inv(Next(w, Archive(id)).value, bound)
  {
    hide Durable, PhaseInv;
    var w' := w.(active := w.active - {id});
    ArchiveKeepsDurable(w, w', bound);
    ArchiveKeepsPhase(w, w', bound);
  }

  lemma OwnKeepsInv(w: World, id: IssueId, bound: nat)
    requires Inv(w, bound) && Next(w, Own(id)).Some?
    ensures Inv(Next(w, Own(id)).value, bound)
  {
    var w' := w.(pending := w.pending - {id});
    ReleaseKeepsDurable(w, w', id, bound);
    OwnedPhase(w, w', id, bound);
  }

  lemma OwnedPhase(w: World, w': World, id: IssueId, bound: nat)
    requires PhaseInv(w, bound) && w' == w.(pending := w.pending - {id}) && id in w.existing
    ensures PhaseInv(w', bound)
  {
    assert w.pending == map[] ==> w'.pending == map[];
    assert w.pending == map[w.a.id := true] ==> w'.pending == if id == w.a.id then map[] else w.pending;
  }

  /** Giving up the reservation of a create that is resolved keeps the durable state sound. */
  lemma ReleaseKeepsDurable(w: World, w': World, id: IssueId, bound: nat)
    requires Durable(w, bound) && id !in Unresolved(w)
    requires w'.pending == w.pending - {id} && w'.active == w.active
    requires w'.inFlight == w.inFlight && w'.existing == w.existing
    ensures Durable(w', bound) && Unresolved(w') == Unresolved(w)
  {
    Smaller(w'.active + w'.pending.Keys, w.active + w.pending.Keys);
    Smaller(w'.pending.Keys, w.pending.Keys);
    assert |w.pending.Keys| == |w.pending| && |w'.pending.Keys| == |w'.pending|;
  }

  lemma ClearKeepsInv(w: World, bound: nat)
    requires Inv(w, bound) && Next(w, Clear).Some?
    ensures Inv(Next(w, Clear).value, bound)
  {
    var w' := w.(pc := Draining, todo := w.todo[1..], pending := w.pending - {w.todo[0]});
    ReleaseKeepsDurable(w, w', w.todo[0], bound);
    TailIds(w.todo);
    ClearedPhase(w, w', bound);
  }

  lemma TailIds(todo: seq<IssueId>)
    requires todo != [] && NoRepeats(todo)
    ensures NoRepeats(todo[1..]) && IdSet(todo[1..]) == IdSet(todo) - {todo[0]}
  {
    forall i | 0 <= i < |todo| - 1 ensures todo[1..][i] != todo[0] { assert todo[1..][i] == todo[i + 1]; }
    forall id | id in IdSet(todo) && id != todo[0] ensures id in todo[1..] {
      var i :| 0 <= i < |todo| && todo[i] == id;
      assert todo[1..][i - 1] == id;
    }
  }

  lemma ReserveKeepsInv(w: World, bound: nat)
    requires Inv(w, bound) && Next(w, Reserve).Some?
    ensures Inv(Next(w, Reserve).value, bound)
  {
    assert forall id :: id in Unresolved(w) ==> id in w.pending;
    assert Unresolved(w) == {} && w.pending == map[] && w.active <= w.existing;
    var w' := w.(pc := Sending, pending := map[w.a.id := true]);
    assert w.pending[w.a.id := true] == w'.pending;
    assert w.hold.None? && |w.active| < w.a.policy.CreateCeiling() && Known(w.a, bound);
    hide Durable, PhaseInv;
    ReservedDurable(w, w', bound);
    ReservedPhase(w', bound);
  }

  lemma ReserveFits(w: World, w': World, bound: nat)
    requires w'.active == w.active && w'.pending.Keys == {w.a.id}
    requires |w.active| + 1 <= bound
    ensures |w'.active + w'.pending.Keys| <= bound
  {
    assert w'.active + w'.pending.Keys == w.active + {w.a.id};
    if w.a.id in w.active { assert w.active + {w.a.id} == w.active; }
  }

  lemma SendKeepsInv(w: World, bound: nat)
    requires Inv(w, bound) && Next(w, Send).Some?
    ensures Inv(Next(w, Send).value, bound)
  {
    var w', id := Next(w, Send).value, w.a.id;
    assert Unresolved(w') <= {id};
    if id in Unresolved(w') { assert id !in Unresolved(w); assert w.inFlight[id] == 0; }
  }

  lemma RejectKeepsInv(w: World, bound: nat)
    requires Inv(w, bound) && Next(w, RecordRejection).Some?
    ensures Inv(Next(w, RecordRejection).value, bound)
  {
    DecidedFacts(w, bound);
    var w' := Next(w, RecordRejection).value;
    RejectKeepsDurable(w, w', bound);
    hide Durable, PhaseInv;
    DecidedInv(w', bound);
  }

  lemma FinishKeepsInv(w: World, bound: nat)
    requires Inv(w, bound) && Next(w, Finish).Some?
    ensures Inv(Next(w, Finish).value, bound)
  {
    DecidedFacts(w, bound);
    hide Durable, PhaseInv;
    var w' := w.(pc := Idle, pending := w.pending - {w.a.id});
    ReleaseKeepsDurable(w, w', w.a.id, bound);
    IdleInv(w', bound);
  }

  lemma IdleInv(w: World, bound: nat)
    requires Durable(w, bound) && w.pc.Idle?
    ensures Inv(w, bound)
  {}

  lemma DecidedInv(w: World, bound: nat)
    requires Durable(w, bound) && Decided(w.pc) && Known(w.a, bound) && w.a.id !in Unresolved(w)
    ensures Inv(w, bound)
  {}

  lemma KnownFacts(w: World, bound: nat)
    requires Inv(w, bound) && !w.pc.Idle?
    ensures Known(w.a, bound)
  {}

  lemma ReadingPhase(w: World, bound: nat)
    requires w.pc.ReadingIdentity? && Known(w.a, bound)
    ensures PhaseInv(w, bound)
  {
    hide Unresolved, IdSet, Counted, Releases, ReservedOrOwned;
  }

  lemma DecidedFacts(w: World, bound: nat)
    requires Inv(w, bound) && Decided(w.pc)
    ensures Known(w.a, bound) && w.a.id !in Unresolved(w)
  {}

  lemma ClearingPhase(w: World, bound: nat)
    requires PhaseInv(w, bound) && InDrain(w.pc) && w.todo != [] && w.todo[0] !in Unresolved(w)
    ensures PhaseInv(w.(pc := Clearing), bound)
  {}

  lemma ReservedDurable(w: World, w': World, bound: nat)
    requires w.active <= w.existing && Unresolved(w) == {} && |w.active| < bound
    requires w' == w.(pc := Sending, pending := map[w.a.id := true])
    ensures Durable(w', bound) && Unresolved(w') == {}
  {
    ReserveFits(w, w', bound);
  }

  lemma ReservedPhase(w: World, bound: nat)
    requires w.pc.Sending? && Known(w.a, bound) && w.pending == map[w.a.id := true] && Unresolved(w) == {}
    requires |w.active| < w.a.policy.CreateCeiling() && w.hold.None?
    ensures PhaseInv(w, bound)
  {}

  lemma ArchiveKeepsDurable(w: World, w': World, bound: nat)
    requires Durable(w, bound) && w' == w.(active := w'.active) && w'.active <= w.active
    ensures Durable(w', bound)
  {
    Smaller(w'.active + w'.pending.Keys, w.active + w.pending.Keys);
  }

  lemma ArchiveKeepsPhase(w: World, w': World, bound: nat)
    requires PhaseInv(w, bound) && w' == w.(active := w'.active) && w'.active <= w.active
    ensures PhaseInv(w', bound)
  {
    Smaller(w'.active, w.active);
  }

  lemma RejectKeepsDurable(w: World, w': World, bound: nat)
    requires Durable(w, bound) && w.a.id !in Unresolved(w)
    requires w'.pending == (if w.a.id in w.pending then w.pending[w.a.id := false] else w.pending)
    requires w'.active == w.active && w'.inFlight == w.inFlight && w'.existing == w.existing
    ensures Durable(w', bound) && Unresolved(w') == Unresolved(w)
  {
    assert w'.pending.Keys == w.pending.Keys;
    assert |w'.pending| == |w'.pending.Keys| && |w.pending| == |w.pending.Keys|;
  }

  lemma ClearedPhase(w: World, w': World, bound: nat)
    requires PhaseInv(w, bound) && w.pc.Clearing?
    requires w' == w.(pc := Draining, todo := w.todo[1..], pending := w.pending - {w.todo[0]})
    requires NoRepeats(w'.todo) && IdSet(w'.todo) == IdSet(w.todo) - {w.todo[0]}
    ensures PhaseInv(w', bound)
  {}

  /** What the durable state says depends on the reservations, the issues and the requests. */
  lemma SameKeepsDurable(w: World, w': World, bound: nat)
    requires Durable(w, bound) && w'.pending == w.pending && w'.active == w.active
    requires w'.existing == w.existing && w'.inFlight == w.inFlight
    ensures Durable(w', bound) && Unresolved(w') == Unresolved(w)
  {}

  lemma ReadEarlierKeepsInv(w: World, bound: nat)
    requires Inv(w, bound) && Next(w, ReadEarlier).Some?
    ensures Inv(Next(w, ReadEarlier).value, bound)
  {
    if w.todo[0] in w.existing {
      SameKeepsDurable(w, w.(pc := Clearing), bound);
      ClearingPhase(w, bound);
    } else {
      SameKeepsDurable(w, w.(pc := AskingRejection), bound);
    }
  }

  lemma ReadRejectionKeepsInv(w: World, bound: nat)
    requires Inv(w, bound) && Next(w, ReadRejection).Some?
    ensures Inv(Next(w, ReadRejection).value, bound)
  {
    if w.todo[0] in w.pending && !w.pending[w.todo[0]] {
      assert w.todo[0] !in Unresolved(w);
      SameKeepsDurable(w, w.(pc := Clearing), bound);
      ClearingPhase(w, bound);
    } else {
      SameKeepsDurable(w, w.(pc := Idle), bound);
      IdleInv(w.(pc := Idle), bound);
    }
  }

  lemma DrainedKeepsInv(w: World, bound: nat)
    requires Inv(w, bound) && Next(w, Drained).Some?
    ensures Inv(Next(w, Drained).value, bound)
  {
    assert w.pending.Keys == {};
    assert w.pending == map[];
    hide Durable;
    SameKeepsDurable(w, Next(w, Drained).value, bound);
  }

  // ---- steps that read, decide or record a hold change no reservation and send nothing

  lemma CheckTaskKeepsInv(w: World, eligible: bool, bound: nat)
    requires Inv(w, bound) && Next(w, CheckTask(eligible)).Some?
    ensures Inv(Next(w, CheckTask(eligible)).value, bound)
  {
    hide Durable;
    SameKeepsDurable(w, Next(w, CheckTask(eligible)).value, bound);
  }

  lemma CountKeepsInv(w: World, bound: nat)
    requires Inv(w, bound) && Next(w, Count).Some?
    ensures Inv(Next(w, Count).value, bound)
  {
    assert w.active <= w.existing;
    hide Durable;
    SameKeepsDurable(w, Next(w, Count).value, bound);
  }

  lemma CheckHoldKeepsInv(w: World, bound: nat)
    requires Inv(w, bound) && Next(w, CheckHold).Some?
    ensures Inv(Next(w, CheckHold).value, bound)
  {
    hide Durable;
    SameKeepsDurable(w, Next(w, CheckHold).value, bound);
  }

  lemma ClearHoldKeepsInv(w: World, bound: nat)
    requires Inv(w, bound) && Next(w, ClearHold).Some?
    ensures Inv(Next(w, ClearHold).value, bound)
  {
    hide Durable;
    SameKeepsDurable(w, Next(w, ClearHold).value, bound);
  }

  lemma CheckCeilingKeepsInv(w: World, bound: nat)
    requires Inv(w, bound) && Next(w, CheckCeiling).Some?
    ensures Inv(Next(w, CheckCeiling).value, bound)
  {
    hide Durable;
    SameKeepsDurable(w, Next(w, CheckCeiling).value, bound);
  }

  lemma ReadIdentityKeepsInv(w: World, bound: nat)
    requires Inv(w, bound) && Next(w, ReadIdentity).Some?
    ensures Inv(Next(w, ReadIdentity).value, bound)
  {
    hide Durable;
    SameKeepsDurable(w, Next(w, ReadIdentity).value, bound);
  }

  lemma ListPendingKeepsInv(w: World, order: seq<IssueId>, bound: nat)
    requires Inv(w, bound) && Next(w, ListPending(order)).Some?
    ensures Inv(Next(w, ListPending(order)).value, bound)
  {
    hide Durable;
    SameKeepsDurable(w, Next(w, ListPending(order)).value, bound);
  }

  lemma CreatedKeepsInv(w: World, bound: nat)
    requires Inv(w, bound) && Next(w, Created).Some?
    ensures Inv(Next(w, Created).value, bound)
  {
    hide Durable;
    SameKeepsDurable(w, Next(w, Created).value, bound);
  }

  lemma RejectedKeepsInv(w: World, capacity: bool, bound: nat)
    requires Inv(w, bound) && Next(w, Rejected(capacity)).Some?
    ensures Inv(Next(w, Rejected(capacity)).value, bound)
  {
    KnownFacts(w, bound);
    hide Durable, PhaseInv;
    var p := if capacity then RecordingHold else RecordingRejection;
    assert w.a.id !in Unresolved(w);
    SameKeepsDurable(w, w.(pc := p), bound);
    DecidedInv(w.(pc := p), bound);
  }

  lemma RecordHoldKeepsInv(w: World, bound: nat)
    requires Inv(w, bound) && Next(w, RecordHold).Some?
    ensures Inv(Next(w, RecordHold).value, bound)
  {
    hide Durable;
    SameKeepsDurable(w, Next(w, RecordHold).value, bound);
  }

  lemma ReadBackKeepsInv(w: World, bound: nat)
    requires Inv(w, bound) && Next(w, ReadBack).Some?
    ensures Inv(Next(w, ReadBack).value, bound)
  {
    DecidedFacts(w, bound);
    hide Durable, PhaseInv;
    SameKeepsDurable(w, w.(pc := Finishing), bound);
    DecidedInv(w.(pc := Finishing), bound);
  }

  // ---- runs

  function Exec(w: World, run: seq<Step>): Option<World>
    decreases |run|
  {
    if run == [] then Some(w)
    else
      var before := Exec(w, run[..|run| - 1]);
      if before.None? then None else Next(before.value, run[|run| - 1])
  }

  ghost predicate Initial(w: World, bound: nat) {
    w.pc.Idle? && w.pending == map[] && w.inFlight == multiset{} && w.active <= w.existing && |w.active| <= bound
  }

  /** Every attempt of the run has a configured policy with a ceiling of at most bound. */
  ghost predicate Admissible(run: seq<Step>, bound: nat) {
    forall s :: s in run && s.Begin? ==> Known(s.attempt, bound)
  }

  lemma {:induction false} RunsKeepInv(w: World, run: seq<Step>, bound: nat)
    requires Inv(w, bound) && Admissible(run, bound) && Exec(w, run).Some?
    ensures Inv(Exec(w, run).value, bound)
    decreases |run|
  {
    if run != [] {
      var init, s := run[..|run| - 1], run[|run| - 1];
      assert s in run && forall t :: t in init ==> t in run;
      RunsKeepInv(w, init, bound);
      StepKeepsInv(Exec(w, init).value, s, bound);
    }
  }

  lemma InitialInv(w: World, bound: nat)
    requires Initial(w, bound)
    ensures Inv(w, bound)
  {
    assert Unresolved(w) == {};
    assert w.active + w.pending.Keys == w.active;
  }

  /** In every run at most one create is unresolved, it was sent once, and the active issues
      together with it never pass the ceiling. */
  lemma SafeInEveryRun(w: World, run: seq<Step>, bound: nat)
    requires Initial(w, bound) && Admissible(run, bound) && Exec(w, run).Some?
    ensures var v := Exec(w, run).value;
            && |Unresolved(v)| <= 1
            && (forall id :: id in Unresolved(v) ==> v.inFlight[id] == 1 && v.pending.Keys == {id})
            && |v.active| + |Unresolved(v)| <= bound
  {
    InitialInv(w, bound);
    RunsKeepInv(w, run, bound);
    var v := Exec(w, run).value;
    Smaller(Unresolved(v), v.pending.Keys);
    assert |v.pending.Keys| == |v.pending|;
    assert v.active !! Unresolved(v);
    assert |v.active + Unresolved(v)| == |v.active| + |Unresolved(v)|;
    Smaller(v.active + Unresolved(v), v.active + v.pending.Keys);
    forall id | id in Unresolved(v) ensures v.pending.Keys == {id} {
      assert {id} <= v.pending.Keys;
      Smaller(v.pending.Keys - {id}, v.pending.Keys);
      assert |v.pending.Keys - {id}| == |v.pending.Keys| - 1;
    }
  }

  /** Whenever a create is about to be sent, nothing sent earlier can still make an issue, no
      capacity rejection is on hold, and there is room under the sender's own ceiling. */
  lemma SendsOnlyWhenResolved(w: World, run: seq<Step>, bound: nat)
    requires Initial(w, bound) && Admissible(run + [Send], bound) && Exec(w, run + [Send]).Some?
    ensures Exec(w, run).Some?
    ensures var v := Exec(w, run).value;
            && Unresolved(v) == {} && v.hold.None?
            && ReservedOrOwned(v)
            && |v.active| + 1 <= v.a.policy.CreateCeiling()
  {
    InitialInv(w, bound);
    ExecSnoc(w, run, Send);
    AdmissiblePrefix(run, Send, bound);
    RunsKeepInv(w, run, bound);
    AtSend(Exec(w, run).value, bound);
  }

  lemma ExecSnoc(w: World, run: seq<Step>, s: Step)
    ensures Exec(w, run + [s]) == if Exec(w, run).Some? then Next(Exec(w, run).value, s) else None
  {
    assert (run + [s])[..|run|] == run;
  }

  lemma AdmissiblePrefix(run: seq<Step>, s: Step, bound: nat)
    requires Admissible(run + [s], bound)
    ensures Admissible(run, bound) && (s.Begin? ==> Known(s.attempt, bound))
  {
    assert forall t :: t in run ==> t in run + [s];
    assert s in run + [s];
  }

  lemma AtSend(v: World, bound: nat)
    requires Inv(v, bound) && Next(v, Send).Some?
    ensures Unresolved(v) == {} && v.hold.None? && ReservedOrOwned(v)
    ensures |v.active| + 1 <= v.a.policy.CreateCeiling()
    ensures !Blocked(v.pc)
  {}

  // ---- the capacity hold

  /** The attempt is not past its hold check. */
  predicate Blocked(p: Pc) {
    !p.CheckingCeiling? && !p.Reserving? && !p.Sending? && !p.Awaiting? && !p.RecordingHold?
  }

  /** Step k of the run releases the hold that w records: the count is at the archive target,
      or under a ceiling whose limit is below the recorded one. */
  ghost predicate ReleasedAt(w: World, run: seq<Step>, k: nat) {
    && k < |run| && run[k] == ClearHold && Exec(w, run[..k]).Some?
    && var v := Exec(w, run[..k]).value;
       && v.hold == w.hold && w.hold.Some?
       && (v.count <= v.a.policy.ArchiveLow() || v.a.policy.Limit() < w.hold.value)
       && v.count < v.a.policy.CreateCeiling() && |v.active| <= v.count
  }

  /** A recorded hold stays, and blocks, until a count releases it. */
  lemma {:induction false} HoldStays(w: World, run: seq<Step>, bound: nat)
    requires Inv(w, bound) && Admissible(run, bound) && Exec(w, run).Some?
    requires w.hold.Some? && Blocked(w.pc)
    ensures var v := Exec(w, run).value;
            (v.hold == w.hold && Blocked(v.pc)) || exists k: nat :: ReleasedAt(w, run, k)
    decreases |run|
  {
    hide Inv, Next, Releases;
    if run != [] {
      var init, s := run[..|run| - 1], run[|run| - 1];
      assert run == init + [s];
      ExecSnoc(w, init, s);
      AdmissiblePrefix(init, s, bound);
      HoldStays(w, init, bound);
      var u := Exec(w, init).value;
      if u.hold == w.hold && Blocked(u.pc) {
        RunsKeepInv(w, init, bound);
        if s == ClearHold {
          AtRelease(u, bound);
          assert ReleasedAt(w, run, |run| - 1);
        } else {
          HoldStep(u, s);
        }
      } else {
        var k: nat :| ReleasedAt(w, init, k);
        assert init[..k] == run[..k];
        assert ReleasedAt(w, run, k);
      }
    }
  }

  lemma AtRelease(v: World, bound: nat)
    requires Inv(v, bound) && Next(v, ClearHold).Some?
    ensures v.hold.Some? && (v.count <= v.a.policy.ArchiveLow() || v.a.policy.Limit() < v.hold.value)
    ensures v.count < v.a.policy.CreateCeiling() && |v.active| <= v.count
  {
    ReleasePassesCeiling(v.a.policy, v.count, v.hold.value);
  }

  lemma HoldStep(w: World, s: Step)
    requires Next(w, s).Some? && w.hold.Some? && Blocked(w.pc) && s != ClearHold
    ensures Next(w, s).value.hold == w.hold && Blocked(Next(w, s).value.pc)
  {
    if OwnStep(s) { OwnHoldStep(w, s); }
  }

  lemma OwnHoldStep(w: World, s: Step)
    requires Operate(w, s).Some? && w.pc == StepPc(s) && w.hold.Some? && Blocked(w.pc) && s != ClearHold
    ensures Operate(w, s).value.hold == w.hold && Blocked(Operate(w, s).value.pc)
  {}

  /** No create is sent under a hold: a count at or below the archive target, or one below a
      newly lowered ceiling, comes first, and that attempt itself passes the ceiling check. */
  lemma NoSendUnderHold(w: World, run: seq<Step>, bound: nat)
    requires Inv(w, bound) && w.hold.Some? && Blocked(w.pc)
    requires Admissible(run + [Send], bound) && Exec(w, run + [Send]).Some?
    ensures exists k: nat :: ReleasedAt(w, run, k)
  {
    ExecSnoc(w, run, Send);
    AdmissiblePrefix(run, Send, bound);
    RunsKeepInv(w, run, bound);
    HoldStays(w, run, bound);
    AtSend(Exec(w, run).value, bound);
  }
}
