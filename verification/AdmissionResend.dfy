/** linear_admission.go, admittedCreate: when a stable id is sent although its issue exists, and
    when an uncertain reservation blocks every later create. */
module AdmissionResend {
  import opened Common
  import opened Capacity
  import opened Admission

  // ---- one attempt, from the time it takes the gate

  /** Nobody takes the gate in the run. */
  ghost predicate OneAttempt(run: seq<Step>) {
    forall s :: s in run ==> !s.Begin?
  }

  /** The attempt is about to send its id, and the issue exists. */
  ghost predicate SendsExisting(u: World, run: seq<Step>) {
    Exec(u, run).Some? && var v := Exec(u, run).value; v.pc.Sending? && v.a.id in v.existing
  }

  /** The world as attempt a takes the gate. */
  function Taken(w: World, a: Attempt): World { w.(pc := ReadingIdentity, a := a) }

  /** Past its first read, up to the send. */
  predicate BetweenReadAndSend(p: Pc) {
    InDrain(p) || HasCount(p) || p.Listing? || p.CheckingTask? || p.Counting? || p.Reserving? || p.Sending?
  }

  predicate NotSentYet(p: Pc) { p.ReadingIdentity? || BetweenReadAndSend(p) }

  /** u is when the attempt took the gate: since then issues have come of requests in flight
      then, and past its read it knows that its own was not there. */
  ghost predicate Since(u: World, v: World) {
    && v.a == u.a && u.existing <= v.existing
    && (forall id :: id in v.inFlight ==> id in u.inFlight)
    && (v.a.id in v.existing ==> v.a.id in u.existing || v.a.id in u.inFlight)
    && (BetweenReadAndSend(v.pc) ==> u.a.id !in u.existing)
  }

  lemma {:induction false} SinceTaken(u: World, run: seq<Step>)
    requires u.pc.ReadingIdentity? && OneAttempt(run)
    requires Exec(u, run).Some? && NotSentYet(Exec(u, run).value.pc)
    ensures Since(u, Exec(u, run).value)
    decreases |run|
  {
    hide Next;
    if run != [] {
      var init, s := run[..|run| - 1], run[|run| - 1];
      assert s in run && forall t :: t in init ==> t in run;
      var v := Exec(u, init).value;
      NotSentBefore(v, s);
      SinceTaken(u, init);
      SinceStep(u, v, s);
    }
  }

  lemma NotSentBefore(v: World, s: Step)
    requires Next(v, s).Some? && !s.Begin? && NotSentYet(Next(v, s).value.pc)
    ensures NotSentYet(v.pc)
  {
    if OwnStep(s) { OwnNotSentBefore(v, s); }
  }

  lemma OwnNotSentBefore(v: World, s: Step)
    requires OwnStep(s) && v.pc == StepPc(s) && Operate(v, s).Some? && NotSentYet(Operate(v, s).value.pc)
    ensures NotSentYet(v.pc)
  {}

  lemma SinceStep(u: World, v: World, s: Step)
    requires Since(u, v) && Next(v, s).Some? && !s.Begin?
    requires NotSentYet(v.pc) && NotSentYet(Next(v, s).value.pc)
    ensures Since(u, Next(v, s).value)
  {
    if OwnStep(s) { OwnSinceStep(u, v, s); }
  }

  lemma OwnSinceStep(u: World, v: World, s: Step)
    requires Since(u, v) && OwnStep(s) && v.pc == StepPc(s) && Operate(v, s).Some?
    requires NotSentYet(v.pc) && NotSentYet(Operate(v, s).value.pc)
    ensures Since(u, Operate(v, s).value)
  {}

  // ---- when the id is sent again

  /** An attempt can come to send an id whose issue exists exactly when, as it takes the gate,
      an earlier create of the id is unresolved. */
  lemma SentAgainExactly(w: World, a: Attempt, bound: nat)
    requires Inv(w, bound) && w.pc.Idle? && Known(a, bound)
    ensures (exists run :: OneAttempt(run) && SendsExisting(Taken(w, a), run)) <==> a.id in Unresolved(w)
  {
    forall run | OneAttempt(run) && SendsExisting(Taken(w, a), run) ensures a.id in Unresolved(w) {
      SinceTaken(Taken(w, a), run);
    }
    if a.id in Unresolved(w) {
      UncertainAlone(w, a.id, bound);
      var run := LandsThenSent(w, a);
      assert OneAttempt(run) && SendsExisting(Taken(w, a), run);
    }
  }

  lemma UncertainAlone(w: World, id: IssueId, bound: nat)
    requires Inv(w, bound) && id in w.pending
    ensures w.pending == map[id := w.pending[id]]
    ensures id in Unresolved(w) ==> w.pending[id]
  {
    Smaller(w.pending.Keys - {id}, w.pending.Keys);
    assert |w.pending.Keys| == |w.pending|;
    assert |w.pending.Keys - {id}| == |w.pending.Keys| - 1;
  }

  /** The guard is on record: in every run a create sent for an id whose issue exists is sent
      by an attempt that took the gate with its id reserved as uncertain. */
  lemma SentAgainWasUncertain(w: World, run: seq<Step>, bound: nat)
    requires Initial(w, bound) && Admissible(run, bound) && SendsExisting(w, run)
    ensures exists n: nat :: TookGateUncertain(w, run, n)
  {
    hide Next, Inv, Taken;
    var n := LastBegin(w, run);
    RunSplits(w, run, n);
    PrefixKeepsInv(w, run, n, bound);
    var u := Exec(w, run[..n]).value;
    UncertainWhenTaken(u, run[n].attempt, run[n + 1..], bound);
    assert TookGateUncertain(w, run, n);
  }

  lemma PrefixKeepsInv(w: World, run: seq<Step>, n: nat, bound: nat)
    requires Initial(w, bound) && Admissible(run, bound) && n < |run| && Exec(w, run[..n]).Some?
    ensures Inv(Exec(w, run[..n]).value, bound)
  {
    hide Inv, Next;
    InitialInv(w, bound);
    assert forall s :: s in run[..n] ==> s in run;
    RunsKeepInv(w, run[..n], bound);
  }

  lemma UncertainWhenTaken(u: World, a: Attempt, run: seq<Step>, bound: nat)
    requires Inv(u, bound) && OneAttempt(run) && SendsExisting(Taken(u, a), run)
    ensures a.id in u.pending && u.pending[a.id] && a.id !in u.existing
  {
    hide Next;
    SinceTaken(Taken(u, a), run);
    assert a.id in Unresolved(u);
  }

  /** Step n is the last to take the gate, and its id is then reserved as uncertain. */
  ghost predicate TookGateUncertain(w: World, run: seq<Step>, n: nat) {
    && n < |run| && run[n].Begin? && OneAttempt(run[n + 1..]) && Exec(w, run[..n]).Some?
    && var u := Exec(w, run[..n]).value; var id := run[n].attempt.id;
       id in u.pending && u.pending[id] && id !in u.existing
  }

  lemma {:induction false} LastBegin(w: World, run: seq<Step>) returns (n: nat)
    requires w.pc.Idle? && Exec(w, run).Some? && NotSentYet(Exec(w, run).value.pc)
    ensures n < |run| && run[n].Begin? && OneAttempt(run[n + 1..])
    decreases |run|
  {
    hide Next;
    assert run != [];
    var init, s := run[..|run| - 1], run[|run| - 1];
    if s.Begin? {
      n := |init|;
    } else {
      NotSentBefore(Exec(w, init).value, s);
      n := LastBegin(w, init);
      assert run[n + 1..] == init[n + 1..] + [s];
    }
  }

  /** What a run does from its step n on, which takes the gate. */
  lemma RunSplits(w: World, run: seq<Step>, n: nat)
    requires n < |run| && run[n].Begin? && Exec(w, run).Some?
    ensures Exec(w, run[..n]).Some? && Exec(w, run[..n]).value.pc.Idle?
    ensures Exec(Taken(Exec(w, run[..n]).value, run[n].attempt), run[n + 1..]) == Exec(w, run)
  {
    var u, begin := Exec(w, run[..n]), run[n];
    assert run == run[..n + 1] + run[n + 1..] && run[..n + 1] == run[..n] + [begin];
    ExecConcat(w, run[..n + 1], run[n + 1..]);
    ExecSnoc(w, run[..n], begin);
  }

  lemma {:induction false} ExecConcat(w: World, run: seq<Step>, more: seq<Step>)
    ensures Exec(w, run + more) == if Exec(w, run).Some? then Exec(Exec(w, run).value, more) else None
    decreases |more|
  {
    hide Next;
    if |more| == 0 {
      assert run + more == run;
    } else {
      var init, s := more[..|more| - 1], more[|more| - 1];
      assert (run + more)[..|run + more| - 1] == run + init;
      ExecConcat(w, run, init);
    }
  }

  // ---- a run that sends it again

  /** The run leads from w0 to w without taking the gate. */
  ghost predicate Leads(w0: World, run: seq<Step>, w: World) {
    Exec(w0, run) == Some(w) && OneAttempt(run)
  }

  lemma One(w0: World, run: seq<Step>, w: World, s: Step, w': World)
    requires Leads(w0, run, w) && Next(w, s) == Some(w') && !s.Begin?
    ensures Leads(w0, run + [s], w')
  {
    ExecSnoc(w0, run, s);
  }

  lemma Two(w0: World, run: seq<Step>, w: World, s: Step, t: Step, w': World)
    requires Leads(w0, run, w) && !s.Begin? && !t.Begin?
    requires Next(w, s).Some? && Next(Next(w, s).value, t) == Some(w')
    ensures Leads(w0, run + [s, t], w')
  {
    One(w0, run, w, s, Next(w, s).value);
    One(w0, run + [s], Next(w, s).value, t, w');
    assert run + [s] + [t] == run + [s, t];
  }

  /** The attempt reads first, and only then does the earlier request land; operators archive
      what is active, so there is room, and the attempt goes on to send. */
  lemma LandsThenSent(w: World, a: Attempt) returns (run: seq<Step>)
    requires w.pc.Idle? && a.policy.Configured() && w.pending == map[a.id := true] && a.id in Unresolved(w)
    ensures OneAttempt(run) && SendsExisting(Taken(w, a), run)
  {
    PolicyHasRoom(a.policy);
    hide Leads, Releases, Policy.Configured;
    var w0 := Taken(w, a);
    var w1;
    run, w1 := ReadThenLanded(w0);
    run := AllArchived(w0, run, w1);
    var w2;
    run, w2 := ListedToCounting(w0, run, w1.(active := {}), [a.id]);
    var w3;
    run, w3 := CountedToSending(w0, run, w2);
    Led(w0, run, w3);
  }

  lemma ReadThenLanded(w: World) returns (run: seq<Step>, v: World)
    requires w.pc.ReadingIdentity? && w.a.id in Unresolved(w)
    ensures v == w.(pc := Listing, inFlight := v.inFlight, existing := w.existing + {w.a.id}, active := v.active)
    ensures Leads(w, run, v)
  {
    hide Leads;
    Start(w);
    var w1 := w.(pc := Listing);
    One(w, [], w, ReadIdentity, w1);
    v := Next(w1, Land(w.a.id)).value;
    One(w, [] + [ReadIdentity], w1, Land(w.a.id), v);
    run := [] + [ReadIdentity] + [Land(w.a.id)];
  }

  lemma Start(w: World)
    ensures Leads(w, [], w)
  {}

  lemma Led(w0: World, run: seq<Step>, w: World)
    requires Leads(w0, run, w)
    ensures OneAttempt(run) && Exec(w0, run) == Some(w)
  {}

  lemma {:induction false} AllArchived(w0: World, before: seq<Step>, w: World) returns (run: seq<Step>)
    requires Leads(w0, before, w)
    ensures Leads(w0, run, w.(active := {}))
    decreases |w.active|
  {
    hide Leads;
    if w.active == {} {
      run := before;
    } else {
      var id :| id in w.active;
      var w' := w.(active := w.active - {id});
      One(w0, before, w, Archive(id), w');
      run := AllArchived(w0, before + [Archive(id)], w');
    }
  }

  /** From an attempt's listing on: the reserved ids, whose issues all exist, are given up. */
  lemma ListedToCounting(w0: World, before: seq<Step>, w: World, reserved: seq<IssueId>)
    returns (run: seq<Step>, v: World)
    requires w.pc == Listing && |reserved| <= 1 && w.pending.Keys == IdSet(reserved) <= w.existing
    requires Leads(w0, before, w)
    ensures v == w.(pc := Counting, todo := [], pending := map[]) && Leads(w0, run, v)
  {
    hide Leads;
    var listed := w.(pc := Draining, todo := reserved);
    One(w0, before, w, ListPending(reserved), listed);
    run := before + [ListPending(reserved)];
    var drained := listed.(todo := [], pending := map[]);
    if |reserved| == 1 {
      assert reserved[1..] == [] && IdSet(reserved) == {reserved[0]};
      assert listed.pending - {reserved[0]} == map[];
      Two(w0, run, listed, ReadEarlier, Clear, drained);
      run := run + [ReadEarlier, Clear];
    } else {
      assert w.pending.Keys == {} && w.pending == map[] && reserved == [];
    }
    v := drained.(pc := Counting);
    Two(w0, run, drained, Drained, CheckTask(true), v);
    run := run + [Drained, CheckTask(true)];
  }

  /** With nothing reserved and nothing active, an attempt goes on to send: such a count
      releases every hold. */
  lemma CountedToSending(w0: World, before: seq<Step>, w: World) returns (run: seq<Step>, v: World)
    requires w.pc == Counting && w.pending == map[] && w.active == {}
    requires w.a.policy.CreateCeiling() > 0 && w.a.policy.ArchiveLow() >= 0
    requires Leads(w0, before, w)
    ensures v == w.(pc := Sending, count := 0, hold := None, pending := map[w.a.id := true])
    ensures Leads(w0, run, v)
  {
    hide Leads, Releases;
    var checking := w.(pc := CheckingCeiling, count := 0, hold := None);
    run := CountedToChecking(w0, before, w, checking);
    var reserving := checking.(pc := Reserving);
    One(w0, run, checking, CheckCeiling, reserving);
    assert w.pending[w.a.id := true] == map[w.a.id := true];
    v := reserving.(pc := Sending, pending := map[w.a.id := true]);
    One(w0, run + [CheckCeiling], reserving, Reserve, v);
    run := run + [CheckCeiling] + [Reserve];
  }

  lemma PolicyHasRoom(policy: Policy)
    requires policy.Configured()
    ensures policy.CreateCeiling() > 0 && policy.ArchiveLow() >= 0
  {}

  lemma CountedToChecking(w0: World, before: seq<Step>, w: World, v: World) returns (run: seq<Step>)
    requires w.pc == Counting && w.active == {} && w.a.policy.CreateCeiling() > 0 && w.a.policy.ArchiveLow() >= 0
    requires v == w.(pc := CheckingCeiling, count := 0, hold := None)
    requires Leads(w0, before, w)
    ensures Leads(w0, run, v)
  {
    hide Leads;
    var counted := w.(pc := CheckingHold, count := 0);
    One(w0, before, w, Count, counted);
    run := before + [Count];
    if w.hold.None? {
      One(w0, run, counted, CheckHold, v);
      run := run + [CheckHold];
    } else {
      Two(w0, run, counted, CheckHold, ClearHold, v);
      run := run + [CheckHold, ClearHold];
    }
  }

  // ---- such a state is reached

  /** Nothing is reserved, held, active or on its way. */
  ghost predicate Bare(w: World) {
    w.pending.Keys == {} && w.hold.None? && w.active == {} && w.inFlight == multiset{} && w.existing == {}
  }

  /** Resolution is not the same as never sending twice: an attempt whose create was sent and
      whose reply was lost can be followed by one that sends the id again when its issue
      exists, so that one issue results is then the remote's doing. */
  lemma SentAgainAfterLanding(w: World, a: Attempt)
    requires Bare(w) && w.pc.Idle? && a.policy.Configured()
    ensures exists first, lost, again :: SentTwice(w, a, first, lost, again)
  {
    PolicyHasRoom(a.policy);
    var first, lost := SentAndLost(Taken(w, a));
    var again := LandsThenSent(lost, a);
    assert SentTwice(w, a, first, lost, again);
  }

  /** A first attempt sends the id and stops; a second one sends it again beside its issue. */
  ghost predicate SentTwice(w: World, a: Attempt, first: seq<Step>, lost: World, again: seq<Step>) {
    && Leads(Taken(w, a), first, lost) && Send in first && lost.pc.Idle?
    && OneAttempt(again) && SendsExisting(Taken(lost, a), again)
  }

  lemma SentAndLost(w: World) returns (run: seq<Step>, v: World)
    requires w.pc.ReadingIdentity? && Bare(w) && w.a.policy.CreateCeiling() > 0 && w.a.policy.ArchiveLow() >= 0
    ensures Leads(w, run, v) && Send in run
    ensures v.pc.Idle? && v.pending == map[w.a.id := true] && w.a.id in Unresolved(v)
  {
    hide Leads, Releases;
    Start(w);
    var listing, order := w.(pc := Listing), [];
    One(w, [], w, ReadIdentity, listing);
    var counting;
    run, counting := ListedToCounting(w, [] + [ReadIdentity], listing, order);
    run, v := CountedToSending(w, run, counting);
    run, v := SendAndStop(w, run, v);
  }

  lemma SendAndStop(w0: World, before: seq<Step>, w: World) returns (run: seq<Step>, v: World)
    requires w.pc.Sending? && Leads(w0, before, w)
    ensures v == w.(pc := Idle, inFlight := w.inFlight + multiset{w.a.id})
    ensures Leads(w0, run, v) && Send in run
  {
    hide Leads;
    v := w.(pc := Idle, inFlight := w.inFlight + multiset{w.a.id});
    Two(w0, before, w, Send, Stop, v);
    run := before + [Send, Stop];
    assert run[|before|] == Send;
  }

  // ---- an uncertain reservation that nothing resolves

  /** The only reservation is uncertain, and its request is lost: neither in flight nor landed. */
  ghost predicate Wedged(w: World, id: IssueId) {
    w.pending == map[id := true] && id !in w.existing && id !in w.inFlight
  }

  /** Where an attempt can get: it reads, lists the reservation and stops there. */
  ghost predicate Stuck(w: World, id: IssueId) {
    && Wedged(w, id)
    && (w.pc.Idle? || w.pc.ReadingIdentity? || w.pc.Listing? || (w.pc.Finishing? && w.a.id != id)
        || ((w.pc.Draining? || w.pc.AskingRejection?) && w.todo == [id]))
  }

  /** It then blocks every later create for good, whoever tries and whatever else happens. */
  lemma WedgedForGood(w: World, run: seq<Step>, id: IssueId)
    requires w.pc.Idle? && Wedged(w, id) && Exec(w, run).Some?
    ensures Wedged(Exec(w, run).value, id) && Send !in run
  {
    StuckForGood(w, run, id);
  }

  lemma {:induction false} StuckForGood(w: World, run: seq<Step>, id: IssueId)
    requires w.pc.Idle? && Wedged(w, id) && Exec(w, run).Some?
    ensures Stuck(Exec(w, run).value, id) && Send !in run
    decreases |run|
  {
    hide Next, Stuck;
    if run == [] {
      StuckIdle(w, id);
    } else {
      var init, s := run[..|run| - 1], run[|run| - 1];
      StuckForGood(w, init, id);
      StuckStep(Exec(w, init).value, s, id);
      assert run == init + [s];
    }
  }

  lemma StuckIdle(w: World, id: IssueId)
    requires w.pc.Idle? && Wedged(w, id)
    ensures Stuck(w, id)
  {}

  lemma StuckStep(w: World, s: Step, id: IssueId)
    requires Stuck(w, id) && Next(w, s).Some?
    ensures Stuck(Next(w, s).value, id) && s != Send
  {
    if s.ListPending? { StuckListing(w, s.order, id); }
    if s.Finish? { assert w.pending - {w.a.id} == w.pending; }
    if s.Own? { assert w.pending - {s.id} == w.pending; }
  }

  lemma StuckListing(w: World, order: seq<IssueId>, id: IssueId)
    requires w.pending == map[id := true] && IdSet(order) == w.pending.Keys && NoRepeats(order)
    ensures order == [id]
  {
    assert id in IdSet(order);
    assert |order| > 1 ==> order[0] != order[1];
    forall k | 0 <= k < |order| ensures order[k] == id { assert order[k] in IdSet(order); }
  }

  /** So a create with an uncertain reservation and no issue either can be sent again beside
      its issue, or nothing is ever sent again; and it is the network that decides which. */
  lemma UncertainOutcome(w: World, a: Attempt, bound: nat)
    requires Inv(w, bound) && w.pc.Idle? && Known(a, bound)
    requires a.id in w.pending && w.pending[a.id] && a.id !in w.existing
    ensures (exists run :: OneAttempt(run) && SendsExisting(Taken(w, a), run)) <==> !Wedged(w, a.id)
  {
    SentAgainExactly(w, a, bound);
    UncertainAlone(w, a.id, bound);
  }
}
