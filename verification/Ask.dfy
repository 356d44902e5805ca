/** linear_decisions.go, Ask, over store/decision_request.go and store/linear_decisions.go:
    asking the operator through Linear, with any number of calls interleaved, re-sent, and
    stopped between any two steps. */
module Ask {
  import opened Common
  import opened Capacity
  import Admission

  type TaskId = nat
  type CallId = nat

  /** What is asked; supersedes names the request it replaces. */
  datatype Input = Input(content: nat, supersedes: Option<RequestId>)

  /** dr-<task>-<revision>. */
  datatype RequestId = RequestId(task: TaskId, revision: nat)

  datatype Request = Request(id: RequestId, content: nat, supersedes: Option<RequestId>, open: bool)

  datatype Link = Link(request: RequestId, issue: Admission.IssueId)

  datatype RecordError = TaskTerminal | RequestStale | RequestOpen

  predicate SameAsked(current: Request, input: Input) {
    current.content == input.content && (input.supersedes.None? || input.supersedes == current.supersedes)
  }

  /** The input is the current request again: the same content, naming nothing it replaces or
      what the recorded one replaced. */
  ghost predicate Resent(current: Option<Request>, input: Input) {
    && current.Some? && current.value.content == input.content
    && (input.supersedes == None || input.supersedes == current.value.supersedes)
  }

  /** RecordDecisionRequest: a re-send of the task's latest request returns it unchanged, and
      anything new is open under the next revision. */
  function Record(task: TaskId, current: Option<Request>, terminal: bool, input: Input):
    (r: Result<Request, RecordError>)
    ensures Resent(current, input) ==> r == Ok(current.value)
    ensures r.Ok? && !Resent(current, input) ==>
              && r.value.id.task == task && r.value.open
              && r.value.content == input.content && r.value.supersedes == input.supersedes
              && (current.Some? ==> r.value.id.revision > current.value.id.revision)
    // refused: terminal tasks first, then what names the wrong request, then a second open one
    ensures r == Err(TaskTerminal) <==> terminal && !Resent(current, input)
    ensures r == Err(RequestStale) <==>
              && !terminal && !Resent(current, input) && input.supersedes.Some?
              && (current.Some? ==> input.supersedes != Some(current.value.id))
    ensures r == Err(RequestOpen) <==>
              && !terminal && !Resent(current, input) && input.supersedes.None?
              && current.Some? && current.value.open
  {
    if current.Some? && SameAsked(current.value, input) then Ok(current.value)
    else if terminal then Err(TaskTerminal)
    else if current.None? && input.supersedes.Some? then Err(RequestStale)
    else if current.Some? && input.supersedes.Some? && input.supersedes.value != current.value.id then Err(RequestStale)
    else if current.Some? && current.value.open && input.supersedes.None? then Err(RequestOpen)
    else
      var revision := if current.Some? then current.value.id.revision + 1 else 1;
      Ok(Request(RequestId(task, revision), input.content, input.supersedes, true))
  }

  datatype Pc = Recording | Looking | Creating | Admitting | ReadingBack | Storing | Answered | Failed

  /** One call: request is what it recorded, link what it answers with. */
  datatype Call = Call(pc: Pc, task: TaskId, input: Input, request: Option<Request>, link: Option<Link>)

  /** w is the create admission every issue goes through, and gate the call whose attempt holds
      it; current is each task's latest request; begun records, for every attempt a call began,
      the request and the id the attempt carries. */
  datatype System = System(
    w: Admission.World,
    gate: Option<CallId>,
    current: map<TaskId, Request>,
    calls: map<CallId, Call>,
    links: map<RequestId, Link>,
    begun: set<(RequestId, Admission.IssueId)>)

  datatype Step =
    | Start(c: CallId, task: TaskId, input: Input)
    | RecordRequest(c: CallId, terminal: bool)
    | LookUp(c: CallId)
    | NotAdmitted(c: CallId)                   // the gate is unavailable, or the wait for it times out
    | BeginCreate(c: CallId, policy: Policy)   // the call's attempt takes the gate
    | ReadBack(c: CallId)
    | Store(c: CallId)
    | Stop(c: CallId)           // an error, or a crash between two steps
    | Resolve(task: TaskId)     // the operator answers the task's open request
    | Gate(s: Admission.Step)   // a step of the attempt at the gate, of another creator, or of Linear

  /** uuid derives the issue id of a request. */
  type Derive = RequestId -> Admission.IssueId

  function Current(y: System, task: TaskId): Option<Request> {
    if task in y.current then Some(y.current[task]) else None
  }

  function Next(y: System, s: Step, uuid: Derive): Option<System> {
    match s
    case Start(c, task, input) =>
      if c in y.calls then None
      else Some(At(y, c, Call(Recording, task, input, None, None)))
    case Resolve(task) =>
      if task in y.current then Some(y.(current := y.current[task := y.current[task].(open := false)])) else None
    case Gate(r) => AtGate(y, r)
    case _ => if s.c in y.calls then OfCall(y, s, uuid, y.calls[s.c]) else None
  }

  /** The attempt of a call answers it when it gives the gate back: with success exactly when
      it finished on an existing issue. */
  function AtGate(y: System, r: Admission.Step): Option<System> {
    var w := Admission.Next(y.w, r);
    if w.None? || !StillAsked(y, r) then None
    else if y.gate.None? || y.gate.value !in y.calls || !w.value.pc.Idle? then Some(y.(w := w.value))
    else
      var c := y.gate.value;
      var ok := r.Finish? && y.w.a.id in y.w.existing;
      Some(At(y, c, y.calls[c].(pc := if ok then Storing else ReadingBack)).(w := w.value, gate := None))
  }

  /** The task check lets a call's create on only while its request is current and open. */
  predicate StillAsked(y: System, r: Admission.Step) {
    r.CheckTask? && r.eligible && y.gate.Some? && y.gate.value in y.calls && y.calls[y.gate.value].request.Some? ==>
      var call := y.calls[y.gate.value];
      call.task in y.current && y.current[call.task].open && y.current[call.task].id == call.request.value.id
  }

  function At(y: System, c: CallId, call: Call): System {
    y.(calls := y.calls[c := call])
  }

  function OfCall(y: System, s: Step, uuid: Derive, call: Call): Option<System> {
    match s
    case RecordRequest(c, terminal) =>
      if call.pc != Recording then None
      else
        var r := Record(call.task, Current(y, call.task), terminal, call.input);
        if r.Err? then Some(At(y, c, call.(pc := Failed)))
        else Some(At(y, c, call.(pc := Looking, request := Some(r.value))).(current := y.current[call.task := r.value]))
    case Stop(c) =>
      if call.pc == Answered then None
      else
        // a call that stops at the gate gives it back; its request may be on its way
        var freed := if y.gate == Some(c) then y.(w := y.w.(pc := Admission.Idle), gate := None) else y;
        Some(At(freed, c, call.(pc := Failed)))
    case _ => if call.request.None? then None else Work(y, s, uuid, call, call.request.value)
  }

  /** The steps of a call that has its request. */
  function Work(y: System, s: Step, uuid: Derive, call: Call, request: Request): Option<System> {
    match s
    case LookUp(c) =>
      if call.pc != Looking then None
      else if request.id in y.links then Some(At(y, c, call.(pc := Answered, link := Some(y.links[request.id]))))
      else if !request.open then Some(At(y, c, call.(pc := Answered)))
      else Some(At(y, c, call.(pc := Creating)))
    case NotAdmitted(c) => if call.pc != Creating then None else Some(At(y, c, call.(pc := ReadingBack)))
    case BeginCreate(c, policy) =>
      var attempt := Admission.Attempt(uuid(request.id), policy);
      var w := Admission.Next(y.w, Admission.Begin(attempt));
      if call.pc != Creating || w.None? then None
      else
        Some(At(y, c, call.(pc := Admitting))
             .(w := w.value, gate := Some(c), begun := y.begun + {(request.id, w.value.a.id)}))
    case ReadBack(c) =>
      if call.pc != ReadingBack then None
      else Some(At(y, c, call.(pc := if uuid(request.id) in y.w.existing then Storing else Failed)))
    case Store(c) =>
      if call.pc != Storing then None
      else
        var link := Link(request.id, uuid(request.id));
        var links := if request.id in y.links then y.links else y.links[request.id := link];
        Some(At(y, c, call.(pc := Answered, link := Some(links[request.id]))).(links := links))
    case _ => None
  }

  // ---- what every step keeps

  /** Each stored link names the derived issue, and the issue exists. */
  ghost predicate LinksInv(y: System, uuid: Derive) {
    forall r :: r in y.links ==> y.links[r] == Link(r, uuid(r)) && uuid(r) in y.w.existing
  }

  ghost predicate CallInv(y: System, c: CallId, call: Call, uuid: Derive) {
    && (!call.pc.Recording? && !call.pc.Failed? ==> call.request.Some?)
    && (call.pc.Admitting? <==> y.gate == Some(c))
    && (call.pc.Admitting? ==> y.w.a.id == uuid(call.request.value.id))
    && (call.pc.Storing? ==> uuid(call.request.value.id) in y.w.existing)
    && (!call.pc.Answered? ==> call.link.None?)
    // nothing is created for a request that was closed when the call recorded it
    && (call.pc.Creating? || call.pc.Admitting? || call.pc.ReadingBack? || call.pc.Storing? ==> call.request.value.open)
    // an answer carries the stored link, unless the request was closed before it had one
    && (call.pc.Answered? ==>
          var r := call.request.value;
          if call.link.Some? then r.id in y.links && call.link.value == y.links[r.id] else !r.open)
  }

  ghost predicate GateInv(y: System, uuid: Derive) {
    && (y.gate.Some? ==> y.gate.value in y.calls && !y.w.pc.Idle?)
    && (forall b :: b in y.begun ==> b.1 == uuid(b.0))
  }

  ghost predicate Inv(y: System, uuid: Derive) {
    LinksInv(y, uuid) && GateInv(y, uuid) && forall c :: c in y.calls ==> CallInv(y, c, y.calls[c], uuid)
  }

  /** Links are never changed or removed, and issues never disappear. */
  ghost predicate Kept(y: System, y': System) {
    && (forall r :: r in y.links ==> r in y'.links && y'.links[r] == y.links[r])
    && y.w.existing <= y'.w.existing && y.begun <= y'.begun
  }

  lemma StepKeepsInv(y: System, s: Step, uuid: Derive)
    requires Inv(y, uuid) && Next(y, s, uuid).Some?
    ensures Inv(Next(y, s, uuid).value, uuid) && Kept(y, Next(y, s, uuid).value)
  {
    var y' := Next(y, s, uuid).value;
    StepKeepsLinks(y, s, uuid);
    StepKeepsGate(y, s, uuid);
    forall c | c in y'.calls ensures CallInv(y', c, y'.calls[c], uuid) {
      CallStep(y, s, c, uuid);
    }
  }

  lemma ExistingGrows(w: Admission.World, s: Admission.Step)
    requires Admission.Next(w, s).Some?
    ensures w.existing <= Admission.Next(w, s).value.existing
    ensures !s.Begin? && !Admission.Next(w, s).value.pc.Idle? ==> Admission.Next(w, s).value.a == w.a && !w.pc.Idle?
  {}

  lemma StepKeepsLinks(y: System, s: Step, uuid: Derive)
    requires Inv(y, uuid) && Next(y, s, uuid).Some?
    ensures LinksInv(Next(y, s, uuid).value, uuid) && Kept(y, Next(y, s, uuid).value)
  {
    if s.Gate? { ExistingGrows(y.w, s.s); }
    if s.Store? { assert CallInv(y, s.c, y.calls[s.c], uuid); } else { OthersKeepLinks(y, s, uuid); }
  }

  lemma OthersKeepLinks(y: System, s: Step, uuid: Derive)
    requires Next(y, s, uuid).Some? && !s.Store?
    ensures var y' := Next(y, s, uuid).value;
            y'.links == y.links && y.begun <= y'.begun && (!s.Gate? ==> y'.w.existing == y.w.existing)
  {}

  lemma StepKeepsGate(y: System, s: Step, uuid: Derive)
    requires Inv(y, uuid) && Next(y, s, uuid).Some?
    ensures GateInv(Next(y, s, uuid).value, uuid)
  {
    if y.gate.Some? { assert CallInv(y, y.gate.value, y.calls[y.gate.value], uuid); }
  }

  lemma CallStep(y: System, s: Step, c: CallId, uuid: Derive)
    requires Inv(y, uuid) && Next(y, s, uuid).Some? && c in Next(y, s, uuid).value.calls
    requires Kept(y, Next(y, s, uuid).value)
    ensures CallInv(Next(y, s, uuid).value, c, Next(y, s, uuid).value.calls[c], uuid)
  {
    if c in y.calls { assert CallInv(y, c, y.calls[c], uuid); }
    if s.Gate? {
      ExistingGrows(y.w, s.s);
      GateStep(y, s.s, c, uuid);
    } else if c in y.calls && NotOf(s, c) {
      OthersLeaveCall(y, s, uuid, c);
      OthersKeepCall(y, s, c, uuid);
    } else {
      OwnStep(y, s, c, uuid);
    }
  }

  /** The step is not one of call c. */
  predicate NotOf(s: Step, c: CallId) {
    s.Resolve? || s.Gate? || s.c != c
  }

  lemma OthersLeaveCall(y: System, s: Step, uuid: Derive, c: CallId)
    requires c in y.calls && Next(y, s, uuid).Some? && NotOf(s, c)
    ensures var y' := Next(y, s, uuid).value;
            c in y'.calls && (!s.Gate? || y.gate != Some(c) ==> y'.calls[c] == y.calls[c])
  {}

  /** Others take and give back the gate only when this call does not hold it. */
  lemma OthersKeepCall(y: System, s: Step, c: CallId, uuid: Derive)
    requires Inv(y, uuid) && Next(y, s, uuid).Some? && NotOf(s, c) && !s.Gate?
    requires c in y.calls && CallInv(y, c, y.calls[c], uuid) && Next(y, s, uuid).value.calls[c] == y.calls[c]
    requires Kept(y, Next(y, s, uuid).value)
    ensures CallInv(Next(y, s, uuid).value, c, y.calls[c], uuid)
  {}

  lemma GateStep(y: System, r: Admission.Step, c: CallId, uuid: Derive)
    requires Inv(y, uuid) && Next(y, Gate(r), uuid).Some? && c in y.calls && CallInv(y, c, y.calls[c], uuid)
    requires Kept(y, Next(y, Gate(r), uuid).value)
    requires !r.Begin? && !Admission.Next(y.w, r).value.pc.Idle? ==> Admission.Next(y.w, r).value.a == y.w.a
    ensures c in Next(y, Gate(r), uuid).value.calls
    ensures CallInv(Next(y, Gate(r), uuid).value, c, Next(y, Gate(r), uuid).value.calls[c], uuid)
  {
    hide Admission.Next, LinksInv;
    if y.gate == Some(c) { GateOfCall(y, r, c, uuid); } else { GateOfOthers(y, r, c, uuid); }
  }

  lemma GateOfCall(y: System, r: Admission.Step, c: CallId, uuid: Derive)
    requires GateInv(y, uuid) && y.gate == Some(c) && AtGate(y, r).Some?
    requires c in y.calls && CallInv(y, c, y.calls[c], uuid)
    requires Kept(y, AtGate(y, r).value)
    requires !r.Begin? && !Admission.Next(y.w, r).value.pc.Idle? ==> Admission.Next(y.w, r).value.a == y.w.a
    ensures c in AtGate(y, r).value.calls && CallInv(AtGate(y, r).value, c, AtGate(y, r).value.calls[c], uuid)
  {}

  lemma GateOfOthers(y: System, r: Admission.Step, c: CallId, uuid: Derive)
    requires GateInv(y, uuid) && y.gate != Some(c) && AtGate(y, r).Some?
    requires c in y.calls && CallInv(y, c, y.calls[c], uuid)
    requires Kept(y, AtGate(y, r).value)
    ensures c in AtGate(y, r).value.calls && CallInv(AtGate(y, r).value, c, AtGate(y, r).value.calls[c], uuid)
  {
    hide Admission.Next;
  }

  lemma OwnStep(y: System, s: Step, c: CallId, uuid: Derive)
    requires Inv(y, uuid) && Next(y, s, uuid).Some? && c in Next(y, s, uuid).value.calls && !s.Gate?
    requires c !in y.calls || !NotOf(s, c)
    ensures CallInv(Next(y, s, uuid).value, c, Next(y, s, uuid).value.calls[c], uuid)
  {
    if c in y.calls { assert CallInv(y, c, y.calls[c], uuid); }
  }

  // ---- runs

  function Exec(y: System, run: seq<Step>, uuid: Derive): Option<System>
    decreases |run|
  {
    if run == [] then Some(y)
    else
      var before := Exec(y, run[..|run| - 1], uuid);
      if before.None? then None else Next(before.value, run[|run| - 1], uuid)
  }

  /** Nothing is being asked yet; earlier asks may have left requests, links and issues. */
  ghost predicate Initial(y: System, uuid: Derive) {
    y.calls == map[] && y.gate.None? && y.begun == {} && LinksInv(y, uuid)
  }

  lemma {:induction false} RunsKeepInv(y: System, run: seq<Step>, uuid: Derive)
    requires Initial(y, uuid) && Exec(y, run, uuid).Some?
    ensures Inv(Exec(y, run, uuid).value, uuid) && Kept(y, Exec(y, run, uuid).value)
    decreases |run|
  {
    if run != [] {
      var init := run[..|run| - 1];
      RunsKeepInv(y, init, uuid);
      StepKeepsInv(Exec(y, init, uuid).value, run[|run| - 1], uuid);
    }
  }

  ghost predicate Injective(uuid: Derive) {
    forall r, q :: uuid(r) == uuid(q) ==> r == q
  }

  /** In every run: a request has at most one link, an issue at most one request, every link
      names the request's derived issue, which exists, and links never change. A call that
      succeeds on an open request carries that link. */
  lemma AskIsSafe(y: System, run: seq<Step>, uuid: Derive)
    requires Initial(y, uuid) && Injective(uuid) && Exec(y, run, uuid).Some?
    ensures var v := Exec(y, run, uuid).value;
            && Kept(y, v)
            && (forall r :: r in v.links ==> v.links[r].issue == uuid(r) && uuid(r) in v.w.existing)
            && (forall r, q :: r in v.links && q in v.links && v.links[r].issue == v.links[q].issue ==> r == q)
            && (forall c :: c in v.calls && v.calls[c].pc.Answered? ==>
                  v.calls[c].request.Some? && AnswerIsRight(v, v.calls[c], uuid))
  {
    RunsKeepInv(y, run, uuid);
    var v := Exec(y, run, uuid).value;
    forall c | c in v.calls && v.calls[c].pc.Answered?
      ensures v.calls[c].request.Some? && AnswerIsRight(v, v.calls[c], uuid)
    {
      assert CallInv(v, c, v.calls[c], uuid);
    }
  }

  ghost predicate AnswerIsRight(v: System, call: Call, uuid: Derive)
    requires call.request.Some?
  {
    var r := call.request.value;
    if r.open then call.link == Some(Link(r.id, uuid(r.id)))
    else call.link.Some? ==> call.link == Some(Link(r.id, uuid(r.id)))
  }

  // ---- one issue per request

  /** What a step is to the admission. */
  function AdmissionStep(y: System, s: Step, uuid: Derive): seq<Admission.Step> {
    match s
    case Gate(r) => [r]
    case BeginCreate(c, policy) =>
      if c in y.calls && y.calls[c].request.Some? then
        [Admission.Begin(Admission.Attempt(uuid(y.calls[c].request.value.id), policy))]
      else []
    case Stop(c) => if y.gate == Some(c) then [Admission.Stop] else []
    case _ => []
  }

  lemma StepProjects(y: System, s: Step, uuid: Derive)
    requires Next(y, s, uuid).Some?
    ensures var steps := AdmissionStep(y, s, uuid);
            if steps == [] then Next(y, s, uuid).value.w == y.w
            else |steps| == 1 && Admission.Next(y.w, steps[0]) == Some(Next(y, s, uuid).value.w)
  {}

  /** The run of the admission inside a run of asks. */
  ghost function Admissions(y: System, run: seq<Step>, uuid: Derive): seq<Admission.Step>
    requires Exec(y, run, uuid).Some?
    decreases |run|
  {
    if run == [] then []
    else
      var init := run[..|run| - 1];
      Admissions(y, init, uuid) + AdmissionStep(Exec(y, init, uuid).value, run[|run| - 1], uuid)
  }

  /** Every attempt has a configured policy within the bound, and no other creator uses an id
      derived from a request. */
  ghost predicate Admissible(run: seq<Step>, uuid: Derive, bound: nat) {
    && (forall s :: s in run && s.BeginCreate? ==> s.policy.Configured() && s.policy.CreateCeiling() <= bound)
    && (forall s :: s in run && s.Gate? && s.s.Begin? ==> OtherCreator(s.s.attempt, uuid, bound))
  }

  ghost predicate OtherCreator(a: Admission.Attempt, uuid: Derive, bound: nat) {
    Admission.Known(a, bound) && forall r :: uuid(r) != a.id
  }

  lemma {:induction false} RunProjects(y: System, run: seq<Step>, uuid: Derive, bound: nat)
    requires Exec(y, run, uuid).Some? && Admissible(run, uuid, bound)
    ensures var steps := Admissions(y, run, uuid);
            Admission.Exec(y.w, steps) == Some(Exec(y, run, uuid).value.w) && Admission.Admissible(steps, bound)
    decreases |run|
  {
    if run != [] {
      var init, s := run[..|run| - 1], run[|run| - 1];
      assert s in run && forall t :: t in init ==> t in run;
      RunProjects(y, init, uuid, bound);
      StepExtends(y.w, Admissions(y, init, uuid), Exec(y, init, uuid).value, s, uuid, bound);
    }
  }

  lemma StepExtends(w: Admission.World, before: seq<Admission.Step>, u: System, s: Step, uuid: Derive, bound: nat)
    requires Admission.Exec(w, before) == Some(u.w) && Admission.Admissible(before, bound)
    requires Next(u, s, uuid).Some? && Admissible([s], uuid, bound)
    ensures var steps := before + AdmissionStep(u, s, uuid);
            Admission.Exec(w, steps) == Some(Next(u, s, uuid).value.w) && Admission.Admissible(steps, bound)
  {
    StepProjects(u, s, uuid);
    StepAdmissible(u, s, uuid, bound);
    var steps := AdmissionStep(u, s, uuid);
    if steps == [] {
      assert before + steps == before;
    } else {
      assert before + steps == before + [steps[0]];
      Admission.ExecSnoc(w, before, steps[0]);
    }
  }

  lemma StepAdmissible(u: System, s: Step, uuid: Derive, bound: nat)
    requires Admissible([s], uuid, bound)
    ensures Admission.Admissible(AdmissionStep(u, s, uuid), bound)
  {
    assert s in [s];
  }

  /** The id is carried by the attempt at the gate, by a request on its way, or by an issue
      made since. */
  ghost predicate Carried(w: Admission.World, earlier: set<Admission.IssueId>, id: Admission.IssueId) {
    id in w.inFlight || (id in w.existing && id !in earlier) || (!w.pc.Idle? && w.a.id == id)
  }

  /** A derived id is carried only by an attempt begun for its request. */
  ghost predicate Begun(y: System, earlier: set<Admission.IssueId>, uuid: Derive) {
    forall r :: Carried(y.w, earlier, uuid(r)) ==> (r, uuid(r)) in y.begun
  }

  /** An id comes to be carried only by beginning an attempt for it. */
  lemma CarriedBefore(w: Admission.World, s: Admission.Step, earlier: set<Admission.IssueId>, id: Admission.IssueId)
    requires Admission.Next(w, s).Some? && Carried(Admission.Next(w, s).value, earlier, id)
    requires !(s.Begin? && s.attempt.id == id)
    ensures Carried(w, earlier, id)
  {}

  lemma StepKeepsBegun(y: System, s: Step, earlier: set<Admission.IssueId>, uuid: Derive, bound: nat)
    requires Injective(uuid) && Inv(y, uuid) && Begun(y, earlier, uuid) && Next(y, s, uuid).Some?
    requires s.Gate? && s.s.Begin? ==> OtherCreator(s.s.attempt, uuid, bound)
    ensures Begun(Next(y, s, uuid).value, earlier, uuid)
  {
    var v := Next(y, s, uuid).value;
    StepProjects(y, s, uuid);
    StepKeepsLinks(y, s, uuid);
    forall r | Carried(v.w, earlier, uuid(r)) ensures (r, uuid(r)) in v.begun {
      var steps := AdmissionStep(y, s, uuid);
      if s.BeginCreate? && v.w.a.id == uuid(r) {
        assert (y.calls[s.c].request.value.id, v.w.a.id) in v.begun;
      } else if steps != [] {
        CarriedBefore(y.w, steps[0], earlier, uuid(r));
      }
    }
  }

  lemma {:induction false} RunsKeepBegun(y: System, run: seq<Step>, uuid: Derive, bound: nat)
    requires Initial(y, uuid) && Admission.Initial(y.w, bound) && Injective(uuid)
    requires Admissible(run, uuid, bound) && Exec(y, run, uuid).Some?
    ensures Begun(Exec(y, run, uuid).value, y.w.existing, uuid)
    decreases |run|
  {
    if run != [] {
      var init, s := run[..|run| - 1], run[|run| - 1];
      assert s in run && forall t :: t in init ==> t in run;
      RunsKeepBegun(y, init, uuid, bound);
      RunsKeepInv(y, init, uuid);
      StepKeepsBegun(Exec(y, init, uuid).value, s, y.w.existing, uuid, bound);
    }
  }

  /** The issues that attempts begun for r have made, or found. */
  ghost function IssuesOf(y: System, r: RequestId): set<Admission.IssueId> {
    set b | b in y.begun && b.0 == r && b.1 in y.w.existing :: b.1
  }

  /** In every run every attempt begun for a request carries the id derived from it; so a
      request gets at most one issue ever, no issue two requests, and no issue with a derived id
      appears unless an attempt was begun for its request. Through the admission at most one
      create is unresolved at a time, sent once, and the ceiling holds. */
  lemma OneIssuePerRequest(y: System, run: seq<Step>, uuid: Derive, bound: nat)
    requires Initial(y, uuid) && Admission.Initial(y.w, bound) && Injective(uuid)
    requires Admissible(run, uuid, bound) && Exec(y, run, uuid).Some?
    ensures var v := Exec(y, run, uuid).value;
            && (forall b :: b in v.begun ==> b.1 == uuid(b.0))
            && (forall r :: IssuesOf(v, r) <= {uuid(r)} && |IssuesOf(v, r)| <= 1)
            && (forall r, q :: r != q ==> IssuesOf(v, r) !! IssuesOf(v, q))
            && (forall r :: uuid(r) in v.w.existing && uuid(r) !in y.w.existing ==> IssuesOf(v, r) == {uuid(r)})
    ensures var w := Exec(y, run, uuid).value.w;
            && |Admission.Unresolved(w)| <= 1 && |w.active| + |Admission.Unresolved(w)| <= bound
            && forall r :: uuid(r) in Admission.Unresolved(w) ==> w.inFlight[uuid(r)] == 1
  {
    RunProjects(y, run, uuid, bound);
    Admission.SafeInEveryRun(y.w, Admissions(y, run, uuid), bound);
    RunsKeepInv(y, run, uuid);
    RunsKeepBegun(y, run, uuid, bound);
    var v := Exec(y, run, uuid).value;
    forall r ensures IssuesOf(v, r) <= {uuid(r)} && |IssuesOf(v, r)| <= 1 {
      Admission.Smaller(IssuesOf(v, r), {uuid(r)});
    }
    forall r | uuid(r) in v.w.existing && uuid(r) !in y.w.existing ensures IssuesOf(v, r) == {uuid(r)} {
      assert Carried(v.w, y.w.existing, uuid(r));
    }
  }

  // ---- re-sending one input

  /** Every call the run starts on the task sends this input. */
  ghost predicate OnlyAsks(run: seq<Step>, task: TaskId, input: Input) {
    forall s :: s in run && s.Start? && s.task == task ==> s.input == input
  }

  /** Every call on the task has the task's current request, which is what the input asks. */
  ghost predicate OneRequest(y: System, task: TaskId, input: Input) {
    && (forall c :: c in y.calls && y.calls[c].task == task ==> y.calls[c].input == input)
    && (forall c :: c in y.calls && y.calls[c].task == task && y.calls[c].request.Some? ==>
          && task in y.current && SameAsked(y.current[task], input)
          && y.calls[c].request.value.id == y.current[task].id)
  }

  lemma StepKeepsOneRequest(y: System, s: Step, uuid: Derive, task: TaskId, input: Input)
    requires OneRequest(y, task, input) && Next(y, s, uuid).Some?
    requires s.Start? && s.task == task ==> s.input == input
    ensures OneRequest(Next(y, s, uuid).value, task, input)
  {
    if s.RecordRequest? {
      RecordKeepsOneRequest(y, s, uuid, task, input);
    } else {
      RestKeepsOneRequest(y, s, uuid, task, input);
    }
  }

  lemma RecordKeepsOneRequest(y: System, s: Step, uuid: Derive, task: TaskId, input: Input)
    requires OneRequest(y, task, input) && s.RecordRequest? && Next(y, s, uuid).Some?
    ensures OneRequest(Next(y, s, uuid).value, task, input)
  {}

  /** The other steps give no call a request and change none but to close it. */
  lemma RestKeepsOneRequest(y: System, s: Step, uuid: Derive, task: TaskId, input: Input)
    requires OneRequest(y, task, input) && !s.RecordRequest? && Next(y, s, uuid).Some?
    requires s.Start? && s.task == task ==> s.input == input
    ensures OneRequest(Next(y, s, uuid).value, task, input)
  {
    var v := Next(y, s, uuid).value;
    forall c | c in v.calls && v.calls[c].task == task
      ensures v.calls[c].input == input
      ensures v.calls[c].request.Some? ==>
                c in y.calls && y.calls[c].task == task && y.calls[c].request == v.calls[c].request
    {
      RestKeepsRequest(y, s, uuid, c);
    }
    if task in y.current { CurrentOnlyCloses(y, s, uuid, task); }
  }

  lemma RestKeepsRequest(y: System, s: Step, uuid: Derive, c: CallId)
    requires !s.RecordRequest? && Next(y, s, uuid).Some? && c in Next(y, s, uuid).value.calls
    ensures var call := Next(y, s, uuid).value.calls[c];
            if c in y.calls then
              call.task == y.calls[c].task && call.input == y.calls[c].input && call.request == y.calls[c].request
            else s == Start(c, call.task, call.input) && call.request.None?
  {}

  lemma CurrentOnlyCloses(y: System, s: Step, uuid: Derive, task: TaskId)
    requires !s.RecordRequest? && Next(y, s, uuid).Some? && task in y.current
    ensures var v := Next(y, s, uuid).value;
            task in v.current && v.current[task].(open := false) == y.current[task].(open := false)
  {}

  /** However often one input is sent for a task, and wherever the calls stop, they all work
      on one request: so the task gets at most one link and one issue from them. */
  lemma {:induction false} ResendsShareOneRequest(y: System, run: seq<Step>, uuid: Derive, task: TaskId, input: Input)
    requires Initial(y, uuid) && OnlyAsks(run, task, input) && Exec(y, run, uuid).Some?
    ensures OneRequest(Exec(y, run, uuid).value, task, input)
    decreases |run|
  {
    if run != [] {
      var init, s := run[..|run| - 1], run[|run| - 1];
      assert s in run && forall t :: t in init ==> t in run;
      ResendsShareOneRequest(y, init, uuid, task, input);
      StepKeepsOneRequest(Exec(y, init, uuid).value, s, uuid, task, input);
    }
  }
}
