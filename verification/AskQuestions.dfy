/** store/decision_request.go, RecordDecisionRequest, over runs of asks: request ids are never
    used again, so a link answers the question it was made for. */
module AskQuestions {
  import opened Common
  import Admission
  import opened Ask

  predicate SameQuestion(a: Request, b: Request) { a.content == b.content && a.supersedes == b.supersedes }

  /** The id is at most the current one of its task. */
  ghost predicate Recorded(y: System, id: RequestId) {
    id.task in y.current && id.revision <= y.current[id.task].id.revision
  }

  /** Links and attempts are of requests recorded earlier. */
  ghost predicate Numbered(y: System) {
    && (forall t :: t in y.current ==> y.current[t].id.task == t)
    && (forall id :: id in y.links ==> Recorded(y, id))
    && (forall b :: b in y.begun ==> Recorded(y, b.0))
  }

  /** A call works on a request recorded for its task, which asks what the call asks. */
  ghost predicate CallAsks(y: System, call: Call) {
    call.request.Some? ==>
      var r := call.request.value;
      && r.id.task == call.task && Recorded(y, r.id)
      && r.content == call.input.content
      && (call.input.supersedes.Some? ==> call.input.supersedes == r.supersedes)
      && (r.id == y.current[call.task].id ==> SameQuestion(r, y.current[call.task]))
  }

  predicate SameId(a: Call, b: Call) {
    a.request.Some? && b.request.Some? && a.request.value.id == b.request.value.id
  }

  /** Requests with one id are one question. */
  ghost predicate OneQuestion(y: System) {
    forall c, d :: c in y.calls && d in y.calls && SameId(y.calls[c], y.calls[d]) ==>
      SameQuestion(y.calls[c].request.value, y.calls[d].request.value)
  }

  ghost predicate QuestionsInv(y: System) {
    Numbered(y) && (forall c :: c in y.calls ==> CallAsks(y, y.calls[c])) && OneQuestion(y)
  }

  /** The step records a request that is not the task's current one. */
  ghost predicate RecordsNew(y: System, s: Step, uuid: Derive) {
    && s.RecordRequest? && s.c in y.calls && Next(y, s, uuid).Some?
    && var v := Next(y, s, uuid).value; var task := y.calls[s.c].task;
       task in v.current && (task !in y.current || v.current[task] != y.current[task])
  }

  /** A newly recorded request has a revision above every one recorded for its task: no call
      has its id, no link carries it, and no create was begun for it. */
  lemma NewQuestionNewId(y: System, s: Step, uuid: Derive)
    requires QuestionsInv(y) && RecordsNew(y, s, uuid)
    ensures var r := Next(y, s, uuid).value.current[y.calls[s.c].task];
            && r.id.task == y.calls[s.c].task && r.content == y.calls[s.c].input.content && r.open
            && (forall c :: c in y.calls && y.calls[c].request.Some? && y.calls[c].task == r.id.task ==>
                  y.calls[c].request.value.id.revision < r.id.revision)
            && (forall id :: id in y.links && id.task == r.id.task ==> id.revision < r.id.revision)
            && (forall b :: b in y.begun && b.0.task == r.id.task ==> b.0.revision < r.id.revision)
  {
    var call := y.calls[s.c];
    assert call.pc == Recording;
    assert !Resent(Current(y, call.task), call.input);
    forall c | c in y.calls && y.calls[c].request.Some? && y.calls[c].task == call.task
      ensures Recorded(y, y.calls[c].request.value.id)
    {
      assert CallAsks(y, y.calls[c]);
    }
  }

  lemma StepKeepsQuestions(y: System, s: Step, uuid: Derive)
    requires Inv(y, uuid) && QuestionsInv(y) && Next(y, s, uuid).Some?
    ensures QuestionsInv(Next(y, s, uuid).value)
  {
    if s.RecordRequest? { RecordKeepsQuestions(y, s, uuid); } else { RestKeepQuestions(y, s, uuid); }
  }

  /** What recording does: the call gets the current request, which is the old one or new. */
  lemma RecordStep(y: System, s: Step, uuid: Derive)
    requires s.RecordRequest? && Next(y, s, uuid).Some?
    ensures s.c in y.calls
    ensures var v, call := Next(y, s, uuid).value, y.calls[s.c];
            && v.links == y.links && v.begun == y.begun && v.calls.Keys == y.calls.Keys
            && (forall c :: c in y.calls && c != s.c ==> v.calls[c] == y.calls[c])
            && v.calls[s.c].task == call.task && v.calls[s.c].input == call.input
            && (if v.calls[s.c].pc == Failed then v.current == y.current && v.calls[s.c].request == call.request
                else
                  && v.calls[s.c].request.Some? && v.current == y.current[call.task := v.calls[s.c].request.value]
                  && Record(call.task, Current(y, call.task), s.terminal, call.input) == Ok(v.calls[s.c].request.value))
  {}

  lemma RecordKeepsQuestions(y: System, s: Step, uuid: Derive)
    requires QuestionsInv(y) && s.RecordRequest? && Next(y, s, uuid).Some?
    ensures QuestionsInv(Next(y, s, uuid).value)
  {
    hide Next, Record;
    RecordStep(y, s, uuid);
    var v := Next(y, s, uuid).value;
    forall c | c in y.calls ensures CallAsks(v, v.calls[c]) { assert CallAsks(y, y.calls[c]); }
    forall c | c in y.calls && y.calls[c].request.Some? ensures CallAsks(y, y.calls[c]) {}
  }

  /** The other steps record nothing: a request in a call, a link or an attempt was there
      before, and a current one at most closes. */
  lemma RestStep(y: System, s: Step, uuid: Derive)
    requires !s.RecordRequest? && Next(y, s, uuid).Some?
    ensures var v := Next(y, s, uuid).value;
            && v.current.Keys == y.current.Keys
            && (forall t :: t in y.current ==> v.current[t].(open := false) == y.current[t].(open := false))
            && (forall c :: c in v.calls && v.calls[c].request.Some? ==>
                  c in y.calls && v.calls[c].request == y.calls[c].request && v.calls[c].task == y.calls[c].task
                  && v.calls[c].input == y.calls[c].input)
  {}

  lemma RestMakes(y: System, s: Step, uuid: Derive)
    requires !s.RecordRequest? && Next(y, s, uuid).Some?
    ensures var v := Next(y, s, uuid).value;
            && (forall id :: id in v.links && id !in y.links ==> OfACall(y, id))
            && (forall b :: b in v.begun && b !in y.begun ==> OfACall(y, b.0))
  {}

  ghost predicate OfACall(y: System, id: RequestId) {
    exists c :: c in y.calls && y.calls[c].request.Some? && y.calls[c].request.value.id == id
  }

  lemma RestKeepQuestions(y: System, s: Step, uuid: Derive)
    requires QuestionsInv(y) && !s.RecordRequest? && Next(y, s, uuid).Some?
    ensures QuestionsInv(Next(y, s, uuid).value)
  {
    hide Next;
    RestKeepNumbered(y, s, uuid);
    RestKeepCalls(y, s, uuid);
  }

  lemma RestKeepNumbered(y: System, s: Step, uuid: Derive)
    requires QuestionsInv(y) && !s.RecordRequest? && Next(y, s, uuid).Some?
    ensures Numbered(Next(y, s, uuid).value)
  {
    RestStep(y, s, uuid);
    RestMakes(y, s, uuid);
    hide Next;
    forall c | c in y.calls ensures CallAsks(y, y.calls[c]) {}
    hide OneQuestion, SameQuestion;
    var v := Next(y, s, uuid).value;
    forall id | Recorded(y, id) ensures Recorded(v, id) {}
  }

  lemma RestKeepCalls(y: System, s: Step, uuid: Derive)
    requires QuestionsInv(y) && !s.RecordRequest? && Next(y, s, uuid).Some?
    ensures var v := Next(y, s, uuid).value; OneQuestion(v) && forall c :: c in v.calls ==> CallAsks(v, v.calls[c])
  {
    RestStep(y, s, uuid);
    hide Next, Numbered;
    var v := Next(y, s, uuid).value;
    forall c | c in v.calls ensures CallAsks(v, v.calls[c]) {
      if v.calls[c].request.Some? { assert CallAsks(y, y.calls[c]); }
    }
  }

  lemma {:induction false} RunsKeepQuestions(y: System, run: seq<Step>, uuid: Derive)
    requires Initial(y, uuid) && Numbered(y) && Exec(y, run, uuid).Some?
    ensures QuestionsInv(Exec(y, run, uuid).value)
    decreases |run|
  {
    hide Next;
    if run != [] {
      var init := run[..|run| - 1];
      RunsKeepQuestions(y, init, uuid);
      RunsKeepInv(y, init, uuid);
      StepKeepsQuestions(Exec(y, init, uuid).value, run[|run| - 1], uuid);
    }
  }

  /** In every run two calls that work on one request ask the same, each what its input asks; so
      a call that is answered with a link gets that of a request for its own question. */
  lemma AnswersItsQuestion(y: System, run: seq<Step>, uuid: Derive, c: CallId, d: CallId)
    requires Initial(y, uuid) && Numbered(y) && Exec(y, run, uuid).Some?
    requires var v := Exec(y, run, uuid).value;
             c in v.calls && d in v.calls && v.calls[c].request.Some? && v.calls[d].request.Some?
    ensures var v := Exec(y, run, uuid).value; var q, r := v.calls[c].request.value, v.calls[d].request.value;
            && (q.id == r.id ==> v.calls[c].input.content == v.calls[d].input.content && q.supersedes == r.supersedes)
            && (v.calls[c].link.Some? && v.calls[d].link.Some? && v.calls[c].link == v.calls[d].link ==>
                  v.calls[c].input.content == v.calls[d].input.content)
  {
    RunsKeepQuestions(y, run, uuid);
    RunsKeepInv(y, run, uuid);
    var v := Exec(y, run, uuid).value;
    assert CallAsks(v, v.calls[c]) && CallAsks(v, v.calls[d]);
    assert CallInv(v, c, v.calls[c], uuid) && CallInv(v, d, v.calls[d], uuid);
  }

  /** In every run a request that is newly recorded has an id nobody had before. */
  lemma NeverUsedAgain(y: System, run: seq<Step>, s: Step, uuid: Derive)
    requires Initial(y, uuid) && Numbered(y) && Exec(y, run, uuid).Some?
    requires RecordsNew(Exec(y, run, uuid).value, s, uuid)
    ensures var v := Exec(y, run, uuid).value; var id := Next(v, s, uuid).value.current[v.calls[s.c].task].id;
            id !in v.links && !OfACall(v, id) && forall b :: b in v.begun ==> b.0 != id
  {
    RunsKeepQuestions(y, run, uuid);
    var v := Exec(y, run, uuid).value;
    NewQuestionNewId(v, s, uuid);
    forall c | c in v.calls && v.calls[c].request.Some? ensures CallAsks(v, v.calls[c]) {}
  }

  // ---- a closed request stays closed

  /** The operator's answer closes the task's request, and no step opens it again. */
  lemma ClosedStays(y: System, s: Step, uuid: Derive, task: TaskId)
    requires task in y.current && Next(y, s, uuid).Some?
    ensures var v := Next(y, s, uuid).value;
            && task in v.current
            && (s == Resolve(task) ==> !v.current[task].open && v.current[task].id == y.current[task].id)
            && (!y.current[task].open && v.current[task].id == y.current[task].id ==> !v.current[task].open)
  {
    if s.RecordRequest? { RecordStep(y, s, uuid); } else { RestStep(y, s, uuid); }
  }

  // ---- an issue that exists is found again

  /** The call is past recording and not at the gate, and its request is open. */
  predicate Asking(call: Call) {
    && call.request.Some? && call.request.value.open && call.link.None?
    && (call.pc.Looking? || call.pc.Creating? || call.pc.ReadingBack? || call.pc.Storing?)
  }

  /** The steps left to such a call when it gets no turn at the gate. */
  function StepsLeft(y: System, c: CallId, call: Call): seq<Step>
    requires call.request.Some?
  {
    match call.pc
    case Looking =>
      if call.request.value.id in y.links then [LookUp(c)] else [LookUp(c), NotAdmitted(c), ReadBack(c), Store(c)]
    case Creating => [NotAdmitted(c), ReadBack(c), Store(c)]
    case ReadingBack => [ReadBack(c), Store(c)]
    case _ => [Store(c)]
  }

  /** Whatever was lost before, an asking call whose derived issue exists comes to be answered
      with the request's link, without another create. */
  lemma {:induction false} FindsItsIssue(y: System, c: CallId, uuid: Derive)
    requires Inv(y, uuid) && c in y.calls && Asking(y.calls[c]) && uuid(y.calls[c].request.value.id) in y.w.existing
    ensures var v := Follow(y, StepsLeft(y, c, y.calls[c]), uuid); var id := y.calls[c].request.value.id;
            && v.Some? && v.value.w == y.w && c in v.value.calls && v.value.calls[c].pc == Answered
            && id in v.value.links && v.value.calls[c].link == Some(v.value.links[id])
            && v.value.links[id] == Link(id, uuid(id))
    decreases |StepsLeft(y, c, y.calls[c])|
  {
    assert CallInv(y, c, y.calls[c], uuid);
    var steps := StepsLeft(y, c, y.calls[c]);
    var v := Next(y, steps[0], uuid).value;
    if |steps| > 1 {
      StepKeepsInv(y, steps[0], uuid);
      assert steps[1..] == StepsLeft(v, c, v.calls[c]);
      FindsItsIssue(v, c, uuid);
    } else {
      StepKeepsInv(y, steps[0], uuid);
      assert steps[1..] == [];
    }
  }

  /** The state after the steps, taken from the front. */
  function Follow(y: System, steps: seq<Step>, uuid: Derive): Option<System>
    decreases |steps|
  {
    if |steps| == 0 then Some(y)
    else if Next(y, steps[0], uuid).None? then None
    else Follow(Next(y, steps[0], uuid).value, steps[1..], uuid)
  }

  /** A call whose attempt ends on its issue goes on to store the link. */
  lemma GateAnswers(y: System, c: CallId, uuid: Derive)
    requires Inv(y, uuid) && y.gate == Some(c) && y.w.pc.Finishing?
    ensures c in y.calls && Next(y, Gate(Admission.Finish), uuid).Some?
    ensures Next(y, Gate(Admission.Finish), uuid).value.calls[c].pc
         == (if uuid(y.calls[c].request.value.id) in y.w.existing then Storing else ReadingBack)
  {
    assert CallInv(y, c, y.calls[c], uuid);
  }

  // ---- a create only while its request is open

  /** Past the task check, up to the send. */
  predicate PastCheck(p: Admission.Pc) {
    p.Counting? || Admission.HasCount(p) || p.Reserving? || p.Sending?
  }

  /** At step k the gate checked the task for call c, whose request was current and open. */
  ghost predicate CheckedOpen(y: System, run: seq<Step>, uuid: Derive, k: int, c: CallId) {
    && 0 <= k < |run| && run[k] == Gate(Admission.CheckTask(true)) && Exec(y, run[..k], uuid).Some?
    && var u := Exec(y, run[..k], uuid).value;
       && u.gate == Some(c) && c in u.calls && u.calls[c].request.Some?
       && u.calls[c].task in u.current
       && u.current[u.calls[c].task].open && u.current[u.calls[c].task].id == u.calls[c].request.value.id
  }

  /** A call's attempt gets past the task check only by one made while its request was the
      task's current one and open; so nothing is sent for a request closed before it. */
  lemma {:induction false} SentWhileOpen(y: System, run: seq<Step>, uuid: Derive, c: CallId)
    requires Initial(y, uuid) && Exec(y, run, uuid).Some?
    requires var v := Exec(y, run, uuid).value; v.gate == Some(c) && PastCheck(v.w.pc)
    ensures exists k :: CheckedOpen(y, run, uuid, k, c)
    decreases |run|
  {
    hide Next;
    assert |run| > 0;
    var init, s := run[..|run| - 1], run[|run| - 1];
    var u := Exec(y, init, uuid).value;
    RunsKeepInv(y, init, uuid);
    PastCheckBefore(u, s, uuid, c);
    if u.gate == Some(c) && PastCheck(u.w.pc) {
      SentWhileOpen(y, init, uuid, c);
      var k :| CheckedOpen(y, init, uuid, k, c);
      assert init[..k] == run[..k];
      assert CheckedOpen(y, run, uuid, k, c);
    } else {
      assert CheckedOpen(y, run, uuid, |init|, c);
    }
  }

  lemma PastCheckBefore(u: System, s: Step, uuid: Derive, c: CallId)
    requires Inv(u, uuid) && Next(u, s, uuid).Some?
    requires Next(u, s, uuid).value.gate == Some(c) && PastCheck(Next(u, s, uuid).value.w.pc)
    ensures u.gate == Some(c)
    ensures !PastCheck(u.w.pc) ==>
              && s == Gate(Admission.CheckTask(true)) && c in u.calls && u.calls[c].request.Some?
              && u.calls[c].task in u.current
              && u.current[u.calls[c].task].open && u.current[u.calls[c].task].id == u.calls[c].request.value.id
  {
    if u.gate == Some(c) { assert CallInv(u, c, u.calls[c], uuid); }
    if s.Gate? { GateToPast(u.w, s.s); }
  }

  /** Only an eligible task check leads past it. */
  lemma GateToPast(w: Admission.World, r: Admission.Step)
    requires Admission.Next(w, r).Some? && PastCheck(Admission.Next(w, r).value.pc)
    ensures PastCheck(w.pc) || r == Admission.CheckTask(true)
  {
    if Admission.OwnStep(r) { OwnToPast(w, r); }
  }

  lemma OwnToPast(w: Admission.World, r: Admission.Step)
    requires Admission.OwnStep(r) && w.pc == Admission.StepPc(r) && Admission.Operate(w, r).Some?
    requires PastCheck(Admission.Operate(w, r).value.pc)
    ensures PastCheck(w.pc) || r == Admission.CheckTask(true)
  {}
}
