/** linear_decisions.go, Ask, in its own form: one call, operation by operation, while other
    calls, the operator and Linear go on. Its effects are a run of the step machine. */
module AskDesk {
  import opened Common
  import opened Capacity
  import Admission
  import opened Ask

  class Desk {
    var y: System
    ghost var run: seq<Step>
    ghost var setbacks: nat   // operations that failed, a refused request, an issue that was not made
    ghost const start: System
    const uuid: Derive

    ghost predicate Valid()
      reads this
    {
      Initial(start, uuid) && Exec(start, run, uuid) == Some(y)
    }

    constructor (initial: System, derive: Derive)
      requires Initial(initial, derive)
      ensures Valid() && y == start == initial && run == [] && setbacks == 0 && uuid == derive
    {
      y, start, run, setbacks, uuid := initial, initial, [], 0, derive;
    }

    method Take(s: Step)
      requires Valid() && Next(y, s, uuid).Some?
      modifies this
      ensures Valid() && y == Next(old(y), s, uuid).value && run == old(run) + [s] && setbacks == old(setbacks)
    {
      assert (run + [s])[..|run|] == run;
      y, run := Next(y, s, uuid).value, run + [s];
    }

    lemma Sound()
      requires Valid()
      ensures Inv(y, uuid)
    {
      RunsKeepInv(start, run, uuid);
    }

    /** Everybody else takes any steps of their own. */
    method Elsewhere(c: CallId)
      requires Valid() && c in y.calls && y.calls[c].pc != Admitting
      modifies this
      ensures Valid() && old(run) <= run && c in y.calls && y.calls[c] == old(y.calls[c])
      ensures setbacks == old(setbacks)
    {
      var steps: seq<Step> := *;
      for i := 0 to |steps|
        invariant Valid() && old(run) <= run && c in y.calls && y.calls[c] == old(y.calls[c])
        invariant setbacks == old(setbacks)
      {
        if NotOf(steps[i], c) && Next(y, steps[i], uuid).Some? {
          Sound();
          OthersLeaveOutside(y, steps[i], uuid, c);
          Take(steps[i]);
        }
      }
    }

    /** An operation of call c is tried; it may fail, and the call ends with an error. */
    method Fails(c: CallId) returns (failed: bool)
      requires Valid() && c in y.calls && y.calls[c].pc != Answered && y.calls[c].pc != Admitting
      modifies this
      ensures Valid() && old(run) <= run && c in y.calls
      ensures !failed ==> y.calls[c] == old(y.calls[c])
      ensures setbacks == old(setbacks) + (if failed then 1 else 0)
    {
      Elsewhere(c);
      failed := *;
      if failed {
        Take(Stop(c));
        setbacks := setbacks + 1;
      }
    }

    /** Err when the call fails anywhere; else the link, None when the request was closed
        before it ever had one. */
    method AskOperator(c: CallId, task: TaskId, input: Input) returns (r: Result<Option<Link>, string>)
      requires Valid() && c !in y.calls
      modifies this
      ensures Valid() && old(run) <= run
      ensures r.Ok? ==> c in y.calls && y.calls[c].pc == Answered && y.calls[c].link == r.value
      ensures r.Err? ==> setbacks > old(setbacks)
    {
      hide Exec, Record;
      Take(Start(c, task, input));
      var failed := Records(c);
      if failed { return Err("refused"); }
      failed := Fails(c);
      if failed { return Err("store"); }
      Take(LookUp(c));
      if y.calls[c].pc == Answered { return Ok(y.calls[c].link); }
      r := CreateAndStore(c);
    }

    /** The request is recorded, unless the store fails or refuses it. */
    method Records(c: CallId) returns (failed: bool)
      requires Valid() && c in y.calls && y.calls[c].pc == Recording
      modifies this
      ensures Valid() && old(run) <= run && c in y.calls
      ensures !failed ==> y.calls[c].pc == Looking && y.calls[c].request.Some?
      ensures setbacks == old(setbacks) + (if failed then 1 else 0)
    {
      failed := Fails(c);
      if failed { return; }
      var terminal := *;
      Take(RecordRequest(c, terminal));
      failed := y.calls[c].pc == Failed;
      if failed { setbacks := setbacks + 1; }
    }

    method CreateAndStore(c: CallId) returns (r: Result<Option<Link>, string>)
      requires Valid() && c in y.calls && y.calls[c].pc == Creating && y.calls[c].request.Some?
      modifies this
      ensures Valid() && old(run) <= run
      ensures r.Ok? ==> c in y.calls && y.calls[c].pc == Answered && y.calls[c].link == r.value
      // a success comes of the call's own attempt, or of reading the issue back
      ensures r.Ok? ==> Created(run[|old(run)|..], c)
      ensures r.Err? ==> setbacks > old(setbacks)
    {
      var failed := Fails(c);
      if failed { return Err("linear"); }
      ghost var n := |run|;
      CreateIssue(c);
      if y.calls[c].pc == Failed { return Err("linear"); }
      if y.calls[c].pc == ReadingBack {
        // the create may have reached Linear and lost its response; only a read can tell
        failed := Fails(c);
        if failed { return Err("linear"); }
        n := |run|;
        Take(ReadBack(c));
        if y.calls[c].pc == Failed {
          setbacks := setbacks + 1;
          return Err("linear");
        }
      }
      assert exists k :: |old(run)| <= k < |run| && (run[k] == ReadBack(c) || (run[k].BeginCreate? && run[k].c == c));
      failed := Fails(c);
      if failed { return Err("store"); }
      Take(Store(c));
      return Ok(y.calls[c].link);
    }

    /** The create goes through the admission: the call's attempt takes the gate if it can,
        and runs to its end while everybody else goes on. */
    method CreateIssue(c: CallId)
      requires Valid() && c in y.calls && y.calls[c].pc == Creating && y.calls[c].request.Some?
      modifies this
      ensures Valid() && old(run) <= run && c in y.calls && y.calls[c].request == old(y.calls[c].request)
      ensures y.calls[c].pc == Storing || y.calls[c].pc == ReadingBack || y.calls[c].pc == Failed
      ensures setbacks == old(setbacks) + (if y.calls[c].pc == Failed then 1 else 0)
      ensures y.calls[c].pc == Storing ==> exists k :: |old(run)| <= k < |run| && run[k].BeginCreate? && run[k].c == c
    {
      var available, policy: Policy := *, *;
      if !available || !y.w.pc.Idle? {
        Take(NotAdmitted(c));
        return;
      }
      ghost var k := |run|;
      Take(BeginCreate(c, policy));
      assert run[k] == BeginCreate(c, policy);
      RunAttempt(c);
      assert run[k] == BeginCreate(c, policy);
    }

    method RunAttempt(c: CallId)
      requires Valid() && c in y.calls && y.calls[c].pc == Admitting && y.gate == Some(c)
      modifies this
      ensures Valid() && old(run) <= run && c in y.calls && y.calls[c].request == old(y.calls[c].request)
      ensures y.calls[c].pc in {Storing, ReadingBack, Failed}
      ensures setbacks == old(setbacks) + (if y.calls[c].pc == Failed then 1 else 0)
    {
      var steps: seq<Step> := *;
      for i := 0 to |steps|
        invariant Valid() && old(run) <= run && c in y.calls && y.calls[c].request == old(y.calls[c].request)
        invariant y.calls[c].pc in {Admitting, Storing, ReadingBack, Failed}
        invariant y.calls[c].pc == Admitting ==> y.gate == Some(c)
        invariant setbacks == old(setbacks)
      {
        if y.calls[c].pc == Admitting && (steps[i] == Stop(c) || NotOf(steps[i], c)) && Next(y, steps[i], uuid).Some? {
          Sound();
          AttemptGoesOn(y, steps[i], uuid, c);
          Take(steps[i]);
        }
      }
      if y.calls[c].pc == Admitting { Take(Gate(Admission.Stop)); }
      if y.calls[c].pc == Failed { setbacks := setbacks + 1; }
    }
  }

  /** The steps tried to create the issue, or read it back. */
  ghost predicate Created(steps: seq<Step>, c: CallId) {
    exists k :: 0 <= k < |steps| && (steps[k] == ReadBack(c) || (steps[k].BeginCreate? && steps[k].c == c))
  }

  /** An attempt at the gate ends with an answer for its call, or goes on. */
  lemma AttemptGoesOn(y: System, s: Step, uuid: Derive, c: CallId)
    requires Inv(y, uuid) && c in y.calls && y.calls[c].pc == Admitting && Next(y, s, uuid).Some?
    requires s == Stop(c) || NotOf(s, c)
    ensures var v := Next(y, s, uuid).value;
            && c in v.calls && v.calls[c].request == y.calls[c].request
            && v.calls[c].pc in {Admitting, Storing, ReadingBack, Failed}
            && (v.calls[c].pc == Admitting ==> v.gate == Some(c))
  {
    assert CallInv(y, c, y.calls[c], uuid);
  }

  /** A call that is not at the gate moves by its own steps only. */
  lemma OthersLeaveOutside(y: System, s: Step, uuid: Derive, c: CallId)
    requires Inv(y, uuid) && c in y.calls && y.calls[c].pc != Admitting && Next(y, s, uuid).Some? && NotOf(s, c)
    ensures c in Next(y, s, uuid).value.calls && Next(y, s, uuid).value.calls[c] == y.calls[c]
  {
    assert CallInv(y, c, y.calls[c], uuid);
    OthersLeaveCall(y, s, uuid, c);
  }

  /** A call that succeeds on a request open when it was recorded returns the stored link,
      which names the issue derived from the request. */
  lemma SuccessCarriesLink(d: Desk, c: CallId)
    requires d.Valid() && Injective(d.uuid) && c in d.y.calls && d.y.calls[c].pc == Answered
    ensures d.y.calls[c].request.Some? && AnswerIsRight(d.y, d.y.calls[c], d.uuid)
  {
    AskIsSafe(d.start, d.run, d.uuid);
  }
}
