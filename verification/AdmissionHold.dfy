/** linear_admission.go, checkCapacityHold: which counts lift a recorded capacity rejection, and
    what happens while none does. */
module AdmissionHold {
  import opened Common
  import opened Capacity
  import opened Admission

  /** As the attempt counts, more than its archive target is active, and its limit is not below
      the recorded one. */
  ghost predicate CountsAbove(v: World, limit: int) {
    |v.active| > v.a.policy.ArchiveLow() && v.a.policy.Limit() >= limit
  }

  /** So it is at every count of the run. */
  ghost predicate NeverRelieved(w: World, run: seq<Step>, limit: int) {
    forall k :: 0 <= k < |run| && run[k] == Count ==>
      Exec(w, run[..k]).Some? && CountsAbove(Exec(w, run[..k]).value, limit)
  }

  /** The hold is recorded, and no attempt has a count in hand that lifts it. */
  ghost predicate HeldUp(v: World, limit: int) {
    && v.hold == Some(limit) && Blocked(v.pc) && !v.pc.ClearingHold?
    && (v.pc.CheckingHold? ==> v.count > v.a.policy.ArchiveLow() && v.a.policy.Limit() >= limit)
  }

  /** While every count is above the archive target and no limit is below the recorded one, the
      hold stays and nothing is sent, whoever tries. */
  lemma {:induction false} HeldUntilRelieved(w: World, run: seq<Step>, bound: nat, limit: int)
    requires Inv(w, bound) && Admissible(run, bound) && Exec(w, run).Some?
    requires HeldUp(w, limit) && NeverRelieved(w, run, limit)
    ensures HeldUp(Exec(w, run).value, limit) && Send !in run
    decreases |run|
  {
    hide Inv, Next, CountsAbove, HeldUp;
    if run != [] {
      var init, s := run[..|run| - 1], run[|run| - 1];
      assert run == init + [s];
      ExecSnoc(w, init, s);
      AdmissiblePrefix(init, s, bound);
      assert forall k :: 0 <= k < |init| ==> init[..k] == run[..k] && init[k] == run[k];
      HeldUntilRelieved(w, init, bound, limit);
      RunsKeepInv(w, init, bound);
      assert run[..|init|] == init;
      var v := Exec(w, init).value;
      CountAboveLow(v, s, bound);
      HeldUpStep(v, s, limit);
    }
  }

  lemma CountAboveLow(v: World, s: Step, bound: nat)
    requires Inv(v, bound) && Next(v, s).Some?
    ensures s == Count ==> v.a.policy.ArchiveLow() < v.a.policy.CreateCeiling()
  {
    hide Inv;
    if s == Count { CeilingAboveLow(v, bound); }
  }

  lemma HeldUpStep(v: World, s: Step, limit: int)
    requires HeldUp(v, limit) && Next(v, s).Some?
    requires s == Count ==> CountsAbove(v, limit) && v.a.policy.ArchiveLow() < v.a.policy.CreateCeiling()
    ensures HeldUp(Next(v, s).value, limit) && s != Send
  {
    if OwnStep(s) { OwnHeldUpStep(v, s, limit); }
  }

  lemma CeilingAboveLow(v: World, bound: nat)
    requires Inv(v, bound) && !v.pc.Idle?
    ensures v.a.policy.ArchiveLow() < v.a.policy.CreateCeiling()
  {
    KnownFacts(v, bound);
    hide Inv;
  }

  lemma OwnHeldUpStep(v: World, s: Step, limit: int)
    requires OwnStep(s) && v.pc == StepPc(s) && Operate(v, s).Some? && HeldUp(v, limit)
    requires s == Count ==> CountsAbove(v, limit) && v.a.policy.ArchiveLow() < v.a.policy.CreateCeiling()
    ensures HeldUp(Operate(v, s).value, limit) && s != Send
  {}

  /** At the check itself: an attempt goes on to reserve, and the hold is gone, exactly when its
      count is at most its archive target, or under its ceiling with a limit below the recorded
      one; else it gives up and the hold stays. */
  lemma LiftedExactly(v: World, bound: nat)
    requires Inv(v, bound) && v.pc.CheckingHold? && v.hold.Some?
    ensures var p := v.a.policy;
            var lifts := v.count <= p.ArchiveLow() || (p.Limit() < v.hold.value && v.count < p.CreateCeiling());
            if lifts then Exec(v, [CheckHold, ClearHold, CheckCeiling]) == Some(v.(pc := Reserving, hold := None))
            else Next(v, CheckHold) == Some(v.(pc := Idle))
  {
    CeilingAboveLow(v, bound);
    hide Inv, Exec;
    AtCheck(v);
    ThreeSteps(v, CheckHold, ClearHold, CheckCeiling);
  }

  lemma AtCheck(v: World)
    requires v.pc.CheckingHold? && v.hold.Some? && v.a.policy.ArchiveLow() < v.a.policy.CreateCeiling()
    ensures var p := v.a.policy;
            var lifts := v.count <= p.ArchiveLow() || (p.Limit() < v.hold.value && v.count < p.CreateCeiling());
            var cleared := v.(pc := CheckingCeiling, hold := None);
            && Next(v, CheckHold) == Some(v.(pc := if lifts then ClearingHold else Idle))
            && Next(v.(pc := ClearingHold), ClearHold) == Some(cleared)
            && (lifts ==> Next(cleared, CheckCeiling) == Some(cleared.(pc := Reserving)))
  {}

  lemma ThreeSteps(v: World, s: Step, t: Step, r: Step)
    ensures Next(v, s).Some? && Next(Next(v, s).value, t).Some? ==>
              Exec(v, [s, t, r]) == Next(Next(Next(v, s).value, t).value, r)
  {
    hide Next;
    var run := [];
    assert Exec(v, run) == Some(v);
    ExecSnoc(v, run, s);
    ExecSnoc(v, run + [s], t);
    ExecSnoc(v, run + [s] + [t], r);
    assert run + [s] + [t] + [r] == [s, t, r];
  }
}
