/** cfaccess.go, keyFor and refresh, over every interleaving: which lookups are served, and how
    old the set can be that a refresh lets a lookup read. */
module KeyCacheAges {
  import opened Common
  import opened KeyCache
  import opened KeyCacheRuns

  // ---- what a lookup gets

  /** A lookup of a key in a set under a day old is served at once; of a key in an older set it
      waits for a refresh; of an unknown key it does so unless one was let through for an
      unknown key less than a minute before, and is refused then. */
  lemma LookedUpExactly(s: System, ttl: Tick, t: Tid, b: Tid)
    requires Inv(s) && Next(s, ttl, Enter(t, b)).Some? && s.threads[t].served.None?
    ensures var th, v := s.threads[t], Next(s, ttl, Enter(t, b)).value.threads[t];
            var known := s.c.keys.Some? && th.kid in s.c.keys.value;
            var recent := exists a :: a in s.admitted && th.now - a < MINUTE;
            && (v.served.Some? <==> known && th.now - s.c.fetchedAt < 24 * HOUR)
            && (v.served.Some? ==> v.served.value.key == s.c.keys.value[th.kid])
            && (v.pc.Waiting? <==> v.served.None? && (known || !recent))
            && (v.pc.Ended? && v.served.None? <==> !known && recent)
  {
    if s.admitted != [] {
      var last := |s.admitted| - 1;
      assert forall i :: 0 <= i < last ==> s.admitted[last] - s.admitted[i] >= UNKNOWN_KID_INTERVAL;
      assert s.admitted[last] in s.admitted;
    }
  }

  /** After its refresh a lookup gets the key of its id if the set it now finds has one. */
  lemma ReadExactly(s: System, ttl: Tick, t: Tid)
    requires Next(s, ttl, Read(t)).Some?
    ensures var th, v := s.threads[t], Next(s, ttl, Read(t)).value.threads[t];
            && v.pc.Ended?
            && (v.refreshed.Some? <==> s.c.keys.Some? && th.kid in s.c.keys.value)
            && (v.refreshed.Some? ==> v.refreshed.value == Served(s.c.keys.value[th.kid], s.clock, s.c.fetchedAt))
  {}

  // ---- a stale set is being refreshed

  ghost predicate UnderWay(s: System) {
    exists t :: t in s.threads && Active(s.threads[t])
  }

  lemma StepKeepsUnderWay(s: System, ttl: Tick, step: Step)
    requires Inv(s) && Next(s, ttl, step).Some? && (s.c.refreshing ==> UnderWay(s))
    ensures Next(s, ttl, step).value.c.refreshing ==> UnderWay(Next(s, ttl, step).value)
  {
    var v := Next(s, ttl, step).value;
    if s.c.refreshing && v.c.refreshing {
      var t :| t in s.threads && Active(s.threads[t]);
      assert ThreadInv(s, t, s.threads[t]);
      assert Active(v.threads[t]);
    } else if v.c.refreshing {
      assert Active(v.threads[step.background]);
    }
  }

  lemma {:induction false} RunsKeepUnderWay(ttl: Tick, run: seq<Step>)
    requires Exec(START, ttl, run).Some?
    ensures Exec(START, ttl, run).value.c.refreshing ==> UnderWay(Exec(START, ttl, run).value)
    decreases |run|
  {
    hide Next;
    if run != [] {
      var init := run[..|run| - 1];
      RunsKeepUnderWay(ttl, init);
      SafeInEveryRun(ttl, init);
      StepKeepsUnderWay(Exec(START, ttl, init).value, ttl, run[|run| - 1]);
    }
  }

  /** In every run, when a key is served from a set past its time to live, a background refresh
      is under way. */
  lemma StaleIsRefreshed(ttl: Tick, run: seq<Step>, t: Tid, b: Tid)
    requires Exec(START, ttl, run + [Enter(t, b)]).Some?
    ensures Exec(START, ttl, run).Some? && t in Exec(START, ttl, run).value.threads
    ensures var s, v := Exec(START, ttl, run).value, Exec(START, ttl, run + [Enter(t, b)]).value;
            v.threads[t].served != s.threads[t].served && s.threads[t].now - s.c.fetchedAt >= ttl ==> UnderWay(v)
  {
    assert (run + [Enter(t, b)])[..|run|] == run;
    RunsKeepUnderWay(ttl, run + [Enter(t, b)]);
  }

  // ---- the age of a set that is read after a refresh

  /** The set a lookup may read was young when its refresh checked, or was fetched since; for an
      unknown key it was fetched after the lookup arrived. */
  ghost predicate YoungFor(ttl: Tick, th: Thread, fetchedAt: Tick) {
    if th.unknown then th.now <= fetchedAt
    else th.checkedAt - fetchedAt < ttl && th.checkedAt - fetchedAt < 24 * HOUR
  }

  ghost predicate AgeInv(s: System, ttl: Tick, th: Thread) {
    && (!th.background ==> th.now <= s.clock)
    && (th.pc.Fetching? || th.pc.Reading? ==> th.checkedAt <= s.clock)
    && (th.unknown && th.observed < s.c.completedSequence ==> th.now <= s.c.fetchedAt)
    && (th.pc.Reading? ==> YoungFor(ttl, th, s.c.fetchedAt))
    && (th.unknown ==> !th.background)
    && (th.pc.Arrived? ==> !th.background && th.refreshed.None?)
    && (th.refreshed.Some? ==>
          th.pc.Ended? && th.checkedAt <= th.refreshed.value.at && YoungFor(ttl, th, th.refreshed.value.fetchedAt))
  }

  ghost predicate Ages(s: System, ttl: Tick) {
    s.c.fetchedAt <= s.clock && forall t :: t in s.threads ==> AgeInv(s, ttl, s.threads[t])
  }

  lemma StepKeepsAges(s: System, ttl: Tick, step: Step)
    requires 0 < ttl && Inv(s) && Ages(s, ttl) && Next(s, ttl, step).Some?
    ensures Ages(Next(s, ttl, step).value, ttl)
  {
    var v := Next(s, ttl, step).value;
    assert v.c.fetchedAt <= v.clock;
    forall t | t in v.threads ensures AgeInv(v, ttl, v.threads[t]) {
      if step.FetchSucceeds? { InstallAges(s, ttl, step, t); }
      else if step.Advance? || (t in s.threads && t != step.t) { OtherAges(s, ttl, step, t); }
      else { OwnAges(s, ttl, step, t); }
    }
  }

  lemma OtherAges(s: System, ttl: Tick, step: Step, t: Tid)
    requires 0 < ttl && Ages(s, ttl) && Next(s, ttl, step).Some? && !step.FetchSucceeds?
    requires t in Next(s, ttl, step).value.threads && (step.Advance? || (t in s.threads && t != step.t))
    ensures AgeInv(Next(s, ttl, step).value, ttl, Next(s, ttl, step).value.threads[t])
  {
    if t in s.threads { assert AgeInv(s, ttl, s.threads[t]); }
  }

  lemma InstallAges(s: System, ttl: Tick, step: Step, t: Tid)
    requires 0 < ttl && Inv(s) && Ages(s, ttl) && step.FetchSucceeds? && Next(s, ttl, step).Some? && t in s.threads
    ensures AgeInv(Next(s, ttl, step).value, ttl, Next(s, ttl, step).value.threads[t])
  {
    assert ThreadInv(s, t, s.threads[t]) && AgeInv(s, ttl, s.threads[t]);
    assert ThreadInv(s, step.t, s.threads[step.t]);
  }

  lemma OwnAges(s: System, ttl: Tick, step: Step, t: Tid)
    requires 0 < ttl && Inv(s) && Ages(s, ttl) && Next(s, ttl, step).Some?
    requires !step.Advance? && !step.FetchSucceeds? && (t !in s.threads || t == step.t)
    requires t in Next(s, ttl, step).value.threads
    ensures AgeInv(Next(s, ttl, step).value, ttl, Next(s, ttl, step).value.threads[t])
  {
    if t in s.threads { assert ThreadInv(s, t, s.threads[t]) && AgeInv(s, ttl, s.threads[t]); }
  }

  lemma {:induction false} RunsKeepAges(ttl: Tick, run: seq<Step>)
    requires 0 < ttl && Exec(START, ttl, run).Some?
    ensures Ages(Exec(START, ttl, run).value, ttl)
    decreases |run|
  {
    hide Next;
    if run != [] {
      var init := run[..|run| - 1];
      RunsKeepAges(ttl, init);
      SafeInEveryRun(ttl, init);
      StepKeepsAges(Exec(START, ttl, init).value, ttl, run[|run| - 1]);
    }
  }

  /** In every run, a key that a lookup reads after its refresh comes, for an unknown key id,
      from a set fetched after the lookup arrived; for a known one from a set that was within
      its time to live and under a day old when the refresh checked, or was fetched since. */
  lemma RefreshedIsYoung(ttl: Tick, run: seq<Step>, t: Tid)
    requires 0 < ttl && Exec(START, ttl, run).Some?
    requires t in Exec(START, ttl, run).value.threads && Exec(START, ttl, run).value.threads[t].refreshed.Some?
    ensures var th := Exec(START, ttl, run).value.threads[t]; var r := th.refreshed.value;
            && (th.unknown ==> th.now <= r.fetchedAt)
            && (!th.unknown ==> th.checkedAt - r.fetchedAt < ttl && th.checkedAt - r.fetchedAt < 24 * HOUR)
            && th.checkedAt <= r.at
  {
    RunsKeepAges(ttl, run);
    assert AgeInv(Exec(START, ttl, run).value, ttl, Exec(START, ttl, run).value.threads[t]);
  }
}
