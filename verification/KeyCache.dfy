/** cfaccess.go: the signing-key cache of the Access verifier. The class holds the fields and
    its methods are the critical sections under its mutex; KeyCacheRuns interleaves them. */
module KeyCache {
  import opened Common

  type Kid = nat
  type Key = nat

  const MAX_KEY_AGE: Tick := 24 * HOUR
  const UNKNOWN_KID_INTERVAL: Tick := MINUTE

  /** keys is None until a fetch succeeds; fetches are numbered by fetchSequence, and the keys
      are those of fetch completedSequence. */
  datatype Cache = Cache(
    keys: Option<map<Kid, Key>>,
    fetchedAt: Tick,
    lastUnknown: Option<Tick>,
    refreshing: bool,
    fetchSequence: nat,
    completedSequence: nat)

  datatype Decision =
    | Serve(key: Key, startBackground: bool)
    | Refuse
    | Refresh(observed: nat, unknown: bool)

  function Find(c: Cache, kid: Kid): Option<Key> {
    if c.keys.Some? && kid in c.keys.value then Some(c.keys.value[kid]) else None
  }

  predicate IsFresh(c: Cache, ttl: Tick, now: Tick) {
    c.keys.Some? && now - c.fetchedAt < ttl && now - c.fetchedAt < MAX_KEY_AGE
  }

  /** What a lookup that read the clock at now decides under the mutex. */
  function Look(c: Cache, ttl: Tick, kid: Kid, now: Tick): (Cache, Decision) {
    var key := Find(c, kid);
    if key.Some? && now - c.fetchedAt < MAX_KEY_AGE then
      var start := !IsFresh(c, ttl, now) && !c.refreshing;
      (if start then c.(refreshing := true) else c, Serve(key.value, start))
    else if key.None? then
      if c.lastUnknown.None? || now - c.lastUnknown.value >= UNKNOWN_KID_INTERVAL then
        (c.(lastUnknown := Some(now)), Refresh(c.fetchSequence, true))
      else (c, Refuse)
    else (c, Refresh(c.fetchSequence, false))
  }

  /** Whether the holder of the refresh lock must fetch, and as which number. */
  function Check(c: Cache, ttl: Tick, now: Tick, observed: nat, unknown: bool): (Cache, Option<nat>) {
    if (unknown && c.completedSequence > observed) || (!unknown && IsFresh(c, ttl, now)) then (c, None)
    else (c.(fetchSequence := c.fetchSequence + 1), Some(c.fetchSequence + 1))
  }

  function Install(c: Cache, keys: map<Kid, Key>, now: Tick, sequence: nat): Cache {
    c.(keys := Some(keys), fetchedAt := now, completedSequence := sequence)
  }

  class Verifier {
    const ttl: Tick
    var keys: Option<map<Kid, Key>>
    var fetchedAt: Tick
    var lastUnknownKidRefresh: Option<Tick>
    var refreshing: bool
    var fetchSequence: nat
    var completedSequence: nat

    ghost function State(): Cache
      reads this
    {
      Cache(keys, fetchedAt, lastUnknownKidRefresh, refreshing, fetchSequence, completedSequence)
    }

    constructor (cacheTtl: Tick)
      ensures State() == Cache(None, 0, None, false, 0, 0)
      ensures ttl == if cacheTtl <= 0 then 10 * MINUTE else cacheTtl
    {
      ttl := if cacheTtl <= 0 then 10 * MINUTE else cacheTtl;
      keys, fetchedAt, lastUnknownKidRefresh := None, 0, None;
      refreshing, fetchSequence, completedSequence := false, 0, 0;
    }

    /** The first critical section of keyFor. */
    method LookUp(kid: Kid, now: Tick) returns (d: Decision)
      modifies this
      ensures (State(), d) == Look(old(State()), ttl, kid, now)
      // a key served without a refresh is less than a day old on the lookup's clock
      ensures d.Serve? ==> old(Find(State(), kid)) == Some(d.key) && now - old(fetchedAt) < MAX_KEY_AGE
      ensures d.Serve? && d.startBackground ==> !old(refreshing) && refreshing
    {
      var key: Option<Key> := if keys.Some? && kid in keys.value then Some(keys.value[kid]) else None;
      var sequence := fetchSequence;
      var age := now - fetchedAt;
      var isFresh := keys.Some? && age < ttl && age < MAX_KEY_AGE;
      if key.Some? && age < MAX_KEY_AGE {
        var start := !isFresh && !refreshing;
        if start { refreshing := true; }
        return Serve(key.value, start);
      }
      var refreshUnknown := key.None? &&
        (lastUnknownKidRefresh.None? || now - lastUnknownKidRefresh.value >= UNKNOWN_KID_INTERVAL);
      if refreshUnknown { lastUnknownKidRefresh := Some(now); }
      if key.None? && !refreshUnknown { return Refuse; }
      return Refresh(sequence, key.None?);
    }

    /** The critical section that opens refresh, under the refresh lock. */
    method BeginRefresh(now: Tick, observed: nat, unknown: bool) returns (sequence: Option<nat>)
      modifies this`fetchSequence
      ensures (State(), sequence) == Check(old(State()), ttl, now, observed, unknown)
      // there is no fetch exactly when, for an unknown key id, the installed keys come from one
      // begun after the lookup, and for a known one they are under a day old and within their time
      ensures unknown ==> (sequence.None? <==> completedSequence > observed)
      ensures !unknown ==> (sequence.None? <==> keys.Some? && now - fetchedAt < ttl && now - fetchedAt < 24 * HOUR)
      ensures sequence.Some? ==> sequence.value == old(fetchSequence) + 1 == fetchSequence
    {
      var age := now - fetchedAt;
      var isFresh := keys.Some? && age < ttl && age < MAX_KEY_AGE;
      if (unknown && completedSequence > observed) || (!unknown && isFresh) { return None; }
      fetchSequence := fetchSequence + 1;
      return Some(fetchSequence);
    }

    method InstallKeys(fetched: map<Kid, Key>, now: Tick, sequence: nat)
      modifies this`keys, this`fetchedAt, this`completedSequence
      ensures State() == Install(old(State()), fetched, now, sequence)
    {
      keys := Some(fetched);
      fetchedAt := now;
      completedSequence := sequence;
    }

    method EndBackground()
      modifies this`refreshing
      ensures State() == old(State()).(refreshing := false)
    {
      refreshing := false;
    }
  }
}

/** Every interleaving of lookups, refreshes and background refreshes. */
module KeyCacheRuns {
  import opened Common
  import opened KeyCache

  type Tid = nat

  datatype Pc = Arrived | Waiting | Holding | Fetching | Reading | Closing | Ended

  /** A key that is served: when, and when its set was fetched. */
  datatype Served = Served(key: Key, at: Tick, fetchedAt: Tick)

  /** now is the clock a lookup read on arrival; observed the fetchSequence it then saw; served
      what it got without a refresh; checkedAt the clock its refresh read, and refreshed what it
      got after one. */
  datatype Thread = Thread(pc: Pc, kid: Kid, now: Tick, observed: nat, unknown: bool, background: bool, sequence: nat,
                           served: Option<Served>, checkedAt: Tick, refreshed: Option<Served>)

  /** lock is the holder of refreshMu; admitted the clock readings of the lookups that were let
      through to refresh for an unknown kid, in that order. */
  datatype System = System(c: Cache, clock: Tick, lock: Option<Tid>, threads: map<Tid, Thread>, admitted: seq<Tick>)

  datatype Step =
    | Advance(d: nat)
    | Arrive(t: Tid, kid: Kid)
    | Enter(t: Tid, background: Tid)
    | Acquire(t: Tid)
    | Open(t: Tid)
    | FetchFails(t: Tid)
    | FetchSucceeds(t: Tid, keys: map<Kid, Key>)
    | Read(t: Tid)
    | Close(t: Tid)

  function Set(s: System, t: Tid, th: Thread): System {
    s.(threads := s.threads[t := th])
  }

  /** Where a thread goes when refresh returns: a lookup reads its key again, a background
      refresh clears its flag. An error ends a lookup. */
  function AfterRefresh(th: Thread, ok: bool): Thread {
    th.(pc := if th.background then Closing else if ok then Reading else Ended)
  }

  function Next(s: System, ttl: Tick, step: Step): Option<System> {
    match step
    case Advance(d) => Some(s.(clock := s.clock + d))
    case Arrive(t, kid) =>
      if t in s.threads then None
      else Some(Set(s, t, Thread(Arrived, kid, s.clock, 0, false, false, 0, None, 0, None)))
    case _ => if step.t in s.threads then Work(s, ttl, step, s.threads[step.t]) else None
  }

  function Work(s: System, ttl: Tick, step: Step, th: Thread): Option<System> {
    match step
    case Enter(t, b) =>
      if th.pc != Arrived then None
      else
        var (c, d) := Look(s.c, ttl, th.kid, th.now);
        match d {
          case Serve(key, start) =>
            var served := Set(s.(c := c), t, th.(pc := Ended, served := Some(Served(key, s.clock, s.c.fetchedAt))));
            if !start then Some(served)
            else if b in s.threads then None
            else Some(Set(served, b, Thread(Waiting, 0, s.clock, 0, false, true, 0, None, 0, None)))
          case Refuse => Some(Set(s.(c := c), t, th.(pc := Ended)))
          case Refresh(observed, unknown) =>
            Some(Set(s.(c := c, admitted := if unknown then s.admitted + [th.now] else s.admitted), t,
                     th.(pc := Waiting, observed := observed, unknown := unknown)))
        }
    case Acquire(t) =>
      if th.pc != Waiting || s.lock.Some? then None else Some(Set(s.(lock := Some(t)), t, th.(pc := Holding)))
    case Open(t) =>
      if th.pc != Holding then None
      else
        var (c, sequence) := Check(s.c, ttl, s.clock, th.observed, th.unknown);
        if sequence.None? then Some(Set(s.(c := c, lock := None), t, AfterRefresh(th.(checkedAt := s.clock), true)))
        else Some(Set(s.(c := c), t, th.(pc := Fetching, sequence := sequence.value, checkedAt := s.clock)))
    case FetchFails(t) =>
      if th.pc != Fetching then None else Some(Set(s.(lock := None), t, AfterRefresh(th, false)))
    case FetchSucceeds(t, keys) =>
      if th.pc != Fetching || keys == map[] then None
      else Some(Set(s.(c := Install(s.c, keys, s.clock, th.sequence), lock := None), t, AfterRefresh(th, true)))
    case Read(t) =>
      if th.pc != Reading then None
      else
        var key := Find(s.c, th.kid);
        var refreshed := if key.Some? then Some(Served(key.value, s.clock, s.c.fetchedAt)) else None;
        Some(Set(s, t, th.(pc := Ended, refreshed := refreshed)))
    case Close(t) =>
      if th.pc != Closing then None
      else Some(Set(s.(c := s.c.(refreshing := false)), t, th.(pc := Ended)))
    case _ => None
  }

  // ---- the invariant

  ghost predicate ThreadInv(s: System, t: Tid, th: Thread) {
    && (th.pc.Holding? || th.pc.Fetching? <==> s.lock == Some(t))
    && th.observed <= s.c.fetchSequence
    && (th.pc.Fetching? ==> s.c.completedSequence < th.sequence == s.c.fetchSequence && th.observed < th.sequence)
    // a refresh for an unknown kid succeeds on keys fetched after the lookup
    && (th.pc.Reading? && th.unknown ==> th.observed < s.c.completedSequence)
    && (Active(th) ==> s.c.refreshing && !th.pc.Arrived? && !th.pc.Reading?)
    && (th.pc.Closing? ==> th.background)
    && (th.pc.Arrived? ==> !th.unknown)
  }

  ghost predicate Inv(s: System) {
    && s.c.completedSequence <= s.c.fetchSequence
    && (s.lock.Some? ==> s.lock.value in s.threads)
    && (forall t :: t in s.threads ==> ThreadInv(s, t, s.threads[t]))
    && OneActive(s)
    && SpacedOut(s.admitted)
    && s.c.lastUnknown == (if s.admitted == [] then None else Some(s.admitted[|s.admitted| - 1]))
  }

  /** A background refresh that has not ended. */
  ghost predicate Active(th: Thread) {
    th.background && !th.pc.Ended?
  }

  ghost predicate OneActive(s: System) {
    forall t, u :: t in s.threads && u in s.threads && Active(s.threads[t]) && Active(s.threads[u]) ==> t == u
  }

  ghost predicate SpacedOut(times: seq<Tick>) {
    forall i, j :: 0 <= i < j < |times| ==> times[j] - times[i] >= UNKNOWN_KID_INTERVAL
  }

  lemma StepKeepsInv(s: System, ttl: Tick, step: Step)
    requires Inv(s) && Next(s, ttl, step).Some?
    ensures Inv(Next(s, ttl, step).value) && Onward(s.c, Next(s, ttl, step).value.c)
  {
    match step
    case Advance(_) =>
    case Arrive(t, _) =>
    case Enter(t, _) =>
      match Look(s.c, ttl, s.threads[t].kid, s.threads[t].now).1 {
        case Serve(_, start) => if start { StartKeepsInv(s, ttl, step); } else { RestKeepInv(s, ttl, step); }
        case Refuse => RestKeepInv(s, ttl, step);
        case Refresh(_, unknown) => AdmitKeepsInv(s, ttl, step);
      }
    case Close(t) => CloseKeepsInv(s, ttl, step);
    case _ => RestKeepInv(s, ttl, step);
  }

  /** The two fetch counters never go back. */
  ghost predicate Onward(c: Cache, d: Cache) {
    c.completedSequence <= d.completedSequence && c.fetchSequence <= d.fetchSequence
  }

  ghost predicate Starts(s: System, ttl: Tick, step: Step) {
    && step.Enter? && step.t in s.threads
    && var d := Look(s.c, ttl, s.threads[step.t].kid, s.threads[step.t].now).1; d.Serve? && d.startBackground
  }

  ghost predicate Admits(s: System, ttl: Tick, step: Step) {
    && step.Enter? && step.t in s.threads
    && Look(s.c, ttl, s.threads[step.t].kid, s.threads[step.t].now).1.Refresh?
  }

  lemma StartKeepsInv(s: System, ttl: Tick, step: Step)
    requires Inv(s) && Next(s, ttl, step).Some? && Starts(s, ttl, step)
    ensures Inv(Next(s, ttl, step).value) && Onward(s.c, Next(s, ttl, step).value.c)
  {
    forall u | u in s.threads ensures !Active(s.threads[u]) { assert ThreadInv(s, u, s.threads[u]); }
  }

  lemma AdmitKeepsInv(s: System, ttl: Tick, step: Step)
    requires Inv(s) && Next(s, ttl, step).Some? && Admits(s, ttl, step)
    ensures Inv(Next(s, ttl, step).value) && Onward(s.c, Next(s, ttl, step).value.c)
  {
    var th := s.threads[step.t];
    assert ThreadInv(s, step.t, th);
    if Look(s.c, ttl, th.kid, th.now).1.unknown { SpacedAppend(s.admitted, th.now); }
  }

  lemma SpacedAppend(times: seq<Tick>, now: Tick)
    requires SpacedOut(times)
    requires times != [] ==> now - times[|times| - 1] >= UNKNOWN_KID_INTERVAL
    ensures SpacedOut(times + [now])
  {}

  lemma CloseKeepsInv(s: System, ttl: Tick, step: Step)
    requires Inv(s) && step.Close? && Next(s, ttl, step).Some?
    ensures Inv(Next(s, ttl, step).value) && Onward(s.c, Next(s, ttl, step).value.c)
  {
    var s' := Next(s, ttl, step).value;
    assert ThreadInv(s, step.t, s.threads[step.t]) && Active(s.threads[step.t]);
    forall u | u in s'.threads ensures ThreadInv(s', u, s'.threads[u]) {
      assert ThreadInv(s, u, s.threads[u]);
    }
  }

  /** The remaining steps start and end no background refresh and admit nobody. */
  lemma RestKeepInv(s: System, ttl: Tick, step: Step)
    requires Inv(s) && Next(s, ttl, step).Some?
    requires !step.Advance? && !step.Arrive? && !step.Close? && !Starts(s, ttl, step) && !Admits(s, ttl, step)
    ensures Inv(Next(s, ttl, step).value) && Onward(s.c, Next(s, ttl, step).value.c)
  {
    var s', t := Next(s, ttl, step).value, step.t;
    assert ThreadInv(s, t, s.threads[t]);
    if step.Enter? { TurnedAway(s, ttl, step); }
    else if step.Acquire? { AcquireKeepsInv(s, ttl, step); }
    else if step.Open? { OpenKeepsInv(s, ttl, step); }
    else { ReturnKeepsInv(s, ttl, step); }
  }

  lemma TurnedAway(s: System, ttl: Tick, step: Step)
    requires Inv(s) && step.Enter? && Next(s, ttl, step).Some? && !Starts(s, ttl, step) && !Admits(s, ttl, step)
    ensures Inv(Next(s, ttl, step).value) && Onward(s.c, Next(s, ttl, step).value.c)
  {
    var s', th := Next(s, ttl, step).value, s.threads[step.t];
    assert ThreadInv(s, step.t, th);
    assert s'.threads == s.threads[step.t := s'.threads[step.t]];
    assert s'.threads[step.t].(served := th.served) == th.(pc := Ended);
  }

  lemma AcquireKeepsInv(s: System, ttl: Tick, step: Step)
    requires Inv(s) && step.Acquire? && Next(s, ttl, step).Some?
    ensures Inv(Next(s, ttl, step).value) && Onward(s.c, Next(s, ttl, step).value.c)
  {
    hide SpacedOut;
    assert ThreadInv(s, step.t, s.threads[step.t]);
  }

  lemma OpenKeepsInv(s: System, ttl: Tick, step: Step)
    requires Inv(s) && step.Open? && Next(s, ttl, step).Some?
    ensures Inv(Next(s, ttl, step).value) && Onward(s.c, Next(s, ttl, step).value.c)
  {
    hide SpacedOut;
    assert ThreadInv(s, step.t, s.threads[step.t]);
  }

  lemma ReturnKeepsInv(s: System, ttl: Tick, step: Step)
    requires Inv(s) && (step.FetchFails? || step.FetchSucceeds? || step.Read?) && Next(s, ttl, step).Some?
    ensures Inv(Next(s, ttl, step).value) && Onward(s.c, Next(s, ttl, step).value.c)
  {
    if step.FetchSucceeds? { InstallKeepsInv(s, ttl, step); } else { NothingInstalledKeepsInv(s, ttl, step); }
  }

  lemma InstallKeepsInv(s: System, ttl: Tick, step: Step)
    requires Inv(s) && step.FetchSucceeds? && Next(s, ttl, step).Some?
    ensures Inv(Next(s, ttl, step).value) && Onward(s.c, Next(s, ttl, step).value.c)
  {
    hide SpacedOut;
    assert ThreadInv(s, step.t, s.threads[step.t]);
  }

  lemma NothingInstalledKeepsInv(s: System, ttl: Tick, step: Step)
    requires Inv(s) && (step.FetchFails? || step.Read?) && Next(s, ttl, step).Some?
    ensures Inv(Next(s, ttl, step).value) && Onward(s.c, Next(s, ttl, step).value.c)
  {
    hide SpacedOut;
    assert ThreadInv(s, step.t, s.threads[step.t]);
  }

  // ---- runs

  function Exec(s: System, ttl: Tick, run: seq<Step>): Option<System>
    decreases |run|
  {
    if run == [] then Some(s)
    else
      var before := Exec(s, ttl, run[..|run| - 1]);
      if before.None? then None else Next(before.value, ttl, run[|run| - 1])
  }

  const START := System(Cache(None, 0, None, false, 0, 0), 0, None, map[], [])

  /** In every interleaving: the installed keys are those of a fetch that began, fetches
      complete in the order they began, one background refresh runs at a time, unknown key ids
      are let through at least a minute apart, and a key served without a refresh is under a
      day old plus the lookup's wait. */
  lemma {:induction false} SafeInEveryRun(ttl: Tick, run: seq<Step>)
    requires Exec(START, ttl, run).Some?
    ensures var s := Exec(START, ttl, run).value;
            && s.c.completedSequence <= s.c.fetchSequence
            && OneActive(s)
            && SpacedOut(s.admitted)
            && (forall t :: t in s.threads && s.threads[t].served.Some? ==>
                  Age(s.threads[t]) < MAX_KEY_AGE + Waited(s.threads[t]))
    ensures Inv(Exec(START, ttl, run).value)
    decreases |run|
  {
    if run != [] {
      SafeInEveryRun(ttl, run[..|run| - 1]);
      StepKeepsInv(Exec(START, ttl, run[..|run| - 1]).value, ttl, run[|run| - 1]);
    }
    forall t | t in Exec(START, ttl, run).value.threads && Exec(START, ttl, run).value.threads[t].served.Some?
      ensures var th := Exec(START, ttl, run).value.threads[t]; Age(th) < MAX_KEY_AGE + Waited(th)
    {
      ServedWithinWait(ttl, run, t);
    }
  }

  /** The state after the first k steps. */
  ghost function After(ttl: Tick, run: seq<Step>, k: nat): System
    requires k <= |run| && Exec(START, ttl, run).Some?
    decreases |run| - k
  {
    PrefixRuns(ttl, run, k);
    Exec(START, ttl, run[..k]).value
  }

  lemma {:induction false} PrefixRuns(ttl: Tick, run: seq<Step>, k: nat)
    requires k <= |run| && Exec(START, ttl, run).Some?
    ensures Exec(START, ttl, run[..k]).Some?
    decreases |run|
  {
    if k == |run| {
      assert run[..k] == run;
    } else {
      PrefixRuns(ttl, run[..|run| - 1], k);
      assert run[..|run| - 1][..k] == run[..k];
    }
  }

  /** The lookup has found its key id unknown, and read fetchSequence. */
  ghost predicate LookedUnknown(s: System, t: Tid) {
    t in s.threads && s.threads[t].unknown && !s.threads[t].background && s.threads[t].pc != Arrived
  }

  /** A lookup reads fetchSequence once, so a larger value was reached only after it did. */
  lemma {:induction false} EnteredBefore(ttl: Tick, run: seq<Step>, t: Tid, k: nat)
    requires Exec(START, ttl, run).Some? && k <= |run|
    requires LookedUnknown(Exec(START, ttl, run).value, t)
    requires After(ttl, run, k).c.fetchSequence > Exec(START, ttl, run).value.threads[t].observed
    ensures LookedUnknown(After(ttl, run, k), t)
    ensures After(ttl, run, k).threads[t].observed == Exec(START, ttl, run).value.threads[t].observed
    decreases |run|
  {
    if k == |run| {
      assert run[..k] == run;
    } else {
      var init, step := run[..|run| - 1], run[|run| - 1];
      assert init[..k] == run[..k];
      var u, v := Exec(START, ttl, init).value, Exec(START, ttl, run).value;
      FetchesOnward(ttl, init, k);
      SafeInEveryRun(ttl, init);
      EnteredOnce(u, ttl, step, t);
      EnteredBefore(ttl, init, t, k);
    }
  }

  /** A step leaves a lookup's reading alone, or is the step that takes it. */
  lemma EnteredOnce(u: System, ttl: Tick, step: Step, t: Tid)
    requires Inv(u) && Next(u, ttl, step).Some?
    requires LookedUnknown(Next(u, ttl, step).value, t)
    ensures var v := Next(u, ttl, step).value;
            (LookedUnknown(u, t) && u.threads[t].observed == v.threads[t].observed)
            || v.threads[t].observed == u.c.fetchSequence
  {
    if t in u.threads { assert ThreadInv(u, t, u.threads[t]); }
  }

  lemma {:induction false} FetchesOnward(ttl: Tick, run: seq<Step>, k: nat)
    requires Exec(START, ttl, run).Some? && k <= |run|
    ensures After(ttl, run, k).c.fetchSequence <= Exec(START, ttl, run).value.c.fetchSequence
    decreases |run|
  {
    if k == |run| {
      assert run[..k] == run;
    } else {
      var init := run[..|run| - 1];
      assert init[..k] == run[..k];
      FetchesOnward(ttl, init, k);
      SafeInEveryRun(ttl, init);
      StepKeepsInv(Exec(START, ttl, init).value, ttl, run[|run| - 1]);
    }
  }

  /** Step k opens fetch m: fetchSequence goes from m - 1 to m there. */
  ghost predicate Begins(ttl: Tick, run: seq<Step>, k: nat, m: nat)
    requires Exec(START, ttl, run).Some?
  {
    k < |run| && run[k].Open? && After(ttl, run, k).c.fetchSequence + 1 == m == After(ttl, run, k + 1).c.fetchSequence
  }

  lemma {:induction false} EveryFetchBegan(ttl: Tick, run: seq<Step>, m: nat)
    requires Exec(START, ttl, run).Some? && 0 < m <= Exec(START, ttl, run).value.c.fetchSequence
    ensures exists k: nat :: Begins(ttl, run, k, m)
    decreases |run|
  {
    assert run != [];
    var init, step := run[..|run| - 1], run[|run| - 1];
    var u := Exec(START, ttl, init).value;
    if m <= u.c.fetchSequence {
      EveryFetchBegan(ttl, init, m);
      var k: nat :| Begins(ttl, init, k, m);
      assert init[..k] == run[..k] && init[..k + 1] == run[..k + 1];
      assert Begins(ttl, run, k, m);
    } else {
      FetchesOneByOne(u, ttl, step);
      assert run[..|run|] == run;
      assert Begins(ttl, run, |run| - 1, m);
    }
  }

  lemma FetchesOneByOne(u: System, ttl: Tick, step: Step)
    requires Next(u, ttl, step).Some?
    ensures Next(u, ttl, step).value.c.fetchSequence
         <= (if step.Open? then u.c.fetchSequence + 1 else u.c.fetchSequence)
  {}

  /** When refresh has returned success to a lookup of an unknown key id, the installed keys
      come from a fetch that began after that lookup. */
  lemma RefreshedAfterLookup(ttl: Tick, run: seq<Step>, t: Tid)
    requires Exec(START, ttl, run).Some?
    requires var s := Exec(START, ttl, run).value;
             t in s.threads && s.threads[t].pc.Reading? && s.threads[t].unknown
    ensures exists k: nat ::
              && Begins(ttl, run, k, Exec(START, ttl, run).value.c.completedSequence)
              && LookedUnknown(After(ttl, run, k), t)
  {
    var s := Exec(START, ttl, run).value;
    SafeInEveryRun(ttl, run);
    assert ThreadInv(s, t, s.threads[t]);
    var m := s.c.completedSequence;
    EveryFetchBegan(ttl, run, m);
    var k: nat :| Begins(ttl, run, k, m);
    EnteredBefore(ttl, run, t, k + 1);
    BegunAfterLookup(ttl, run, t, k);
  }

  /** Opening a fetch is not the lookup's own reading. */
  lemma BegunAfterLookup(ttl: Tick, run: seq<Step>, t: Tid, k: nat)
    requires Exec(START, ttl, run).Some? && k < |run| && run[k].Open?
    requires LookedUnknown(After(ttl, run, k + 1), t)
    ensures LookedUnknown(After(ttl, run, k), t)
  {
    var u := After(ttl, run, k);
    var through := run[..k + 1];
    assert through[..|through| - 1] == run[..k] && through[|through| - 1] == run[k];
    PrefixRuns(ttl, run, k + 1);
    assert Next(u, ttl, run[k]) == Some(After(ttl, run, k + 1));
    OpenReadsNothing(u, ttl, run[k], t);
  }

  lemma OpenReadsNothing(u: System, ttl: Tick, step: Step, t: Tid)
    requires step.Open? && Next(u, ttl, step).Some? && LookedUnknown(Next(u, ttl, step).value, t)
    ensures LookedUnknown(u, t)
  {}

  // ---- the age of a key served without a refresh

  /** The guard compares ages on the clock the lookup read before it waited for the mutex. */
  ghost predicate ServedInv(clock: Tick, th: Thread) {
    && (!th.background ==> th.now <= clock) && (th.pc.Arrived? ==> !th.background)
    && (th.served.Some? ==>
          && !th.background && th.now <= th.served.value.at <= clock
          && th.now - th.served.value.fetchedAt < MAX_KEY_AGE)
  }

  lemma StepKeepsServed(s: System, ttl: Tick, step: Step)
    requires Next(s, ttl, step).Some? && forall t :: t in s.threads ==> ServedInv(s.clock, s.threads[t])
    ensures var v := Next(s, ttl, step).value; forall t :: t in v.threads ==> ServedInv(v.clock, v.threads[t])
  {
    var v := Next(s, ttl, step).value;
    forall t | t in v.threads ensures ServedInv(v.clock, v.threads[t]) {
      if t in s.threads { assert ServedInv(s.clock, s.threads[t]); }
      if !step.Advance? && step.t in s.threads { assert ServedInv(s.clock, s.threads[step.t]); }
    }
  }

  lemma {:induction false} RunsKeepServed(ttl: Tick, run: seq<Step>)
    requires Exec(START, ttl, run).Some?
    ensures var v := Exec(START, ttl, run).value; forall t :: t in v.threads ==> ServedInv(v.clock, v.threads[t])
    decreases |run|
  {
    if run != [] {
      RunsKeepServed(ttl, run[..|run| - 1]);
      StepKeepsServed(Exec(START, ttl, run[..|run| - 1]).value, ttl, run[|run| - 1]);
    }
  }

  /** How long a lookup waited between reading the clock and being served, and how old the
      set was at that moment. */
  function Waited(th: Thread): Tick
    requires th.served.Some?
  {
    th.served.value.at - th.now
  }

  function Age(th: Thread): Tick
    requires th.served.Some?
  {
    th.served.value.at - th.served.value.fetchedAt
  }

  /** In every run a set that is served is less than a day old plus the lookup's wait. */
  lemma ServedWithinWait(ttl: Tick, run: seq<Step>, t: Tid)
    requires Exec(START, ttl, run).Some? && t in Exec(START, ttl, run).value.threads
    requires Exec(START, ttl, run).value.threads[t].served.Some?
    ensures var th := Exec(START, ttl, run).value.threads[t]; 0 <= Waited(th) && Age(th) < MAX_KEY_AGE + Waited(th)
  {
    RunsKeepServed(ttl, run);
    assert ServedInv(Exec(START, ttl, run).value.clock, Exec(START, ttl, run).value.threads[t]);
  }

  /** Over every run, a lookup that waits at most wait is served a set younger than bound. */
  ghost predicate YoungerThan(ttl: Tick, wait: nat, bound: Tick) {
    forall run, t :: ServedAfter(ttl, run, t, wait) ==> Age(Exec(START, ttl, run).value.threads[t]) < bound
  }

  ghost predicate ServedAfter(ttl: Tick, run: seq<Step>, t: Tid, wait: nat) {
    && Exec(START, ttl, run).Some? && t in Exec(START, ttl, run).value.threads
    && Exec(START, ttl, run).value.threads[t].served.Some?
    && Waited(Exec(START, ttl, run).value.threads[t]) <= wait
  }

  /** The exact bound: a day plus the wait. So a key is under a day old in every run exactly
      when lookups are served in the instant they read the clock. */
  lemma AgeExactly(ttl: Tick, wait: nat, bound: Tick)
    ensures YoungerThan(ttl, wait, bound) <==> MAX_KEY_AGE + wait <= bound
  {
    forall run, t | ServedAfter(ttl, run, t, wait) && MAX_KEY_AGE + wait <= bound
      ensures Age(Exec(START, ttl, run).value.threads[t]) < bound
    {
      ServedWithinWait(ttl, run, t);
    }
    StaleKeyServed(ttl, wait);
  }

  /** A set fetched at 0; a lookup that reads the clock a tick before the set is a day old, and
      is served after its wait. */
  function StaleRun(wait: nat): seq<Step> {
    FETCHED + [Advance(MAX_KEY_AGE - 1), Arrive(1, 0), Advance(wait), Enter(1, 2)]
  }

  const FETCHED: seq<Step> := [Arrive(0, 0), Enter(0, 1), Acquire(0), Open(0), FetchSucceeds(0, map[0 := 7])]

  lemma StaleKeyServed(ttl: Tick, wait: nat)
    ensures ServedAfter(ttl, StaleRun(wait), 1, wait)
    ensures var th := Exec(START, ttl, StaleRun(wait)).value.threads[1];
            Waited(th) == wait && Age(th) == MAX_KEY_AGE - 1 + wait
  {
    hide Exec;
    var s := FetchedState(ttl);
    var u := s.(clock := MAX_KEY_AGE - 1);
    var arrived := Thread(Arrived, 0, MAX_KEY_AGE - 1, 0, false, false, 0, None, 0, None);
    var v := Set(u, 1, arrived);
    var w := v.(clock := MAX_KEY_AGE - 1 + wait);
    ExecOne(ttl, FETCHED, s, Advance(MAX_KEY_AGE - 1), u);
    ExecOne(ttl, FETCHED + [Advance(MAX_KEY_AGE - 1)], u, Arrive(1, 0), v);
    ExecOne(ttl, FETCHED + [Advance(MAX_KEY_AGE - 1)] + [Arrive(1, 0)], v, Advance(wait), w);
    var last := Next(w, ttl, Enter(1, 2)).value;
    ExecOne(ttl, FETCHED + [Advance(MAX_KEY_AGE - 1)] + [Arrive(1, 0)] + [Advance(wait)], w, Enter(1, 2), last);
    assert FETCHED + [Advance(MAX_KEY_AGE - 1)] + [Arrive(1, 0)] + [Advance(wait)] + [Enter(1, 2)] == StaleRun(wait);
  }

  lemma ExecOne(ttl: Tick, run: seq<Step>, s: System, step: Step, v: System)
    requires Exec(START, ttl, run) == Some(s) && Next(s, ttl, step) == Some(v)
    ensures Exec(START, ttl, run + [step]) == Some(v)
  {
    assert (run + [step])[..|run|] == run;
  }

  /** One lookup of an unknown key id has fetched the set at 0 and waits to read it. */
  lemma FetchedState(ttl: Tick) returns (s: System)
    ensures Exec(START, ttl, FETCHED) == Some(s)
    ensures s.clock == 0 && s.threads.Keys == {0}
    ensures s.c.keys == Some(map[0 := 7]) && s.c.fetchedAt == 0 && !s.c.refreshing
  {
    var th := Thread(Arrived, 0, 0, 0, false, false, 0, None, 0, None);
    var s1 := Set(START, 0, th);
    assert Exec(START, ttl, []) == Some(START);
    ExecOne(ttl, [], START, Arrive(0, 0), s1);
    var s2 := Set(s1.(c := s1.c.(lastUnknown := Some(0)), admitted := [0]), 0, th.(pc := Waiting, unknown := true));
    assert s1.admitted + [0] == [0];
    ExecOne(ttl, [] + [Arrive(0, 0)], s1, Enter(0, 1), s2);
    var s3 := Set(s2.(lock := Some(0)), 0, s2.threads[0].(pc := Holding));
    ExecOne(ttl, [] + [Arrive(0, 0)] + [Enter(0, 1)], s2, Acquire(0), s3);
    var s4 := Set(s3.(c := s3.c.(fetchSequence := 1)), 0, s3.threads[0].(pc := Fetching, sequence := 1));
    ExecOne(ttl, [] + [Arrive(0, 0)] + [Enter(0, 1)] + [Acquire(0)], s3, Open(0), s4);
    s := Next(s4, ttl, FetchSucceeds(0, map[0 := 7])).value;
    ExecOne(ttl, [] + [Arrive(0, 0)] + [Enter(0, 1)] + [Acquire(0)] + [Open(0)], s4, FetchSucceeds(0, map[0 := 7]), s);
    assert [] + [Arrive(0, 0)] + [Enter(0, 1)] + [Acquire(0)] + [Open(0)] + [FetchSucceeds(0, map[0 := 7])] == FETCHED;
  }

  // ---- what the other critical sections give a lookup

  /** Keys just installed are what a lookup gets, with no refresh started, until they age. */
  lemma InstalledIsServed(c: Cache, ttl: Tick, keys: map<Kid, Key>, at: Tick, sequence: nat, kid: Kid, now: Tick)
    requires now - at < ttl && now - at < MAX_KEY_AGE
    ensures var installed := Install(c, keys, at, sequence);
            if kid in keys then Look(installed, ttl, kid, now) == (installed, Serve(keys[kid], false))
            else !Look(installed, ttl, kid, now).1.Serve?
  {}

  /** A background refresh is started by the first lookup of a set past its time to live, and
      again only after the one under way has ended. */
  lemma OneStartUntilEnded(c: Cache, ttl: Tick, kid: Kid, now: Tick, other: Kid, later: Tick)
    requires Look(c, ttl, kid, now).1.Serve? && Look(c, ttl, kid, now).1.startBackground
    requires now <= later && later - c.fetchedAt < MAX_KEY_AGE && Find(c, other).Some?
    ensures var d := Look(c, ttl, kid, now).0;
            && Look(d, ttl, other, later).1 == Serve(Find(c, other).value, false)
            && Look(d.(refreshing := false), ttl, other, later).1 == Serve(Find(c, other).value, true)
  {}
}
