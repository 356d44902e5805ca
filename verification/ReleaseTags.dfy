/** scripts/auto-tag.py: one patch tag per commit, reserved by atomic creation of the remote
    ref, with workflow runs racing, pushes that land late or never, and reports that may lie. */
module ReleaseTags {
  import opened Common

  datatype Version = Version(major: nat, minor: nat, patch: nat)

  /** A tag name as the two regular expressions of the script sort it: vX.Y.Z without leading
      zeros, another spelling of vX.Y.Z, or anything else. */
  datatype Tag = Strict(v: Version) | Padded(v: Version, spelling: nat) | Other(name: nat)

  type Commit = nat
  type RunId = nat

  const ZERO := Version(0, 0, 0)

  predicate Less(a: Version, b: Version) {
    a.major < b.major
    || (a.major == b.major && (a.minor < b.minor || (a.minor == b.minor && a.patch < b.patch)))
  }

  function Successor(v: Version): Version { v.(patch := v.patch + 1) }

  /** max(versions, default=(0, 0, 0)) over the strictly spelled tags. */
  function Latest(tags: seq<Tag>): (v: Version)
    ensures forall t :: t in tags && t.Strict? ==> !Less(v, t.v)
    ensures v == ZERO || Strict(v) in tags
  {
    if tags == [] then ZERO
    else
      var rest, t := Latest(tags[1..]), tags[0];
      if t.Strict? && Less(rest, t.v) then t.v else rest
  }

  function NextTag(tags: seq<Tag>): (t: Tag)
    ensures t.Strict? && t !in tags
    ensures forall u :: u in tags && u.Strict? ==> Less(u.v, t.v)
    ensures var v := Latest(tags); t == Strict(Version(v.major, v.minor, v.patch + 1))
  {
    var v := Latest(tags);
    Strict(Successor(v))
  }

  /** A tag that counts as the commit's own release. */
  predicate Accepted(t: Tag) {
    (t.Strict? || t.Padded?) && t != Strict(ZERO)
  }

  // ---- the race

  datatype Pc = Fetching | Choosing | Pushing | Waiting | Done

  /** One workflow run: the tags it has locally, the tag it reserves or settled on. */
  datatype Run = Run(commit: Commit, pc: Pc, local: map<Tag, Commit>, tag: Tag)

  /** sent are the pushes that left a run; one may be lost, or reach the remote at any time,
      also when its run has gone on or stopped. created lists the tags made, oldest first. */
  datatype System = System(
    remote: map<Tag, Commit>,
    sent: set<(Tag, Commit)>,
    runs: map<RunId, Run>,
    created: seq<(Tag, Commit)>)

  datatype Step =
    | Start(r: RunId, commit: Commit)   // also beside another run for the commit
    | Fetch(r: RunId)
    | Choose(r: RunId, listing: seq<Tag>, found: Tag)
    | Push(r: RunId)
    | Report(r: RunId, done: bool)
    | Stop(r: RunId)
    | Land(tag: Tag, commit: Commit)    // the remote makes the ref of a push it received

  /** The commit's accepted tags among those listed. */
  function Existing(run: Run): set<Tag> {
    set t | t in run.local && Accepted(t) && run.local[t] == run.commit
  }

  function Next(s: System, step: Step): Option<System> {
    match step
    case Start(r, commit) =>
      if r in s.runs then None
      else Some(s.(runs := s.runs[r := Run(commit, Fetching, map[], Other(0))]))
    case Stop(r) => Some(s.(runs := s.runs - {r}))
    case Land(tag, commit) =>
      if (tag, commit) !in s.sent || tag in s.remote then None
      else Some(s.(remote := s.remote[tag := commit], created := s.created + [(tag, commit)]))
    case _ =>
      if step.r !in s.runs || s.runs[step.r].pc != StepPc(step) then None
      else
        var was := s.runs[step.r];
        var now := OfRun(s, step, was);
        if now.None? then None
        else Some(s.(runs := s.runs[step.r := now.value], sent := s.sent + Requests(step, was)))
  }

  function Requests(step: Step, run: Run): set<(Tag, Commit)> {
    if step.Push? then {(run.tag, run.commit)} else {}
  }

  function StepPc(step: Step): Pc {
    match step
    case Fetch(_) => Fetching
    case Choose(_, _, _) => Choosing
    case Push(_) => Pushing
    case Report(_, _) => Waiting
    case _ => Done
  }

  function OfRun(s: System, step: Step, run: Run): Option<Run> {
    match step
    case Fetch(_) => Some(run.(pc := Choosing, local := s.remote))
    case Choose(_, listing, found) =>
      if (set t | t in listing) != run.local.Keys then None
      else if Existing(run) == {} then Some(run.(pc := Pushing, tag := NextTag(listing)))
      else if found in Existing(run) && (forall t :: t in Existing(run) ==> !Less(found.v, t.v)) then
        Some(run.(pc := Done, tag := found))
      else None
    case Push(_) => Some(run.(pc := Waiting))
    case Report(_, done) =>
      // a push is not reported as done unless the remote has the tag at this commit; but one
      // that made it may be reported as failed
      if !done then Some(run.(pc := Fetching))
      else if run.tag in s.remote && s.remote[run.tag] == run.commit then Some(run.(pc := Done))
      else None
    case _ => None
  }

  // ---- the invariant

  /** v is the latest strictly spelled version of the map, (0, 0, 0) without one. */
  ghost predicate Top(m: map<Tag, Commit>, v: Version) {
    (v == ZERO || Strict(v) in m) && forall t :: t in m && t.Strict? ==> !Less(v, t.v)
  }

  ghost predicate Within(local: map<Tag, Commit>, remote: map<Tag, Commit>) {
    forall t :: t in local ==> t in remote && remote[t] == local[t]
  }

  ghost predicate Untagged(m: map<Tag, Commit>, commit: Commit) {
    forall t :: t in m && m[t] == commit ==> t.Other? || t == Strict(ZERO)
  }

  /** Since these tags were read the next one was taken, or nothing newer was made and the
      commit is still without a tag if it was. */
  ghost predicate TakenOrCurrent(local: map<Tag, Commit>, remote: map<Tag, Commit>, commit: Commit) {
    forall v :: Top(local, v) ==>
      Strict(Successor(v)) in remote || (Top(remote, v) && (Untagged(local, commit) ==> Untagged(remote, commit)))
  }

  /** The tag is the next one of these, and the commit has none. */
  ghost predicate NextFor(m: map<Tag, Commit>, tag: Tag, commit: Commit) {
    Untagged(m, commit) && exists v :: Top(m, v) && tag == Strict(Successor(v))
  }

  ghost predicate RunInv(remote: map<Tag, Commit>, run: Run) {
    && Within(run.local, remote)
    && (run.pc.Choosing? || run.pc.Pushing? ==> TakenOrCurrent(run.local, remote, run.commit))
    && (run.pc.Pushing? ==> NextFor(run.local, run.tag, run.commit))
    && (run.pc.Done? ==> Accepted(run.tag) && run.tag in remote && remote[run.tag] == run.commit)
    && (run.pc.Waiting? ==> Accepted(run.tag))
  }

  /** A push that left a run asks for a tag that is taken, or for the next one. */
  ghost predicate SentInv(s: System) {
    forall p :: p in s.sent ==> p.0 in s.remote || NextFor(s.remote, p.0, p.1)
  }

  ghost predicate LogInv(s: System) {
    && (forall i :: 0 <= i < |s.created| ==>
          Accepted(s.created[i].0) && s.created[i].0 in s.remote && s.remote[s.created[i].0] == s.created[i].1)
    && (forall i, j :: 0 <= i < j < |s.created| ==>
          s.created[i].0 != s.created[j].0 && s.created[i].1 != s.created[j].1)
  }

  ghost predicate Inv(s: System) {
    LogInv(s) && SentInv(s) && forall r :: r in s.runs ==> RunInv(s.remote, s.runs[r])
  }

  lemma TopUnique(m: map<Tag, Commit>, v: Version, w: Version)
    requires Top(m, v) && Top(m, w)
    ensures v == w
  {}

  lemma LatestIsTop(listing: seq<Tag>, m: map<Tag, Commit>)
    requires (set t | t in listing) == m.Keys
    ensures Top(m, Latest(listing))
  {
    forall t | t in m && t.Strict? ensures !Less(Latest(listing), t.v) { assert t in listing; }
  }

  /** A tag that is made is the next patch of the newest valid tag the remote has at that
      moment, above every other, and its commit had none. */
  lemma CreatedIsNewest(s: System, tag: Tag, commit: Commit)
    requires Inv(s) && Next(s, Land(tag, commit)).Some?
    ensures tag.Strict? && Untagged(s.remote, commit)
    ensures forall t :: t in s.remote && t.Strict? ==> Less(t.v, tag.v)
    ensures exists v :: Top(s.remote, v) && tag == Strict(Version(v.major, v.minor, v.patch + 1))
  {
    assert (tag, commit) in s.sent && NextFor(s.remote, tag, commit);
    var v :| Top(s.remote, v) && tag == Strict(Successor(v));
    forall t | t in s.remote && t.Strict? ensures Less(t.v, tag.v) { assert !Less(v, t.v); }
  }

  lemma StepKeepsInv(s: System, step: Step)
    requires Inv(s) && Next(s, step).Some?
    ensures var t := Next(s, step).value; Inv(t) && Within(s.remote, t.remote) && s.created <= t.created
  {
    match step
    case Start(_, _) =>
    case Stop(_) =>
    case Fetch(r) => ReadIsCurrent(s.remote, s.runs[r].commit);
    case Choose(_, _, _) => ChooseKeepsInv(s, step);
    case Push(r) => PushKeepsInv(s, r);
    case Report(_, _) =>
    case Land(tag, commit) => LandKeepsInv(s, tag, commit);
  }

  lemma ReadIsCurrent(remote: map<Tag, Commit>, commit: Commit)
    ensures TakenOrCurrent(remote, remote, commit)
  {}

  lemma ChooseKeepsInv(s: System, step: Step)
    requires Inv(s) && step.Choose? && Next(s, step).Some?
    ensures Inv(Next(s, step).value)
  {
    var run := s.runs[step.r];
    LatestIsTop(step.listing, run.local);
    if Existing(run) == {} {
      forall t | t in run.local && Accepted(t) ensures run.local[t] != run.commit { assert t !in Existing(run); }
    }
  }

  lemma PushKeepsInv(s: System, r: RunId)
    requires Inv(s) && Next(s, Push(r)).Some?
    ensures Inv(Next(s, Push(r)).value)
  {
    var run := s.runs[r];
    assert RunInv(s.remote, run);
    var v :| Top(run.local, v) && run.tag == Strict(Successor(v));
    assert run.tag in s.remote || NextFor(s.remote, run.tag, run.commit);
  }

  lemma LandKeepsInv(s: System, tag: Tag, commit: Commit)
    requires Inv(s) && Next(s, Land(tag, commit)).Some?
    ensures Inv(Next(s, Land(tag, commit)).value) && Within(s.remote, s.remote[tag := commit])
  {
    CreatedIsNewest(s, tag, commit);
    assert NextFor(s.remote, tag, commit);
    var remote' := s.remote[tag := commit];
    forall r | r in s.runs ensures RunInv(remote', s.runs[r]) { LandKeepsRun(s.remote, tag, commit, s.runs[r]); }
    forall p | p in s.sent ensures p.0 in remote' || NextFor(remote', p.0, p.1) {
      if p.0 !in s.remote { NextIsOne(s.remote, tag, commit, p.0, p.1); }
    }
  }

  /** All that ask for the next tag ask for the same one. */
  lemma NextIsOne(m: map<Tag, Commit>, tag: Tag, commit: Commit, other: Tag, otherCommit: Commit)
    requires NextFor(m, tag, commit) && NextFor(m, other, otherCommit)
    ensures tag == other
  {
    var v :| Top(m, v) && tag == Strict(Successor(v));
    var w :| Top(m, w) && other == Strict(Successor(w));
    TopUnique(m, v, w);
  }

  /** The next tag of every run that has read is now taken, or was before. */
  lemma LandKeepsRun(remote: map<Tag, Commit>, tag: Tag, commit: Commit, run: Run)
    requires RunInv(remote, run) && tag !in remote && NextFor(remote, tag, commit)
    ensures RunInv(remote[tag := commit], run)
  {
    var remote' := remote[tag := commit];
    var v :| Top(remote, v) && tag == Strict(Successor(v));
    forall u | TakenOrCurrent(run.local, remote, run.commit) && Top(run.local, u)
      ensures Strict(Successor(u)) in remote'
    {
      if Top(remote, u) { TopUnique(remote, u, v); }
    }
  }

  // ---- runs

  function Exec(s: System, run: seq<Step>): Option<System>
    decreases |run|
  {
    if run == [] then Some(s)
    else
      var before := Exec(s, run[..|run| - 1]);
      if before.None? then None else Next(before.value, run[|run| - 1])
  }

  /** No workflow run yet, and nothing on its way; the remote may hold any tags. */
  ghost predicate Initial(s: System) {
    s.runs == map[] && s.created == [] && s.sent == {}
  }

  /** Over all interleavings, retries and stops, and however late a push lands: no tag ever
      changes commit; the tags made go to distinct commits none of which had one, each above
      all before it; and a run that ends with a tag ends with one of its own commit. */
  lemma {:induction false} OneTagPerCommit(s: System, run: seq<Step>)
    requires Initial(s) && Exec(s, run).Some?
    ensures var t := Exec(s, run).value;
            && Inv(t) && Within(s.remote, t.remote)
            && (forall i :: 0 <= i < |t.created| ==> t.created[i].0.Strict? && Untagged(s.remote, t.created[i].1))
            && (forall i, j :: 0 <= i < j < |t.created| ==>
                  Less(t.created[i].0.v, t.created[j].0.v) && t.created[i].1 != t.created[j].1)
            && (forall r :: r in t.runs && t.runs[r].pc.Done? ==>
                  Accepted(t.runs[r].tag) && t.runs[r].tag in t.remote && t.remote[t.runs[r].tag] == t.runs[r].commit)
    decreases |run|
  {
    if run != [] {
      var init, step := run[..|run| - 1], run[|run| - 1];
      OneTagPerCommit(s, init);
      var u := Exec(s, init).value;
      StepKeepsInv(u, step);
      CreatedGrows(u, step);
      if step.Land? { CreatedIsNewest(u, step.tag, step.commit); }
    }
    var t := Exec(s, run).value;
    assert forall r :: r in t.runs ==> RunInv(t.remote, t.runs[r]);
  }

  lemma CreatedGrows(s: System, step: Step)
    requires Next(s, step).Some?
    ensures Next(s, step).value.created == if step.Land? then s.created + [(step.tag, step.commit)] else s.created
  {}
}
