/** scripts/auto-tag.py, main, in its own form: the reservation loop of one workflow run, while
    other runs go on between its operations. Its effects are a run of the race. */
module ReleaseWorkflow {
  import opened Common
  import opened ReleaseTags

  const ATTEMPTS := 20

  /** The step is not one of workflow run r. */
  predicate NotOf(step: Step, r: RunId) { step.Land? || step.r != r }

  /** How many pushes of workflow run r were reported as failed. */
  ghost function Refusals(run: seq<Step>, r: RunId): nat {
    if |run| == 0 then 0
    else Refusals(run[..|run| - 1], r) + (if run[|run| - 1] == Report(r, false) then 1 else 0)
  }

  class Repository {
    var s: System
    ghost var run: seq<Step>
    ghost const start: System

    ghost predicate Valid()
      reads this
    {
      Initial(start) && Exec(start, run) == Some(s)
    }

    constructor (initial: System)
      requires Initial(initial)
      ensures Valid() && s == start == initial && run == []
    {
      s, start, run := initial, initial, [];
    }

    method Take(step: Step)
      requires Valid() && Next(s, step).Some?
      modifies this
      ensures Valid() && s == Next(old(s), step).value && run == old(run) + [step]
      ensures forall r :: Refusals(run, r) == Refusals(old(run), r) + (if step == Report(r, false) then 1 else 0)
    {
      assert (run + [step])[..|run|] == run;
      s, run := Next(s, step).value, run + [step];
    }

    /** Other workflow runs take any steps of their own, and pushes land. */
    method Elsewhere(r: RunId)
      requires Valid() && r in s.runs
      modifies this
      ensures Valid() && old(run) <= run && r in s.runs && s.runs[r] == old(s.runs[r])
      ensures Refusals(run, r) == Refusals(old(run), r)
    {
      var steps: seq<Step> := *;
      for i := 0 to |steps|
        invariant Valid() && old(run) <= run && r in s.runs && s.runs[r] == old(s.runs[r])
        invariant Refusals(run, r) == Refusals(old(run), r)
      {
        if NotOf(steps[i], r) && Next(s, steps[i]).Some? { Take(steps[i]); }
      }
    }

    /** Returns the tag the commit ends with, or None when twenty reservations were refused. */
    method AutoTag(r: RunId, commit: Commit) returns (tag: Option<Tag>)
      requires Valid() && Next(s, Start(r, commit)).Some?
      modifies this
      ensures Valid() && old(run) <= run
      ensures tag.Some? ==> Accepted(tag.value) && tag.value in s.remote && s.remote[tag.value] == commit
      ensures tag.None? ==> Refusals(run, r) == Refusals(old(run), r) + 20
    {
      hide Exec, Inv, Within, Untagged, Initial;
      Take(Start(r, commit));
      for i := 0 to ATTEMPTS
        invariant Valid() && old(run) <= run
        invariant r in s.runs && s.runs[r].pc == Fetching && s.runs[r].commit == commit
        invariant Refusals(run, r) == Refusals(old(run), r) + i
      {
        Elsewhere(r);
        Take(Fetch(r));
        Elsewhere(r);
        tag := ChooseTag(r, commit);
        if tag.Some? { return; }
        tag := PushTag(r, commit);
        if tag.Some? { return; }
      }
      Take(Stop(r));
      return None;
    }

    /** The push of the reservation, reported as done or as failed. */
    method PushTag(r: RunId, commit: Commit) returns (tag: Option<Tag>)
      requires Valid() && r in s.runs && s.runs[r].pc == Pushing && s.runs[r].commit == commit
      modifies this
      ensures Valid() && old(run) <= run && r in s.runs && s.runs[r].commit == commit
      ensures tag.Some? ==> Accepted(tag.value) && tag.value in s.remote && s.remote[tag.value] == commit
      ensures tag.None? ==> s.runs[r].pc == Fetching && Refusals(run, r) == Refusals(old(run), r) + 1
    {
      hide Exec, Inv, Within, Untagged, Initial;
      Elsewhere(r);
      Take(Push(r));
      Elsewhere(r);
      var reported := *;
      var made := s.runs[r].tag in s.remote && s.remote[s.runs[r].tag] == commit;
      Take(Report(r, reported && made));
      if reported && made {
        OneTagPerCommit(start, run);
        return Some(s.runs[r].tag);
      }
      return None;
    }

    /** The commit's own latest tag if it has one; else the next version is tried. */
    method ChooseTag(r: RunId, commit: Commit) returns (tag: Option<Tag>)
      requires Valid() && r in s.runs && s.runs[r].pc == Choosing && s.runs[r].commit == commit
      modifies this
      ensures Valid() && old(run) <= run && r in s.runs && s.runs[r].commit == commit
      ensures tag.None? ==> s.runs[r].pc == Pushing && Refusals(run, r) == Refusals(old(run), r)
      ensures tag.Some? ==> Accepted(tag.value) && tag.value in s.remote && s.remote[tag.value] == commit
      // of the tags the fetch found on the commit, no spelling of vX.Y.Z is newer
      ensures tag.Some? ==> forall t :: t in old(s.runs[r].local) && old(s.runs[r].local[t]) == commit ==>
                t.Other? || t == Strict(ZERO) || !Less(tag.value.v, t.v)
    {
      var listing := List(s.runs[r].local);
      var existing := Existing(s.runs[r]);
      if existing != {} {
        var found := Newest(existing);
        Take(Choose(r, listing, found));
        OneTagPerCommit(start, run);
        return Some(found);
      }
      Take(Choose(r, listing, Strict(ZERO)));
      return None;
    }
  }

  /** git tag --list. */
  method List(tags: map<Tag, Commit>) returns (listing: seq<Tag>)
    ensures (set t | t in listing) == tags.Keys
  {
    listing := [];
    var rest := tags.Keys;
    while rest != {}
      invariant rest <= tags.Keys && (set t | t in listing) == tags.Keys - rest
      decreases |rest|
    {
      var t :| t in rest;
      assert (set u | u in listing + [t]) == (set u | u in listing) + {t};
      listing, rest := listing + [t], rest - {t};
    }
  }

  /** max over the version a tag spells. */
  method Newest(tags: set<Tag>) returns (found: Tag)
    requires tags != {} && forall t :: t in tags ==> t.Strict? || t.Padded?
    ensures found in tags && forall t :: t in tags ==> !Less(found.v, t.v)
  {
    found :| found in tags;
    var rest := tags - {found};
    while rest != {}
      invariant rest <= tags && found in tags
      invariant forall t :: t in tags && t !in rest ==> !Less(found.v, t.v)
      decreases |rest|
    {
      var t :| t in rest;
      if Less(found.v, t.v) { found := t; }
      rest := rest - {t};
    }
  }
}
