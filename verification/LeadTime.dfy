/** metrics.go: when a merged pull request became usable, and a task's lead time and phases. */
module LeadTime {
  import opened Common
  import opened Text

  datatype PRFact = PRFact(mergedAt: Option<Tick>, mergeSHA: string)

  datatype DeployRecord = DeployRecord(service: string, result: string, deployedAt: Option<Tick>, deployedRef: string,
                                       includedPRs: seq<string>)

  /** contains answers whether a deployed ref includes a merge commit, where GitHub was asked. */
  datatype Snapshot = Snapshot(
    prs: map<string, PRFact>,
    deploys: seq<DeployRecord>,
    contains: map<(string, string, string), bool>,
    deployRepos: map<string, string>)

  /** One linked pull request: its URL, "owner/repo" and number. */
  datatype PR = PR(url: string, repo: string, number: nat)

  datatype Group = Deploy | MergeOnly

  datatype PRState =
    | Usable | MergeUnknown | NoDatedRecord | BeforeStream | DeployLinkUnknown | AwaitingDeploy

  datatype PRUsable = PRUsable(group: Group, mergedAt: Option<Tick>, usableAt: Option<Tick>, state: PRState)

  // ---- whether a record includes a pull request

  /** The part of "owner/repo" after the first slash. */
  function RepoName(repo: string): (name: string)
    ensures '/' !in repo ==> name == repo
    ensures forall i :: 0 <= i < |repo| && repo[i] == '/' && '/' !in repo[..i] ==> name == repo[i + 1..]
  {
    SlashAt(repo);
    match Index(repo, "/")
    case Some(i) => repo[i + 1..]
    case None => repo
  }

  lemma SlashAt(repo: string)
    ensures forall i: nat :: At(repo, i, "/") <==> i < |repo| && repo[i] == '/'
  {
    forall i: nat ensures At(repo, i, "/") <==> i < |repo| && repo[i] == '/' { AtIsPointwise(repo, i, "/"); }
  }

  /** unicode.IsSpace. */
  predicate Blank(c: char) {
    || '\U{0009}' <= c <= '\U{000D}' || c == ' ' || c == '\U{0085}' || c == '\U{00A0}' || c == '\U{1680}'
    || '\U{2000}' <= c <= '\U{200A}' || c == '\U{2028}' || c == '\U{2029}' || c == '\U{202F}' || c == '\U{205F}'
    || c == '\U{3000}'
  }

  /** The code points of white space. */
  lemma BlankExactly(c: char)
    ensures Blank(c) <==>
              var p := c as int;
              || p in {0x09, 0x0a, 0x0b, 0x0c, 0x0d, 0x20, 0x85, 0xa0, 0x1680, 0x2028, 0x2029, 0x202f, 0x205f, 0x3000}
              || 0x2000 <= p <= 0x200a
  {}

  function TrimLeft(s: string): string {
    if s != [] && Blank(s[0]) then TrimLeft(s[1..]) else s
  }

  /** An included_prs entry names the PR by URL, or starts with "repo#n" and no further digit. */
  predicate Names(entry: string, pr: PR) {
    var short := RepoName(pr.repo) + "#" + Decimal(pr.number);
    var p := TrimLeft(entry);
    Index(entry, pr.url).Some? || (short <= p && !(|short| < |p| && '0' <= p[|short|] <= '9'))
  }

  datatype Inclusion = Included | NotIncluded | Undecided

  function InclusionOf(s: Snapshot, pr: PR, mergeSHA: string, d: DeployRecord): Inclusion {
    if exists p :: p in d.includedPRs && Names(p, pr) then Included
    else if mergeSHA != "" && d.deployedRef != "" then
      var ref := if "pw-" <= d.deployedRef then d.deployedRef[3..] else d.deployedRef;
      if |ref| >= 7 && (ref <= mergeSHA || mergeSHA <= ref) then Included
      else if (pr.repo, mergeSHA, ref) in s.contains then
        (if s.contains[(pr.repo, mergeSHA, ref)] then Included else NotIncluded)
      else if d.includedPRs == [] then Undecided else NotIncluded
    else if d.includedPRs == [] then Undecided else NotIncluded
  }

  // ---- what an inclusion says

  /** The entry names the PR: by URL, or by "repo#n" after blanks, with no further digit. */
  ghost predicate EntryNames(entry: string, pr: PR) {
    || Contains(entry, pr.url)
    || exists i: nat :: Begins(entry, i) && Leads(RepoName(pr.repo) + "#" + Decimal(pr.number), entry[i..])
  }

  /** Position i is the first that is not blank. */
  ghost predicate Begins(s: string, i: nat) {
    i <= |s| && (forall k :: 0 <= k < i ==> Blank(s[k])) && (i < |s| ==> !Blank(s[i]))
  }

  ghost predicate Leads(short: string, s: string) {
    short <= s && (|short| < |s| ==> s[|short|] < '0' || '9' < s[|short|])
  }

  lemma NamesExactly(entry: string, pr: PR)
    ensures Names(entry, pr) <==> EntryNames(entry, pr)
  {
    var i := Trimmed(entry);
  }

  lemma {:induction false} Trimmed(s: string) returns (i: nat)
    ensures Begins(s, i) && TrimLeft(s) == s[i..]
    ensures forall k: nat :: Begins(s, k) ==> k == i
    decreases |s|
  {
    i := 0;
    if |s| > 0 && Blank(s[0]) {
      i := Trimmed(s[1..]);
      assert forall k :: 0 < k < |s| ==> s[k] == s[1..][k - 1];
      forall k: nat | Begins(s, k) ensures k == i + 1 { assert k > 0 && Begins(s[1..], k - 1); }
      i := i + 1;
    }
  }

  /** A short entry names the pull request with its own number only. */
  lemma ShortNamesOne(pr: PR, number: nat)
    requires var entry := RepoName(pr.repo) + "#" + Decimal(number); Begins(entry, 0) && !Contains(entry, pr.url)
    ensures Names(RepoName(pr.repo) + "#" + Decimal(number), pr) <==> number == pr.number
  {
    var lead, entry := RepoName(pr.repo) + "#", RepoName(pr.repo) + "#" + Decimal(number);
    var short := lead + Decimal(pr.number);
    NamesExactly(entry, pr);
    assert entry[0..] == entry && forall i: nat :: Begins(entry, i) ==> i == 0;
    if |short| < |entry| {
      assert entry[|short|] == Decimal(number)[|short| - |lead|];
      assert Decimal(number)[|short| - |lead|] in Decimal(number);
    } else if Leads(short, entry) {
      assert short == entry && Decimal(pr.number) == short[|lead|..] == entry[|lead|..] == Decimal(number);
      DecimalNames(pr.number, number);
    }
    if number == pr.number { assert Leads(short, entry); }
  }

  /** The deployed ref without its prefix. */
  ghost function CommitRef(deployedRef: string): string {
    if "pw-" <= deployedRef then deployedRef[|"pw-"|..] else deployedRef
  }

  ghost predicate Named(pr: PR, d: DeployRecord) {
    exists p :: p in d.includedPRs && EntryNames(p, pr)
  }

  /** Both commits are known, and are one up to abbreviation. */
  ghost predicate SameCommit(sha: string, d: DeployRecord) {
    && sha != "" && d.deployedRef != ""
    && |CommitRef(d.deployedRef)| >= 7 && (CommitRef(d.deployedRef) <= sha || sha <= CommitRef(d.deployedRef))
  }

  /** GitHub's answer, where it was asked of two known commits. */
  ghost function Answer(s: Snapshot, pr: PR, sha: string, d: DeployRecord): Option<bool> {
    var key := (pr.repo, sha, CommitRef(d.deployedRef));
    if sha != "" && d.deployedRef != "" && key in s.contains then Some(s.contains[key]) else None
  }

  /** The record includes the merge: it names the PR, is of its commit, or is of a ref that
      GitHub says contains it. */
  ghost predicate Includes(s: Snapshot, pr: PR, sha: string, d: DeployRecord) {
    Named(pr, d) || SameCommit(sha, d) || Answer(s, pr, sha, d) == Some(true)
  }

  /** Nothing says whether it does: it lists no PRs, is not of the commit, and GitHub was not
      asked. */
  ghost predicate SaysNothing(s: Snapshot, pr: PR, sha: string, d: DeployRecord) {
    d.includedPRs == [] && !SameCommit(sha, d) && Answer(s, pr, sha, d).None?
  }

  lemma InclusionExactly(s: Snapshot, pr: PR, sha: string, d: DeployRecord)
    ensures InclusionOf(s, pr, sha, d) == Included <==> Includes(s, pr, sha, d)
    ensures InclusionOf(s, pr, sha, d) == Undecided <==> SaysNothing(s, pr, sha, d)
  {
    forall p | p in d.includedPRs ensures Names(p, pr) <==> EntryNames(p, pr) { NamesExactly(p, pr); }
  }

  // ---- records that matter for a merge

  ghost predicate ForRepo(s: Snapshot, repo: string, d: DeployRecord) {
    d.service in s.deployRepos && s.deployRepos[d.service] == repo
  }

  /** A dated success of one of the repo's services, at or after the merge. */
  ghost predicate Candidate(s: Snapshot, repo: string, merged: Tick, d: DeployRecord) {
    d.result == "success" && d.deployedAt.Some? && d.deployedAt.value >= merged && ForRepo(s, repo, d)
  }

  ghost predicate Qualifies(s: Snapshot, pr: PR, sha: string, merged: Tick, d: DeployRecord) {
    Candidate(s, pr.repo, merged, d) && Includes(s, pr, sha, d)
  }

  /** The record may or may not include the merge. */
  ghost predicate LeavesOpen(s: Snapshot, pr: PR, sha: string, merged: Tick, d: DeployRecord) {
    Candidate(s, pr.repo, merged, d) && SaysNothing(s, pr, sha, d)
  }

  ghost predicate DatedFor(s: Snapshot, repo: string, d: DeployRecord) {
    ForRepo(s, repo, d) && d.deployedAt.Some?
  }

  ghost predicate HasStream(s: Snapshot, repo: string) {
    exists svc :: svc in s.deployRepos && s.deployRepos[svc] == repo
  }

  /** GitHub's merge time where it has one, else the one hk recorded. */
  ghost predicate IsMerged(s: Snapshot, pr: PR, hkMerged: Option<Tick>, mergedAt: Option<Tick>) {
    if exists at :: pr.url in s.prs && s.prs[pr.url].mergedAt == Some(at) then mergedAt == s.prs[pr.url].mergedAt
    else mergedAt == hkMerged
  }

  function MergeSHA(s: Snapshot, pr: PR): (sha: string)
    ensures pr.url in s.prs ==> sha == s.prs[pr.url].mergeSHA
    ensures pr.url !in s.prs ==> sha == ""
  {
    if pr.url in s.prs then s.prs[pr.url].mergeSHA else ""
  }

  /** Everything a pull request's answer says, as a relation to the snapshot. */
  ghost predicate Describes(s: Snapshot, pr: PR, hkMerged: Option<Tick>, r: PRUsable) {
    && IsMerged(s, pr, hkMerged, r.mergedAt)
    && (r.usableAt.Some? <==> r.state.Usable?)
    && (r.mergedAt.None? <==> r.state.MergeUnknown?)
    && (r.group.Deploy? <==> r.mergedAt.Some? && HasStream(s, pr.repo))
    && (r.mergedAt.Some? && r.group.MergeOnly? ==> r.usableAt == r.mergedAt)
    && (r.group.Deploy? ==> DescribesDeploy(s, pr, r.mergedAt.value, r))
  }

  ghost predicate DescribesDeploy(s: Snapshot, pr: PR, merged: Tick, r: PRUsable) {
    var sha := MergeSHA(s, pr);
    && (r.state.NoDatedRecord? <==> forall d :: d in s.deploys ==> !DatedFor(s, pr.repo, d))
    && (r.state.BeforeStream? <==>
          && (exists d :: d in s.deploys && DatedFor(s, pr.repo, d))
          && forall d :: d in s.deploys && DatedFor(s, pr.repo, d) ==> merged < d.deployedAt.value)
    // usable at the earliest record that includes the merge
    && (r.state.Usable? ==>
          exists d :: d in s.deploys && Qualifies(s, pr, sha, merged, d) && d.deployedAt == r.usableAt)
    && (r.state.Usable? ==>
          forall d :: d in s.deploys && Qualifies(s, pr, sha, merged, d) ==> r.usableAt.value <= d.deployedAt.value)
    // and only when none does is it waiting, or not known to be
    && (r.state.AwaitingDeploy? || r.state.DeployLinkUnknown? ==>
          && (forall d :: d in s.deploys ==> !Qualifies(s, pr, sha, merged, d))
          && (r.state.DeployLinkUnknown? <==>
                exists d :: d in s.deploys && LeavesOpen(s, pr, sha, merged, d)))
  }

  method FirstRecord(s: Snapshot, repo: string) returns (first: Option<Tick>)
    ensures first.None? <==> forall d :: d in s.deploys ==> !DatedFor(s, repo, d)
    ensures first.Some? ==> exists d :: d in s.deploys && DatedFor(s, repo, d) && d.deployedAt == first
    ensures first.Some? ==> forall d :: d in s.deploys && DatedFor(s, repo, d) ==> first.value <= d.deployedAt.value
  {
    first := None;
    for i := 0 to |s.deploys|
      invariant first.None? <==> forall k :: 0 <= k < i ==> !DatedFor(s, repo, s.deploys[k])
      invariant first.Some? ==>
        exists k :: 0 <= k < i && DatedFor(s, repo, s.deploys[k]) && s.deploys[k].deployedAt == first
      invariant first.Some? ==>
        forall k :: 0 <= k < i && DatedFor(s, repo, s.deploys[k]) ==> first.value <= s.deploys[k].deployedAt.value
    {
      var d := s.deploys[i];
      var deployed := d.service in s.deployRepos && s.deployRepos[d.service] == repo;
      if deployed && d.deployedAt.Some? && (first.None? || d.deployedAt.value < first.value) {
        first := d.deployedAt;
      }
    }
  }

  method EarliestIncluding(s: Snapshot, pr: PR, sha: string, merged: Tick) returns (best: Option<Tick>, undecided: bool)
    ensures best.None? <==> forall d :: d in s.deploys ==> !Qualifies(s, pr, sha, merged, d)
    ensures best.Some? ==> exists d :: d in s.deploys && Qualifies(s, pr, sha, merged, d) && d.deployedAt == best
    ensures best.Some? ==>
              forall d :: d in s.deploys && Qualifies(s, pr, sha, merged, d) ==> best.value <= d.deployedAt.value
    ensures undecided <==> exists d :: d in s.deploys && LeavesOpen(s, pr, sha, merged, d)
  {
    hide InclusionOf, Includes, SaysNothing;
    best, undecided := None, false;
    for i := 0 to |s.deploys|
      invariant best.None? <==> forall k :: 0 <= k < i ==> !Qualifies(s, pr, sha, merged, s.deploys[k])
      invariant best.Some? ==>
        exists k :: 0 <= k < i && Qualifies(s, pr, sha, merged, s.deploys[k]) && s.deploys[k].deployedAt == best
      invariant best.Some? ==>
        forall k :: 0 <= k < i && Qualifies(s, pr, sha, merged, s.deploys[k]) ==>
          best.value <= s.deploys[k].deployedAt.value
      invariant undecided <==>
        exists k :: 0 <= k < i && LeavesOpen(s, pr, sha, merged, s.deploys[k])
    {
      var d := s.deploys[i];
      if d.result != "success" || d.deployedAt.None? || d.deployedAt.value < merged { continue; }
      if d.service !in s.deployRepos || s.deployRepos[d.service] != pr.repo { continue; }
      InclusionExactly(s, pr, sha, d);
      var inclusion := InclusionOf(s, pr, sha, d);
      if inclusion.Undecided? { undecided := true; }
      if inclusion.Included? && (best.None? || d.deployedAt.value < best.value) { best := d.deployedAt; }
    }
  }

  method PrUsable(s: Snapshot, pr: PR, hkMerged: Option<Tick>) returns (r: PRUsable)
    ensures Describes(s, pr, hkMerged, r)
  {
    var known := pr.url in s.prs && s.prs[pr.url].mergedAt.Some?;
    var mergedAt := if known then s.prs[pr.url].mergedAt else hkMerged;
    if mergedAt.None? { return PRUsable(MergeOnly, None, None, MergeUnknown); }
    var deployed := exists svc :: svc in s.deployRepos && s.deployRepos[svc] == pr.repo;
    if !deployed { return PRUsable(MergeOnly, mergedAt, mergedAt, Usable); }
    r := PRUsable(Deploy, mergedAt, None, AwaitingDeploy);
    var first := FirstRecord(s, pr.repo);
    if first.None? { return r.(state := NoDatedRecord); }
    if mergedAt.value < first.value { return r.(state := BeforeStream); }
    var best, undecided := EarliestIncluding(s, pr, MergeSHA(s, pr), mergedAt.value);
    if best.Some? { r := r.(state := Usable, usableAt := best); }
    else if undecided { r := r.(state := DeployLinkUnknown); }
  }

  /** The merge comes first; for a repository without a deploy stream it is the usable time. */
  lemma UsableAfterMerge(s: Snapshot, pr: PR, hkMerged: Option<Tick>, r: PRUsable)
    requires Describes(s, pr, hkMerged, r) && r.state.Usable?
    ensures r.mergedAt.Some? && r.usableAt.Some? && r.mergedAt.value <= r.usableAt.value
    ensures r.group.MergeOnly? ==> r.usableAt == r.mergedAt
  {}

  /** More deploy records never take usability away and never make it later. */
  lemma MoreRecordsNeverLater(s: Snapshot, more: Snapshot, pr: PR, hkMerged: Option<Tick>, r: PRUsable, q: PRUsable)
    requires more == s.(deploys := more.deploys) && forall d :: d in s.deploys ==> d in more.deploys
    requires Describes(s, pr, hkMerged, r) && Describes(more, pr, hkMerged, q)
    requires r.state.Usable?
    ensures q.state.Usable? && q.mergedAt == r.mergedAt && q.usableAt.value <= r.usableAt.value
  {
    if r.group.Deploy? {
      var merged, sha := r.mergedAt.value, MergeSHA(s, pr);
      var d :| d in s.deploys && Qualifies(s, pr, sha, merged, d) && d.deployedAt == r.usableAt;
      assert Qualifies(more, pr, sha, merged, d);
      var e :| e in s.deploys && DatedFor(s, pr.repo, e) && e.deployedAt.value <= merged;
      assert e in more.deploys && DatedFor(more, pr.repo, e);
    }
  }
}
