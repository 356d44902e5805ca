/** linear_capacity_policy.go, and the paged count of active issues in linear_admission.go. */
module Capacity {
  import opened Common

  /** limit 0 is the zero value: the defaults apply. */
  datatype Policy = Policy(limit: int, high: int, low: int) {
    function Limit(): int { if limit == 0 then 275 else limit }

    function CreateCeiling(): int { Limit() - 5 }

    function ArchiveHigh(): int { if limit == 0 then 230 else high }

    function ArchiveLow(): int { if limit == 0 then 200 else low }

    /** The policies a client can hold: the zero value, or one the constructor accepted. */
    ghost predicate Configured() {
      this == Policy(0, 0, 0) || NewPolicy(limit, high, low) == Ok(this)
    }
  }

  function NewPolicy(limit: int, high: int, low: int): (r: Result<Policy, string>)
    ensures r.Ok? <==> 0 <= low < high < limit - 5
    ensures r.Ok? ==> r.value.Limit() == limit && r.value.ArchiveHigh() == high && r.value.ArchiveLow() == low
    ensures r.Ok? ==> r.value.CreateCeiling() == limit - 5
  {
    if limit <= 5 || low < 0 || high <= low || high >= limit - 5 then
      Err("invalid Linear capacity policy: require 0 <= low < high < limit-5")
    else Ok(Policy(limit, high, low))
  }

  /** The defaults of the zero value. */
  lemma ZeroPolicy()
    ensures var p := Policy(0, 0, 0);
            p.Limit() == 275 && p.CreateCeiling() == 270 && p.ArchiveHigh() == 230 && p.ArchiveLow() == 200
  {}

  /** The condition under which a recorded vendor rejection stops holding creates back. */
  predicate Releases(policy: Policy, count: int, recordedLimit: int) {
    count <= policy.ArchiveLow() || (policy.Limit() < recordedLimit && count < policy.CreateCeiling())
  }

  /** Whoever clears the hold is below the ceiling, so the same attempt goes on to create. */
  lemma ReleasePassesCeiling(policy: Policy, count: int, recordedLimit: int)
    requires policy.Configured() && Releases(policy, count, recordedLimit)
    ensures count < policy.CreateCeiling()
  {}

  // ---- the count

  /** One answer of the remote to a page request. */
  datatype Reply =
    | Unavailable
    | Incomplete
    | Page(nodes: seq<string>, hasNext: bool, endCursor: string)

  datatype CountError = CountUnavailable | IncompleteCount | InvalidCount | NonAdvancingCursor

  /** A remote: what it answers to the call with this number and cursor. */
  type Remote = (nat, string) -> Reply

  predicate Fresh(nodes: seq<string>, seen: set<string>) {
    && (forall i :: 0 <= i < |nodes| ==> nodes[i] != "" && nodes[i] !in seen)
    && (forall i, j :: 0 <= i < j < |nodes| ==> nodes[i] != nodes[j])
  }

  function Ids(nodes: seq<string>): set<string> { set id | id in nodes }

  /** What the count comes to from call k on. */
  function CountFrom(remote: Remote, ceiling: nat, k: nat, after: string, seen: set<string>):
    (r: Result<nat, CountError>)
    requires |seen| < ceiling
    ensures r.Ok? ==> r.value <= ceiling
    decreases ceiling - |seen|
  {
    match remote(k, after)
    case Unavailable => Err(CountUnavailable)
    case Incomplete => Err(IncompleteCount)
    case Page(nodes, hasNext, endCursor) =>
      var all := seen + Ids(nodes);
      if !Fresh(nodes, seen) then Err(InvalidCount)
      else if |all| >= ceiling then Ok(ceiling)
      else if !hasNext then Ok(|all|)
      else if endCursor == "" || endCursor == after || nodes == [] then Err(NonAdvancingCursor)
      else
        FreshGrows(nodes, seen);
        CountFrom(remote, ceiling, k + 1, endCursor, all)
  }

  lemma {:induction false} FreshGrows(nodes: seq<string>, seen: set<string>)
    requires Fresh(nodes, seen)
    ensures |seen + Ids(nodes)| == |seen| + |nodes|
    decreases |nodes|
  {
    if nodes == [] {
      assert seen + Ids(nodes) == seen;
    } else {
      var init, id := nodes[..|nodes| - 1], nodes[|nodes| - 1];
      FreshGrows(init, seen);
      assert Ids(nodes) == Ids(init) + {id};
      assert seen + Ids(nodes) == (seen + Ids(init)) + {id};
    }
  }

  /** Adds one page to the ids seen, refusing an empty or a repeated id. */
  method AddPage(nodes: seq<string>, seen: set<string>) returns (ok: bool, all: set<string>)
    ensures ok == Fresh(nodes, seen)
    ensures ok ==> all == seen + Ids(nodes)
  {
    all := seen;
    for i := 0 to |nodes|
      invariant all == seen + Ids(nodes[..i])
      invariant forall k :: 0 <= k < i ==> nodes[k] != "" && nodes[k] !in seen
      invariant forall j, k :: 0 <= j < k < i ==> nodes[j] != nodes[k]
    {
      if nodes[i] == "" || nodes[i] in all {
        if nodes[i] !in seen && nodes[i] != "" {
          var k :| 0 <= k < i && nodes[..i][k] == nodes[i];
        }
        return false, all;
      }
      assert Ids(nodes[..i + 1]) == Ids(nodes[..i]) + {nodes[i]};
      assert forall k :: 0 <= k < i ==> nodes[..i][k] in Ids(nodes[..i]);
      all := all + {nodes[i]};
    }
    assert nodes[..|nodes|] == nodes;
    return true, all;
  }

  /** Terminates whatever the remote answers: every page that lets the loop go on adds an id. */
  method ActiveIssueCount(remote: Remote, policy: Policy) returns (r: Result<nat, CountError>)
    requires policy.Configured()
    ensures r == CountFrom(remote, policy.CreateCeiling(), 0, "", {})
  {
    var ceiling: nat := policy.CreateCeiling();
    var seen: set<string> := {};
    var after := "";
    var k: nat := 0;
    while true
      invariant |seen| < ceiling
      invariant CountFrom(remote, ceiling, k, after, seen) == CountFrom(remote, ceiling, 0, "", {})
      decreases ceiling - |seen|
    {
      match remote(k, after)
      case Unavailable => return Err(CountUnavailable);
      case Incomplete => return Err(IncompleteCount);
      case Page(nodes, hasNext, endCursor) =>
        ghost var was := seen;
        var ok;
        ok, seen := AddPage(nodes, seen);
        if !ok { return Err(InvalidCount); }
        if |seen| >= ceiling { return Ok(ceiling); }
        if !hasNext { return Ok(|seen|); }
        if endCursor == "" || endCursor == after || |nodes| == 0 { return Err(NonAdvancingCursor); }
        FreshGrows(nodes, was);
        after := endCursor;
        k := k + 1;
    }
  }

  // ---- a remote that lists every active issue once

  /** Call k of the listing, made with cursor cursors[k], answers pages[k]. */
  ghost predicate Lists(remote: Remote, pages: seq<seq<string>>, cursors: seq<string>, active: seq<string>) {
    && |cursors| == |pages| + 1 && pages != [] && cursors[0] == ""
    && Fresh(active, {}) && active == Flatten(pages)
    && (forall k :: 0 <= k < |pages| ==>
          remote(k, cursors[k]) == Page(pages[k], k + 1 < |pages|, cursors[k + 1]))
    && (forall k, m :: 0 <= k < |pages| && m == k + 1 < |pages| ==>
          pages[k] != [] && cursors[m] != "" && cursors[m] != cursors[k])
  }

  function Flatten(pages: seq<seq<string>>): seq<string> {
    if pages == [] then [] else pages[0] + Flatten(pages[1..])
  }

  /** On such a remote the count is the number of active issues, cut at the ceiling. */
  lemma CountIsExact(remote: Remote, policy: Policy, pages: seq<seq<string>>, cursors: seq<string>, active: seq<string>)
    requires policy.Configured() && Lists(remote, pages, cursors, active)
    ensures CountFrom(remote, policy.CreateCeiling(), 0, "", {}) == Ok(Min(|active|, policy.CreateCeiling()))
  {
    assert pages[..0] == [] && pages[0..] == pages;
    CountIsExactFrom(remote, policy.CreateCeiling(), pages, cursors, active, 0, []);
  }

  lemma {:induction false} CountIsExactFrom(remote: Remote, ceiling: nat, pages: seq<seq<string>>, cursors: seq<string>,
                                            active: seq<string>, k: nat, before: seq<string>)
    requires Lists(remote, pages, cursors, active) && k < |pages|
    requires active == before + Flatten(pages[k..]) && |before| < ceiling
    requires |Ids(before)| == |before|
    ensures CountFrom(remote, ceiling, k, cursors[k], Ids(before)) == Ok(Min(|active|, ceiling))
    decreases |pages| - k
  {
    var nodes, rest := pages[k], Flatten(pages[k + 1..]);
    assert pages[k..][0] == nodes && pages[k..][1..] == pages[k + 1..];
    var through := before + nodes;
    assert active == through + rest;
    FreshPart(before, nodes, rest);
    FreshGrows(nodes, Ids(before));
    assert Ids(through) == Ids(before) + Ids(nodes);
    assert remote(k, cursors[k]) == Page(nodes, k + 1 < |pages|, cursors[k + 1]);
    if |through| >= ceiling {
    } else if k + 1 < |pages| {
      CountIsExactFrom(remote, ceiling, pages, cursors, active, k + 1, through);
    } else {
      assert pages[k + 1..] == [];
    }
  }

  lemma FreshPart(before: seq<string>, nodes: seq<string>, rest: seq<string>)
    requires Fresh(before + nodes + rest, {})
    ensures Fresh(before, {}) && Fresh(nodes, Ids(before))
  {
    var all := before + nodes + rest;
    assert forall i :: 0 <= i < |before| ==> all[i] == before[i];
    assert forall i :: 0 <= i < |nodes| ==> all[|before| + i] == nodes[i];
  }
}
