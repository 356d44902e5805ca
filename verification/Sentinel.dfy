/** sources.go and metrics.go: the completion sentinel's samples folded into runs, and the
    status read back from the runs by binary search. */
module Sentinel {
  import opened Common

  datatype Status = Working | Idle | Gone | Unknown

  /** One parsed log line: when it was written and the raw status it carried. */
  datatype Sample = Sample(at: Tick, raw: string)

  datatype Run = Run(from: Tick, until: Tick, status: Status)

  /** The longest silence between two samples that is still one observation. */
  const SENTINEL_GAP: Tick := 2 * MINUTE

  function NormalizeStatus(raw: string): Status {
    if raw == "working" then Working
    else if raw == "idle" || raw == "done" || raw == "blocked" then Idle
    else if raw == "err:agent_not_found" then Gone
    else Unknown
  }

  // ---- folding

  /** The runs after one more sample. */
  function Extend(runs: seq<Run>, at: Tick, status: Status): seq<Run> {
    if runs != [] && Last(runs).until <= at <= Last(runs).until + SENTINEL_GAP then
      var stretched := runs[|runs| - 1 := Last(runs).(until := at)];
      if Last(runs).status == status then stretched else stretched + [Run(at, at, status)]
    else
      runs + [Run(at, at, status)]
  }

  function Last(runs: seq<Run>): Run
    requires runs != []
  {
    runs[|runs| - 1]
  }

  function Runs(samples: seq<Sample>): seq<Run> {
    if samples == [] then []
    else
      var s := samples[|samples| - 1];
      Extend(Runs(samples[..|samples| - 1]), s.at, NormalizeStatus(s.raw))
  }

  method ParseSentinelLog(samples: seq<Sample>) returns (out: seq<Run>)
    ensures out == Runs(samples)
    ensures InOrder(samples) ==> WellFormed(out) && OrderedEnds(out)
    ensures InOrder(samples) ==> forall t :: Lookup(out, t) == Observed(samples, t)
  {
    out := [];
    for i := 0 to |samples|
      invariant out == Runs(samples[..i])
    {
      var s := samples[i];
      var st := NormalizeStatus(s.raw);
      var n := |out|;
      assert samples[..i + 1][..i] == samples[..i];
      if n > 0 && s.at >= out[n - 1].until && s.at - out[n - 1].until <= SENTINEL_GAP {
        if out[n - 1].status == st {
          out := out[n - 1 := out[n - 1].(until := s.at)];
          continue;
        }
        out := out[n - 1 := out[n - 1].(until := s.at)];
      }
      out := out + [Run(s.at, s.at, st)];
    }
    assert samples[..|samples|] == samples;
    if InOrder(samples) {
      RunsWellFormed(samples);
      WellFormedEnds(out);
      forall t ensures Lookup(out, t) == Observed(samples, t) { RunsReportObserved(samples, t); }
    }
  }

  // ---- the direct definition on samples

  ghost predicate InOrder(samples: seq<Sample>) {
    forall i, j :: 0 <= i < j < |samples| ==> samples[i].at <= samples[j].at
  }

  /** How many leading samples lie strictly before t. */
  function Before(samples: seq<Sample>, t: Tick): nat
    ensures Before(samples, t) <= |samples|
  {
    if samples == [] || samples[0].at >= t then 0 else 1 + Before(samples[1..], t)
  }

  /** What was observed at t: the status of the last sample before t when the next one
      follows within the gap; else that of a sample exactly at t; else nothing. */
  function Observed(samples: seq<Sample>, t: Tick): Option<Status> {
    var k := Before(samples, t);
    if k == |samples| then None
    else if 0 < k && samples[k].at - samples[k - 1].at <= SENTINEL_GAP then
      Some(NormalizeStatus(samples[k - 1].raw))
    else if samples[k].at == t then Some(NormalizeStatus(samples[k].raw))
    else None
  }

  // ---- reading back

  ghost predicate OrderedEnds(runs: seq<Run>) {
    forall i, j :: 0 <= i < j < |runs| ==> runs[i].until <= runs[j].until
  }

  /** The status of the first run that ends at or after t, if t is inside it. */
  function Lookup(runs: seq<Run>, t: Tick): Option<Status> {
    if runs == [] then None
    else if runs[0].until >= t then (if t >= runs[0].from then Some(runs[0].status) else None)
    else Lookup(runs[1..], t)
  }

  /** sort.Search for the first run whose end is not before t, and the check on its start. */
  method StatusAt(runs: seq<Run>, t: Tick) returns (status: Option<Status>)
    ensures OrderedEnds(runs) ==> status == Lookup(runs, t)
    ensures status.Some? ==> exists r :: r in runs && r.from <= t && r.status == status.value
  {
    var i, j := 0, |runs|;
    while i < j
      invariant 0 <= i <= j <= |runs|
      invariant OrderedEnds(runs) ==> forall k :: 0 <= k < i ==> runs[k].until < t
      invariant OrderedEnds(runs) ==> forall k :: j <= k < |runs| ==> runs[k].until >= t
    {
      var h := i + (j - i) / 2;
      if runs[h].until < t { i := h + 1; } else { j := h; }
    }
    if OrderedEnds(runs) { LookupSkips(runs, i, t); }
    if i < |runs| && t >= runs[i].from {
      assert runs[i] in runs;
      return Some(runs[i].status);
    }
    return None;
  }

  lemma {:induction false} LookupSkips(runs: seq<Run>, i: nat, t: Tick)
    requires i <= |runs|
    requires forall k :: 0 <= k < i ==> runs[k].until < t
    ensures Lookup(runs, t) == Lookup(runs[i..], t)
  {
    if i == 0 {
      assert runs[0..] == runs;
    } else {
      assert runs[1..][i - 1..] == runs[i..];
      LookupSkips(runs[1..], i - 1, t);
    }
  }

  // ---- the runs are what StatusRun promises

  /** Ordered, touching only at boundaries, and maximal: two neighbouring runs with one
      status are separated by a silence longer than the gap. */
  ghost predicate WellFormed(runs: seq<Run>) {
    && (forall i :: 0 <= i < |runs| ==> runs[i].from <= runs[i].until)
    && (forall i, j :: 0 <= i < j < |runs| ==> runs[i].until <= runs[j].from)
    && (forall i, j :: 0 <= i < |runs| && j == i + 1 < |runs| ==> Separate(runs[i], runs[j]))
  }

  /** b touches a with another status, or comes after a longer silence than the gap. */
  ghost predicate Separate(a: Run, b: Run) {
    (b.from == a.until && a.status != b.status) || b.from - a.until > SENTINEL_GAP
  }

  lemma ExtendWellFormed(runs: seq<Run>, at: Tick, status: Status)
    requires WellFormed(runs) && (runs != [] ==> Last(runs).until <= at)
    ensures var out := Extend(runs, at, status);
            WellFormed(out) && out != [] && Last(out).until == at && Last(out).status == status
  {
    var out := Extend(runs, at, status);
    var n := |runs|;
    forall i, j | 0 <= i < |out| && j == i + 1 < |out| ensures Separate(out[i], out[j]) {
      if j < n { assert Separate(runs[i], runs[j]); }
    }
  }

  lemma {:induction false} RunsWellFormed(samples: seq<Sample>)
    requires InOrder(samples)
    ensures WellFormed(Runs(samples))
    ensures samples != [] ==>
      && Runs(samples) != []
      && Last(Runs(samples)).until == samples[|samples| - 1].at
      && Last(Runs(samples)).status == NormalizeStatus(samples[|samples| - 1].raw)
    decreases |samples|
  {
    if samples != [] {
      var init, s := samples[..|samples| - 1], samples[|samples| - 1];
      RunsWellFormed(init);
      ExtendWellFormed(Runs(init), s.at, NormalizeStatus(s.raw));
    }
  }

  lemma WellFormedEnds(runs: seq<Run>)
    requires WellFormed(runs)
    ensures OrderedEnds(runs)
  {
    forall i, j | 0 <= i < j < |runs| ensures runs[i].until <= runs[j].until {
      assert runs[i].until <= runs[j].from <= runs[j].until;
    }
  }

  /** Reading the runs at t gives exactly what the samples observed at t. */
  lemma {:induction false} RunsReportObserved(samples: seq<Sample>, t: Tick)
    requires InOrder(samples)
    ensures Lookup(Runs(samples), t) == Observed(samples, t)
    decreases |samples|
  {
    if samples != [] {
      var init, s := samples[..|samples| - 1], samples[|samples| - 1];
      assert samples == init + [s];
      InOrderInit(init, s);
      RunsReportObserved(init, t);
      RunsWellFormed(init);
      ReportedSnoc(Runs(init), init, s, t);
    }
  }

  lemma InOrderInit(init: seq<Sample>, s: Sample)
    requires InOrder(init + [s])
    ensures InOrder(init)
  {
    var all := init + [s];
    forall i, j | 0 <= i < j < |init| ensures init[i].at <= init[j].at {
      assert all[i].at <= all[j].at;
    }
  }

  /** One more sample, on runs that report the earlier ones. */
  lemma ReportedSnoc(runs: seq<Run>, init: seq<Sample>, s: Sample, t: Tick)
    requires InOrder(init + [s]) && WellFormed(runs)
    requires Lookup(runs, t) == Observed(init, t)
    requires (runs == []) == (init == [])
    requires init != [] ==>
      Last(runs).until == init[|init| - 1].at && Last(runs).status == NormalizeStatus(init[|init| - 1].raw)
    ensures Lookup(Extend(runs, s.at, NormalizeStatus(s.raw)), t) == Observed(init + [s], t)
  {
    ObservedSnoc(init, s, t);
    if Before(init, t) < |init| {
      LookupEarlier(runs, s.at, NormalizeStatus(s.raw), t);
    } else {
      LookupNewest(runs, s.at, NormalizeStatus(s.raw), t);
    }
  }

  lemma ObservedSnoc(init: seq<Sample>, s: Sample, t: Tick)
    requires InOrder(init + [s])
    ensures InOrder(init)
    ensures init != [] ==> init[|init| - 1].at <= s.at
    ensures init != [] ==> (Before(init, t) < |init| <==> t <= init[|init| - 1].at)
    ensures Observed(init + [s], t) ==
            if Before(init, t) < |init| then Observed(init, t)
            else if s.at < t then None
            else if init != [] && s.at - init[|init| - 1].at <= SENTINEL_GAP then
              Some(NormalizeStatus(init[|init| - 1].raw))
            else if s.at == t then Some(NormalizeStatus(s.raw))
            else None
  {
    var all := init + [s];
    forall i, j | 0 <= i < j < |init| ensures init[i].at <= init[j].at {
      assert all[i].at <= all[j].at;
    }
    if init != [] { assert all[|init| - 1].at <= all[|init|].at; }
    BeforeSnoc(init, s, t);
  }

  /** A later sample does not change what is read where samples already reach. */
  lemma LookupEarlier(runs: seq<Run>, at: Tick, status: Status, t: Tick)
    requires runs != [] && t <= Last(runs).until <= at
    ensures Lookup(Extend(runs, at, status), t) == Lookup(runs, t)
  {
    LookupSame(runs, Extend(runs, at, status), t);
  }

  /** Past every earlier sample, only the newest one and the silence before it matter. */
  lemma LookupNewest(runs: seq<Run>, at: Tick, status: Status, t: Tick)
    requires WellFormed(runs)
    requires runs != [] ==> Last(runs).until <= at && Last(runs).until < t
    ensures Lookup(Extend(runs, at, status), t) ==
            if at < t then None
            else if runs != [] && at - Last(runs).until <= SENTINEL_GAP then Some(Last(runs).status)
            else if at == t then Some(status)
            else None
  {
    WellFormedEnds(runs);
    var out := Extend(runs, at, status);
    if runs == [] {
      assert out[1..] == [];
    } else {
      LookupSkips(out, |runs| - 1, t);
      var tail := out[|runs| - 1..];
      assert tail[0].from == Last(runs).from <= Last(runs).until && tail[0].status == Last(runs).status;
      if |tail| > 1 {
        assert tail[1..] == [Run(at, at, status)] && tail[1..][1..] == [];
        assert Lookup(tail[1..], t) == if at == t then Some(status) else None;
      } else {
        assert tail[1..] == [];
      }
    }
  }

  lemma {:induction false} BeforeSnoc(init: seq<Sample>, s: Sample, t: Tick)
    requires InOrder(init + [s])
    ensures Before(init + [s], t) ==
            if Before(init, t) < |init| then Before(init, t) else if s.at < t then |init| + 1 else |init|
    ensures Before(init, t) < |init| ==> init[Before(init, t)].at >= t
    ensures forall k :: 0 <= k < Before(init, t) ==> init[k].at < t
    decreases |init|
  {
    if init == [] {
    } else {
      assert (init + [s])[1..] == init[1..] + [s];
      BeforeSnoc(init[1..], s, t);
    }
  }

  /** Runs that agree up to the first one ending at or after t are read alike. */
  lemma {:induction false} LookupSame(runs: seq<Run>, longer: seq<Run>, t: Tick)
    requires runs != [] && |runs| <= |longer|
    requires forall i :: 0 <= i < |runs| - 1 ==> longer[i] == runs[i]
    requires longer[|runs| - 1].from == Last(runs).from && longer[|runs| - 1].status == Last(runs).status
    requires t <= Last(runs).until && t <= longer[|runs| - 1].until
    ensures Lookup(longer, t) == Lookup(runs, t)
  {
    if |runs| > 1 && runs[0].until < t {
      LookupSame(runs[1..], longer[1..], t);
    }
  }
}
