/** linkage.go, buildLineage: tasks joined by origin_task, each labelled with the smallest
    task id of its group, by union-find with path compression. */
module Lineage {
  /** A Go int64. */
  newtype TaskId = x: int | -0x8000_0000_0000_0000 <= x < 0x8000_0000_0000_0000

  /** Every task of the snapshot with the origin_task values its refs and its events' refs name. */
  type Origins = map<TaskId, seq<TaskId>>

  // ---- the graph the groups come from

  /** Task a names task b as an origin, and b is in the snapshot. */
  ghost predicate Edge(tasks: Origins, a: TaskId, b: TaskId) {
    a in tasks && b in tasks && b > 0 && b in tasks[a]
  }

  ghost predicate Adjacent(tasks: Origins, a: TaskId, b: TaskId) {
    Edge(tasks, a, b) || Edge(tasks, b, a)
  }

  ghost predicate Path(tasks: Origins, p: seq<TaskId>) {
    && p != [] && p[0] in tasks
    && forall i, j :: 0 <= i < |p| && j == i + 1 < |p| ==> Adjacent(tasks, p[i], p[j])
  }

  ghost predicate PathBetween(tasks: Origins, p: seq<TaskId>, a: TaskId, b: TaskId) {
    Path(tasks, p) && p[0] == a && p[|p| - 1] == b
  }

  ghost predicate Connected(tasks: Origins, a: TaskId, b: TaskId) {
    exists p :: PathBetween(tasks, p, a, b)
  }

  /** What buildLineage owes every task: the least id of its connected component. */
  ghost predicate LeastConnected(tasks: Origins, id: TaskId, root: TaskId) {
    Connected(tasks, id, root) && forall y :: Connected(tasks, id, y) ==> root <= y
  }

  // ---- the parent map

  type Parents = map<TaskId, TaskId>

  /** Links point strictly down: this is why find terminates. */
  ghost predicate Downward(parent: Parents) {
    forall x :: x in parent ==> parent[x] <= x
  }

  ghost function Root(parent: Parents, x: TaskId): TaskId
    requires Downward(parent)
    decreases x as int + 0x8000_0000_0000_0000
  {
    if x in parent && parent[x] != x then Root(parent, parent[x]) else x
  }

  class Builder {
    var parent: Parents

    constructor ()
      ensures parent == map[]
    {
      parent := map[];
    }

    /** Returns x's root and points every link on the way straight at it. */
    method Find(x: TaskId) returns (r: TaskId)
      requires Downward(parent)
      modifies this
      ensures Downward(parent)
      ensures r == Root(old(parent), x) && r <= x
      ensures forall y :: Root(parent, y) == Root(old(parent), y)
      ensures x in old(parent) ==> x in parent && (parent[x] == r)
      decreases x as int + 0x8000_0000_0000_0000
    {
      if x in parent && parent[x] != x {
        r := Find(parent[x]);
        RootIsRoot(parent, x);
        Compressing(parent, x);
        parent := parent[x := r];
        return r;
      }
      return x;
    }

    method Union(a: TaskId, b: TaskId)
      requires Downward(parent)
      modifies this
      ensures Downward(parent)
      ensures var ra, rb := Root(old(parent), a), Root(old(parent), b);
              forall y :: Root(parent, y) ==
                          var r := Root(old(parent), y);
                          if r == ra || r == rb then (if ra < rb then ra else rb) else r
    {
      var ra := Find(a);
      var rb := Find(b);
      if ra == rb { return; }
      RootIsRoot(parent, a);
      RootIsRoot(parent, b);
      if ra < rb {
        Linking(parent, rb, ra);
        parent := parent[rb := ra];
      } else {
        Linking(parent, ra, rb);
        parent := parent[ra := rb];
      }
    }

    /** One round of the pass: task id and the origins it names. */
    method JoinOrigins(tasks: Origins, id: TaskId)
      requires id in tasks
      requires Downward(parent) && Sound(tasks, parent)
      modifies this
      ensures Downward(parent) && Sound(tasks, parent)
      ensures Joined(tasks, parent, id, |tasks[id]|)
      ensures Coarser(old(parent), parent)
    {
      var r := Find(id);
      Compressing(parent, id);
      parent := parent[id := r];
      var origins := tasks[id];
      for j := 0 to |origins|
        invariant Downward(parent) && Sound(tasks, parent)
        invariant Joined(tasks, parent, id, j)
        invariant Coarser(old(parent), parent)
      {
        var origin := origins[j];
        if origin > 0 && origin in tasks {
          ghost var was := parent;
          Union(id, origin);
          assert Edge(tasks, id, origin);
          JoinStaysSound(tasks, was, parent, id, origin);
          JoinedStays(tasks, was, parent, id, j);
        }
      }
    }

    /** The whole pass. The two orders are the ones the runtime happens to range over the
        task map in; each must list every task, and nothing else is known of them. */
    method BuildLineage(tasks: Origins, order: seq<TaskId>, reading: seq<TaskId>)
      returns (lineage: map<TaskId, TaskId>)
      requires forall id :: id in order <==> id in tasks
      requires forall id :: id in reading <==> id in tasks
      requires parent == map[]
      modifies this
      ensures lineage.Keys == tasks.Keys
      ensures forall id :: id in tasks ==> LeastConnected(tasks, id, lineage[id])
    {
      forall id | id in tasks ensures Connected(tasks, id, Root(parent, id)) { Reflexive(tasks, id); }
      for i := 0 to |order|
        invariant Downward(parent) && Sound(tasks, parent)
        invariant forall k :: 0 <= k < i ==> Joined(tasks, parent, order[k], |tasks[order[k]]|)
      {
        ghost var was := parent;
        JoinOrigins(tasks, order[i]);
        forall k | 0 <= k < i ensures Joined(tasks, parent, order[k], |tasks[order[k]]|) {
          JoinedStays(tasks, was, parent, order[k], |tasks[order[k]]|);
        }
      }
      AllJoined(tasks, parent, order);
      lineage := ReadRoots(tasks, reading);
    }

    /** Each task's root, once every edge is joined. */
    method ReadRoots(tasks: Origins, reading: seq<TaskId>) returns (lineage: map<TaskId, TaskId>)
      requires forall id :: id in reading <==> id in tasks
      requires Downward(parent) && Sound(tasks, parent) && Complete(tasks, parent)
      modifies this
      ensures lineage.Keys == tasks.Keys
      ensures forall id :: id in tasks ==> LeastConnected(tasks, id, lineage[id])
    {
      lineage := map[];
      for i := 0 to |reading|
        invariant Downward(parent) && forall y :: Root(parent, y) == Root(old(parent), y)
        invariant lineage.Keys == set k | 0 <= k < i :: reading[k]
        invariant forall id :: id in lineage ==> lineage[id] == Root(old(parent), id)
      {
        var r := Find(reading[i]);
        lineage := lineage[reading[i] := r];
      }
      forall id | id in tasks ensures LeastConnected(tasks, id, lineage[id]) {
        assert id in reading;
        RootIsLeast(tasks, old(parent), id);
      }
    }
  }

  /** No group is ever split. */
  ghost predicate Coarser(was: Parents, parent: Parents)
    requires Downward(was) && Downward(parent)
  {
    forall x, y :: Root(was, x) == Root(was, y) ==> Root(parent, x) == Root(parent, y)
  }

  /** id shares a root with the first n origins it names. */
  ghost predicate Joined(tasks: Origins, parent: Parents, id: TaskId, n: nat)
    requires id in tasks && n <= |tasks[id]| && Downward(parent)
  {
    forall m :: 0 <= m < n && Edge(tasks, id, tasks[id][m]) ==> Root(parent, id) == Root(parent, tasks[id][m])
  }

  lemma JoinedStays(tasks: Origins, was: Parents, parent: Parents, id: TaskId, n: nat)
    requires id in tasks && n <= |tasks[id]| && Downward(was) && Downward(parent)
    requires Coarser(was, parent) && Joined(tasks, was, id, n)
    ensures Joined(tasks, parent, id, n)
  {}

  lemma AllJoined(tasks: Origins, parent: Parents, order: seq<TaskId>)
    requires forall id :: id in order <==> id in tasks
    requires Downward(parent)
    requires forall k :: 0 <= k < |order| ==> Joined(tasks, parent, order[k], |tasks[order[k]]|)
    ensures Complete(tasks, parent)
  {
    forall a, b | Edge(tasks, a, b) ensures Root(parent, a) == Root(parent, b) {
      var k :| 0 <= k < |order| && order[k] == a;
      var m :| 0 <= m < |tasks[a]| && tasks[a][m] == b;
    }
  }

  /** Every task is connected to its root. */
  ghost predicate Sound(tasks: Origins, parent: Parents)
    requires Downward(parent)
  {
    forall id :: id in tasks ==> Connected(tasks, id, Root(parent, id))
  }

  /** The two ends of every edge share a root. */
  ghost predicate Complete(tasks: Origins, parent: Parents)
    requires Downward(parent)
  {
    forall a, b :: Edge(tasks, a, b) ==> Root(parent, a) == Root(parent, b)
  }

  // ---- roots under the two map updates

  lemma {:induction false} RootIsRoot(parent: Parents, x: TaskId)
    requires Downward(parent)
    ensures var r := Root(parent, x);
            r <= x && (r in parent ==> parent[r] == r) && Root(parent, r) == r
    decreases x as int + 0x8000_0000_0000_0000
  {
    if x in parent && parent[x] != x { RootIsRoot(parent, parent[x]); }
  }

  lemma Compressing(parent: Parents, x: TaskId)
    requires Downward(parent)
    ensures Downward(parent[x := Root(parent, x)])
    ensures forall y :: Root(parent[x := Root(parent, x)], y) == Root(parent, y)
  {
    RootIsRoot(parent, x);
    forall y ensures Root(parent[x := Root(parent, x)], y) == Root(parent, y) { CompressingAt(parent, x, y); }
  }

  lemma {:induction false} CompressingAt(parent: Parents, x: TaskId, y: TaskId)
    requires Downward(parent) && Downward(parent[x := Root(parent, x)])
    ensures Root(parent[x := Root(parent, x)], y) == Root(parent, y)
    decreases y as int + 0x8000_0000_0000_0000
  {
    RootIsRoot(parent, x);
    if y == x {
      if Root(parent, x) != x { CompressingAt(parent, x, Root(parent, x)); }
    } else if y in parent && parent[y] != y {
      CompressingAt(parent, x, parent[y]);
    }
  }

  lemma Linking(parent: Parents, high: TaskId, low: TaskId)
    requires Downward(parent) && low < high && Root(parent, high) == high && Root(parent, low) == low
    ensures Downward(parent[high := low])
    ensures forall y :: Root(parent[high := low], y) == (if Root(parent, y) == high then low else Root(parent, y))
  {
    forall y ensures Root(parent[high := low], y) == (if Root(parent, y) == high then low else Root(parent, y)) {
      LinkingAt(parent, high, low, y);
    }
  }

  lemma {:induction false} LinkingAt(parent: Parents, high: TaskId, low: TaskId, y: TaskId)
    requires Downward(parent) && low < high && Root(parent, high) == high && Root(parent, low) == low
    requires Downward(parent[high := low])
    ensures Root(parent[high := low], y) == (if Root(parent, y) == high then low else Root(parent, y))
    decreases y as int + 0x8000_0000_0000_0000
  {
    if y == high {
      LinkingAt(parent, high, low, low);
    } else if y in parent && parent[y] != y {
      LinkingAt(parent, high, low, parent[y]);
    }
  }

  // ---- connectivity

  lemma Reflexive(tasks: Origins, a: TaskId)
    requires a in tasks
    ensures Connected(tasks, a, a)
  {
    assert PathBetween(tasks, [a], a, a);
  }

  lemma Symmetric(tasks: Origins, a: TaskId, b: TaskId)
    requires Connected(tasks, a, b)
    ensures Connected(tasks, b, a)
  {
    var p :| PathBetween(tasks, p, a, b);
    var q := seq(|p|, i requires 0 <= i < |p| => p[|p| - 1 - i]);
    forall i, j | 0 <= i < |q| && j == i + 1 < |q| ensures Adjacent(tasks, q[i], q[j]) {
      assert Adjacent(tasks, p[|p| - 1 - j], p[|p| - 1 - i]);
    }
    PathEndsInTasks(tasks, p);
    assert PathBetween(tasks, q, b, a);
  }

  lemma PathEndsInTasks(tasks: Origins, p: seq<TaskId>)
    requires Path(tasks, p)
    ensures p[|p| - 1] in tasks
  {
    if |p| > 1 { assert Adjacent(tasks, p[|p| - 2], p[|p| - 1]); }
  }

  lemma Transitive(tasks: Origins, a: TaskId, b: TaskId, c: TaskId)
    requires Connected(tasks, a, b) && Connected(tasks, b, c)
    ensures Connected(tasks, a, c)
  {
    var p :| PathBetween(tasks, p, a, b);
    var q :| PathBetween(tasks, q, b, c);
    var r := p + q[1..];
    forall i, j | 0 <= i < |r| && j == i + 1 < |r| ensures Adjacent(tasks, r[i], r[j]) {
      if j < |p| {
        assert Adjacent(tasks, p[i], p[j]);
      } else {
        assert r[i] == q[i - |p| + 1] && r[j] == q[j - |p| + 1];
        assert Adjacent(tasks, q[i - |p| + 1], q[j - |p| + 1]);
      }
    }
    assert PathBetween(tasks, r, a, c);
  }

  lemma EdgeConnects(tasks: Origins, a: TaskId, b: TaskId)
    requires Edge(tasks, a, b)
    ensures Connected(tasks, a, b)
  {
    assert PathBetween(tasks, [a, b], a, b);
  }

  /** Joining the groups of two adjacent tasks keeps every task connected to its root. */
  lemma JoinStaysSound(tasks: Origins, was: Parents, parent: Parents, a: TaskId, b: TaskId)
    requires Downward(was) && Downward(parent) && Sound(tasks, was) && Edge(tasks, a, b)
    requires var ra, rb := Root(was, a), Root(was, b);
             forall y :: Root(parent, y) ==
                         var r := Root(was, y);
                         if r == ra || r == rb then (if ra < rb then ra else rb) else r
    ensures Sound(tasks, parent)
  {
    var ra, rb := Root(was, a), Root(was, b);
    EdgeConnects(tasks, a, b);
    Symmetric(tasks, a, ra);
    Transitive(tasks, ra, a, b);
    Transitive(tasks, ra, b, rb);
    Symmetric(tasks, ra, rb);
    forall y | y in tasks ensures Connected(tasks, y, Root(parent, y)) {
      var r := Root(was, y);
      assert Connected(tasks, y, r);
      if r == ra { Transitive(tasks, y, ra, rb); } else if r == rb { Transitive(tasks, y, rb, ra); }
    }
  }

  /** With every edge joined, a root is the least id its task is connected to. */
  lemma RootIsLeast(tasks: Origins, parent: Parents, id: TaskId)
    requires Downward(parent) && Sound(tasks, parent) && Complete(tasks, parent) && id in tasks
    ensures LeastConnected(tasks, id, Root(parent, id))
  {
    forall y | Connected(tasks, id, y) ensures Root(parent, id) <= y {
      var p :| PathBetween(tasks, p, id, y);
      SameRootAlong(tasks, parent, p, |p| - 1);
      RootIsRoot(parent, y);
    }
  }

  lemma {:induction false} SameRootAlong(tasks: Origins, parent: Parents, p: seq<TaskId>, n: nat)
    requires Downward(parent) && Complete(tasks, parent) && Path(tasks, p) && n < |p|
    ensures Root(parent, p[n]) == Root(parent, p[0])
  {
    if n > 0 {
      SameRootAlong(tasks, parent, p, n - 1);
      assert Adjacent(tasks, p[n - 1], p[n]);
    }
  }
}
