/** linkage.go, dist: nearest-rank percentiles of observed values. */
module Percentiles {
  import opened Common

  datatype Dist = Dist(n: nat, p50: real, p90: real, max: real)

  ghost predicate LowerBound(v: seq<real>, b: real) {
    forall i :: 0 <= i < |v| ==> b <= v[i]
  }

  ghost predicate Ascending(v: seq<real>) {
    v == [] || (LowerBound(v[1..], v[0]) && Ascending(v[1..]))
  }

  lemma {:induction false} AscendingAt(v: seq<real>, i: nat, j: nat)
    requires Ascending(v) && i <= j < |v|
    ensures v[i] <= v[j]
  {
    if i > 0 {
      AscendingAt(v[1..], i - 1, j - 1);
    } else if j > 0 {
      assert v[j] == v[1..][j - 1];
    }
  }

  lemma FirstIsLeast(v: seq<real>)
    requires v != [] && Ascending(v)
    ensures LowerBound(v, v[0])
  {
    assert forall i :: 0 < i < |v| ==> v[i] == v[1..][i - 1];
  }

  function Insert(v: seq<real>, x: real): (r: seq<real>)
    requires Ascending(v)
    ensures Ascending(r) && multiset(r) == multiset(v) + multiset{x}
    ensures forall b :: LowerBound(v, b) && b <= x ==> LowerBound(r, b)
  {
    if v == [] then [x]
    else if x <= v[0] then
      FirstIsLeast(v);
      PrependSmallest(v, x);
      [x] + v
    else
      var rest := Insert(v[1..], x);
      PrependSmallest(rest, v[0]);
      BoundedTail(v);
      [v[0]] + rest
  }

  lemma PrependSmallest(v: seq<real>, x: real)
    requires Ascending(v) && LowerBound(v, x)
    ensures Ascending([x] + v) && multiset([x] + v) == multiset(v) + multiset{x}
    ensures forall b :: LowerBound(v, b) && b <= x ==> LowerBound([x] + v, b)
  {
    assert ([x] + v)[1..] == v;
  }

  lemma BoundedTail(v: seq<real>)
    requires v != []
    ensures multiset(v) == multiset(v[1..]) + multiset{v[0]}
    ensures forall b :: LowerBound(v, b) ==> b <= v[0] && LowerBound(v[1..], b)
  {
    assert v == [v[0]] + v[1..];
    assert forall i :: 0 <= i < |v| - 1 ==> v[1..][i] == v[i + 1];
  }

  /** What sort.Float64s leaves in the copy. */
  function Sorted(values: seq<real>): (v: seq<real>)
    ensures Ascending(v) && multiset(v) == multiset(values) && |v| == |values|
  {
    if values == [] then []
    else
      assert values == [values[0]] + values[1..];
      var v := Insert(Sorted(values[1..]), values[0]);
      assert |v| == |multiset(v)| == |multiset(values)| == |values|;
      v
  }

  /** ceil(num/den * n) - 1, not below 0. */
  function RankIndex(num: nat, den: nat, n: nat): (i: nat)
    requires den > 0
  {
    Max(0, (num * n + den - 1) / den - 1)
  }

  method Percentiles(values: seq<real>) returns (d: Option<Dist>)
    ensures d.None? <==> values == []
    ensures d.Some? ==> d.value.n == |values|
    ensures d.Some? ==> NearestRank(values, 1, 2, d.value.p50)
    ensures d.Some? ==> NearestRank(values, 9, 10, d.value.p90)
    ensures d.Some? ==> d.value.p50 <= d.value.p90 <= d.value.max
    ensures d.Some? ==> d.value.max in values && forall x :: x in values ==> x <= d.value.max
    ensures d == Summary(values)
  {
    hide NearestRank, RankIndex;
    if |values| == 0 { return None; }
    var v := Sorted(values);
    MiddleBelowHigh(|v|);
    RankIsNearest(values, 1, 2);
    RankIsNearest(values, 9, 10);
    var middle, high := RankIndex(1, 2, |v|), RankIndex(9, 10, |v|);
    d := Some(Dist(|v|, v[middle], v[high], v[|v| - 1]));
    AscendingAt(v, middle, high);
    AscendingAt(v, high, |v| - 1);
    LastIsMax(values);
  }

  lemma MiddleBelowHigh(n: nat)
    ensures RankIndex(1, 2, n) <= RankIndex(9, 10, n)
  {}

  lemma LastIsMax(values: seq<real>)
    requires values != []
    ensures var v := Sorted(values);
            v[|v| - 1] in values && forall x :: x in values ==> x <= v[|v| - 1]
  {
    hide Ascending, Insert;
    var v := Sorted(values);
    SameElements(v, values);
    var n := |v| - 1;
    assert v[n] in v;
    forall x | x in values ensures x <= v[n] {
      var i :| 0 <= i < |v| && v[i] == x;
      AscendingAt(v, i, n);
    }
  }

  lemma SameElements(v: seq<real>, w: seq<real>)
    requires multiset(v) == multiset(w)
    ensures forall x :: x in v <==> x in w
  {
    forall x ensures x in v <==> x in w { assert x in multiset(v) <==> x in multiset(w); }
  }

  function Summary(values: seq<real>): Option<Dist> {
    if values == [] then None
    else
      RankInRange(1, 2, |values|);
      RankInRange(9, 10, |values|);
      var v := Sorted(values);
      Some(Dist(|v|, v[RankIndex(1, 2, |v|)], v[RankIndex(9, 10, |v|)], v[|v| - 1]))
  }

  // ---- what a percentile means, on the values as given

  function AtMost(values: seq<real>, x: real): nat {
    if values == [] then 0 else (if values[0] <= x then 1 else 0) + AtMost(values[1..], x)
  }

  function Below(values: seq<real>, x: real): nat {
    if values == [] then 0 else (if values[0] < x then 1 else 0) + Below(values[1..], x)
  }

  /** p is one of the values; at least num/den of them are at most p, and fewer are below it. */
  ghost predicate NearestRank(values: seq<real>, num: nat, den: nat, p: real) {
    && p in values
    && den * AtMost(values, p) >= num * |values|
    && den * Below(values, p) < num * |values|
  }

  lemma RankIsNearest(values: seq<real>, num: nat, den: nat)
    requires values != [] && 0 < num <= den
    ensures RankIndex(num, den, |values|) < |values|
    ensures NearestRank(values, num, den, Sorted(values)[RankIndex(num, den, |values|)])
  {
    var v := Sorted(values);
    var i := RankIndex(num, den, |values|);
    RankInRange(num, den, |values|);
    var p := v[i];
    CountsAtRank(v, i);
    CountSorted(values, p);
    assert p in multiset(values);
    Scaled(den, i + 1, AtMost(values, p));
    Scaled(den, Below(values, p), i);
  }

  lemma Scaled(den: nat, a: nat, b: nat)
    requires a <= b
    ensures den * a <= den * b
  {}

  lemma RankInRange(num: nat, den: nat, n: nat)
    requires 0 < num <= den && n > 0
    ensures var i := RankIndex(num, den, n); i < n && den * (i + 1) >= num * n > den * i
  {
    var a := num * n;
    Scaled(n, num, den);
    assert 0 < a <= den * n;
    CeilBounds(a, den);
    var q := (a + den - 1) / den;
    if q <= 0 { Scaled(den, 0, -q); }
    if q - 1 >= n { Scaled(den, n, q - 1); }
  }

  lemma CeilBounds(a: nat, den: nat)
    requires den > 0
    ensures var q := (a + den - 1) / den; den * (q - 1) < a <= den * q
  {
    var q := (a + den - 1) / den;
    assert den * q <= a + den - 1 < den * q + den;
    assert den * (q - 1) == den * q - den;
  }

  /** In ascending order, v[i] has i+1 values at or before it and at most i below it. */
  lemma {:induction false} CountsAtRank(v: seq<real>, i: nat)
    requires Ascending(v) && i < |v|
    ensures AtMost(v, v[i]) >= i + 1 && Below(v, v[i]) <= i
  {
    if i > 0 {
      AscendingAt(v, 0, i);
      CountsAtRank(v[1..], i - 1);
    } else {
      NoneBelow(v[1..], v[0]);
    }
  }

  lemma {:induction false} NoneBelow(v: seq<real>, x: real)
    requires LowerBound(v, x)
    ensures Below(v, x) == 0
  {
    if v != [] { NoneBelow(v[1..], x); }
  }

  lemma {:induction false} CountInsert(v: seq<real>, y: real, x: real)
    requires Ascending(v)
    ensures AtMost(Insert(v, y), x) == AtMost(v, x) + (if y <= x then 1 else 0)
    ensures Below(Insert(v, y), x) == Below(v, x) + (if y < x then 1 else 0)
  {
    if v == [] {
      CountPrepend([], y, x);
    } else if y <= v[0] {
      CountPrepend(v, y, x);
    } else {
      CountInsert(v[1..], y, x);
      CountPrepend(Insert(v[1..], y), v[0], x);
    }
  }

  lemma CountPrepend(v: seq<real>, y: real, x: real)
    ensures AtMost([y] + v, x) == AtMost(v, x) + (if y <= x then 1 else 0)
    ensures Below([y] + v, x) == Below(v, x) + (if y < x then 1 else 0)
  {
    assert ([y] + v)[1..] == v;
  }

  lemma {:induction false} CountSorted(values: seq<real>, x: real)
    ensures AtMost(Sorted(values), x) == AtMost(values, x)
    ensures Below(Sorted(values), x) == Below(values, x)
  {
    if values != [] {
      CountSorted(values[1..], x);
      CountInsert(Sorted(values[1..]), values[0], x);
    }
  }

  // ---- the order of the input does not matter

  lemma OrderIrrelevant(values: seq<real>, others: seq<real>)
    requires multiset(values) == multiset(others)
    ensures Summary(values) == Summary(others)
  {
    AscendingUnique(Sorted(values), Sorted(others));
    assert |values| == |multiset(values)| == |others|;
  }

  lemma {:induction false} AscendingUnique(v: seq<real>, w: seq<real>)
    requires Ascending(v) && Ascending(w) && multiset(v) == multiset(w)
    ensures v == w
  {
    assert |v| == |multiset(v)| == |w|;
    if v != [] {
      LeastComesFirst(v, w);
      LeastComesFirst(w, v);
      assert v == [v[0]] + v[1..] && w == [w[0]] + w[1..];
      TailMultiset(v);
      TailMultiset(w);
      AscendingUnique(v[1..], w[1..]);
    }
  }

  lemma LeastComesFirst(v: seq<real>, w: seq<real>)
    requires v != [] && w != [] && Ascending(w) && multiset(v) == multiset(w)
    ensures w[0] <= v[0]
  {
    assert v[0] in multiset(w);
    var i :| 0 <= i < |w| && w[i] == v[0];
    AscendingAt(w, 0, i);
  }

  lemma TailMultiset(v: seq<real>)
    requires v != []
    ensures multiset(v[1..]) == multiset(v) - multiset{v[0]}
  {
    assert v == [v[0]] + v[1..];
  }
}
