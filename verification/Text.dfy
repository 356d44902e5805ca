/** The string operations the text builders call: search, containment and decimal rendering. */
module Text {
  import opened Common

  /** pattern occurs in s at i. */
  predicate At(s: string, i: nat, pattern: string) {
    i + |pattern| <= |s| && s[i..i + |pattern|] == pattern
  }

  ghost predicate Contains(s: string, pattern: string) {
    exists i: nat :: At(s, i, pattern)
  }

  /** strings.Index from position i on. */
  function IndexFrom(s: string, pattern: string, i: nat): (r: Option<nat>)
    requires i <= |s|
    ensures r.Some? ==> i <= r.value && At(s, r.value, pattern)
    ensures r.Some? ==> forall j :: i <= j < r.value ==> !At(s, j, pattern)
    ensures r.None? ==> forall j :: i <= j ==> !At(s, j, pattern)
    decreases |s| - i
  {
    if At(s, i, pattern) then Some(i)
    else if i == |s| then None
    else IndexFrom(s, pattern, i + 1)
  }

  function Index(s: string, pattern: string): (r: Option<nat>)
    ensures r.Some? <==> Contains(s, pattern)
    ensures r.Some? ==> At(s, r.value, pattern) && forall j :: 0 <= j < r.value ==> !At(s, j, pattern)
  {
    IndexFrom(s, pattern, 0)
  }

  lemma AtIsPointwise(s: string, i: nat, pattern: string)
    ensures At(s, i, pattern) <==>
            (i + |pattern| <= |s| && forall k :: 0 <= k < |pattern| ==> s[i + k] == pattern[k])
  {
    if i + |pattern| <= |s| {
      if s[i..i + |pattern|] == pattern {
        forall k | 0 <= k < |pattern| ensures s[i + k] == pattern[k] {
          assert s[i..i + |pattern|][k] == s[i + k];
        }
      }
    }
  }

  /** An occurrence in a + b that avoids b, or avoids a, is an occurrence in the other part. */
  lemma AtInConcat(a: string, b: string, i: nat, pattern: string)
    ensures i + |pattern| <= |a| ==> (At(a + b, i, pattern) <==> At(a, i, pattern))
    ensures |a| <= i ==> (At(a + b, i, pattern) <==> At(b, i - |a|, pattern))
  {
    if i + |pattern| <= |a| { assert (a + b)[i..i + |pattern|] == a[i..i + |pattern|]; }
    if |a| <= i && i + |pattern| <= |a + b| {
      assert (a + b)[i..i + |pattern|] == b[i - |a|..i - |a| + |pattern|];
    }
  }

  /** A pattern without c cannot straddle a c. */
  lemma Barrier(a: string, c: char, b: string, pattern: string)
    requires pattern != [] && c !in pattern
    ensures forall i: nat :: At(a + [c] + b, i, pattern) ==> i + |pattern| <= |a| || |a| < i
    ensures Contains(a + [c] + b, pattern) <==> (Contains(a, pattern) || Contains(b, pattern))
  {
    var s := a + [c] + b;
    assert s == a + ([c] + b) && s == (a + [c]) + b;
    forall i: nat | i <= |a| < i + |pattern| ensures !At(s, i, pattern) {
      AtIsPointwise(s, i, pattern);
      var k := |a| - i;
      assert pattern[k] in pattern;
      if i + |pattern| <= |s| { assert s[i + k] == c; }
    }
    forall i: nat | At(s, i, pattern) ensures Contains(a, pattern) || Contains(b, pattern) {
      if i + |pattern| <= |a| { AtInConcat(a, [c] + b, i, pattern); }
      else { AtInConcat(a + [c], b, i, pattern); }
    }
    forall i: nat | At(a, i, pattern) ensures At(s, i, pattern) { AtInConcat(a, [c] + b, i, pattern); }
    forall i: nat | At(b, i, pattern) ensures At(s, i + |a| + 1, pattern) {
      AtInConcat(a + [c], b, i + |a| + 1, pattern);
    }
  }

  lemma WithoutFirstChar(s: string, pattern: string)
    requires pattern != [] && pattern[0] !in s
    ensures !Contains(s, pattern)
  {
    forall i: nat ensures !At(s, i, pattern) {
      AtIsPointwise(s, i, pattern);
      if i + |pattern| <= |s| { assert s[i + 0] != pattern[0]; }
    }
  }

  lemma PartsClean(a: string, b: string, pattern: string)
    requires !Contains(a + b, pattern)
    ensures !Contains(a, pattern) && !Contains(b, pattern)
  {
    forall i: nat ensures !At(a, i, pattern) {
      AtInConcat(a, b, i, pattern);
      assert !At(a + b, i, pattern);
    }
    forall i: nat ensures !At(b, i, pattern) {
      AtInConcat(a, b, i + |a|, pattern);
      assert !At(a + b, i + |a|, pattern);
    }
  }

  // ---- decimals

  function Decimal(n: nat): (s: string)
    ensures s != [] && forall c :: c in s ==> '0' <= c <= '9'
  {
    if n < 10 then [('0' as int + n) as char] else Decimal(n / 10) + [('0' as int + n % 10) as char]
  }

  /** A decimal names its number. */
  lemma {:induction false} DecimalNames(n: nat, m: nat)
    requires Decimal(n) == Decimal(m)
    ensures n == m
  {
    if n >= 10 && m >= 10 {
      var a, b := Decimal(n / 10), Decimal(m / 10);
      assert Decimal(n)[..|Decimal(n)| - 1] == a && Decimal(m)[..|Decimal(m)| - 1] == b;
      DecimalNames(n / 10, m / 10);
      assert Decimal(n)[|Decimal(n)| - 1] == Decimal(m)[|Decimal(m)| - 1];
    } else if n < 10 && m < 10 {
      assert Decimal(n)[0] == Decimal(m)[0];
    }
  }
}
