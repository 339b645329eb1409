/** Sums of an integer measure over a sequence. */
module Sums {

  ghost function Sum<A>(f: A -> int, s: seq<A>): int {
    if s == [] then 0 else Sum(f, s[..|s| - 1]) + f(s[|s| - 1])
  }

  lemma SumAppend<A>(f: A -> int, s: seq<A>, x: A)
    ensures Sum(f, s + [x]) == Sum(f, s) + f(x)
  {
    assert (s + [x])[..|s|] == s;
  }

  lemma {:induction false} SumConcat<A>(f: A -> int, s: seq<A>, r: seq<A>)
    ensures Sum(f, s + r) == Sum(f, s) + Sum(f, r)
  {
    if r == [] {
      assert s + r == s;
    } else {
      var r', x := r[..|r| - 1], r[|r| - 1];
      assert s + r == s + r' + [x];
      SumConcat(f, s, r');
      SumAppend(f, s + r', x);
    }
  }

  lemma {:induction false} SumUpdate<A>(f: A -> int, s: seq<A>, i: nat, x: A)
    requires i < |s|
    ensures Sum(f, s[i := x]) == Sum(f, s) - f(s[i]) + f(x)
  {
    var n := |s| - 1;
    if i == n {
      assert s[i := x][..n] == s[..n];
    } else {
      assert s[i := x][..n] == s[..n][i := x];
      SumUpdate(f, s[..n], i, x);
    }
  }

  lemma {:induction false} SumMonotone<A>(f: A -> int, g: A -> int, s: seq<A>)
    requires forall i :: 0 <= i < |s| ==> f(s[i]) <= g(s[i])
    ensures Sum(f, s) <= Sum(g, s)
  {
    if s != [] { SumMonotone(f, g, s[..|s| - 1]); }
  }

  /** A sum of non-negative terms is at least any one of them. */
  lemma {:induction false} SumAtLeast<A>(f: A -> int, s: seq<A>, i: nat)
    requires i < |s| && forall j :: 0 <= j < |s| ==> f(s[j]) >= 0
    ensures Sum(f, s) >= f(s[i])
  {
    var n := |s| - 1;
    SumNonNegative(f, s[..n]);
    if i < n { SumAtLeast(f, s[..n], i); }
  }

  lemma {:induction false} SumNonNegative<A>(f: A -> int, s: seq<A>)
    requires forall j :: 0 <= j < |s| ==> f(s[j]) >= 0
    ensures Sum(f, s) >= 0
  {
    if s != [] { SumNonNegative(f, s[..|s| - 1]); }
  }

  lemma {:induction false} SumZero<A>(f: A -> int, s: seq<A>)
    requires forall j :: 0 <= j < |s| ==> f(s[j]) == 0
    ensures Sum(f, s) == 0
  {
    if s != [] { SumZero(f, s[..|s| - 1]); }
  }

  lemma {:induction false} SumSame<A>(f: A -> int, g: A -> int, s: seq<A>)
    requires forall i :: 0 <= i < |s| ==> f(s[i]) == g(s[i])
    ensures Sum(f, s) == Sum(g, s)
  {
    if s != [] { SumSame(f, g, s[..|s| - 1]); }
  }

  /** Taking out one element. */
  lemma Remove<A>(f: A -> int, b: seq<A>, k: nat) returns (rest: seq<A>)
    requires k < |b|
    ensures |rest| == |b| - 1 && multiset(rest) + multiset{b[k]} == multiset(b)
    ensures Sum(f, rest) + f(b[k]) == Sum(f, b)
  {
    var x, tail := b[k], b[k + 1..];
    rest := b[..k] + tail;
    assert b == b[..k] + [x] + tail;
    SumConcat(f, b[..k], tail);
    SumConcat(f, b[..k] + [x], tail);
    SumAppend(f, b[..k], x);
  }

  /** Sums do not depend on the order. */
  lemma {:induction false} SumPermutation<A>(f: A -> int, a: seq<A>, b: seq<A>)
    requires multiset(a) == multiset(b)
    ensures Sum(f, a) == Sum(f, b)
    decreases |a|
  {
    if a == [] {
      assert |multiset(b)| == 0;
    } else {
      var n := |a| - 1;
      assert a[n] in multiset(b);
      var k :| 0 <= k < |b| && b[k] == a[n];
      var rest := Remove(f, b, k);
      assert a == a[..n] + [a[n]];
      assert multiset(a[..n]) == multiset(a) - multiset{a[n]} && multiset(rest) == multiset(b) - multiset{b[k]};
      SumPermutation(f, a[..n], rest);
    }
  }
}
