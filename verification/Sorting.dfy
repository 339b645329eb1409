/** std::sort with a key: some ascending rearrangement. Clients rely on nothing else,
    so the order of equal keys stays open. */
module Sorting {

  ghost predicate SortedBy<A>(key: A -> int, s: seq<A>) {
    forall i, j :: 0 <= i < j < |s| ==> key(s[i]) <= key(s[j])
  }

  function Insert<A>(key: A -> int, s: seq<A>, x: A): (r: seq<A>)
    ensures multiset(r) == multiset(s) + multiset{x} && |r| == |s| + 1
  {
    if s == [] then [x]
    else
      var n := |s| - 1;
      assert s == s[..n] + [s[n]];
      if key(s[n]) <= key(x) then s + [x] else Insert(key, s[..n], x) + [s[n]]
  }

  lemma {:induction false} InsertKeepsSorted<A>(key: A -> int, s: seq<A>, x: A)
    requires SortedBy(key, s)
    ensures SortedBy(key, Insert(key, s, x))
  {
    if s != [] && key(s[|s| - 1]) > key(x) {
      var n := |s| - 1;
      var init := s[..n];
      var r := Insert(key, init, x);
      InsertKeepsSorted(key, init, x);
      forall y | y in r ensures key(y) <= key(s[n]) {
        assert y in multiset(r);
        assert y in init || y == x;
      }
      AppendKeepsSorted(key, r, s[n]);
    }
  }

  lemma AppendKeepsSorted<A>(key: A -> int, r: seq<A>, y: A)
    requires SortedBy(key, r) && forall x :: x in r ==> key(x) <= key(y)
    ensures SortedBy(key, r + [y])
  {
  }

  method SortBy<A>(key: A -> int, s: seq<A>) returns (r: seq<A>)
    ensures SortedBy(key, r) && multiset(r) == multiset(s) && |r| == |s|
  {
    r := [];
    for i := 0 to |s|
      invariant SortedBy(key, r) && multiset(r) == multiset(s[..i]) && |r| == i
    {
      assert s[..i + 1] == s[..i] + [s[i]];
      InsertKeepsSorted(key, r, s[i]);
      r := Insert(key, r, s[i]);
    }
    assert s[..|s|] == s;
  }
}
