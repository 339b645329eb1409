/** DistArray::sort: per-thread sorts, then rounds of pairwise merges between two buffers. */
module DistSort {
  import opened Options
  import opened PowersOfTwo
  import opened Sorting
  import opened Multiples
  import opened MergeRound
  import opened MergeRounds
  import opened MergeRoundsExact
  import opened RoundAccesses

  // ---------------------------------------------------------------- the per-thread sorts

  /** std::sort of one slice. */
  method SortSlice(data: array<int>, lo: nat, hi: nat)
    requires lo <= hi <= data.Length
    modifies data
    ensures Sorted(data[lo..hi]) && multiset(data[lo..hi]) == multiset(old(data[lo..hi]))
    ensures forall i :: 0 <= i < data.Length && !(lo <= i < hi) ==> data[i] == old(data[i])
  {
    ghost var was := data[..];
    var sorted := SortBy((x: int) => x, data[lo..hi]);
    assert Sorted(sorted);
    forall k | lo <= k < hi { data[k] := sorted[k - lo]; }
    assert data[lo..hi] == sorted && was[lo..hi] == old(data[lo..hi]);
  }

  /** s is was with the elements of each run in some order, and the given threads' runs sorted. */
  ghost predicate SortedFor(was: seq<int>, s: seq<int>, sub: nat, n: nat, threads: seq<nat>) {
    && n <= |s| == |was|
    && (forall i :: n <= i < |s| ==> s[i] == was[i])
    && (forall t: nat :: At(t, sub) < n ==> multiset(Run(s, sub, n, t)) == multiset(Run(was, sub, n, t)))
    && (forall t: nat :: t in threads && At(t, sub) < n ==> Sorted(Run(s, sub, n, t)))
  }

  /** The result of the per-thread sorts: every run is sorted, on its own. */
  ghost predicate RunsSorted(was: seq<int>, s: seq<int>, sub: nat, n: nat) {
    SortedFor(was, s, sub, n, []) && Runs(s, sub, n)
  }

  lemma OtherRun(s: seq<int>, s': seq<int>, sub: nat, n: nat, t: nat, u: nat)
    requires n <= |s| == |s'| && u != t && At(u, sub) < n
    requires forall i :: 0 <= i < |s| && !(At(t, sub) <= i < At(t, sub) + sub) ==> s'[i] == s[i]
    ensures Run(s', sub, n, u) == Run(s, sub, n, u)
  {
    if u < t { AtOrder(u, t, sub); } else { AtOrder(t, u, sub); }
  }

  /** s' is s with run t sorted. */
  ghost predicate RunIsSorted(s: seq<int>, s': seq<int>, sub: nat, n: nat, t: nat) {
    && n <= |s| == |s'|
    && (forall i :: 0 <= i < |s| && !(At(t, sub) <= i < Cut(At(t, sub) + sub, n)) ==> s'[i] == s[i])
    && (At(t, sub) < n ==> Sorted(Run(s', sub, n, t)) && multiset(Run(s', sub, n, t)) == multiset(Run(s, sub, n, t)))
  }

  lemma SortedForStep(was: seq<int>, s: seq<int>, s': seq<int>, sub: nat, n: nat, threads: seq<nat>, t: nat)
    requires SortedFor(was, s, sub, n, threads) && RunIsSorted(s, s', sub, n, t)
    ensures SortedFor(was, s', sub, n, threads + [t])
  {
    forall u: nat | At(u, sub) < n ensures multiset(Run(s', sub, n, u)) == multiset(Run(was, sub, n, u)) {
      if u != t { OtherRun(s, s', sub, n, t, u); }
    }
    forall u: nat | u in threads + [t] && At(u, sub) < n ensures Sorted(Run(s', sub, n, u)) {
      if u != t { OtherRun(s, s', sub, n, t, u); }
    }
  }

  lemma SliceIsRun(s: seq<int>, s': seq<int>, sub: nat, n: nat, t: nat, lo: nat, end: nat)
    requires n <= |s| == |s'| && lo == At(t, sub) < n && end == Cut(lo + sub, n)
    requires Sorted(s'[lo..end]) && multiset(s'[lo..end]) == multiset(s[lo..end])
    requires forall i :: 0 <= i < |s| && !(lo <= i < end) ==> s'[i] == s[i]
    ensures RunIsSorted(s, s', sub, n, t)
  {
  }

  /** One thread's share. The last thread's slice ends at n, which is no later than its run's end. */
  method SortRun(data: array<int>, sub: nat, n: nat, threads: nat, t: nat)
    requires n <= data.Length && n <= At(threads, sub) && t < threads
    modifies data
    ensures RunIsSorted(old(data[..]), data[..], sub, n, t)
  {
    ghost var was := data[..];
    AtOrder(t + 1, threads, sub);
    var start := At(t, sub);
    var end := if t == threads - 1 || start + sub > n then n else start + sub;
    if start < end {
      SortSlice(data, start, end);
      assert data[start..end] == data[..][start..end] && old(data[start..end]) == was[start..end];
      SliceIsRun(was, data[..], sub, n, t, start, end);
    }
  }

  method SortRuns(data: array<int>, sub: nat, n: nat, threads: nat, order: seq<nat>)
    requires n <= data.Length && n <= At(threads, sub) && IsOrder(order, threads)
    modifies data
    ensures RunsSorted(old(data[..]), data[..], sub, n)
  {
    ghost var was := data[..];
    for k := 0 to |order|
      invariant SortedFor(was, data[..], sub, n, order[..k])
    {
      assert order[..k + 1] == order[..k] + [order[k]];
      SortNext(data, sub, n, threads, order[k], was, order[..k]);
    }
    assert order[..|order|] == order;
    AllSorted(was, data[..], sub, n, threads, order);
  }

  method SortNext(data: array<int>, sub: nat, n: nat, threads: nat, t: nat, ghost was: seq<int>, ghost earlier: seq<nat>)
    requires SortedFor(was, data[..], sub, n, earlier) && n <= At(threads, sub) && t < threads
    modifies data
    ensures SortedFor(was, data[..], sub, n, earlier + [t])
  {
    ghost var before := data[..];
    SortRun(data, sub, n, threads, t);
    SortedForStep(was, before, data[..], sub, n, earlier, t);
  }

  lemma AllSorted(was: seq<int>, s: seq<int>, sub: nat, n: nat, threads: nat, order: seq<nat>)
    requires SortedFor(was, s, sub, n, order) && IsOrder(order, threads) && n <= At(threads, sub)
    ensures RunsSorted(was, s, sub, n)
  {
    forall k: nat | At(k, sub) < n ensures Sorted(Run(s, sub, n, k)) {
      if k >= threads { AtOrder(threads, k, sub); }
      assert k in order;
    }
  }

  lemma JoinRun(was: seq<int>, s: seq<int>, sub: nat, n: nat, k: nat, lo: nat, end: nat)
    requires n <= |s| == |was| && lo == At(k, sub) < n && end == Cut(lo + sub, n) && multiset(s[..lo]) == multiset(was[..lo])
    requires multiset(Run(s, sub, n, k)) == multiset(Run(was, sub, n, k))
    ensures multiset(s[..end]) == multiset(was[..end])
  {
    assert s[..end] == s[..lo] + Run(s, sub, n, k) && was[..end] == was[..lo] + Run(was, sub, n, k);
  }

  lemma {:induction false} PrefixSorted(was: seq<int>, s: seq<int>, sub: nat, n: nat, k: nat)
    requires n <= |s| == |was|
    requires forall t: nat :: At(t, sub) < n ==> multiset(Run(s, sub, n, t)) == multiset(Run(was, sub, n, t))
    ensures multiset(s[..Cut(At(k, sub), n)]) == multiset(was[..Cut(At(k, sub), n)])
  {
    if k > 0 {
      PrefixSorted(was, s, sub, n, k - 1);
      var lo := At(k - 1, sub);
      if lo < n { JoinRun(was, s, sub, n, k - 1, lo, Cut(lo + sub, n)); }
    }
  }

  /** The per-thread sorts keep the elements. */
  lemma RunsSortedPermutes(was: seq<int>, s: seq<int>, sub: nat, n: nat, threads: nat)
    requires RunsSorted(was, s, sub, n) && n <= At(threads, sub)
    ensures multiset(s[..n]) == multiset(was[..n])
  {
    PrefixSorted(was, s, sub, n, threads);
  }

  // ---------------------------------------------------------------- the whole sort

  /** The largest power of two that the thread count allows. */
  function MergeThreads(actual: nat): (t: nat)
    requires actual > 0
    ensures t <= actual < 2 * t && IsPow2(t)
  {
    var t := Up2(actual);
    HalfPow2(t);
    if actual < t then t / 2 else t
  }

  /** Elements per thread. */
  function SubSize(capacity: nat, n: nat, threads: nat): (sub: nat)
    requires threads > 0 && n <= capacity
    ensures sub > 0 ==> n <= At(threads, sub)
  {
    var sub := capacity / threads;
    AtTimes(threads, sub);
    AtTimes(threads, sub + 1);
    if sub > 0 && sub * threads < n then sub + 1 else sub
  }

  /** Exactly when the whole sort is right for all contents of the array and of the scratch buffer. */
  ghost predicate SortsAll(capacity: nat, n: nat, threads: nat)
    requires threads > 0 && n <= capacity
  {
    var sub := SubSize(capacity, n, threads);
    sub == 0 || Fits(sub, threads, n)
  }

  /** The condition in products. */
  lemma FitsInProducts(sub: nat, runs: nat, n: nat)
    requires runs > 0
    ensures Fits(sub, runs, n) <==>
      || n <= sub
      || (runs - 1) * sub < n
      || (exists j: nat :: n == Pow2(j) * sub)
      || (runs > 4 && (runs - 4) * sub < n <= (runs - 3) * sub)
      || (exists k: nat :: 4 * Pow2(k) < runs && n == (runs - 3 * Pow2(k)) * sub)
  {
    forall k: nat ensures At(k, sub) == k * sub { AtTimes(k, sub); }
    if j: nat :| n == At(Pow2(j), sub) { assert n == Pow2(j) * sub; }
    if j: nat :| n == Pow2(j) * sub { assert n == At(Pow2(j), sub); }
    if k: nat :| 4 * Pow2(k) < runs && n == At(runs - 3 * Pow2(k), sub) { assert n == (runs - 3 * Pow2(k)) * sub; }
    if k: nat :| 4 * Pow2(k) < runs && n == (runs - 3 * Pow2(k)) * sub { assert n == At(runs - 3 * Pow2(k), sub); }
    if runs > 4 { assert At(runs - 4, sub) == (runs - 4) * sub && At(runs - 3, sub) == (runs - 3) * sub; }
  }

  /** The size, the thread count and the smaller of the two buffers allow the whole sort to stay within its arrays. */
  ghost predicate InRange(capacity: nat, n: nat, threads: nat, smaller: nat)
    requires threads > 0 && n <= capacity
  {
    var sub := SubSize(capacity, n, threads);
    sub == 0 || AccessesFit(sub, threads, n, smaller)
  }

  /** Nine elements on eight threads: every sort would be right, but the third pair of runs ends at 12. */
  lemma NineOnEight()
    ensures SortsAll(9, 9, 8) && !InRange(9, 9, 8, 9)
    ensures SubSize(9, 9, 8) == 2 && Round(2, 4, 9) == Rounds(2, 8, 9)[0] && Round(2, 4, 9).Active(2) && Round(2, 4, 9).EndB(2) == 12
  {
    var r := Round(2, 4, 9);
    AtTimes(6, 2);
    AtTimes(4, 2);
    AtTimes(5, 2);
    assert r.Active(2) && r.EndB(2) == 12;
    assert ThreeEmpty(2, 8, 9);
  }

  /** Six elements on eight threads and eight hosts, so of capacity eight: runs of one, of which two are empty. */
  lemma SixOnEight() returns (s: seq<int>, y: seq<int>)
    ensures SubSize(8, 6, 8) == 1 && Ready(1, 8, 6, 8) && InRange(8, 6, 8, 8) && !SortsAll(8, 6, 8)
    ensures |s| == |y| == 8 && RunsSorted(s, s, 1, 6) && !Good(s, Final(1, 8, 6, s[..8], y), 6)
  {
    SixDoesNotFit();
    s, y := SomeContentsFail(8, 6, 8, 8);
  }

  lemma SixDoesNotFit()
    ensures SubSize(8, 6, 8) == 1 && Ready(1, 8, 6, 8) && InRange(8, 6, 8, 8) && !SortsAll(8, 6, 8)
  {
    assert Pow2(3) == 8;
    AtTimes(8, 1);
    AtTimes(6, 1);
    FitsInProducts(1, 8, 6);
    if j: nat :| 6 == Pow2(j) * 1 {
      if j <= 2 { Pow2Grows(j, 2); } else { Pow2Grows(3, j); }
      assert false;
    }
    if k: nat :| 4 * Pow2(k) < 8 && 6 == (8 - 3 * Pow2(k)) * 1 { assert false; }
  }

  /** Four elements on two threads, without an element to spare: the only round loads through a null pointer, and
      still sorts. */
  lemma FourOnTwo(y: seq<int>)
    requires |y| == 4
    ensures SortsAll(4, 4, 2) && InRange(4, 4, 2, 4) && SubSize(4, 4, 2) == 2 && Ready(2, 2, 4, 4)
    ensures Runs([2, 3, 1, 1], 2, 4) && LooksPast(2, 2, 4, [2, 3, 1, 1], y, 4, 4)
  {
    FourOnTwoFits();
    var x := [2, 3, 1, 1];
    forall k: nat | At(k, 2) < 4 ensures Sorted(Run(x, 2, 4, k)) { AtTimes(k, 2); }
    FourLooksPast(x);
    ReadyRound(2, 2, 4, 4);
  }

  lemma FourOnTwoFits()
    ensures SortsAll(4, 4, 2) && InRange(4, 4, 2, 4) && SubSize(4, 4, 2) == 2 && Ready(2, 2, 4, 4)
  {
    assert Pow2(1) == 2;
    AtTimes(1, 2);
    AtTimes(2, 2);
    AtTimes(0, 2);
  }

  lemma FourLooksPast(x: seq<int>)
    requires x == [2, 3, 1, 1]
    ensures LooksPastIn(Round(2, 1, 4), x, 4)
  {
    assert At(0, 2) == 0;
    assert AtLeast(x[0..2][0], x[2..4]);
    assert LooksPastBy(Round(2, 1, 4), x, 4, 0);
  }

  /** The sort is right for all contents s of the array and y of the scratch buffer, up to the smaller of their capacities. */
  ghost predicate SortsOn(capacity: nat, n: nat, threads: nat, smaller: nat)
    requires threads > 0 && n <= smaller <= capacity && Ready(SubSize(capacity, n, threads), threads, n, smaller)
  {
    var sub := SubSize(capacity, n, threads);
    forall s: seq<int>, x: seq<int>, y: seq<int> :: |s| == capacity && |y| == smaller && RunsSorted(s, x, sub, n) ==>
      Good(s, Final(sub, threads, n, x[..smaller], y), n)
  }

  lemma SortedRunsPrefix(x: seq<int>, s: seq<int>, sub: nat, n: nat)
    requires n <= |x| <= |s| && x == s[..|x|]
    ensures Runs(x, sub, n) <==> Runs(s, sub, n)
  {
    forall k: nat | At(k, sub) < n ensures Run(x, sub, n, k) == Run(s, sub, n, k) {}
  }

  lemma GoodThroughout(sub: nat, n: nat, threads: nat, smaller: nat, s: seq<int>, x: seq<int>, y: seq<int>)
    requires n <= smaller == |y| <= |s| && Ready(sub, threads, n, smaller) && RunsSorted(s, x, sub, n) && Fits(sub, threads, n)
    ensures Good(s, Final(sub, threads, n, x[..smaller], y), n)
  {
    SortedRunsPrefix(x[..smaller], x, sub, n);
    FinalSorts(sub, threads, n, x[..smaller], y);
    RunsSortedPermutes(s, x, sub, n, threads);
    assert x[..smaller][..n] == x[..n];
  }

  /** Where the condition fails, some contents of array and scratch buffer come out wrong. */
  lemma SomeContentsFail(capacity: nat, n: nat, threads: nat, smaller: nat) returns (s: seq<int>, y: seq<int>)
    requires threads > 0 && n <= smaller <= capacity && Ready(SubSize(capacity, n, threads), threads, n, smaller)
    requires !SortsAll(capacity, n, threads)
    ensures |s| == capacity && |y| == smaller && RunsSorted(s, s, SubSize(capacity, n, threads), n)
    ensures !Good(s, Final(SubSize(capacity, n, threads), threads, n, s[..smaller], y), n)
  {
    var sub := SubSize(capacity, n, threads);
    SortsIffFits(sub, threads, n, smaller);
    var x: seq<int>, y': seq<int> :| |x| == |y'| == smaller && Runs(x, sub, n) && !Good(x, Final(sub, threads, n, x, y'), n);
    y := y';
    s := x + seq(capacity - smaller, i => 0);
    assert s[..smaller] == x && s[..n] == x[..n];
    SortedRunsPrefix(x, s, sub, n);
  }

  lemma SortsIffSortsAll(capacity: nat, n: nat, threads: nat, smaller: nat)
    requires threads > 0 && n <= smaller <= capacity && Ready(SubSize(capacity, n, threads), threads, n, smaller)
    ensures SortsOn(capacity, n, threads, smaller) <==> SortsAll(capacity, n, threads)
  {
    var sub := SubSize(capacity, n, threads);
    if SortsAll(capacity, n, threads) {
      forall s: seq<int>, x: seq<int>, y: seq<int> | |s| == capacity && |y| == smaller && RunsSorted(s, x, sub, n)
        ensures Good(s, Final(sub, threads, n, x[..smaller], y), n)
      {
        GoodThroughout(sub, n, threads, smaller, s, x, y);
      }
    } else {
      var s, y := SomeContentsFail(capacity, n, threads, smaller);
    }
  }

  /** What the sort makes of an array: x is the array after the per-thread sorts, y the scratch buffer, and the two are
      merged up to the smaller capacity. */
  ghost predicate Merged(was: seq<int>, now: seq<int>, sub: nat, threads: nat, n: nat, x: seq<int>, y: seq<int>, nullLoad: bool) {
    var c := Cut(|was|, |y|);
    && RunsSorted(was, x, sub, n) && Ready(sub, threads, n, c)
    && |now| >= c && now[..c] == Final(sub, threads, n, x[..c], y[..c])
    && (nullLoad <==> LooksPast(sub, threads, n, x[..c], y[..c], |was|, |y|))
  }

  lemma MergedIsSorted(was: seq<int>, now: seq<int>, sub: nat, threads: nat, n: nat, x: seq<int>, y: seq<int>, nullLoad: bool)
    requires threads > 0 && Merged(was, now, sub, threads, n, x, y, nullLoad) && Fits(sub, threads, n)
    ensures n <= |was| && n <= |now| && Good(was, now, n)
  {
    var c := Cut(|was|, |y|);
    GoodThroughout(sub, n, threads, c, was, x, y[..c]);
    assert now[..c][..n] == now[..n];
  }

  /** NullAccess: a thread addresses an element past a capacity other than by looking ahead. */
  datatype Outcome = Completed | AllocationFailed | NullAccess

  class DistArray {
    var data: array<int>
    var size: nat

    ghost predicate Valid() reads this { size <= data.Length }

    function Capacity(): (c: nat)
      requires Valid()
      reads this
      ensures size <= c
    {
      if size == 0 then 0 else data.Length
    }

    /** The order callback gives the order in which a number of threads does its share of a step. The scratch buffer
        gets scratch elements, none if its allocation fails, with arbitrary contents. In the proofs, x is the array
        after the per-thread sorts, and y is the scratch buffer. */
    method Sort(actualThreads: nat, scratch: Option<nat>, order: nat -> seq<nat>)
      returns (outcome: Outcome, nullLoad: bool, ghost x: seq<int>, ghost y: seq<int>)
      requires Valid() && actualThreads > 0 && forall p: nat :: IsOrder(order(p), p)
      requires scratch.Some? ==> size <= scratch.value
      modifies this`data, data
      ensures Valid() && size == old(size) && (data == old(data) || fresh(data))
      ensures var threads, capacity := MergeThreads(actualThreads), old(Capacity());
        && (outcome == AllocationFailed <==> SubSize(capacity, size, threads) > 0 && scratch.None?)
        && (outcome == NullAccess <==>
              scratch.Some? && !InRange(capacity, size, threads, Cut(old(data.Length), scratch.value)))
      ensures outcome == AllocationFailed ==> data == old(data) && data[..] == old(data[..])
      ensures var threads := MergeThreads(actualThreads); var sub := SubSize(old(Capacity()), size, threads);
        outcome == Completed && sub > 0 ==>
          |y| == scratch.value && Merged(old(data[..]), data[..], sub, threads, size, x, y, nullLoad)
      ensures outcome == Completed && SortsAll(old(Capacity()), size, MergeThreads(actualThreads)) ==>
                Good(old(data[..]), data[..], size)
    {
      var threads := MergeThreads(actualThreads);
      outcome, nullLoad, x, y := SortParts(SubSize(Capacity(), size, threads), threads, scratch, order);
    }

    /** With runs of sub elements each. */
    method SortParts(sub: nat, threads: nat, scratch: Option<nat>, order: nat -> seq<nat>)
      returns (outcome: Outcome, nullLoad: bool, ghost x: seq<int>, ghost y: seq<int>)
      requires Valid() && forall p: nat :: IsOrder(order(p), p)
      requires sub > 0 ==> Sized(sub, threads, size, data.Length)
      requires scratch.Some? ==> size <= scratch.value
      modifies this`data, data
      ensures Valid() && size == old(size) && (data == old(data) || fresh(data))
      ensures outcome == AllocationFailed <==> sub > 0 && scratch.None?
      ensures outcome == NullAccess <==>
        sub > 0 && scratch.Some? && !AccessesFit(sub, threads, size, Cut(old(data.Length), scratch.value))
      ensures outcome == AllocationFailed ==> data == old(data) && data[..] == old(data[..])
      ensures outcome == Completed && sub > 0 ==>
        |y| == scratch.value && Merged(old(data[..]), data[..], sub, threads, size, x, y, nullLoad)
      ensures outcome == Completed && (sub == 0 || (threads > 0 && Fits(sub, threads, size))) ==> Good(old(data[..]), data[..], size)
    {
      x, y, nullLoad := data[..], [], false;
      if sub == 0 {
        ghost var was := data[..];
        SortSlice(data, 0, size);
        assert data[0..size] == data[..][..size] && old(data[0..size]) == was[..size];
        return Completed, false, x, y;
      }
      if scratch.None? { return AllocationFailed, false, x, y; }
      var tmp := new int[scratch.value];
      outcome, nullLoad, x, y := SortWith(tmp, sub, threads, order);
    }

    /** With a scratch buffer. */
    method SortWith(tmp: array<int>, sub: nat, threads: nat, order: nat -> seq<nat>)
      returns (outcome: Outcome, nullLoad: bool, ghost x: seq<int>, ghost y: seq<int>)
      requires Valid() && data != tmp && forall p: nat :: IsOrder(order(p), p)
      requires Sized(sub, threads, size, Cut(data.Length, tmp.Length))
      modifies this`data, data, tmp
      ensures Valid() && size == old(size) && (data == old(data) || data == tmp) && outcome != AllocationFailed
      ensures outcome == NullAccess <==> !AccessesFit(sub, threads, size, Cut(old(data.Length), tmp.Length))
      ensures |y| == tmp.Length && (outcome == Completed ==> Merged(old(data[..]), data[..], sub, threads, size, x, y, nullLoad))
      ensures outcome == Completed && Fits(sub, threads, size) ==> Good(old(data[..]), data[..], size)
    {
      ghost var was := data[..];
      SortRuns(data, sub, size, threads, order(threads));
      x, y := data[..], tmp[..];
      var ok;
      ok, nullLoad := MergeRounds(tmp, sub, threads, order);
      outcome := if ok then Completed else NullAccess;
      if ok && Fits(sub, threads, size) { MergedIsSorted(was, data[..], sub, threads, size, x, y, nullLoad); }
    }

    /** The merge loop: each round merges from data into tmp, and then the two are swapped. */
    method MergeRounds(tmp0: array<int>, sub0: nat, threads0: nat, order: nat -> seq<nat>) returns (ok: bool, nullLoad: bool)
      requires Valid() && data != tmp0 && Sized(sub0, threads0, size, Cut(data.Length, tmp0.Length))
      requires forall p: nat :: IsOrder(order(p), p)
      modifies this`data, data, tmp0
      ensures Valid() && size == old(size) && (data == old(data) || data == tmp0)
      ensures ok <==> AccessesFit(sub0, threads0, size, Cut(old(data.Length), tmp0.Length))
      ensures var c := Cut(old(data.Length), tmp0.Length); ok ==>
        && data.Length >= c && data[..c] == Final(sub0, threads0, size, old(data[..])[..c], old(tmp0[..])[..c])
        && (nullLoad <==> LooksPast(sub0, threads0, size, old(data[..])[..c], old(tmp0[..])[..c], old(data.Length), tmp0.Length))
    {
      var sub, threads, tmp := sub0, threads0, tmp0;
      ghost var c := Cut(data.Length, tmp.Length);
      ghost var x, y, cx, cy := data[..c], tmp[..c], data.Length, tmp.Length;
      nullLoad := false;
      while sub < size
        invariant (data == old(data) && tmp == tmp0) || (data == tmp0 && tmp == old(data))
        invariant size == old(size) && Sized(sub, threads, size, c)
        invariant AccessesFit(sub0, threads0, size, c) <==> AccessesFit(sub, threads, size, c)
        invariant AccessesFit(sub0, threads0, size, c) ==>
          && Final(sub, threads, size, data[..c], tmp[..c]) == Final(sub0, threads0, size, x, y)
          && (LooksPast(sub0, threads0, size, x, y, cx, cy) <==>
                nullLoad || LooksPast(sub, threads, size, data[..c], tmp[..c], data.Length, tmp.Length))
        decreases size - sub
      {
        var past;
        ghost var from, was := data[..c], tmp[..c];
        ok, past := NextRound(tmp, sub, threads, order(threads / 2), c);
        if !ok { return; }
        ReadyRound(sub, threads, size, c);
        RoundUnique(Round(sub, threads / 2, size), from, was, tmp[..c]);
        nullLoad := nullLoad || past;
        threads := threads / 2;
        sub := 2 * sub;
        data, tmp := tmp, data;
      }
      ok := true;
    }

    method NextRound(tmp: array<int>, sub: nat, threads: nat, order: seq<nat>, ghost c: nat) returns (ok: bool, past: bool)
      requires Valid() && data != tmp && c == Cut(data.Length, tmp.Length) && Sized(sub, threads, size, c) && sub < size
      requires IsOrder(order, threads / 2)
      modifies tmp
      ensures ok <==> AccessesFit(sub, threads, size, c)
      ensures ok ==> RoundResult(Round(sub, threads / 2, size), data[..c], old(tmp[..])[..c], tmp[..c])
      ensures ok ==> (past <==> LooksPastIn(Round(sub, threads / 2, size), data[..c], data.Length))
    {
      HalfRuns(sub, threads, size);
      ok, past := RunRound(Round(sub, threads / 2, size), data, tmp, order);
    }
  }
}
