/** One round of DistArray::sort: pairwise merges of sorted runs from one buffer into another. */
module MergeRound {
  import opened Options
  import opened Multiples

  ghost predicate Sorted(s: seq<int>) { forall i, j :: 0 <= i < j < |s| ==> s[i] <= s[j] }

  /** The merge of two runs, taking from the second on ties. */
  ghost function Merge(a: seq<int>, b: seq<int>): (r: seq<int>)
    ensures |r| == |a| + |b|
    decreases |a| + |b|
  {
    if a == [] then b
    else if b == [] then a
    else if a[0] < b[0] then [a[0]] + Merge(a[1..], b)
    else [b[0]] + Merge(a, b[1..])
  }

  lemma HeadAndTail(a: seq<int>)
    requires a != []
    ensures multiset(a) == multiset{a[0]} + multiset(a[1..])
  {
    assert a == [a[0]] + a[1..];
  }

  lemma {:induction false} MergePermutes(a: seq<int>, b: seq<int>)
    ensures multiset(Merge(a, b)) == multiset(a) + multiset(b)
    decreases |a| + |b|
  {
    if a != [] && b != [] {
      var m := Merge(a, b);
      HeadAndTail(a);
      HeadAndTail(b);
      HeadAndTail(m);
      if a[0] < b[0] {
        MergePermutes(a[1..], b);
        assert m[1..] == Merge(a[1..], b);
      } else {
        MergePermutes(a, b[1..]);
        assert m[1..] == Merge(a, b[1..]);
      }
    }
  }

  lemma {:induction false} MergeSorts(a: seq<int>, b: seq<int>)
    requires Sorted(a) && Sorted(b)
    ensures Sorted(Merge(a, b))
    ensures Merge(a, b) != [] ==> (a != [] && Merge(a, b)[0] == a[0]) || (b != [] && Merge(a, b)[0] == b[0])
    decreases |a| + |b|
  {
    if a != [] && b != [] {
      if a[0] < b[0] { MergeSorts(a[1..], b); } else { MergeSorts(a, b[1..]); }
    }
  }

  // ---------------------------------------------------------------- one thread of a round

  /** to[lo..hi] holds the first elements of whole, and the rest of to is as in was. */
  ghost predicate Filled(to: seq<int>, was: seq<int>, lo: nat, hi: nat, whole: seq<int>) {
    && |to| == |was| && lo <= hi <= lo + |whole| <= |to|
    && (forall k :: lo <= k < hi ==> to[k] == whole[k - lo])
    && (forall k :: 0 <= k < |to| && !(lo <= k < lo + |whole|) ==> to[k] == was[k])
  }

  lemma FillOne(to: seq<int>, was: seq<int>, lo: nat, hi: nat, whole: seq<int>)
    requires Filled(to, was, lo, hi, whole) && hi < lo + |whole|
    ensures Filled(to[hi := whole[hi - lo]], was, lo, hi + 1, whole)
  {
  }

  /** After taking f[startA..a] and f[startB..b], the rest of whole is the merge of what remains. */
  ghost predicate Remains(f: seq<int>, startA: nat, a: nat, startB: nat, b: nat, endB: nat, whole: seq<int>) {
    && startA <= a <= startB <= b <= endB <= |f| && |whole| == endB - startA
    && whole[a - startA + (b - startB)..] == Merge(f[a..startB], f[b..endB])
  }

  /** One iteration: the next merged element, and what then remains. */
  lemma MergeStep(f: seq<int>, startA: nat, a: nat, startB: nat, b: nat, endB: nat, whole: seq<int>)
    requires Remains(f, startA, a, startB, b, endB, whole) && a < startB && b < endB
    ensures var i := a - startA + (b - startB);
            if f[a] < f[b] then whole[i] == f[a] && Remains(f, startA, a + 1, startB, b, endB, whole)
            else whole[i] == f[b] && Remains(f, startA, a, startB, b + 1, endB, whole)
  {
    var i := a - startA + (b - startB);
    assert whole[i..][1..] == whole[i + 1..] && whole[i..][0] == whole[i];
    assert f[a..startB][1..] == f[a + 1..startB] && f[b..endB][1..] == f[b + 1..endB];
  }

  // ---------------------------------------------------------------- looking ahead

  /** Some element of the first run is not less than any of the second. */
  ghost predicate Outlasts(a: seq<int>, b: seq<int>) {
    exists i :: 0 <= i < |a| && AtLeast(a[i], b)
  }

  ghost predicate AtLeast(x: int, b: seq<int>) { forall j :: 0 <= j < |b| ==> b[j] <= x }

  /** Taking the lesser head does not change whether the first run outlasts the second. */
  lemma OutlastsStep(a: seq<int>, b: seq<int>)
    requires a != [] && b != []
    ensures a[0] < b[0] ==> (Outlasts(a, b) <==> Outlasts(a[1..], b))
    ensures b[0] <= a[0] ==> (Outlasts(a, b) <==> Outlasts(a, b[1..]))
  {
    if a[0] < b[0] {
      if i :| 0 <= i < |a| && AtLeast(a[i], b) { assert a[1..][i - 1] == a[i]; }
      if i :| 0 <= i < |a| - 1 && AtLeast(a[1..][i], b) { assert a[i + 1] == a[1..][i]; }
    } else {
      if i :| 0 <= i < |a| && AtLeast(a[i], b) { assert AtLeast(a[i], b[1..]); }
      if i :| 0 <= i < |a| && AtLeast(a[i], b[1..]) {
        var k := if a[i] < b[0] then 0 else i;
        assert forall j :: 0 < j < |b| ==> b[j] == b[1..][j - 1];
        assert AtLeast(a[k], b);
      }
    }
  }

  /** The merge now at a and b looks past the second run exactly if the whole merge does. */
  ghost predicate SameEnd(f: seq<int>, startA: nat, a: nat, startB: nat, b: nat, endB: nat)
    requires startA <= a <= startB <= b <= endB <= |f|
  {
    Outlasts(f[startA..startB], f[startB..endB]) <==> Outlasts(f[a..startB], f[b..endB])
  }

  lemma SameEndStep(f: seq<int>, startA: nat, a: nat, startB: nat, b: nat, endB: nat)
    requires startA <= a < startB <= b < endB <= |f| && SameEnd(f, startA, a, startB, b, endB)
    ensures if f[a] < f[b] then SameEnd(f, startA, a + 1, startB, b, endB) else SameEnd(f, startA, a, startB, b + 1, endB)
  {
    OutlastsStep(f[a..startB], f[b..endB]);
    assert f[a..startB][1..] == f[a + 1..startB] && f[b..endB][1..] == f[b + 1..endB];
  }

  lemma EndReached(f: seq<int>, startA: nat, a: nat, startB: nat, b: nat, endB: nat)
    requires startA <= a <= startB <= b <= endB <= |f| && SameEnd(f, startA, a, startB, b, endB)
    requires if a == startB then b < endB else b == endB
    ensures Outlasts(f[startA..startB], f[startB..endB]) <==> b == endB
  {
    if a == startB {
      assert f[a..startB] == [];
    } else {
      assert AtLeast(f[a..startB][0], f[b..endB]);
    }
  }

  /** DistArray's get and the load through it: past the capacity the pointer is null. */
  function Load(s: array<int>, i: nat): (val: Option<int>)
    reads s
    ensures val.None? <==> i >= s.Length
  {
    if i < s.Length then Some(s[i]) else None
  }

  /** The first loop: until one of the runs is exhausted. It keeps both heads in locals and loads the next one right
      after taking, so it may load one past the second run, and through a null pointer if that is the capacity. */
  method MergeHeads(from: array<int>, to: array<int>, startA: nat, startB: nat, endB: nat, ghost whole: seq<int>)
    returns (a: nat, b: nat, nullLoad: bool)
    requires from != to && startA <= startB < endB <= from.Length && endB <= to.Length
    requires whole == Merge(from[..][startA..startB], from[..][startB..endB])
    modifies to
    ensures Remains(from[..], startA, a, startB, b, endB, whole) && (a == startB || b == endB)
    ensures Filled(to[..], old(to[..]), startA, a + (b - startB), whole)
    ensures nullLoad <==> endB == from.Length && Outlasts(from[..][startA..startB], from[..][startB..endB])
  {
    ghost var was := to[..];
    a, b := startA, startB;
    var val1, val2 := Load(from, a), Load(from, b);
    assert whole[0..] == whole;
    while a < startB && b < endB
      invariant Remains(from[..], startA, a, startB, b, endB, whole) && SameEnd(from[..], startA, a, startB, b, endB)
      invariant Filled(to[..], was, startA, a + (b - startB), whole)
      invariant val1 == Load(from, a) && val2 == Load(from, b) && (a < startB || b < endB)
      decreases endB + startB - a - b
    {
      a, b, val1, val2 := MergeOne(from, to, startA, a, startB, b, endB, val1.value, val2.value, was, whole);
    }
    EndReached(from[..], startA, a, startB, b, endB);
    nullLoad := val1.None? || val2.None?;
  }

  /** One iteration. */
  method MergeOne(from: array<int>, to: array<int>, startA: nat, a: nat, startB: nat, b: nat, endB: nat, val1: int, val2: int,
                  ghost was: seq<int>, ghost whole: seq<int>)
    returns (a': nat, b': nat, val1': Option<int>, val2': Option<int>)
    requires from != to && Remains(from[..], startA, a, startB, b, endB, whole) && a < startB && b < endB
    requires SameEnd(from[..], startA, a, startB, b, endB) && Filled(to[..], was, startA, a + (b - startB), whole)
    requires val1 == from[a] && val2 == from[b]
    modifies to
    ensures Remains(from[..], startA, a', startB, b', endB, whole) && SameEnd(from[..], startA, a', startB, b', endB)
    ensures Filled(to[..], was, startA, a' + (b' - startB), whole)
    ensures a' + b' == a + b + 1 && val1' == Load(from, a') && val2' == Load(from, b') && (a' < startB || b' < endB)
  {
    ghost var f := from[..];
    SameEndStep(f, startA, a, startB, b, endB);
    MergeStep(f, startA, a, startB, b, endB, whole);
    Take(to, was, startA, a + (b - startB), whole, if val1 < val2 then val1 else val2);
    assert from[..] == f;
    if val1 < val2 { a', b' := a + 1, b; } else { a', b' := a, b + 1; }
    val1', val2' := Load(from, a'), Load(from, b');
  }

  method Take(to: array<int>, ghost was: seq<int>, ghost lo: nat, i: nat, ghost whole: seq<int>, val: int)
    requires Filled(to[..], was, lo, i, whole) && i < lo + |whole| && val == whole[i - lo]
    modifies to
    ensures Filled(to[..], was, lo, i + 1, whole)
  {
    FillOne(to[..], was, lo, i, whole);
    ghost var before := to[..];
    to[i] := val;
    assert to[..] == before[i := val];
  }

  /** The copy loops: from[src..end] goes to to[dst..]. */
  method CopyRun(from: array<int>, to: array<int>, src: nat, end: nat, dst: nat,
                 ghost was: seq<int>, ghost lo: nat, ghost whole: seq<int>)
    requires from != to && src <= end <= from.Length && dst + (end - src) <= to.Length
    requires Filled(to[..], was, lo, dst, whole) && dst + (end - src) <= lo + |whole|
    requires whole[dst - lo..dst - lo + (end - src)] == from[src..end]
    modifies to
    ensures Filled(to[..], was, lo, dst + (end - src), whole)
  {
    ghost var run := from[src..end];
    var k := 0;
    while src + k < end
      invariant k <= end - src && Filled(to[..], was, lo, dst + k, whole) && from[src..end] == run
    {
      assert whole[dst + k - lo] == run[k];
      Take(to, was, lo, dst + k, whole, from[src + k]);
      k := k + 1;
    }
  }

  /** Merges from[startA..startB] and from[startB..endB] into to[startA..endB]. */
  method MergeRuns(from: array<int>, to: array<int>, startA: nat, startB: nat, endB: nat) returns (nullLoad: bool)
    requires from != to && startA <= startB < endB <= from.Length && endB <= to.Length
    modifies to
    ensures to[startA..endB] == Merge(from[..][startA..startB], from[..][startB..endB])
    ensures forall i :: 0 <= i < to.Length && !(startA <= i < endB) ==> to[i] == old(to[i])
    ensures nullLoad <==> endB == from.Length && Outlasts(from[..][startA..startB], from[..][startB..endB])
  {
    ghost var was := to[..];
    ghost var whole := Merge(from[..][startA..startB], from[..][startB..endB]);
    var a, b;
    a, b, nullLoad := MergeHeads(from, to, startA, startB, endB, whole);
    CopyRest(from, to, startA, a, startB, b, endB, was, whole);
    assert |to[startA..endB]| == |whole| && forall k :: 0 <= k < |whole| ==> to[..][startA + k] == whole[k];
    assert to[startA..endB] == whole;
  }

  /** The two copy loops, one of which has nothing to do. */
  method CopyRest(from: array<int>, to: array<int>, startA: nat, a: nat, startB: nat, b: nat, endB: nat,
                  ghost was: seq<int>, ghost whole: seq<int>)
    requires from != to && Remains(from[..], startA, a, startB, b, endB, whole) && (a == startB || b == endB)
    requires Filled(to[..], was, startA, a + (b - startB), whole)
    modifies to
    ensures Filled(to[..], was, startA, endB, whole)
  {
    ghost var f := from[..];
    var i := a + (b - startB);
    ghost var rest := whole[i - startA..];
    assert rest == f[a..startB] + f[b..endB];
    assert whole[i - startA..i - startA + (startB - a)] == rest[..startB - a] == f[a..startB] == from[a..startB];
    CopyRun(from, to, a, startB, i, was, startA, whole);
    i := i + (startB - a);
    assert whole[i - startA..i - startA + (endB - b)] == rest[startB - a..] == f[b..endB] == from[b..endB];
    CopyRun(from, to, b, endB, i, was, startA, whole);
  }

  // ---------------------------------------------------------------- a round

  /** A round of merges: sub is the run length, threads the number of merging threads, n the size. */
  datatype Round = Round(sub: nat, threads: nat, n: nat) {
    /** There are enough threads for all runs, and more than one run. */
    ghost predicate Ok() { threads > 0 && 0 < sub < n <= At(2 * threads, sub) }

    function StartA(t: nat): nat { At(2 * t, sub) }
    function StartB(t: nat): nat { StartA(t) + sub }
    function EndB(t: nat): nat { if t == threads - 1 then n else StartA(t) + 2 * sub }

    /** A thread whose second run is empty returns at once, without copying its first run. */
    predicate Active(t: nat) { StartB(t) < EndB(t) }

    /** All accesses stay within the given capacity. */
    ghost predicate InBounds(capacity: nat) { sub > 0 && threads > 0 && n <= capacity && StartA(threads - 1) <= capacity }

    /** The round neither mixes in elements past the size nor leaves a run uncopied: the very last run is
        not empty, or the runs in use pair up exactly. */
    ghost predicate Safe()
      requires threads > 0
    {
      At(2 * threads - 1, sub) < n || exists m: nat :: n == At(2 * m, sub)
    }
  }

  ghost predicate Writes(r: Round, t: nat, i: int) { t < r.threads && r.Active(t) && r.StartA(t) <= i < r.EndB(t) }

  ghost predicate Written(r: Round, i: int) { exists t: nat :: Writes(r, t, i) }

  ghost predicate MergedBy(r: Round, from: seq<int>, to: seq<int>, t: nat)
    requires |from| == |to| && r.InBounds(|from|) && t < r.threads && r.Active(t)
  {
    Bounds(r, t, |from|);
    to[r.StartA(t)..r.EndB(t)] == Merge(from[r.StartA(t)..r.StartB(t)], from[r.StartB(t)..r.EndB(t)])
  }

  /** What a round does: every active thread merges its two runs, and nothing else changes. */
  ghost predicate RoundResult(r: Round, from: seq<int>, was: seq<int>, to: seq<int>) {
    && |from| == |was| == |to| && r.InBounds(|from|)
    && (forall t {:trigger MergedBy(r, from, to, t)} :: 0 <= t < r.threads && r.Active(t) ==> MergedBy(r, from, to, t))
    && (forall i {:trigger Written(r, i)} :: 0 <= i < |to| && !Written(r, i) ==> to[i] == was[i])
  }

  lemma Next(r: Round, t: nat, u: nat)
    requires t < u
    ensures r.StartA(t) + 2 * r.sub <= r.StartA(u)
  {
    AtOrder(2 * t + 2, 2 * u, r.sub);
    assert At(2 * t + 2, r.sub) == At(2 * t + 1, r.sub) + r.sub;
  }

  lemma Bounds(r: Round, t: nat, capacity: nat)
    requires r.InBounds(capacity) && t < r.threads && r.Active(t)
    ensures r.StartA(t) <= r.StartB(t) < r.EndB(t) <= capacity
  {
    if t < r.threads - 1 { Next(r, t, r.threads - 1); }
  }

  /** ... and if accesses do not stay within the capacity, some active thread's range runs past it. */
  lemma InBoundsIsExact(r: Round, capacity: nat)
    requires r.sub > 0 && r.threads > 0 && r.n <= capacity
    ensures r.InBounds(capacity) <==> forall t :: 0 <= t < r.threads && r.Active(t) ==> r.EndB(t) <= capacity
  {
    if r.InBounds(capacity) {
      forall t | 0 <= t < r.threads && r.Active(t) ensures r.EndB(t) <= capacity { Bounds(r, t, capacity); }
    } else {
      var t: nat := r.threads - 2;
      assert At(2 * t + 2, r.sub) == At(2 * t + 1, r.sub) + r.sub;
      assert r.Active(t) && r.EndB(t) == r.StartA(r.threads - 1);
    }
  }

  /** Different threads write disjoint ranges. */
  lemma DisjointWrites(r: Round, t: nat, u: nat, i: int)
    requires Writes(r, t, i) && Writes(r, u, i)
    ensures t == u
  {
    if t < u { OrderedWrites(r, t, u, i); }
    if u < t { OrderedWrites(r, u, t, i); }
  }

  lemma OrderedWrites(r: Round, t: nat, u: nat, i: int)
    requires t < u < r.threads && Writes(r, t, i)
    ensures i < r.StartA(u)
  {
    Next(r, t, u);
  }

  /** The threads run in any order, each at least once. */
  ghost predicate IsOrder(order: seq<nat>, threads: nat) {
    (forall k :: 0 <= k < |order| ==> order[k] < threads) && (forall t :: 0 <= t < threads ==> t in order)
  }

  /** The part of a round's result that the first k threads of the order account for. */
  ghost predicate Partial(r: Round, from: seq<int>, was: seq<int>, to: seq<int>, order: seq<nat>, k: nat)
    requires k <= |order|
  {
    && |from| == |was| == |to| && r.InBounds(|from|)
    && (forall t :: 0 <= t < r.threads && r.Active(t) && t in order[..k] ==> MergedBy(r, from, to, t))
    && (forall i :: 0 <= i < |to| && (forall t: nat :: t in order[..k] ==> !Writes(r, t, i)) ==> to[i] == was[i])
  }

  /** Thread u's merge leaves what the other threads wrote alone. */
  lemma MergeKeeps(r: Round, from: seq<int>, to: seq<int>, to': seq<int>, u: nat, t: nat)
    requires |from| == |to| == |to'| && r.InBounds(|from|) && t < r.threads && r.Active(t) && u != t
    requires MergedBy(r, from, to, t)
    requires forall i :: 0 <= i < |to| && !Writes(r, u, i) ==> to'[i] == to[i]
    ensures MergedBy(r, from, to', t)
  {
    Bounds(r, t, |from|);
    forall i | r.StartA(t) <= i < r.EndB(t) ensures to'[i] == to[i] {
      if Writes(r, u, i) { DisjointWrites(r, t, u, i); }
    }
    assert to'[r.StartA(t)..r.EndB(t)] == to[r.StartA(t)..r.EndB(t)];
  }

  lemma PartialStep(r: Round, from: seq<int>, was: seq<int>, to: seq<int>, to': seq<int>, order: seq<nat>, k: nat)
    requires k < |order| && order[k] < r.threads && Partial(r, from, was, to, order, k) && |to'| == |to|
    requires forall i :: 0 <= i < |to| && !Writes(r, order[k], i) ==> to'[i] == to[i]
    requires r.Active(order[k]) ==> MergedBy(r, from, to', order[k])
    ensures Partial(r, from, was, to', order, k + 1)
  {
    assert order[..k + 1] == order[..k] + [order[k]];
    forall t | 0 <= t < r.threads && r.Active(t) && t in order[..k + 1] ensures MergedBy(r, from, to', t) {
      if t != order[k] { MergeKeeps(r, from, to, to', order[k], t); }
    }
    forall i | 0 <= i < |to'| && (forall t: nat :: t in order[..k + 1] ==> !Writes(r, t, i)) ensures to'[i] == was[i] {
      assert order[k] in order[..k + 1];
      assert forall t: nat :: t in order[..k] ==> t in order[..k + 1];
    }
  }

  /** Thread t loads the element after its second run, and that lies just past the capacity. */
  ghost predicate LooksPastBy(r: Round, from: seq<int>, capacity: nat, t: nat) {
    && t < r.threads && r.Active(t) && r.EndB(t) == capacity <= |from|
    && Outlasts(from[r.StartA(t)..r.StartB(t)], from[r.StartB(t)..r.EndB(t)])
  }

  ghost predicate LooksPastIn(r: Round, from: seq<int>, capacity: nat) { exists t: nat :: LooksPastBy(r, from, capacity, t) }

  ghost predicate LookedPast(r: Round, from: seq<int>, capacity: nat, order: seq<nat>, k: nat)
    requires k <= |order|
  {
    exists t: nat :: t in order[..k] && LooksPastBy(r, from, capacity, t)
  }

  lemma LookedPastStep(r: Round, from: seq<int>, capacity: nat, order: seq<nat>, k: nat)
    requires k < |order|
    ensures LookedPast(r, from, capacity, order, k + 1) <==>
      LookedPast(r, from, capacity, order, k) || LooksPastBy(r, from, capacity, order[k])
  {
    assert order[..k + 1] == order[..k] + [order[k]];
    if t: nat :| t in order[..k] && LooksPastBy(r, from, capacity, t) { assert t in order[..k + 1]; }
    if LooksPastBy(r, from, capacity, order[k]) { assert order[k] in order[..k + 1]; }
    if t: nat :| t in order[..k + 1] && LooksPastBy(r, from, capacity, t) { assert t in order[..k] || t == order[k]; }
  }

  /** One thread's share of a round. It loads and stores every element of its range, so it fails if that runs past the
      capacity of either buffer. */
  method RunThread(r: Round, from: array<int>, to: array<int>, t: nat, ghost c: nat) returns (ok: bool, nullLoad: bool)
    requires from != to && c == Cut(from.Length, to.Length) && r.sub > 0 && t < r.threads
    modifies to
    ensures ok <==> (r.Active(t) ==> r.EndB(t) <= c)
    ensures forall i :: 0 <= i < to.Length && !Writes(r, t, i) ==> to[i] == old(to[i])
    ensures ok && r.InBounds(c) && r.Active(t) ==> MergedBy(r, from[..c], to[..c], t)
    ensures ok ==> (nullLoad <==> LooksPastBy(r, from[..c], from.Length, t))
  {
    if !r.Active(t) { return true, false; }
    if r.EndB(t) > from.Length || r.EndB(t) > to.Length { return false, false; }
    ok := true;
    ghost var lo, mid, hi := r.StartA(t), r.StartB(t), r.EndB(t);
    nullLoad := MergeRuns(from, to, r.StartA(t), r.StartB(t), r.EndB(t));
    assert from[..c][lo..mid] == from[..][lo..mid] && from[..c][mid..hi] == from[..][mid..hi] && to[..c][lo..hi] == to[lo..hi];
  }

  /** The threads of a round, in any order. Fails if one of them addresses an element past a capacity, and reports
      whether one looked ahead past it. */
  method RunRound(r: Round, from: array<int>, to: array<int>, order: seq<nat>) returns (ok: bool, nullLoad: bool)
    requires from != to && r.n <= from.Length && r.n <= to.Length && r.sub > 0 && r.threads > 0 && IsOrder(order, r.threads)
    modifies to
    ensures ok <==> r.InBounds(Cut(from.Length, to.Length))
    ensures var c := Cut(from.Length, to.Length); ok ==>
      RoundResult(r, from[..c], old(to[..])[..c], to[..c]) && (nullLoad <==> LooksPastIn(r, from[..c], from.Length))
  {
    ghost var c := Cut(from.Length, to.Length);
    ghost var f, was := from[..c], to[..c];
    InBoundsIsExact(r, c);
    nullLoad := false;
    for k := 0 to |order|
      invariant from[..c] == f && (r.InBounds(c) ==> Partial(r, f, was, to[..c], order, k))
      invariant forall t :: 0 <= t < r.threads && t in order[..k] && r.Active(t) ==> r.EndB(t) <= c
      invariant nullLoad <==> LookedPast(r, f, from.Length, order, k)
    {
      ghost var before := to[..c];
      var past;
      ok, past := RunThread(r, from, to, order[k], c);
      if !ok { return; }
      assert order[..k + 1] == order[..k] + [order[k]];
      if r.InBounds(c) { PartialStep(r, f, was, before, to[..c], order, k); }
      LookedPastStep(r, f, from.Length, order, k);
      nullLoad := nullLoad || past;
    }
    ok := true;
    assert order[..|order|] == order;
    forall i | 0 <= i < c && !Written(r, i) ensures to[..c][i] == was[i] {
      assert forall t: nat :: !Writes(r, t, i);
    }
    if t: nat :| LooksPastBy(r, f, from.Length, t) { assert t in order[..|order|]; }
  }

  // ---------------------------------------------------------------- what a round achieves

  /** The first n elements are sorted runs of length sub, the last one possibly shorter. */
  ghost predicate Runs(s: seq<int>, sub: nat, n: nat) {
    n <= |s| && forall k: nat {:trigger Run(s, sub, n, k)} :: At(k, sub) < n ==> Sorted(Run(s, sub, n, k))
  }

  ghost function Run(s: seq<int>, sub: nat, n: nat, k: nat): (run: seq<int>)
    requires n <= |s| && At(k, sub) < n
  {
    s[At(k, sub)..Cut(At(k, sub) + sub, n)]
  }

  function Cut(i: nat, n: nat): (c: nat) { if i < n then i else n }

  /** In a safe round, every run pair that starts below n is merged whole. */
  lemma SafeThread(r: Round, t: nat)
    requires r.Ok() && r.Safe() && r.StartA(t) < r.n
    ensures t < r.threads && r.StartB(t) < r.n && r.Active(t) && r.EndB(t) == Cut(r.StartA(t) + 2 * r.sub, r.n)
  {
    if t >= r.threads { AtOrder(2 * r.threads, 2 * t, r.sub); }
    if At(2 * r.threads - 1, r.sub) < r.n {
      AtOrder(2 * t + 1, 2 * r.threads - 1, r.sub);
      if t < r.threads - 1 { AtOrder(2 * t + 2, 2 * r.threads - 2, r.sub); }
    } else {
      var m: nat :| r.n == At(2 * m, r.sub);
      if t >= m { AtOrder(2 * m, 2 * t, r.sub); }
      Next(r, t, m);
    }
  }

  /** Block k of a safe round: the merge of two neighbouring runs. */
  lemma SafeBlock(r: Round, from: seq<int>, was: seq<int>, to: seq<int>, k: nat, lo: nat, mid: nat, hi: nat)
    requires r.Ok() && r.Safe() && RoundResult(r, from, was, to) && r.StartA(k) < r.n
    requires lo == r.StartA(k) && mid == lo + r.sub && hi == Cut(lo + 2 * r.sub, r.n)
    ensures lo < mid < hi <= |from| == |to| && to[lo..hi] == Merge(from[lo..mid], from[mid..hi])
  {
    SafeThread(r, k);
    assert r.StartB(k) == mid && r.EndB(k) == hi;
    Bounds(r, k, |from|);
    assert MergedBy(r, from, to, k);
  }

  lemma DoubledRun(r: Round, from: seq<int>, was: seq<int>, to: seq<int>, k: nat)
    requires r.Ok() && r.Safe() && RoundResult(r, from, was, to) && Runs(from, r.sub, r.n)
    requires At(k, 2 * r.sub) < r.n <= |to|
    ensures Sorted(Run(to, 2 * r.sub, r.n, k))
  {
    AtDouble(k, r.sub);
    var lo := r.StartA(k);
    var mid, hi := lo + r.sub, Cut(lo + 2 * r.sub, r.n);
    SafeBlock(r, from, was, to, k, lo, mid, hi);
    assert Run(from, r.sub, r.n, 2 * k) == from[lo..mid];
    assert Run(from, r.sub, r.n, 2 * k + 1) == from[mid..hi];
    MergeSorts(from[lo..mid], from[mid..hi]);
  }

  /** After a safe round the runs are sorted and twice as long. */
  lemma SafeRoundDoubles(r: Round, from: seq<int>, was: seq<int>, to: seq<int>)
    requires r.Ok() && r.Safe() && RoundResult(r, from, was, to) && Runs(from, r.sub, r.n)
    ensures Runs(to, 2 * r.sub, r.n)
  {
    forall k: nat | At(k, 2 * r.sub) < r.n ensures Sorted(Run(to, 2 * r.sub, r.n, k)) {
      DoubledRun(r, from, was, to, k);
    }
  }

  lemma {:induction false} JoinPermuted(from: seq<int>, to: seq<int>, lo: nat, mid: nat, hi: nat)
    requires lo < mid < hi <= |from| == |to| && to[lo..hi] == Merge(from[lo..mid], from[mid..hi])
    requires multiset(to[..lo]) == multiset(from[..lo])
    ensures multiset(to[..hi]) == multiset(from[..hi])
  {
    var a, b := from[lo..mid], from[mid..hi];
    MergePermutes(a, b);
    assert to[..hi] == to[..lo] + to[lo..hi];
    assert from[..hi] == from[..lo] + (a + b);
  }

  lemma {:induction false} PrefixPermuted(r: Round, from: seq<int>, was: seq<int>, to: seq<int>, k: nat)
    requires r.Ok() && r.Safe() && RoundResult(r, from, was, to)
    ensures multiset(to[..Cut(r.StartA(k), r.n)]) == multiset(from[..Cut(r.StartA(k), r.n)])
    decreases k
  {
    if k > 0 {
      PrefixPermuted(r, from, was, to, k - 1);
      var lo := r.StartA(k - 1);
      assert r.StartA(k) == lo + 2 * r.sub by { assert At(2 * k, r.sub) == At(2 * k - 1, r.sub) + r.sub; }
      if lo < r.n {
        var mid, hi := lo + r.sub, Cut(lo + 2 * r.sub, r.n);
        SafeBlock(r, from, was, to, k - 1, lo, mid, hi);
        JoinPermuted(from, to, lo, mid, hi);
      }
    }
  }

  /** ... and hold the same elements. */
  lemma SafeRoundPermutes(r: Round, from: seq<int>, was: seq<int>, to: seq<int>)
    requires r.Ok() && r.Safe() && RoundResult(r, from, was, to)
    ensures multiset(to[..r.n]) == multiset(from[..r.n])
  {
    PrefixPermuted(r, from, was, to, r.threads);
  }

  // ---------------------------------------------------------------- an unsafe round

  lemma {:induction false} MergeSecondFirst(a: seq<int>, b: seq<int>)
    requires forall i, j :: 0 <= i < |a| && 0 <= j < |b| ==> b[j] <= a[i]
    ensures Merge(a, b) == b + a
    decreases |b|
  {
    if a != [] && b != [] {
      MergeSecondFirst(a, b[1..]);
      assert b == [b[0]] + b[1..];
    }
  }

  /** Ones below n, zeros from there on. */
  ghost predicate OnesBelow(s: seq<int>, n: nat) { forall i :: 0 <= i < |s| ==> s[i] == if i < n then 1 else 0 }

  /** Where an unsafe round goes wrong: the block q that holds position n. */
  lemma UnsafeBlock(r: Round) returns (q: nat)
    requires r.Ok() && !r.Safe()
    ensures r.StartA(q) < r.n < r.StartA(q) + 2 * r.sub && q < r.threads
    ensures q == r.threads - 1 ==> r.n <= r.StartA(q) + r.sub
  {
    q := 0;
    while r.StartA(q) + 2 * r.sub <= r.n
      invariant q < r.threads && r.StartA(q) < r.n
      decreases r.threads - q
    {
      assert r.StartA(q + 1) == At(2 * q + 1, r.sub) + r.sub;
      assert r.n != r.StartA(q + 1);
      q := q + 1;
    }
    assert r.n != r.StartA(q + 1) == At(2 * q + 1, r.sub) + r.sub;
  }

  /** The last run is not copied: its place keeps what the target buffer held before. */
  lemma LostRun(r: Round, from: seq<int>, was: seq<int>, to: seq<int>, lo: nat)
    requires r.sub > 0 && RoundResult(r, from, was, to)
    requires lo == r.StartA(r.threads - 1) && lo < r.n <= lo + r.sub
    ensures forall i :: lo <= i < |to| ==> to[i] == was[i]
  {
    forall i | lo <= i < |to| ensures to[i] == was[i] {
      forall t: nat ensures !Writes(r, t, i) {
        if t < r.threads - 1 && Writes(r, t, i) { OrderedWrites(r, t, r.threads - 1, i); }
      }
      assert !Written(r, i);
    }
  }

  /** The block is merged with whatever lies past the size. */
  lemma MixedBlock(r: Round, from: seq<int>, was: seq<int>, to: seq<int>, q: nat, lo: nat)
    requires r.sub > 0 && RoundResult(r, from, was, to) && q < r.threads - 1
    requires lo == r.StartA(q)
    ensures lo + 2 * r.sub <= |from| && to[lo..lo + 2 * r.sub] == Merge(from[lo..lo + r.sub], from[lo + r.sub..lo + 2 * r.sub])
  {
    assert r.Active(q);
    assert MergedBy(r, from, to, q);
    Bounds(r, q, |from|);
  }

  lemma {:induction false} MixedZero(from: seq<int>, n: nat, lo: nat, sub: nat, to: seq<int>) returns (i: nat)
    requires lo < n < lo + 2 * sub <= |from| && |to| == 2 * sub && OnesBelow(from, n)
    requires to == Merge(from[lo..lo + sub], from[lo + sub..lo + 2 * sub])
    ensures lo <= i < n && to[i - lo] == 0
  {
    var a, b := from[lo..lo + sub], from[lo + sub..lo + 2 * sub];
    MergeSecondFirst(a, b);
    i := if lo + sub < n then n - sub else lo;
    assert (b + a)[i - lo] == b[i - lo] == from[i + sub];
  }

  lemma LostZero(r: Round, from: seq<int>, was: seq<int>, to: seq<int>, lo: nat)
    requires r.sub > 0 && RoundResult(r, from, was, to) && OnesBelow(was, 0)
    requires lo == r.StartA(r.threads - 1) && lo < r.n <= lo + r.sub
    ensures to[lo] == 0
  {
    LostRun(r, from, was, to, lo);
  }

  lemma {:induction false} MixedRunZero(r: Round, from: seq<int>, was: seq<int>, to: seq<int>, q: nat, lo: nat) returns (i: nat)
    requires r.sub > 0 && RoundResult(r, from, was, to) && OnesBelow(from, r.n)
    requires q < r.threads - 1 && lo == r.StartA(q) && lo < r.n < lo + 2 * r.sub
    ensures i < r.n && to[i] == 0
  {
    var sub := r.sub;
    MixedBlock(r, from, was, to, q, lo);
    i := MixedZero(from, r.n, lo, sub, to[lo..lo + 2 * sub]);
  }

  /** An unsafe round lets a zero from past the size, or from the old target, into the first n elements. */
  lemma UnsafeRoundFails(r: Round, from: seq<int>, was: seq<int>, to: seq<int>) returns (i: nat)
    requires r.Ok() && !r.Safe() && RoundResult(r, from, was, to)
    requires OnesBelow(from, r.n) && OnesBelow(was, 0)
    ensures i < r.n && to[i] == 0
  {
    var q := UnsafeBlock(r);
    var lo := r.StartA(q);
    if q == r.threads - 1 {
      LostZero(r, from, was, to, lo);
      i := lo;
    } else {
      i := MixedRunZero(r, from, was, to, q, lo);
    }
  }

  /** A round does its job on the given buffers. */
  ghost predicate Does(r: Round, from: seq<int>, to: seq<int>)
    requires r.n <= |from| && r.n <= |to|
  {
    Runs(to, 2 * r.sub, r.n) && multiset(to[..r.n]) == multiset(from[..r.n])
  }

  ghost predicate Works(r: Round, capacity: nat) {
    forall from: seq<int>, was: seq<int>, to: seq<int> ::
      |from| == capacity && RoundResult(r, from, was, to) && Runs(from, r.sub, r.n) ==> Does(r, from, to)
  }

  /** The round as a function of both buffers. */
  ghost function RoundOf(r: Round, from: seq<int>, was: seq<int>): (to: seq<int>)
    requires |from| == |was| && r.InBounds(|from|)
    ensures RoundResult(r, from, was, to)
  {
    var to := seq(|from|, i requires 0 <= i < |from| => Cell(r, from, was, i));
    forall t | 0 <= t < r.threads && r.Active(t) ensures MergedBy(r, from, to, t) { CellsOf(r, from, was, to, t); }
    to
  }

  ghost function Cell(r: Round, from: seq<int>, was: seq<int>, i: nat): int
    requires |from| == |was| && r.InBounds(|from|) && i < |from|
  {
    if t: nat :| Writes(r, t, i) then
      Bounds(r, t, |from|);
      Merge(from[r.StartA(t)..r.StartB(t)], from[r.StartB(t)..r.EndB(t)])[i - r.StartA(t)]
    else was[i]
  }

  /** A round's result is determined by the two buffers. */
  lemma RoundUnique(r: Round, from: seq<int>, was: seq<int>, to: seq<int>)
    requires RoundResult(r, from, was, to)
    ensures to == RoundOf(r, from, was)
  {
    var to' := RoundOf(r, from, was);
    forall i | 0 <= i < |to| ensures to[i] == to'[i] {
      if Written(r, i) {
        var t: nat :| Writes(r, t, i);
        SameCell(r, from, to, to', t, i);
      }
    }
  }

  lemma SameCell(r: Round, from: seq<int>, to: seq<int>, to': seq<int>, t: nat, i: nat)
    requires |from| == |to| == |to'| && r.InBounds(|from|) && Writes(r, t, i)
    requires MergedBy(r, from, to, t) && MergedBy(r, from, to', t)
    ensures i < |to| && to[i] == to'[i]
  {
    Bounds(r, t, |from|);
    var lo, hi := r.StartA(t), r.EndB(t);
    assert to[lo..hi][i - lo] == to'[lo..hi][i - lo];
  }

  lemma CellsOf(r: Round, from: seq<int>, was: seq<int>, to: seq<int>, t: nat)
    requires |from| == |was| == |to| && r.InBounds(|from|) && t < r.threads && r.Active(t)
    requires forall i :: 0 <= i < |from| ==> to[i] == Cell(r, from, was, i)
    ensures MergedBy(r, from, to, t)
  {
    Bounds(r, t, |from|);
    var lo, hi := r.StartA(t), r.EndB(t);
    var whole := Merge(from[lo..r.StartB(t)], from[r.StartB(t)..hi]);
    forall i | lo <= i < hi ensures to[i] == whole[i - lo] {
      assert Writes(r, t, i);
      forall u: nat | Writes(r, u, i) ensures u == t { DisjointWrites(r, u, t, i); }
    }
    assert to[lo..hi] == whole;
  }

  lemma ForeignElement(r: Round, from: seq<int>, to: seq<int>, i: nat)
    requires r.n <= |from| && r.n <= |to| && OnesBelow(from, r.n) && i < r.n && to[i] == 0
    ensures !Does(r, from, to)
  {
    assert to[..r.n][i] in multiset(to[..r.n]);
    assert forall k :: 0 <= k < r.n ==> from[..r.n][k] == 1;
    assert 0 !in multiset(from[..r.n]);
  }

  lemma ConstantRuns(s: seq<int>, sub: nat, n: nat)
    requires n <= |s| && OnesBelow(s, n)
    ensures Runs(s, sub, n)
  {
    forall k: nat | At(k, sub) < n ensures Sorted(Run(s, sub, n, k)) {
      assert forall i :: 0 <= i < |Run(s, sub, n, k)| ==> Run(s, sub, n, k)[i] == 1;
    }
  }

  lemma UnsafeDoesNotWork(r: Round, capacity: nat)
    requires r.Ok() && r.InBounds(capacity) && !r.Safe()
    ensures !Works(r, capacity)
  {
    var from, was := seq(capacity, i => if i < r.n then 1 else 0), seq(capacity, i => 0);
    var to := RoundOf(r, from, was);
    var i := UnsafeRoundFails(r, from, was, to);
    ConstantRuns(from, r.sub, r.n);
    ForeignElement(r, from, to, i);
  }

  /** A round works on all contents exactly when it is safe. */
  lemma WorksIffSafe(r: Round, capacity: nat)
    requires r.Ok() && r.InBounds(capacity)
    ensures Works(r, capacity) <==> r.Safe()
  {
    if r.Safe() {
      forall from: seq<int>, was: seq<int>, to: seq<int>
        | |from| == capacity && RoundResult(r, from, was, to) && Runs(from, r.sub, r.n)
        ensures Does(r, from, to)
      {
        SafeRoundDoubles(r, from, was, to);
        SafeRoundPermutes(r, from, was, to);
      }
    } else {
      UnsafeDoesNotWork(r, capacity);
    }
  }
}
