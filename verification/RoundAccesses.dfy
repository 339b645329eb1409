/** Which elements the merge rounds of DistArray::sort address, and when these lie past the capacity. */
module RoundAccesses {
  import opened PowersOfTwo
  import opened Multiples
  import opened MergeRound
  import opened MergeRounds
  import opened MergeRoundsExact

  /** The rounds of the merge loop, in order. */
  function Rounds(sub: nat, runs: nat, n: nat): (rounds: seq<Round>)
    requires sub > 0
    decreases n - sub
  {
    if n <= sub then [] else [Round(sub, runs / 2, n)] + Rounds(2 * sub, runs / 2, n)
  }

  /** What the sort sees to before the first round. */
  ghost predicate Sized(sub: nat, runs: nat, n: nat, capacity: nat) {
    sub > 0 && IsPow2(runs) && runs > 0 && n <= capacity && n <= At(runs, sub)
  }

  // ---------------------------------------------------------------- accesses within the runs

  /** The last pair of runs begins within the capacity, if there is a round at all. */
  ghost predicate AccessesFit(sub: nat, runs: nat, n: nat, capacity: nat) {
    n <= sub || runs < 2 || At(runs - 2, sub) <= capacity
  }

  /** The ranges that the round's threads load from and store to end within the capacity. */
  ghost predicate RangesFit(r: Round, capacity: nat) {
    forall t :: 0 <= t < r.threads && r.Active(t) ==> r.EndB(t) <= capacity
  }

  /** That is exactly when every thread of every round stays within the capacity. */
  lemma {:induction false} AccessesFitIsExact(sub: nat, runs: nat, n: nat, capacity: nat)
    requires Sized(sub, runs, n, capacity)
    ensures AccessesFit(sub, runs, n, capacity) <==> forall r :: r in Rounds(sub, runs, n) ==> RangesFit(r, capacity)
    decreases n - sub
  {
    if sub < n {
      HalfRuns(sub, runs, n);
      var r := Round(sub, runs / 2, n);
      InBoundsIsExact(r, capacity);
      assert r.StartA(r.threads - 1) == At(runs - 2, sub);
      assert r in Rounds(sub, runs, n);
      if AccessesFit(sub, runs, n, capacity) {
        ReadyRound(sub, runs, n, capacity);
        AccessesFitIsExact(2 * sub, runs / 2, n, capacity);
      }
    }
  }

  // ---------------------------------------------------------------- loads past a run

  /** Some thread of some round looks ahead past the capacity, with runs in x, which has room for cx elements, and y as
      the other buffer, with room for cy. */
  ghost predicate LooksPast(sub: nat, runs: nat, n: nat, x: seq<int>, y: seq<int>, cx: nat, cy: nat)
    requires Ready(sub, runs, n, |x|) && |x| == |y|
    decreases n - sub
  {
    sub < n &&
    (ReadyRound(sub, runs, n, |x|);
     var r := Round(sub, runs / 2, n);
     LooksPastIn(r, x, cx) || LooksPast(2 * sub, runs / 2, n, RoundOf(r, x, y), x, cy, cx))
  }

  /** The range of one of the round's threads ends just at the capacity. */
  ghost predicate EndsAt(r: Round, capacity: nat) { exists t: nat :: t < r.threads && r.Active(t) && r.EndB(t) == capacity }

  /** Some round has a range that ends at the capacity of the buffer it loads from; the buffers take turns. */
  ghost predicate MeetsCapacity(rounds: seq<Round>, cx: nat, cy: nat) {
    rounds != [] && (EndsAt(rounds[0], cx) || MeetsCapacity(rounds[1..], cy, cx))
  }

  lemma {:induction false} LookingPastMeets(sub: nat, runs: nat, n: nat, x: seq<int>, y: seq<int>, cx: nat, cy: nat)
    requires Ready(sub, runs, n, |x|) && |x| == |y| && LooksPast(sub, runs, n, x, y, cx, cy)
    ensures MeetsCapacity(Rounds(sub, runs, n), cx, cy)
    decreases n - sub
  {
    ReadyRound(sub, runs, n, |x|);
    var r := Round(sub, runs / 2, n);
    assert Rounds(sub, runs, n)[1..] == Rounds(2 * sub, runs / 2, n);
    if !LooksPastIn(r, x, cx) { LookingPastMeets(2 * sub, runs / 2, n, RoundOf(r, x, y), x, cy, cx); }
  }

  lemma EqualHeadsLookPast(r: Round, x: seq<int>, capacity: nat)
    requires EndsAt(r, capacity) && r.InBounds(|x|) && capacity <= |x| && Const(x, 0, |x|, 0)
    ensures LooksPastIn(r, x, capacity)
  {
    var t: nat :| t < r.threads && r.Active(t) && r.EndB(t) == capacity;
    Bounds(r, t, |x|);
    assert AtLeast(x[r.StartA(t)..r.StartB(t)][0], x[r.StartB(t)..r.EndB(t)]);
    assert LooksPastBy(r, x, capacity, t);
  }

  /** Buffers of zeros look past the capacity as soon as any buffers do. */
  lemma {:induction false} ZerosLookPast(sub: nat, runs: nat, n: nat, x: seq<int>, cx: nat, cy: nat)
    requires Ready(sub, runs, n, |x|) && Const(x, 0, |x|, 0) && |x| == Cut(cx, cy) && MeetsCapacity(Rounds(sub, runs, n), cx, cy)
    ensures LooksPast(sub, runs, n, x, x, cx, cy)
    decreases n - sub
  {
    ReadyRound(sub, runs, n, |x|);
    var r := Round(sub, runs / 2, n);
    assert Rounds(sub, runs, n)[1..] == Rounds(2 * sub, runs / 2, n);
    if EndsAt(r, cx) {
      AnyEndFits(r, cx, |x|);
      EqualHeadsLookPast(r, x, cx);
    } else {
      Fixed(r, x, 0);
      RoundUnique(r, x, x, x);
      ZerosLookPast(2 * sub, runs / 2, n, x, cy, cx);
    }
  }

  lemma AnyEndFits(r: Round, end: nat, capacity: nat)
    requires EndsAt(r, end) && r.InBounds(capacity)
    ensures end <= capacity
  {
    var t: nat :| t < r.threads && r.Active(t) && r.EndB(t) == end;
    Bounds(r, t, capacity);
  }

  lemma ConstRuns(x: seq<int>, sub: nat, n: nat)
    requires n <= |x| && Const(x, 0, |x|, 0)
    ensures Runs(x, sub, n)
  {
    forall k: nat | At(k, sub) < n ensures Sorted(Run(x, sub, n, k)) {}
  }

  /** Some contents make the sort look past the capacity exactly if some range ends there. */
  lemma LookAheadIsExact(sub: nat, runs: nat, n: nat, cx: nat, cy: nat)
    requires Ready(sub, runs, n, Cut(cx, cy))
    ensures MeetsCapacity(Rounds(sub, runs, n), cx, cy) <==>
      exists x, y :: |x| == |y| == Cut(cx, cy) && Runs(x, sub, n) && LooksPast(sub, runs, n, x, y, cx, cy)
  {
    if MeetsCapacity(Rounds(sub, runs, n), cx, cy) {
      var x := seq(Cut(cx, cy), i => 0);
      ZerosLookPast(sub, runs, n, x, cx, cy);
      ConstRuns(x, sub, n);
    }
    if x, y :| |x| == |y| == Cut(cx, cy) && Runs(x, sub, n) && LooksPast(sub, runs, n, x, y, cx, cy) {
      LookingPastMeets(sub, runs, n, x, y, cx, cy);
    }
  }

  /** So if the array and the scratch buffer have no element to spare, some contents do as soon as there is a round. */
  lemma {:induction false} NothingToSpare(sub: nat, runs: nat, n: nat)
    requires Ready(sub, runs, n, n)
    ensures MeetsCapacity(Rounds(sub, runs, n), n, n) <==> sub < n
    decreases n - sub
  {
    if sub < n {
      ReadyRound(sub, runs, n, n);
      var r := Round(sub, runs / 2, n);
      assert Rounds(sub, runs, n)[1..] == Rounds(2 * sub, runs / 2, n);
      if 2 * sub < n {
        NothingToSpare(2 * sub, runs / 2, n);
      } else {
        if r.threads > 1 { Next(r, 0, r.threads - 1); }
        assert At(0, sub) == 0;
        assert r.Active(0) && r.EndB(0) == n;
      }
    }
  }
}
