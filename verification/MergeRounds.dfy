/** The merge rounds of DistArray::sort, and exactly when they sort. */
module MergeRounds {
  import opened PowersOfTwo
  import opened Multiples
  import opened MergeRound

  /** What holds before each round: half as many threads as runs. */
  ghost predicate Ready(sub: nat, runs: nat, n: nat, capacity: nat) {
    && sub > 0 && IsPow2(runs) && runs > 0 && n <= capacity && n <= At(runs, sub)
    && (n <= sub || runs < 2 || At(runs - 2, sub) <= capacity)
  }

  lemma HalfRuns(sub: nat, runs: nat, n: nat)
    requires IsPow2(runs) && sub < n <= At(runs, sub)
    ensures runs >= 2 && IsPow2(runs / 2) && runs == 2 * (runs / 2)
  {
    assert At(1, sub) == sub;
    HalfPow2(runs);
  }

  lemma ReadyRound(sub: nat, runs: nat, n: nat, capacity: nat)
    requires Ready(sub, runs, n, capacity) && sub < n
    ensures Round(sub, runs / 2, n).Ok() && Round(sub, runs / 2, n).InBounds(capacity)
    ensures Ready(2 * sub, runs / 2, n, capacity)
  {
    HalfRuns(sub, runs, n);
    var p := runs / 2;
    AtDouble(p, sub);
    AtDouble(p - 1, sub);
    if p >= 2 { AtDouble(p - 2, sub); AtOrder(2 * (p - 2), 2 * p - 2, sub); }
    AtOrder(2 * (p - 1), 2 * p - 1, sub);
  }

  /** The merge rounds, from runs of length sub in x, with y as the other buffer. */
  ghost function Final(sub: nat, runs: nat, n: nat, x: seq<int>, y: seq<int>): (z: seq<int>)
    requires Ready(sub, runs, n, |x|) && |x| == |y|
    ensures |z| == |x|
    decreases n - sub
  {
    if n <= sub then x
    else
      ReadyRound(sub, runs, n, |x|);
      Final(2 * sub, runs / 2, n, RoundOf(Round(sub, runs / 2, n), x, y), x)
  }

  /** z holds x's first n elements in order. */
  ghost predicate Good(x: seq<int>, z: seq<int>, n: nat)
    requires n <= |x| && n <= |z|
  {
    Sorted(z[..n]) && multiset(z[..n]) == multiset(x[..n])
  }

  /** The number of runs suits the size: one run suffices; the very last run is not empty; a power of two of
      runs holds exactly the size; or three runs are empty, or three times a power of two of them exactly, and
      the one round that loses a run finds the right elements still in place. */
  ghost predicate Fits(sub: nat, runs: nat, n: nat)
    requires runs > 0
  {
    || n <= sub
    || At(runs - 1, sub) < n
    || (exists j: nat :: n == At(Pow2(j), sub))
    || ThreeEmpty(sub, runs, n)
    || (exists k: nat :: 4 * Pow2(k) < runs && n == At(runs - 3 * Pow2(k), sub))
  }

  ghost predicate ThreeEmpty(sub: nat, runs: nat, n: nat) { runs > 4 && At(runs - 4, sub) < n <= At(runs - 3, sub) }

  /** The rounds sort whatever the two buffers hold. */
  ghost predicate AlwaysSorts(sub: nat, runs: nat, n: nat, capacity: nat)
    requires Ready(sub, runs, n, capacity)
  {
    forall x: seq<int>, y: seq<int> ::
      |x| == |y| == capacity && Runs(x, sub, n) ==> Good(x, Final(sub, runs, n, x, y), n)
  }

  // ---------------------------------------------------------------- if it fits, it sorts

  lemma FitsSafe(sub: nat, runs: nat, n: nat, capacity: nat)
    requires Ready(sub, runs, n, capacity) && sub < n && Fits(sub, runs, n) && !ThreeEmpty(sub, runs, n)
    ensures runs >= 2 && Round(sub, runs / 2, n).Safe() && Fits(2 * sub, runs / 2, n)
  {
    HalfRuns(sub, runs, n);
    var p := runs / 2;
    assert At(1, sub) == sub;
    if At(runs - 1, sub) < n {
      AtDouble(p - 1, sub);
      AtOrder(2 * (p - 1), runs - 1, sub);
    } else if j: nat :| n == At(Pow2(j), sub) {
      assert j > 0;
      AtDouble(Pow2(j - 1), sub);
      assert n == At(2 * Pow2(j - 1), sub);
    } else {
      var k: nat :| 4 * Pow2(k) < runs && n == At(runs - 3 * Pow2(k), sub);
      assert At(runs - 3, sub) == At(runs - 4, sub) + sub;
      assert k > 0;
      var m := p - 3 * Pow2(k - 1);
      AtDouble(m, sub);
      assert n == At(2 * m, sub);
    }
  }

  /** The first m blocks of a round are a round of their own. */
  lemma Truncate(r: Round, from: seq<int>, was: seq<int>, to: seq<int>, m: nat, lo: nat)
    requires RoundResult(r, from, was, to) && 0 < m < r.threads && lo == At(2 * m, r.sub) <= r.n
    ensures RoundResult(Round(r.sub, m, lo), from[..lo], was[..lo], to[..lo])
  {
    var c := Round(r.sub, m, lo);
    Next(r, m - 1, m);
    AtOrder(2 * (m - 1), 2 * m, r.sub);
    forall t | 0 <= t < m ensures c.EndB(t) == r.EndB(t) <= lo && c.Active(t) && MergedBy(c, from[..lo], to[..lo], t) {
      TruncateThread(r, from, to, m, lo, t);
    }
    forall i | 0 <= i < lo && !Written(c, i) ensures to[..lo][i] == was[..lo][i] {
      forall t: nat ensures !Writes(r, t, i) {
        if t < m { assert !Writes(c, t, i); } else { AtOrder(2 * m, 2 * t, r.sub); }
      }
      assert !Written(r, i);
    }
  }

  lemma TruncateBounds(r: Round, m: nat, lo: nat, t: nat)
    requires r.sub > 0 && t < m < r.threads && lo == At(2 * m, r.sub) <= r.n
    ensures var c := Round(r.sub, m, lo); c.EndB(t) == r.EndB(t) == r.StartA(t) + 2 * r.sub <= lo && c.InBounds(lo)
  {
    Next(r, t, m);
    if t == m - 1 { assert At(2 * m, r.sub) == At(2 * m - 1, r.sub) + r.sub; }
    AtOrder(2 * (m - 1), 2 * m, r.sub);
  }

  lemma PrefixMerged(from: seq<int>, to: seq<int>, cut: nat, lo: nat, mid: nat, hi: nat)
    requires lo <= mid <= hi <= cut <= |from| == |to| && to[lo..hi] == Merge(from[lo..mid], from[mid..hi])
    ensures to[..cut][lo..hi] == Merge(from[..cut][lo..mid], from[..cut][mid..hi])
  {
    assert from[..cut][lo..mid] == from[lo..mid] && from[..cut][mid..hi] == from[mid..hi] && to[..cut][lo..hi] == to[lo..hi];
  }

  lemma TruncateThread(r: Round, from: seq<int>, to: seq<int>, m: nat, lo: nat, t: nat)
    requires |from| == |to| && r.InBounds(|from|) && t < m < r.threads && lo == At(2 * m, r.sub) <= r.n
    requires r.Active(t) ==> MergedBy(r, from, to, t)
    ensures var c := Round(r.sub, m, lo);
      c.EndB(t) == r.EndB(t) <= lo && c.Active(t) && c.InBounds(lo) && MergedBy(c, from[..lo], to[..lo], t)
  {
    TruncateBounds(r, m, lo, t);
    PrefixMerged(from, to, lo, r.StartA(t), r.StartB(t), r.EndB(t));
  }

  lemma PrefixRun(s: seq<int>, sub: nat, n: nat, m: nat, lo: nat, k: nat)
    requires lo == At(m, sub) <= n <= |s| && At(k, sub) < lo
    ensures Run(s[..lo], sub, lo, k) == Run(s, sub, n, k)
  {
    if k >= m { AtOrder(m, k, sub); } else { AtOrder(k, m, sub); }
  }

  lemma RunsPrefix(s: seq<int>, sub: nat, n: nat, m: nat, lo: nat)
    requires Runs(s, sub, n) && lo == At(m, sub) <= n
    ensures Runs(s[..lo], sub, lo)
  {
    forall k: nat | At(k, sub) < lo ensures Sorted(Run(s[..lo], sub, lo, k)) { PrefixRun(s, sub, n, m, lo, k); }
  }

  /** The whole blocks before position lo are merged properly whatever happens after them. */
  lemma PrefixRound(r: Round, from: seq<int>, was: seq<int>, to: seq<int>, m: nat, lo: nat)
    requires RoundResult(r, from, was, to) && 0 < m < r.threads && lo == At(2 * m, r.sub) <= r.n && r.sub > 0
    requires Runs(from[..lo], r.sub, lo)
    ensures Runs(to[..lo], 2 * r.sub, lo) && multiset(to[..lo]) == multiset(from[..lo])
  {
    var c := Round(r.sub, m, lo);
    Truncate(r, from, was, to, m, lo);
    AtOrder(2, 2 * m, r.sub);
    assert At(2, r.sub) == At(1, r.sub) + r.sub && At(1, r.sub) == r.sub;
    SafeRoundDoubles(c, from[..lo], was[..lo], to[..lo]);
    SafeRoundPermutes(c, from[..lo], was[..lo], to[..lo]);
    assert to[..lo][..lo] == to[..lo] && from[..lo][..lo] == from[..lo];
  }

  /** A sorted tail of at most one run completes sorted runs. */
  lemma JoinRuns(z: seq<int>, sub: nat, n: nat, m: nat, lo: nat)
    requires lo == At(m, sub) < n <= lo + sub && n <= |z|
    requires Runs(z[..lo], sub, lo) && Sorted(z[lo..n])
    ensures Runs(z, sub, n)
  {
    forall k: nat | At(k, sub) < n ensures Sorted(Run(z, sub, n, k)) {
      if k < m {
        AtOrder(k, m, sub);
        PrefixRun(z, sub, n, m, lo, k);
      } else {
        if k > m { AtOrder(m, k, sub); }
        assert Run(z, sub, n, k) == z[lo..n];
      }
    }
  }

  lemma FourAt(u: nat, sub: nat)
    ensures At(u, 4 * sub) == At(2 * u, 2 * sub) == At(4 * u, sub)
  {
    AtDouble(u, 2 * sub);
    AtDouble(2 * u, sub);
  }

  /** The places in a round pair that loses the tail: 4 * u runs of length sub, of which the last three are empty. */
  ghost predicate Tail(sub: nat, u: nat, n: nat, lo: nat) {
    && sub > 0 && u >= 2 && lo == At(4 * (u - 1), sub) == At(2 * (u - 1), 2 * sub) == At(u - 1, 4 * sub)
    && lo < n
  }

  /** A round pair with an unused run treats the blocks before lo properly and keeps the tail as it was. */
  lemma TailKept(sub: nat, u: nat, n: nat, lo: nat, x: seq<int>, y: seq<int>, w: seq<int>, z: seq<int>)
    requires Tail(sub, u, n, lo) && n <= |x| && n <= lo + 2 * sub && Runs(x[..lo], sub, lo)
    requires RoundResult(Round(sub, 2 * u, n), x, y, w) && RoundResult(Round(2 * sub, u, n), w, x, z)
    ensures Runs(z[..lo], 4 * sub, lo) && multiset(z[..lo]) == multiset(x[..lo]) && z[lo..n] == x[lo..n]
  {
    PrefixRound(Round(sub, 2 * u, n), x, y, w, 2 * (u - 1), lo);
    PrefixRound(Round(2 * sub, u, n), w, x, z, u - 1, lo);
    LostRun(Round(2 * sub, u, n), w, x, z, lo);
  }

  /** With three empty runs, the first round spoils the last run and the second restores it. */
  lemma Restored(sub: nat, u: nat, n: nat, lo: nat, x: seq<int>, y: seq<int>, w: seq<int>, z: seq<int>)
    requires Tail(sub, u, n, lo) && n <= lo + sub && Runs(x, sub, n)
    requires RoundResult(Round(sub, 2 * u, n), x, y, w) && RoundResult(Round(2 * sub, u, n), w, x, z)
    ensures Runs(z, 4 * sub, n) && multiset(z[..n]) == multiset(x[..n])
  {
    RunsPrefix(x, sub, n, 4 * (u - 1), lo);
    TailKept(sub, u, n, lo, x, y, w, z);
    assert Run(x, sub, n, 4 * (u - 1)) == x[lo..n];
    JoinRuns(z, 4 * sub, n, u - 1, lo);
    assert z[..n] == z[..lo] + z[lo..n] && x[..n] == x[..lo] + x[lo..n];
  }

  lemma TailAt(sub: nat, runs: nat, n: nat) returns (u: nat, lo: nat)
    requires IsPow2(runs) && runs > 4 && sub > 0 && At(runs - 4, sub) < n
    ensures runs == 4 * u && runs / 2 == 2 * u && Tail(sub, u, n, lo) && lo == At(runs - 4, sub) && 2 * sub < n
  {
    HalfPow2(runs);
    HalfPow2(runs / 2);
    u := runs / 4;
    lo := At(4 * (u - 1), sub);
    FourAt(u - 1, sub);
    AtOrder(1, 2 * (u - 1), 2 * sub);
    assert At(1, 2 * sub) == 2 * sub;
  }

  lemma FinalSorts(sub: nat, runs: nat, n: nat, x: seq<int>, y: seq<int>)
    requires Ready(sub, runs, n, |x|) && |x| == |y| && Runs(x, sub, n) && Fits(sub, runs, n)
    ensures Good(x, Final(sub, runs, n, x, y), n)
    decreases n - sub
  {
    if n <= sub {
      assert At(0, sub) == 0;
      assert n > 0 ==> Run(x, sub, n, 0) == x[..n];
    } else {
      ReadyRound(sub, runs, n, |x|);
      HalfRuns(sub, runs, n);
      var r := Round(sub, runs / 2, n);
      var w := RoundOf(r, x, y);
      if ThreeEmpty(sub, runs, n) {
        FinalRestored(sub, runs, n, x, y);
      } else {
        FitsSafe(sub, runs, n, |x|);
        SafeRoundDoubles(r, x, y, w);
        SafeRoundPermutes(r, x, y, w);
        FinalSorts(2 * sub, runs / 2, n, w, x);
      }
    }
  }

  /** Two rounds at a time. */
  lemma FinalTwo(sub: nat, runs: nat, n: nat, x: seq<int>, y: seq<int>) returns (w: seq<int>, z: seq<int>)
    requires Ready(sub, runs, n, |x|) && |x| == |y| && 2 * sub < n
    ensures Ready(4 * sub, runs / 4, n, |x|) && |w| == |z| == |x|
    ensures RoundResult(Round(sub, runs / 2, n), x, y, w) && RoundResult(Round(2 * sub, runs / 4, n), w, x, z)
    ensures Final(sub, runs, n, x, y) == Final(4 * sub, runs / 4, n, z, w)
  {
    ReadyRound(sub, runs, n, |x|);
    w := RoundOf(Round(sub, runs / 2, n), x, y);
    ReadyRound(2 * sub, runs / 2, n, |x|);
    z := RoundOf(Round(2 * sub, runs / 4, n), w, x);
  }

  lemma RestoredPair(sub: nat, runs: nat, n: nat, x: seq<int>, y: seq<int>) returns (w: seq<int>, z: seq<int>)
    requires Ready(sub, runs, n, |x|) && |x| == |y| && Runs(x, sub, n) && ThreeEmpty(sub, runs, n)
    ensures Ready(4 * sub, runs / 4, n, |x|) && |w| == |z| == |x|
    ensures Final(sub, runs, n, x, y) == Final(4 * sub, runs / 4, n, z, w)
    ensures Runs(z, 4 * sub, n) && multiset(z[..n]) == multiset(x[..n]) && At(runs / 4 - 1, 4 * sub) < n
  {
    var u, lo := TailAt(sub, runs, n);
    w, z := FinalTwo(sub, runs, n, x, y);
    assert n <= lo + sub by { assert At(runs - 3, sub) == At(runs - 4, sub) + sub; }
    Restored(sub, u, n, lo, x, y, w, z);
  }

  lemma FinalRestored(sub: nat, runs: nat, n: nat, x: seq<int>, y: seq<int>)
    requires Ready(sub, runs, n, |x|) && |x| == |y| && Runs(x, sub, n) && ThreeEmpty(sub, runs, n)
    ensures Good(x, Final(sub, runs, n, x, y), n)
    decreases n - sub, 0
  {
    var w, z := RestoredPair(sub, runs, n, x, y);
    assert n - 4 * sub < n - sub;
    FinalSorts(4 * sub, runs / 4, n, z, w);
  }
}
