/** The other half of the sort's exact condition: where it fails, a buffer of zeros and ones shows it. */
module MergeRoundsExact {
  import opened PowersOfTwo
  import opened Multiples
  import opened MergeRound
  import opened MergeRounds

  ghost predicate Bits(s: seq<int>, lo: int, hi: int) { forall i :: 0 <= i < |s| && lo <= i < hi ==> 0 <= s[i] <= 1 }

  ghost predicate Const(s: seq<int>, lo: int, hi: int, v: int) { forall i :: 0 <= i < |s| && lo <= i < hi ==> s[i] == v }

  ghost predicate HasZero(s: seq<int>, lo: nat, n: nat) { exists i :: lo <= i < n && i < |s| && s[i] == 0 }

  // ---------------------------------------------------------------- single threads

  lemma ConstMerge(a: seq<int>, b: seq<int>, v: int)
    requires Const(a, 0, |a|, v) && Const(b, 0, |b|, v)
    ensures Const(Merge(a, b), 0, |a| + |b|, v)
  {
    MergeSecondFirst(a, b);
  }

  /** A thread whose input is constant writes that constant. */
  lemma ConstThread(r: Round, from: seq<int>, to: seq<int>, t: nat, v: int)
    requires |from| == |to| && r.InBounds(|from|) && t < r.threads && r.Active(t) && MergedBy(r, from, to, t)
    requires Const(from, r.StartA(t), r.EndB(t), v)
    ensures Const(to, r.StartA(t), r.EndB(t), v)
  {
    Bounds(r, t, |from|);
    var lo, mid, hi := r.StartA(t), r.StartB(t), r.EndB(t);
    ConstMerge(from[lo..mid], from[mid..hi], v);
    forall i | lo <= i < hi ensures to[i] == v { assert to[i] == to[lo..hi][i - lo]; }
  }

  lemma EndWithin(r: Round, t: nat)
    requires t < r.threads && r.n <= At(2 * r.threads, r.sub)
    ensures r.EndB(t) <= r.StartA(t) + 2 * r.sub
  {
    assert At(2 * r.threads, r.sub) == At(2 * r.threads - 1, r.sub) + r.sub;
  }

  /** Ones up to a block boundary and zeros from there on are a fixed point of a round. */
  lemma Fixed(r: Round, x: seq<int>, m: nat)
    requires OnesBelow(x, At(2 * m, r.sub)) && r.InBounds(|x|) && r.n <= At(2 * r.threads, r.sub)
    ensures RoundResult(r, x, x, x)
  {
    forall t | 0 <= t < r.threads && r.Active(t) ensures MergedBy(r, x, x, t) { FixedThread(r, x, m, t); }
  }

  lemma FixedThread(r: Round, x: seq<int>, m: nat, t: nat)
    requires OnesBelow(x, At(2 * m, r.sub)) && r.InBounds(|x|) && r.n <= At(2 * r.threads, r.sub)
    requires t < r.threads && r.Active(t)
    ensures MergedBy(r, x, x, t)
  {
    Bounds(r, t, |x|);
    EndWithin(r, t);
    if t < m { Next(r, t, m); } else { AtOrder(2 * m, 2 * t, r.sub); }
    var v := if t < m then 1 else 0;
    FixedSlice(x, r.StartA(t), r.StartB(t), r.EndB(t), v);
  }

  lemma FixedSlice(x: seq<int>, lo: nat, mid: nat, hi: nat, v: int)
    requires lo <= mid <= hi <= |x| && Const(x, lo, hi, v)
    ensures x[lo..hi] == Merge(x[lo..mid], x[mid..hi])
  {
    ConstMerge(x[lo..mid], x[mid..hi], v);
    assert forall i :: 0 <= i < hi - lo ==> x[lo..hi][i] == v == Merge(x[lo..mid], x[mid..hi])[i];
  }

  // ---------------------------------------------------------------- a round that mixes in what lies past the size

  lemma BlockOf(r: Round, q: nat, i: nat) returns (t: nat)
    requires i < r.StartA(q) && r.sub > 0
    ensures t < q && r.StartA(t) <= i < r.StartA(t) + 2 * r.sub
  {
    t := q - 1;
    assert At(2 * q, r.sub) == At(2 * q - 1, r.sub) + r.sub;
    while i < r.StartA(t)
      invariant t < q && i < r.StartA(t) + 2 * r.sub
    {
      assert At(2 * t, r.sub) == At(2 * t - 1, r.sub) + r.sub;
      t := t - 1;
    }
  }

  lemma OnesStay(r: Round, x: seq<int>, y: seq<int>, w: seq<int>, q: nat, lo: nat)
    requires RoundResult(r, x, y, w) && q < r.threads && lo == r.StartA(q) <= |x| && Const(x, 0, lo, 1)
    ensures Const(w, 0, lo, 1)
  {
    forall i | 0 <= i < lo ensures w[i] == 1 {
      var t := BlockOf(r, q, i);
      Next(r, t, q);
      assert MergedBy(r, x, w, t);
      ConstThread(r, x, w, t, 1);
    }
  }

  lemma ZerosStay(r: Round, x: seq<int>, y: seq<int>, w: seq<int>, q: nat, hi: nat)
    requires RoundResult(r, x, y, w) && q < r.threads - 1 && hi == r.StartA(q) + 2 * r.sub
    requires r.n <= r.StartA(r.threads - 1) && r.n <= hi && Const(x, hi, |x|, 0) && Const(y, hi, |x|, 0)
    ensures Const(w, hi, |x|, 0)
  {
    forall i | hi <= i < |w| ensures w[i] == 0 {
      if Written(r, i) {
        var t: nat :| Writes(r, t, i);
        if t <= q {
          if t < q { Next(r, t, q); }
          assert false;
        }
        Next(r, q, t);
        assert MergedBy(r, x, w, t);
        ConstThread(r, x, w, t, 0);
      }
    }
  }

  /** Ones up to c, a zero between c and n, zeros from hi on. */
  ghost predicate Tainted(s: seq<int>, n: nat, c: nat, hi: nat) {
    c < n < hi <= |s| && Bits(s, 0, |s|) && Const(s, 0, c, 1) && HasZero(s, c, n) && Const(s, hi, |s|, 0)
  }

  /** The round has no use for its last two runs. */
  ghost predicate Spare(r: Round) { r.sub > 0 && r.threads > 0 && r.n <= r.StartA(r.threads - 1) }

  /** Only the block at lo is mixed; it is merged all the same. */
  ghost predicate Mixed(x: seq<int>, w: seq<int>, lo: nat, sub: nat) {
    && lo + 2 * sub <= |x| == |w|
    && Const(w, 0, lo, 1) && Const(w, lo + 2 * sub, |w|, 0)
    && w[lo..lo + 2 * sub] == Merge(x[lo..lo + sub], x[lo + sub..lo + 2 * sub])
  }

  lemma MixedRound(r: Round, x: seq<int>, y: seq<int>, w: seq<int>, q: nat, lo: nat)
    requires RoundResult(r, x, y, w) && Spare(r) && lo == r.StartA(q) < r.n < lo + 2 * r.sub
    requires Const(x, 0, lo, 1) && Const(x, lo + 2 * r.sub, |x|, 0) && Const(y, lo + 2 * r.sub, |y|, 0)
    ensures Mixed(x, w, lo, r.sub)
  {
    if q >= r.threads - 1 { AtOrder(2 * (r.threads - 1), 2 * q, r.sub); }
    MixedBlock(r, x, y, w, q, lo);
    OnesStay(r, x, y, w, q, lo);
    ZerosStay(r, x, y, w, q, lo + 2 * r.sub);
  }

  /** The second run's elements come first, then the first run's. */
  ghost predicate Turned(x: seq<int>, w: seq<int>, lo: nat, mid: nat, hi: nat) {
    && lo <= mid <= hi <= |x| == |w|
    && (forall i :: mid <= i < hi ==> w[i - (mid - lo)] == x[i])
    && (forall i :: lo <= i < mid ==> w[i + (hi - mid)] == x[i])
  }

  /** No element of the second run exceeds one of the first. */
  ghost predicate Falls(x: seq<int>, lo: nat, mid: nat, hi: nat)
    requires lo <= mid <= hi <= |x|
  {
    forall i, j :: 0 <= i < mid - lo && 0 <= j < hi - mid ==> x[mid..hi][j] <= x[lo..mid][i]
  }

  lemma BitsFall(x: seq<int>, lo: nat, mid: nat, hi: nat)
    requires lo <= mid <= hi <= |x| && Bits(x, lo, hi) && (Const(x, lo, mid, 1) || Const(x, mid, hi, 0))
    ensures Falls(x, lo, mid, hi)
  {
  }

  /** The block's merge puts its second run first. */
  lemma MergeTurns(x: seq<int>, w: seq<int>, lo: nat, mid: nat, hi: nat)
    requires lo <= mid <= hi <= |x| == |w| && w[lo..hi] == Merge(x[lo..mid], x[mid..hi]) && Falls(x, lo, mid, hi)
    ensures Turned(x, w, lo, mid, hi)
  {
    MergeSecondFirst(x[lo..mid], x[mid..hi]);
    JoinTurns(x, w, lo, mid, hi);
  }

  lemma JoinTurns(x: seq<int>, w: seq<int>, lo: nat, mid: nat, hi: nat)
    requires lo <= mid <= hi <= |x| == |w| && w[lo..hi] == x[mid..hi] + x[lo..mid]
    ensures Turned(x, w, lo, mid, hi)
  {
    var b := w[lo..hi];
    forall i | mid <= i < hi ensures w[i - (mid - lo)] == x[i] { assert b[i - mid] == x[mid..hi][i - mid]; }
    forall i | lo <= i < mid ensures w[i + (hi - mid)] == x[i] { assert b[hi - mid + (i - lo)] == x[lo..mid][i - lo]; }
  }

  lemma TurnedBits(x: seq<int>, w: seq<int>, lo: nat, mid: nat, hi: nat)
    requires Turned(x, w, lo, mid, hi) && Bits(x, lo, hi)
    ensures Bits(w, lo, hi)
  {
    forall i | lo <= i < hi ensures 0 <= w[i] <= 1 {
      if i < lo + (hi - mid) { assert w[i] == x[i + (mid - lo)]; } else { assert w[i] == x[i - (hi - mid)]; }
    }
  }

  /** A block with its runs turned around, ones before it and zeros after it. */
  ghost predicate TurnedBlock(x: seq<int>, w: seq<int>, lo: nat, sub: nat) {
    && Turned(x, w, lo, lo + sub, lo + 2 * sub) && Bits(x, 0, |x|)
    && Const(w, 0, lo, 1) && Const(w, lo + 2 * sub, |w|, 0)
  }

  lemma MixedTurns(x: seq<int>, w: seq<int>, lo: nat, sub: nat)
    requires Mixed(x, w, lo, sub) && Bits(x, 0, |x|) && Falls(x, lo, lo + sub, lo + 2 * sub)
    ensures TurnedBlock(x, w, lo, sub)
  {
    MergeTurns(x, w, lo, lo + sub, lo + 2 * sub);
  }

  /** A zero anywhere in the first n elements of the block taints the result. */
  lemma TaintedBy(x: seq<int>, w: seq<int>, n: nat, lo: nat, sub: nat, z: nat)
    requires TurnedBlock(x, w, lo, sub) && lo + sub <= z < lo + 2 * sub && z - sub < n && x[z] == 0
    requires lo < n < lo + 2 * sub
    ensures Tainted(w, n, lo, lo + 2 * sub)
  {
    TurnedBits(x, w, lo, lo + sub, lo + 2 * sub);
    assert w[z - sub] == 0;
  }

  /** The first mixing round brings a zero in. */
  lemma Taint(r: Round, x: seq<int>, y: seq<int>, w: seq<int>, q: nat, lo: nat)
    requires RoundResult(r, x, y, w) && Spare(r) && lo == r.StartA(q) < r.n < lo + 2 * r.sub
    requires OnesBelow(x, r.n) && Const(y, r.n, |y|, 0)
    ensures Tainted(w, r.n, lo, lo + 2 * r.sub)
  {
    MixedRound(r, x, y, w, q, lo);
    TaintBlock(x, w, r.n, lo, r.sub);
  }

  lemma TaintBlock(x: seq<int>, w: seq<int>, n: nat, lo: nat, sub: nat)
    requires lo < n < lo + 2 * sub && OnesBelow(x, n) && Mixed(x, w, lo, sub)
    ensures Tainted(w, n, lo, lo + 2 * sub)
  {
    BitsFall(x, lo, lo + sub, lo + 2 * sub);
    MixedTurns(x, w, lo, sub);
    TaintedBy(x, w, n, lo, sub, if lo + sub < n then n else lo + sub);
  }

  /** Every later mixing round keeps one. */
  lemma StayTainted(r: Round, x: seq<int>, y: seq<int>, w: seq<int>, m: nat, c: nat, c': nat)
    requires RoundResult(r, x, y, w) && Spare(r) && Const(y, c + r.sub, |y|, 0)
    requires c == At(m, r.sub) && c' == r.StartA(m / 2) && Tainted(x, r.n, c, c + r.sub)
    ensures c' <= c && Tainted(w, r.n, c', c' + 2 * r.sub)
  {
    SameBlock(m, r.sub);
    TaintedMixed(r, x, y, w, m / 2, c, c');
    if c == c' { TaintedFirst(x, w, r.n, c', r.sub); } else { TaintedSecond(x, w, r.n, c', r.sub); }
  }

  lemma SameBlock(m: nat, sub: nat)
    ensures var c, c' := At(m, sub), At(2 * (m / 2), sub); c == c' || c == c' + sub
  {
    assert m % 2 == 1 ==> At(m, sub) == At(2 * (m / 2), sub) + sub;
    assert m % 2 == 0 ==> m == 2 * (m / 2);
  }

  lemma TaintedMixed(r: Round, x: seq<int>, y: seq<int>, w: seq<int>, q: nat, c: nat, lo: nat)
    requires RoundResult(r, x, y, w) && Spare(r) && Const(y, c + r.sub, |y|, 0)
    requires lo == r.StartA(q) && (c == lo || c == lo + r.sub) && Tainted(x, r.n, c, c + r.sub)
    ensures Mixed(x, w, lo, r.sub)
  {
    assert Const(x, 0, lo, 1) && Const(x, lo + 2 * r.sub, |x|, 0) && Const(y, lo + 2 * r.sub, |y|, 0);
    MixedRound(r, x, y, w, q, lo);
  }

  lemma TaintedFirst(x: seq<int>, w: seq<int>, n: nat, lo: nat, sub: nat)
    requires Tainted(x, n, lo, lo + sub) && Mixed(x, w, lo, sub)
    ensures Tainted(w, n, lo, lo + 2 * sub)
  {
    BitsFall(x, lo, lo + sub, lo + 2 * sub);
    MixedTurns(x, w, lo, sub);
    TaintedBy(x, w, n, lo, sub, lo + sub);
  }

  lemma TaintedSecond(x: seq<int>, w: seq<int>, n: nat, lo: nat, sub: nat)
    requires Tainted(x, n, lo + sub, lo + 2 * sub) && Mixed(x, w, lo, sub)
    ensures Tainted(w, n, lo, lo + 2 * sub)
  {
    BitsFall(x, lo, lo + sub, lo + 2 * sub);
    MixedTurns(x, w, lo, sub);
    var z :| lo + sub <= z < n && z < |x| && x[z] == 0;
    TaintedBy(x, w, n, lo, sub, z);
  }

  // ---------------------------------------------------------------- whole sorts

  lemma ZeroKept(x: seq<int>, w: seq<int>, n: nat)
    requires n <= |x| == |w| && multiset(w[..n]) == multiset(x[..n]) && HasZero(x, 0, n)
    ensures HasZero(w, 0, n)
  {
    var i :| 0 <= i < n && x[i] == 0;
    assert x[..n][i] in multiset(w[..n]);
    var k :| 0 <= k < n && w[..n][k] == 0;
  }

  /** With the very last run in use, a round is safe and the same holds after it. */
  lemma LastInUse(sub: nat, runs: nat, n: nat, capacity: nat)
    requires Ready(sub, runs, n, capacity) && sub < n && At(runs - 1, sub) < n
    ensures runs >= 2 && Round(sub, runs / 2, n).Safe() && At(runs / 2 - 1, 2 * sub) < n
    ensures At(runs / 2 - 1, 2 * sub) == At(runs - 2, sub)
  {
    HalfRuns(sub, runs, n);
    AtDouble(runs / 2 - 1, sub);
    AtOrder(runs - 2, runs - 1, sub);
  }

  lemma {:induction false} ZeroFinal(sub: nat, runs: nat, n: nat, x: seq<int>, y: seq<int>)
    requires Ready(sub, runs, n, |x|) && |x| == |y| && At(runs - 1, sub) < n && HasZero(x, 0, n)
    ensures HasZero(Final(sub, runs, n, x, y), 0, n)
    decreases n - sub
  {
    if sub < n {
      ReadyRound(sub, runs, n, |x|);
      LastInUse(sub, runs, n, |x|);
      var w := RoundOf(Round(sub, runs / 2, n), x, y);
      SafeRoundPermutes(Round(sub, runs / 2, n), x, y, w);
      ZeroKept(x, w, n);
      ZeroFinal(2 * sub, runs / 2, n, w, x);
    }
  }

  /** A round that loses its last run keeps a zero of the target buffer. */
  lemma {:induction false} LostFinal(sub: nat, runs: nat, n: nat, x: seq<int>, y: seq<int>)
    requires Ready(sub, runs, n, |x|) && |x| == |y| && sub < n && runs >= 2
    requires At(runs - 2, sub) < n <= At(runs - 1, sub) && HasZero(y, At(runs - 2, sub), n)
    ensures HasZero(Final(sub, runs, n, x, y), 0, n)
  {
    ReadyRound(sub, runs, n, |x|);
    HalfRuns(sub, runs, n);
    var r, lo := Round(sub, runs / 2, n), At(runs - 2, sub);
    var w := RoundOf(r, x, y);
    assert At(runs - 1, sub) == lo + sub && r.StartA(r.threads - 1) == lo;
    LostRun(r, x, y, w, lo);
    var i :| lo <= i < n && y[i] == 0;
    assert w[i] == 0;
    AtDouble(runs / 2 - 1, sub);
    ZeroFinal(2 * sub, runs / 2, n, w, x);
  }

  lemma TaintedFinal(sub: nat, runs: nat, n: nat, x: seq<int>, y: seq<int>, m: nat, c: nat)
    requires Ready(sub, runs, n, |x|) && |x| == |y|
    requires c == At(m, sub) && Tainted(x, n, c, c + sub) && Const(y, c + sub, |y|, 0)
    requires n <= sub || HasZero(y, c, n) || (runs >= 2 && n <= At(runs - 2, sub))
    ensures HasZero(Final(sub, runs, n, x, y), 0, n)
    decreases n - sub
  {
    if sub < n && At(runs - 1, sub) >= n {
      ReadyRound(sub, runs, n, |x|);
      HalfRuns(sub, runs, n);
      if n <= At(runs - 2, sub) {
        var r := Round(sub, runs / 2, n);
        var w, c' := RoundOf(r, x, y), r.StartA(m / 2);
        StayTainted(r, x, y, w, m, c, c');
        AtDouble(m / 2, sub);
        NextSpare(x, n, c, c', sub, m);
        TaintedFinal(2 * sub, runs / 2, n, w, x, m / 2, c');
      } else {
        if m < runs - 2 { AtOrder(m, runs - 2, sub); }
        if m > runs - 2 { AtOrder(runs - 1, m, sub); }
        LostFinal(sub, runs, n, x, y);
      }
    } else if sub < n {
      ZeroFinal(sub, runs, n, x, y);
    }
  }

  lemma NextSpare(x: seq<int>, n: nat, c: nat, c': nat, sub: nat, m: nat)
    requires Tainted(x, n, c, c + sub) && c == At(m, sub) && c' == At(2 * (m / 2), sub) && c' <= c
    ensures HasZero(x, c', n) && Const(x, c' + 2 * sub, |x|, 0)
  {
    SameBlock(m, sub);
  }

  // ---------------------------------------------------------------- an unmerged tail

  /** Ones up to the last run, which starts with a one and holds a zero. */
  ghost predicate Messy(x: seq<int>, n: nat, lo: nat) {
    lo < n <= |x| && Bits(x, 0, n) && Const(x, 0, lo + 1, 1) && HasZero(x, lo, n)
  }

  lemma MessyBlock(x: seq<int>, w: seq<int>, lo: nat, mid: nat, n: nat)
    requires lo <= mid && |w| == |x| && Messy(x, n, mid) && w[lo..n] == Merge(x[lo..mid], x[mid..n]) && Const(w, 0, lo, 1)
    ensures Messy(w, n, lo)
  {
    BitsFall(x, lo, mid, n);
    MergeTurns(x, w, lo, mid, n);
    MessyTurned(x, w, lo, mid, n);
  }

  lemma MessyTurned(x: seq<int>, w: seq<int>, lo: nat, mid: nat, n: nat)
    requires Messy(x, n, mid) && Turned(x, w, lo, mid, n) && Const(w, 0, lo, 1)
    ensures Messy(w, n, lo)
  {
    TurnedBits(x, w, lo, mid, n);
    assert w[lo] == x[mid];
    var z :| mid <= z < n && x[z] == 0;
    assert w[z - (mid - lo)] == 0;
  }

  lemma MessyUnsorted(x: seq<int>, n: nat)
    requires Messy(x, n, 0)
    ensures !Sorted(x[..n])
  {
    var z :| 0 <= z < n && x[z] == 0;
    assert x[..n][0] == 1 && x[..n][z] == 0;
  }

  lemma FirstRun(k: nat, sub: nat)
    ensures At(k, sub) == 0 || At(k, sub) >= sub
  {
  }

  lemma {:induction false} MessyFinal(sub: nat, runs: nat, n: nat, x: seq<int>, y: seq<int>)
    requires Ready(sub, runs, n, |x|) && |x| == |y| && Messy(x, n, At(runs - 1, sub))
    ensures !Sorted(Final(sub, runs, n, x, y)[..n])
    decreases n - sub
  {
    if n <= sub {
      MessyRun(sub, runs, n, x);
    } else {
      var w := MessyStep(sub, runs, n, x, y);
      MessyFinal(2 * sub, runs / 2, n, w, x);
    }
  }

  lemma MessyRun(sub: nat, runs: nat, n: nat, x: seq<int>)
    requires runs > 0 && n <= sub && Messy(x, n, At(runs - 1, sub))
    ensures !Sorted(x[..n])
  {
    FirstRun(runs - 1, sub);
    MessyUnsorted(x, n);
  }

  lemma MessyStep(sub: nat, runs: nat, n: nat, x: seq<int>, y: seq<int>) returns (w: seq<int>)
    requires Ready(sub, runs, n, |x|) && |x| == |y| && Messy(x, n, At(runs - 1, sub)) && sub < n
    ensures Ready(2 * sub, runs / 2, n, |x|) && |w| == |x| && Messy(w, n, At(runs / 2 - 1, 2 * sub))
    ensures Final(sub, runs, n, x, y) == Final(2 * sub, runs / 2, n, w, x)
  {
    ReadyRound(sub, runs, n, |x|);
    LastInUse(sub, runs, n, |x|);
    HalfRuns(sub, runs, n);
    w := RoundOf(Round(sub, runs / 2, n), x, y);
    MessyRound(Round(sub, runs / 2, n), x, y, w, At(runs - 2, sub), At(runs - 1, sub));
  }

  lemma MessyRound(r: Round, x: seq<int>, y: seq<int>, w: seq<int>, lo: nat, mid: nat)
    requires RoundResult(r, x, y, w) && lo == r.StartA(r.threads - 1) && mid == lo + r.sub && Messy(x, r.n, mid)
    ensures Messy(w, r.n, lo)
  {
    assert MergedBy(r, x, w, r.threads - 1);
    Bounds(r, r.threads - 1, |x|);
    OnesStay(r, x, y, w, r.threads - 1, lo);
    MessyBlock(x, w, lo, mid, r.n);
  }

  /** With two empty runs, the last round pair leaves the two halves of the tail unmerged. */
  lemma TwoEmpty(sub: nat, runs: nat, n: nat, x: seq<int>)
    requires Ready(sub, runs, n, |x|) && runs > 4 && At(runs - 3, sub) < n <= At(runs - 2, sub)
    requires OnesBelow(x, At(runs - 3, sub))
    ensures !Sorted(Final(sub, runs, n, x, x)[..n])
  {
    var w, z := TwoEmptySteps(sub, runs, n, x);
    MessyFinal(4 * sub, runs / 4, n, z, w);
  }

  lemma TwoRunsOn(k: nat, sub: nat)
    ensures At(k + 1, sub) == At(k, sub) + sub && At(k + 2, sub) == At(k, sub) + 2 * sub
  {
    assert At(k + 2, sub) == At(k + 1, sub) + sub;
  }

  lemma TwoEmptySteps(sub: nat, runs: nat, n: nat, x: seq<int>) returns (w: seq<int>, z: seq<int>)
    requires Ready(sub, runs, n, |x|) && runs > 4 && At(runs - 3, sub) < n <= At(runs - 2, sub)
    requires OnesBelow(x, At(runs - 3, sub))
    ensures Ready(4 * sub, runs / 4, n, |x|) && |w| == |z| == |x| && Messy(z, n, At(runs / 4 - 1, 4 * sub))
    ensures Final(sub, runs, n, x, x) == Final(4 * sub, runs / 4, n, z, w)
  {
    TwoRunsOn(runs - 4, sub);
    var u, lo := TailAt(sub, runs, n);
    w, z := FinalTwo(sub, runs, n, x, x);
    assert runs / 4 == u && runs / 2 == 2 * u;
    TwoEmptyPair(sub, u, n, lo, x, w, z);
    assert lo == At(u - 1, 4 * sub);
  }

  lemma TwoEmptyPair(sub: nat, u: nat, n: nat, lo: nat, x: seq<int>, w: seq<int>, z: seq<int>)
    requires Tail(sub, u, n, lo) && lo + sub < n <= lo + 2 * sub && OnesBelow(x, lo + sub)
    requires RoundResult(Round(sub, 2 * u, n), x, x, w) && RoundResult(Round(2 * sub, u, n), w, x, z)
    ensures Messy(z, n, lo)
  {
    OnesStay(Round(sub, 2 * u, n), x, x, w, 2 * (u - 1), lo);
    OnesStay(Round(2 * sub, u, n), w, x, z, u - 1, lo);
    LostRun(Round(2 * sub, u, n), w, x, z, lo);
    assert z[lo + sub] == 0;
  }

  // ---------------------------------------------------------------- the counterexample

  ghost predicate Multiple(c: nat, sub: nat) { exists m: nat :: c == At(m, sub) }

  lemma ZeroIsBad(x: seq<int>, z: seq<int>, n: nat)
    requires n <= |x| == |z| && OnesBelow(x, n) && HasZero(z, 0, n)
    ensures !Good(x, z, n)
  {
    var i :| 0 <= i < n && z[i] == 0;
    assert z[..n][i] in multiset(z[..n]);
    assert forall k :: 0 <= k < n ==> x[..n][k] == 1;
    assert 0 !in multiset(x[..n]);
  }

  lemma MixedStep(sub: nat, runs: nat, n: nat, x: seq<int>, q: nat, c: nat) returns (w: seq<int>)
    requires Ready(sub, runs, n, |x|) && sub < n && runs >= 4 && n <= At(runs - 2, sub) && OnesBelow(x, n)
    requires c == At(q, 2 * sub) < n < c + 2 * sub
    ensures Ready(2 * sub, runs / 2, n, |x|) && |w| == |x|
    ensures Tainted(w, n, c, c + 2 * sub) && Const(x, c + 2 * sub, |x|, 0)
    ensures Final(sub, runs, n, x, x) == Final(2 * sub, runs / 2, n, w, x)
  {
    ReadyRound(sub, runs, n, |x|);
    HalfRuns(sub, runs, n);
    w := RoundOf(Round(sub, runs / 2, n), x, x);
    AtDouble(q, sub);
    Taint(Round(sub, runs / 2, n), x, x, w, q, c);
  }

  /** The first round already mixes in what lies past the size, and no later one restores the tail. */
  lemma MixedZeroFinal(sub: nat, runs: nat, n: nat, x: seq<int>)
    requires Ready(sub, runs, n, |x|) && sub < n && runs >= 4 && n <= At(runs - 2, sub) && OnesBelow(x, n)
    requires n <= 2 * sub || n <= At(runs / 2 - 2, 2 * sub)
    requires !Multiple(n, 2 * sub)
    ensures HasZero(Final(sub, runs, n, x, x), 0, n)
  {
    var q := NotMultiple(sub, n);
    var c := At(q, 2 * sub);
    var w := MixedStep(sub, runs, n, x, q, c);
    TaintedFinal(2 * sub, runs / 2, n, w, x, q, c);
  }

  lemma NotMultiple(sub: nat, n: nat) returns (q: nat)
    requires !Multiple(n, 2 * sub) && sub > 0
    ensures At(q, 2 * sub) < n < At(q, 2 * sub) + 2 * sub
  {
    q := 0;
    assert n != At(0, 2 * sub);
    while At(q, 2 * sub) + 2 * sub <= n
      invariant At(q, 2 * sub) < n
      decreases n - At(q, 2 * sub)
    {
      assert n != At(q + 1, 2 * sub);
      q := q + 1;
    }
    assert n != At(q + 1, 2 * sub);
  }

  /** Fitting after a round over whole pairs was fitting before it. */
  lemma FitsBefore(sub: nat, p: nat, n: nat, m: nat)
    requires p >= 2 && sub < n <= At(p - 2, 2 * sub) && n == At(m, 2 * sub) && Fits(2 * sub, p, n)
    ensures Fits(sub, 2 * p, n)
  {
    AtOrder(p - 2, p - 1, 2 * sub);
    if n <= 2 * sub {
      FirstRun(m, 2 * sub);
      PowersBefore(sub, n, 0);
    } else if j: nat :| n == At(Pow2(j), 2 * sub) {
      PowersBefore(sub, n, j);
    } else if k: nat :| 4 * Pow2(k) < p && n == At(p - 3 * Pow2(k), 2 * sub) {
      SpareBefore(sub, p, n, k);
    } else {
      ThreeExactly(sub, p, n, m);
      SpareBefore(sub, p, n, 0);
    }
  }

  lemma PowersBefore(sub: nat, n: nat, j: nat)
    requires n == At(Pow2(j), 2 * sub)
    ensures exists i: nat :: n == At(Pow2(i), sub)
  {
    AtDouble(Pow2(j), sub);
    assert n == At(Pow2(j + 1), sub);
  }

  lemma SpareBefore(sub: nat, p: nat, n: nat, k: nat)
    requires 4 * Pow2(k) < p && n == At(p - 3 * Pow2(k), 2 * sub)
    ensures exists i: nat :: 4 * Pow2(i) < 2 * p && n == At(2 * p - 3 * Pow2(i), sub)
  {
    AtDouble(p - 3 * Pow2(k), sub);
    assert n == At(2 * p - 3 * Pow2(k + 1), sub);
  }

  lemma ThreeExactly(sub: nat, p: nat, n: nat, m: nat)
    requires p > 4 && At(p - 4, 2 * sub) < n <= At(p - 3, 2 * sub) && n == At(m, 2 * sub)
    ensures n == At(p - 3, 2 * sub)
  {
    if m < p - 3 { AtOrder(m, p - 4, 2 * sub); } else { AtOrder(p - 3, m, 2 * sub); }
  }

  /** Ones up to c and zeros from there, which the rounds do not sort, with c at a run boundary or at n. */
  ghost predicate Bad(sub: nat, runs: nat, n: nat, x: seq<int>, c: nat)
    requires Ready(sub, runs, n, |x|)
  {
    && OnesBelow(x, c) && (c == n || Multiple(c, sub)) && (Multiple(n, sub) ==> Multiple(c, sub))
    && !Good(x, Final(sub, runs, n, x, x), n)
  }

  function Bitmap(c: nat, capacity: nat): (x: seq<int>)
    ensures |x| == capacity && OnesBelow(x, c)
  {
    seq(capacity, i => if i < c then 1 else 0)
  }

  lemma BadTwoEmpty(sub: nat, runs: nat, n: nat, capacity: nat) returns (x: seq<int>, c: nat)
    requires Ready(sub, runs, n, capacity) && runs > 4 && At(runs - 3, sub) < n <= At(runs - 2, sub)
    ensures |x| == capacity && Bad(sub, runs, n, x, c)
  {
    c := At(runs - 3, sub);
    x := Bitmap(c, capacity);
    TwoEmpty(sub, runs, n, x);
  }

  lemma BadMixed(sub: nat, runs: nat, n: nat, capacity: nat) returns (x: seq<int>, c: nat)
    requires Ready(sub, runs, n, capacity) && sub < n && runs >= 4 && n <= At(runs - 2, sub)
    requires n <= 2 * sub || n <= At(runs / 2 - 2, 2 * sub)
    requires !Multiple(n, 2 * sub)
    ensures |x| == capacity && Bad(sub, runs, n, x, c)
  {
    c, x := n, Bitmap(n, capacity);
    MixedZeroFinal(sub, runs, n, x);
    ZeroIsBad(x, Final(sub, runs, n, x, x), n);
  }

  lemma BadBefore(sub: nat, runs: nat, n: nat, x: seq<int>, c: nat)
    requires Ready(sub, runs, n, |x|) && sub < n && Multiple(n, 2 * sub)
    requires Ready(2 * sub, runs / 2, n, |x|) && Bad(2 * sub, runs / 2, n, x, c)
    ensures Bad(sub, runs, n, x, c)
  {
    ReadyRound(sub, runs, n, |x|);
    var k: nat :| c == At(k, 2 * sub);
    AtDouble(k, sub);
    var r := Round(sub, runs / 2, n);
    Fixed(r, x, k);
    RoundUnique(r, x, x, x);
  }

  lemma FewRuns(sub: nat, runs: nat, n: nat)
    requires IsPow2(runs) && sub < n && runs >= 2 && n <= At(runs - 2, sub)
    ensures runs >= 4 && (n <= At(runs - 3, sub) ==> runs > 4) && (runs == 4 ==> n <= 2 * sub)
  {
    HalfPow2(runs);
    assert At(2, sub) == At(1, sub) + sub && At(1, sub) == sub;
  }

  lemma BadInput(sub: nat, runs: nat, n: nat, capacity: nat) returns (x: seq<int>, c: nat)
    requires Ready(sub, runs, n, capacity) && runs >= 2 && n <= At(runs - 2, sub) && !Fits(sub, runs, n)
    ensures |x| == capacity && Bad(sub, runs, n, x, c)
    decreases n - sub
  {
    FewRuns(sub, runs, n);
    if n > At(runs - 3, sub) {
      if runs == 4 { OnlyTwo(sub, n); x, c := BadMixed(sub, runs, n, capacity); }
      else { x, c := BadTwoEmpty(sub, runs, n, capacity); }
    } else {
      assert n <= At(runs - 4, sub);
      ReadyRound(sub, runs, n, capacity);
      HalfRuns(sub, runs, n);
      AtDouble(runs / 2 - 2, sub);
      if Multiple(n, 2 * sub) {
        var m: nat :| n == At(m, 2 * sub);
        if Fits(2 * sub, runs / 2, n) { FitsBefore(sub, runs / 2, n, m); assert false; }
        x, c := BadInput(2 * sub, runs / 2, n, capacity);
        BadBefore(sub, runs, n, x, c);
      } else {
        x, c := BadMixed(sub, runs, n, capacity);
      }
    }
  }

  lemma OnlyTwo(sub: nat, n: nat)
    requires sub < n <= 2 * sub && !Fits(sub, 4, n)
    ensures !Multiple(n, 2 * sub)
  {
    if m: nat :| n == At(m, 2 * sub) {
      FirstRun(m, 2 * sub);
      PowersBefore(sub, n, 0);
    }
  }

  lemma BitmapRuns(x: seq<int>, c: nat, sub: nat, n: nat)
    requires n <= |x| && OnesBelow(x, c) && (c == n || Multiple(c, sub))
    ensures Runs(x, sub, n)
  {
    forall k: nat | At(k, sub) < n ensures Sorted(Run(x, sub, n, k)) {
      if c != n {
        var m: nat :| c == At(m, sub);
        if k < m { AtOrder(k, m, sub); } else { AtOrder(m, k, sub); }
      }
      var v := if At(k, sub) < c then 1 else 0;
      assert forall i :: 0 <= i < |Run(x, sub, n, k)| ==> Run(x, sub, n, k)[i] == v;
    }
  }

  lemma Refuted(sub: nat, runs: nat, n: nat, x: seq<int>, y: seq<int>)
    requires Ready(sub, runs, n, |x|) && |x| == |y| && Runs(x, sub, n) && !Good(x, Final(sub, runs, n, x, y), n)
    ensures !AlwaysSorts(sub, runs, n, |x|)
  {
  }

  /** The rounds sort every input exactly when the number of runs suits the size. */
  lemma SortsIffFits(sub: nat, runs: nat, n: nat, capacity: nat)
    requires Ready(sub, runs, n, capacity)
    ensures AlwaysSorts(sub, runs, n, capacity) <==> Fits(sub, runs, n)
  {
    if Fits(sub, runs, n) {
      forall x: seq<int>, y: seq<int> | |x| == |y| == capacity && Runs(x, sub, n)
        ensures Good(x, Final(sub, runs, n, x, y), n)
      {
        FinalSorts(sub, runs, n, x, y);
      }
    } else {
      HalfRuns(sub, runs, n);
      if n <= At(runs - 2, sub) {
        var x, c := BadInput(sub, runs, n, capacity);
        BitmapRuns(x, c, sub, n);
        Refuted(sub, runs, n, x, x);
      } else {
        var x, y := Bitmap(n, capacity), Bitmap(0, capacity);
        assert y[At(runs - 2, sub)] == 0;
        LostFinal(sub, runs, n, x, y);
        ZeroIsBad(x, Final(sub, runs, n, x, y), n);
        BitmapRuns(x, n, sub, n);
        Refuted(sub, runs, n, x, y);
      }
    }
  }
}
