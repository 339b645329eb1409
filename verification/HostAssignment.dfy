/** Assignment of virtual hosts to physical hosts: largest edge count first, each to the host
    with the fewest edges so far. */
module HostAssignment {
  import opened Sums
  import opened Sorting

  /** galois::Pair: an edge count and a label, or a load and a host. */
  datatype Pair = Pair(first: nat, second: nat)

  ghost const First: Pair -> int := (p: Pair) => p.first

  /** The measure w restricted to the virtual hosts that vt maps to host h. */
  ghost function On(w: Pair -> int, vt: seq<nat>, h: nat): Pair -> int {
    (p: Pair) => if p.second < |vt| && vt[p.second] == h then w(p) else 0
  }

  /** The edges that land on host h. */
  ghost function Load(jobs: seq<Pair>, vt: seq<nat>, h: nat): int { Sum(On(First, vt, h), jobs) }

  lemma LoadStep(jobs: seq<Pair>, vt: seq<nat>, h: nat)
    requires jobs != []
    ensures var j := jobs[|jobs| - 1];
            Load(jobs, vt, h) == Load(jobs[..|jobs| - 1], vt, h)
                               + if j.second < |vt| && vt[j.second] == h then j.first else 0
  {
  }

  ghost predicate Mapped(jobs: seq<Pair>, vt: seq<nat>, m: nat) {
    forall i :: 0 <= i < |jobs| ==> jobs[i].second < |vt| && vt[jobs[i].second] < m
  }

  ghost predicate Descending(jobs: seq<Pair>) { forall i, j :: 0 <= i < j < |jobs| ==> jobs[i].first >= jobs[j].first }

  /** Job i went to a host that was least loaded when the jobs before it had been placed. */
  ghost predicate GreedyAt(jobs: seq<Pair>, vt: seq<nat>, m: nat, i: nat)
    requires i < |jobs|
  {
    && jobs[i].second < |vt| && vt[jobs[i].second] < m
    && forall h :: 0 <= h < m ==> Load(jobs[..i], vt, vt[jobs[i].second]) <= Load(jobs[..i], vt, h)
  }

  ghost predicate Greedy(jobs: seq<Pair>, vt: seq<nat>, m: nat) {
    forall i :: 0 <= i < |jobs| ==> GreedyAt(jobs, vt, m, i)
  }

  // ---------------------------------------------------------------- sums over hosts

  ghost function OverHosts(w: Pair -> int, jobs: seq<Pair>, vt: seq<nat>, m: nat): int {
    if m == 0 then 0 else OverHosts(w, jobs, vt, m - 1) + Sum(On(w, vt, m - 1), jobs)
  }

  lemma {:induction false} OverHostsAppend(w: Pair -> int, jobs: seq<Pair>, p: Pair, vt: seq<nat>, m: nat)
    ensures OverHosts(w, jobs + [p], vt, m)
         == OverHosts(w, jobs, vt, m) + if p.second < |vt| && vt[p.second] < m then w(p) else 0
  {
    if m > 0 {
      OverHostsAppend(w, jobs, p, vt, m - 1);
      SumAppend(On(w, vt, m - 1), jobs, p);
    }
  }

  lemma {:induction false} NoJobs(w: Pair -> int, vt: seq<nat>, m: nat)
    ensures OverHosts(w, [], vt, m) == 0
  {
    if m > 0 { NoJobs(w, vt, m - 1); }
  }

  /** Each job is counted on exactly one host. */
  lemma {:induction false} HostsPartitionJobs(w: Pair -> int, jobs: seq<Pair>, vt: seq<nat>, m: nat)
    requires Mapped(jobs, vt, m)
    ensures OverHosts(w, jobs, vt, m) == Sum(w, jobs)
  {
    if jobs == [] {
      NoJobs(w, vt, m);
    } else {
      var n := |jobs| - 1;
      HostsPartitionJobs(w, jobs[..n], vt, m);
      assert jobs == jobs[..n] + [jobs[n]];
      OverHostsAppend(w, jobs[..n], jobs[n], vt, m);
    }
  }

  lemma {:induction false} OverHostsAtLeast(w: Pair -> int, jobs: seq<Pair>, vt: seq<nat>, m: nat, lo: int)
    requires forall h :: 0 <= h < m ==> Sum(On(w, vt, h), jobs) >= lo
    ensures OverHosts(w, jobs, vt, m) >= m * lo
  {
    if m > 0 { OverHostsAtLeast(w, jobs, vt, m - 1, lo); }
  }

  lemma {:induction false} OverHostsAtMost(w: Pair -> int, jobs: seq<Pair>, vt: seq<nat>, m: nat, hi: int)
    requires forall h :: 0 <= h < m ==> Sum(On(w, vt, h), jobs) <= hi
    ensures OverHosts(w, jobs, vt, m) <= m * hi
  {
    if m > 0 { OverHostsAtMost(w, jobs, vt, m - 1, hi); }
  }

  // ---------------------------------------------------------------- Graham's bound

  /** A job too large to share a host of capacity cap with a job of size p weighs 2, others 1. */
  ghost function Weight(cap: int, p: int): Pair -> int { (j: Pair) => if j.first > cap - p then 2 else 1 }

  /** A host loaded above cap - p carries weight at least 2. */
  lemma {:induction false} HeavyHostWeighsTwo(jobs: seq<Pair>, vt: seq<nat>, h: nat, cap: int, p: int)
    requires cap - p >= 0
    ensures var w := Sum(On(Weight(cap, p), vt, h), jobs);
            w >= 0 && (w == 0 ==> Load(jobs, vt, h) == 0) && (w == 1 ==> Load(jobs, vt, h) <= cap - p)
  {
    if jobs != [] {
      HeavyHostWeighsTwo(jobs[..|jobs| - 1], vt, h, cap, p);
      LoadStep(jobs, vt, h);
    }
  }

  /** A host that keeps within cap, where three jobs of size p do not fit, carries weight at most 2. */
  lemma {:induction false} FeasibleHostWeighsTwo(jobs: seq<Pair>, vt: seq<nat>, h: nat, cap: int, p: int)
    requires 3 * p > cap >= p && forall i :: 0 <= i < |jobs| ==> jobs[i].first >= p
    ensures var w, l := Sum(On(Weight(cap, p), vt, h), jobs), Load(jobs, vt, h);
            && w >= 0 && l >= 0 && (w == 1 ==> l >= p) && (w == 2 ==> l >= 2 * p || l > cap - p)
            && (w >= 3 ==> l > cap)
  {
    if jobs != [] {
      FeasibleHostWeighsTwo(jobs[..|jobs| - 1], vt, h, cap, p);
      LoadStep(jobs, vt, h);
    }
  }

  lemma {:induction false} LoadMonotone(jobs: seq<Pair>, vt: seq<nat>, h: nat, k: nat)
    requires k <= |jobs|
    ensures 0 <= Load(jobs[..k], vt, h) <= Load(jobs, vt, h)
  {
    assert jobs == jobs[..k] + jobs[k..];
    SumConcat(On(First, vt, h), jobs[..k], jobs[k..]);
    SumNonNegative(On(First, vt, h), jobs[..k]);
    SumNonNegative(On(First, vt, h), jobs[k..]);
  }

  /** The last job on a host that got any, and what the host held before it. */
  lemma {:induction false} LastJob(jobs: seq<Pair>, vt: seq<nat>, h: nat) returns (i: nat)
    requires Load(jobs, vt, h) > 0
    ensures i < |jobs| && jobs[i].second < |vt| && vt[jobs[i].second] == h
    ensures Load(jobs, vt, h) == Load(jobs[..i], vt, h) + jobs[i].first
  {
    var n := |jobs| - 1;
    LoadStep(jobs, vt, h);
    if jobs[n].second < |vt| && vt[jobs[n].second] == h {
      i := n;
    } else {
      i := LastJob(jobs[..n], vt, h);
      assert jobs[..n][..i] == jobs[..i];
    }
  }

  /** If job i is greedily placed, larger than a third of cap, and no larger than the jobs before it,
      then its host stays within cap whenever some assignment g does. */
  lemma LargeJobFits(jobs: seq<Pair>, vt: seq<nat>, m: nat, g: seq<nat>, cap: int, i: nat)
    requires i < |jobs| && Descending(jobs) && Mapped(jobs, vt, m) && GreedyAt(jobs, vt, m, i) && Mapped(jobs, g, m)
    requires forall h :: 0 <= h < m ==> Load(jobs, g, h) <= cap
    requires 3 * jobs[i].first > cap
    ensures Load(jobs[..i], vt, vt[jobs[i].second]) + jobs[i].first <= cap
  {
    var p, w, before := jobs[i].first, Weight(cap, jobs[i].first), jobs[..i];
    var upto := before + [jobs[i]];
    assert upto == jobs[..i + 1];
    assert cap >= p by {
      var h := g[jobs[i].second];
      LoadMonotone(jobs, g, h, i + 1);
      SumAtLeast(On(First, g, h), upto, i);
    }
    if Load(before, vt, vt[jobs[i].second]) > cap - p {
      forall h | 0 <= h < m ensures Sum(On(w, vt, h), before) >= 2 { HeavyHostWeighsTwo(before, vt, h, cap, p); }
      OverHostsAtLeast(w, before, vt, m, 2);
      HostsPartitionJobs(w, before, vt, m);
      forall h | 0 <= h < m ensures Sum(On(w, g, h), upto) <= 2 {
        FeasibleHostWeighsTwo(upto, g, h, cap, p);
        LoadMonotone(jobs, g, h, i + 1);
      }
      OverHostsAtMost(w, upto, g, m, 2);
      HostsPartitionJobs(w, upto, g, m);
      SumAppend(w, before, jobs[i]);
      assert false;
    }
  }

  /** Averaging: the greedy host held no more than the mean before job i. */
  lemma GreedyBelowMean(jobs: seq<Pair>, vt: seq<nat>, m: nat, g: seq<nat>, cap: int, i: nat)
    requires i < |jobs| && Mapped(jobs, vt, m) && GreedyAt(jobs, vt, m, i) && Mapped(jobs, g, m)
    requires forall h :: 0 <= h < m ==> Load(jobs, g, h) <= cap
    ensures m * Load(jobs[..i], vt, vt[jobs[i].second]) + jobs[i].first <= m * cap
  {
    var before := jobs[..i];
    var upto := before + [jobs[i]];
    assert upto == jobs[..i + 1];
    var l := Load(before, vt, vt[jobs[i].second]);
    forall h | 0 <= h < m ensures Sum(On(First, vt, h), before) >= l { assert Load(before, vt, h) >= l; }
    OverHostsAtLeast(First, before, vt, m, l);
    HostsPartitionJobs(First, before, vt, m);
    forall h | 0 <= h < m ensures Sum(On(First, g, h), upto) <= cap { LoadMonotone(jobs, g, h, i + 1); }
    OverHostsAtMost(First, upto, g, m, cap);
    HostsPartitionJobs(First, upto, g, m);
    SumAppend(First, before, jobs[i]);
  }

  /** Graham's bound for largest-first list scheduling: no host exceeds 4/3 - 1/(3m) times
      the heaviest host of any other assignment. */
  lemma GreedyIsNearOptimal(jobs: seq<Pair>, vt: seq<nat>, m: nat, g: seq<nat>, cap: int, h: nat)
    requires Descending(jobs) && Greedy(jobs, vt, m) && Mapped(jobs, g, m) && h < m
    requires forall k :: 0 <= k < m ==> Load(jobs, g, k) <= cap
    ensures 3 * m * Load(jobs, vt, h) <= (4 * m - 1) * cap
  {
    forall i | 0 <= i < |jobs| ensures jobs[i].second < |vt| && vt[jobs[i].second] < m {
      assert GreedyAt(jobs, vt, m, i);
    }
    LoadMonotone(jobs, vt, h, 0);
    LoadMonotone(jobs, g, h, 0);
    if Load(jobs, vt, h) > 0 {
      var i := LastJob(jobs, vt, h);
      var l, p := Load(jobs[..i], vt, h), jobs[i].first;
      assert GreedyAt(jobs, vt, m, i);
      if 3 * p > cap {
        LargeJobFits(jobs, vt, m, g, cap, i);
        Scale(m, l + p, cap);
      } else {
        GreedyBelowMean(jobs, vt, m, g, cap, i);
        SmallJob(m, l, p, cap);
      }
    }
  }

  lemma TimesMonotone(k: nat, a: int, b: int)
    requires a <= b
    ensures k * a <= k * b
  {
  }

  lemma Spread(m: int, x: int)
    ensures (m - 1) * x == m * x - x && (4 * m - 1) * x == 4 * (m * x) - x && 3 * m * x == 3 * (m * x)
  {
  }

  lemma Scale(m: nat, x: int, cap: int)
    requires m > 0 && x <= cap && cap >= 0
    ensures 3 * m * x <= (4 * m - 1) * cap
  {
    Spread(m, x);
    Spread(m, cap);
    TimesMonotone(m, x, cap);
    TimesMonotone(m - 1, 0, cap);
  }

  lemma SmallJob(m: nat, l: int, p: int, cap: int)
    requires m > 0 && m * l + p <= m * cap && 3 * p <= cap
    ensures 3 * m * (l + p) <= (4 * m - 1) * cap
  {
    TimesMonotone(m - 1, 3 * p, cap);
    Spread(m, 3 * p);
    Spread(m, cap);
    Spread(m, l + p);
    Distribute(m, l, p);
  }

  lemma Distribute(m: int, l: int, p: int)
    ensures m * (l + p) == m * l + m * p && m * (3 * p) == 3 * (m * p)
  {
  }

  ghost predicate AtMost(jobs: seq<Pair>, most: nat) { forall i :: 0 <= i < |jobs| ==> jobs[i].first <= most }

  /** Two hosts differ by at most the last job of the heavier one. */
  lemma GreedyIsBalanced(jobs: seq<Pair>, vt: seq<nat>, m: nat, h: nat, k: nat, most: nat)
    requires Greedy(jobs, vt, m) && h < m && k < m && AtMost(jobs, most)
    ensures Load(jobs, vt, h) - Load(jobs, vt, k) <= most
  {
    LoadMonotone(jobs, vt, k, 0);
    if Load(jobs, vt, h) > 0 {
      var i := LastJob(jobs, vt, h);
      assert GreedyAt(jobs, vt, m, i);
      LoadMonotone(jobs, vt, k, i);
    }
  }

  // ---------------------------------------------------------------- the program

  /** The loads of all hosts, by host. */
  ghost function Table(jobs: seq<Pair>, vt: seq<nat>, m: nat): (t: seq<Pair>)
    ensures |t| == m
  {
    seq(m, h requires 0 <= h < m => LoadPair(jobs, vt, h))
  }

  ghost function LoadPair(jobs: seq<Pair>, vt: seq<nat>, h: nat): Pair {
    SumNonNegative(On(First, vt, h), jobs);
    Pair(Load(jobs, vt, h), h)
  }

  ghost predicate DistinctLabels(jobs: seq<Pair>) { forall i, j :: 0 <= i < j < |jobs| ==> jobs[i].second != jobs[j].second }

  /** Placing a job changes the load of its host only. */
  lemma PlaceJob(jobs: seq<Pair>, vt: seq<nat>, k: nat, host: nat, h: nat)
    requires k < |jobs| && DistinctLabels(jobs) && jobs[k].second < |vt|
    ensures var vt' := vt[jobs[k].second := host];
            && Load(jobs[..k], vt', h) == Load(jobs[..k], vt, h)
            && Load(jobs[..k + 1], vt', h) == Load(jobs[..k], vt, h) + if h == host then jobs[k].first else 0
  {
    var vt' := vt[jobs[k].second := host];
    SumSame(On(First, vt', h), On(First, vt, h), jobs[..k]);
    assert jobs[..k + 1][..k] == jobs[..k];
    LoadStep(jobs[..k + 1], vt', h);
  }

  ghost predicate LabelsInRange(jobs: seq<Pair>, n: nat) { forall i :: 0 <= i < |jobs| ==> jobs[i].second < n }

  /** The table of loads after job k goes to the given host. */
  lemma TableStep(jobs: seq<Pair>, vt: seq<nat>, m: nat, k: nat, host: nat)
    requires k < |jobs| && DistinctLabels(jobs) && jobs[k].second < |vt| && host < m
    ensures var vt', old' := vt[jobs[k].second := host], Table(jobs[..k], vt, m);
            Table(jobs[..k + 1], vt', m) == old'[host := Pair(old'[host].first + jobs[k].first, host)]
  {
    var vt', old' := vt[jobs[k].second := host], Table(jobs[..k], vt, m);
    var new' := Table(jobs[..k + 1], vt', m);
    forall h | 0 <= h < m ensures new'[h] == old'[host := Pair(old'[host].first + jobs[k].first, host)][h] {
      PlaceJob(jobs, vt, k, host, h);
    }
  }

  /** Earlier greedy choices are not affected by placing job k. */
  lemma GreedyStep(jobs: seq<Pair>, vt: seq<nat>, m: nat, k: nat, host: nat, i: nat)
    requires i < k < |jobs| && DistinctLabels(jobs) && jobs[k].second < |vt|
    requires GreedyAt(jobs, vt, m, i)
    ensures GreedyAt(jobs, vt[jobs[k].second := host], m, i)
  {
    var vt' := vt[jobs[k].second := host];
    forall h | 0 <= h < m ensures Load(jobs[..i], vt', h) == Load(jobs[..i], vt, h) {
      SumSame(On(First, vt', h), On(First, vt, h), jobs[..i]);
    }
  }

  lemma GreedyNow(jobs: seq<Pair>, vt: seq<nat>, m: nat, k: nat, host: nat)
    requires k < |jobs| && DistinctLabels(jobs) && jobs[k].second < |vt| && host < m
    requires forall h :: 0 <= h < m ==> Load(jobs[..k], vt, host) <= Load(jobs[..k], vt, h)
    ensures GreedyAt(jobs, vt[jobs[k].second := host], m, k)
  {
    var vt' := vt[jobs[k].second := host];
    PlaceJob(jobs, vt, k, host, host);
    forall h | 0 <= h < m ensures Load(jobs[..k], vt', host) <= Load(jobs[..k], vt', h) {
      PlaceJob(jobs, vt, k, host, h);
    }
  }

  /** The first entry of the sorted table names a least loaded host. */
  lemma MinimumHost(jobs: seq<Pair>, vt: seq<nat>, m: nat, sorted: seq<Pair>)
    requires m > 0 && |sorted| == m && multiset(sorted) == multiset(Table(jobs, vt, m))
    requires SortedBy((p: Pair) => p.first, sorted)
    ensures var p := sorted[0]; p.second < m && p == Table(jobs, vt, m)[p.second]
    ensures forall h :: 0 <= h < m ==> Load(jobs, vt, sorted[0].second) <= Load(jobs, vt, h)
  {
    var table := Table(jobs, vt, m);
    assert sorted[0] in multiset(table);
    forall h | 0 <= h < m ensures Load(jobs, vt, sorted[0].second) <= Load(jobs, vt, h) {
      assert table[h] in multiset(sorted);
      var j :| 0 <= j < m && sorted[j] == table[h];
    }
  }

  /** After k jobs: the table of loads, in some order; the loads by host; and k greedy choices. */
  ghost predicate Placed(jobs: seq<Pair>, k: nat, vt: seq<nat>, edges: seq<nat>, table: seq<Pair>, m: nat)
    requires k <= |jobs|
  {
    && |edges| == |table| == m && |vt| == |jobs|
    && multiset(table) == multiset(Table(jobs[..k], vt, m))
    && (forall h :: 0 <= h < m ==> edges[h] == Load(jobs[..k], vt, h))
    && (forall i :: 0 <= i < k ==> GreedyAt(jobs, vt, m, i))
  }

  lemma TableUpdate(table: seq<Pair>, sorted: seq<Pair>, host: nat, p: Pair)
    requires multiset(sorted) == multiset(table) && sorted != [] && host < |table| && sorted[0] == table[host]
    ensures multiset(sorted[0 := p]) == multiset(table[host := p])
  {
  }

  /** One iteration: job k goes to the first host of the sorted table. */
  lemma Iteration(jobs: seq<Pair>, k: nat, vt: seq<nat>, edges: seq<nat>, table: seq<Pair>, sorted: seq<Pair>, m: nat)
    requires m > 0 && k < |jobs| && DistinctLabels(jobs) && LabelsInRange(jobs, |jobs|)
    requires Placed(jobs, k, vt, edges, table, m)
    requires multiset(sorted) == multiset(table) && |sorted| == m && SortedBy((p: Pair) => p.first, sorted)
    ensures sorted[0].second < m
    ensures var p := Pair(sorted[0].first + jobs[k].first, sorted[0].second);
            Placed(jobs, k + 1, vt[jobs[k].second := p.second], edges[p.second := p.first], sorted[0 := p], m)
  {
    MinimumHost(jobs[..k], vt, m, sorted);
    var host := sorted[0].second;
    var vt', p := vt[jobs[k].second := host], Pair(sorted[0].first + jobs[k].first, host);
    TableStep(jobs, vt, m, k, host);
    TableUpdate(Table(jobs[..k], vt, m), sorted, host, p);
    var edges' := edges[host := p.first];
    forall h | 0 <= h < m ensures edges'[h] == Load(jobs[..k + 1], vt', h) {
      PlaceJob(jobs, vt, k, host, h);
    }
    forall i | 0 <= i < k + 1 ensures GreedyAt(jobs, vt', m, i) {
      if i < k { GreedyStep(jobs, vt, m, k, host, i); } else { GreedyNow(jobs, vt, m, k, host); }
    }
  }

  lemma NothingPlaced(jobs: seq<Pair>, vt: seq<nat>, edges: seq<nat>, table: seq<Pair>, m: nat)
    requires |edges| == |table| == m && |vt| == |jobs|
    requires forall h :: 0 <= h < m ==> edges[h] == 0 && table[h] == Pair(0, h)
    ensures Placed(jobs, 0, vt, edges, table, m)
  {
    assert table == Table(jobs[..0], vt, m);
  }

  /** The loop over the counts, largest first. */
  method Assign(m: nat, jobs: seq<Pair>) returns (vTPH: array<nat>, numEdges: array<nat>)
    requires m > 0 && DistinctLabels(jobs) && LabelsInRange(jobs, |jobs|)
    ensures fresh(vTPH) && fresh(numEdges) && vTPH.Length == |jobs| && numEdges.Length == m
    ensures Greedy(jobs, vTPH[..], m)
    ensures forall h :: 0 <= h < m ==> numEdges[h] == Load(jobs, vTPH[..], h)
  {
    vTPH := new nat[|jobs|](_ => 0);
    numEdges := new nat[m](_ => 0);
    var intermediateSort := seq(m, i requires 0 <= i < m => Pair(0, i));
    NothingPlaced(jobs, vTPH[..], numEdges[..], intermediateSort, m);
    for k := 0 to |jobs|
      invariant Placed(jobs, k, vTPH[..], numEdges[..], intermediateSort, m)
    {
      ghost var vt, edges, table := vTPH[..], numEdges[..], intermediateSort;
      intermediateSort := SortBy((p: Pair) => p.first, intermediateSort);
      Iteration(jobs, k, vt, edges, table, intermediateSort, m);
      var physical := intermediateSort[0];
      vTPH[jobs[k].second] := physical.second;
      physical := physical.(first := physical.first + jobs[k].first);
      numEdges[physical.second] := physical.first;
      intermediateSort := intermediateSort[0 := physical];
      assert vTPH[..] == vt[jobs[k].second := physical.second];
      assert numEdges[..] == edges[physical.second := physical.first];
    }
    assert jobs[..|jobs|] == jobs;
  }

  function Reverse(s: seq<Pair>): (r: seq<Pair>)
    ensures |r| == |s| && multiset(r) == multiset(s)
    ensures forall i :: 0 <= i < |s| ==> r[i] == s[|s| - 1 - i]
  {
    if s == [] then []
    else
      assert s == s[..|s| - 1] + [s[|s| - 1]];
      [s[|s| - 1]] + Reverse(s[..|s| - 1])
  }

  /** Some assignment g maps every virtual host and loads no host above cap. */
  ghost predicate Feasible(jobs: seq<Pair>, g: seq<nat>, m: nat, cap: int) {
    Mapped(jobs, g, m) && forall h :: 0 <= h < m ==> Load(jobs, g, h) <= cap
  }

  ghost function Labeled(l: nat): Pair -> int { (p: Pair) => if p.second == l then 1 else 0 }

  lemma {:induction false} LabelAtMostOnce(s: seq<Pair>, l: nat)
    requires DistinctLabels(s)
    ensures 0 <= Sum(Labeled(l), s) <= 1 && (Sum(Labeled(l), s) == 1 ==> exists i :: 0 <= i < |s| && s[i].second == l)
  {
    if s != [] { LabelAtMostOnce(s[..|s| - 1], l); }
  }

  lemma {:induction false} LabelTwice(s: seq<Pair>, i: nat, j: nat)
    requires i < j < |s| && s[i].second == s[j].second
    ensures Sum(Labeled(s[i].second), s) >= 2
  {
    var n := |s| - 1;
    if j < n { LabelTwice(s[..n], i, j); } else { SumAtLeast(Labeled(s[i].second), s[..n], i); }
  }

  /** Labels that are distinct stay distinct under rearrangement. */
  lemma DistinctUnderPermutation(a: seq<Pair>, b: seq<Pair>)
    requires multiset(a) == multiset(b) && DistinctLabels(a)
    ensures DistinctLabels(b)
  {
    forall i, j | 0 <= i < j < |b| ensures b[i].second != b[j].second {
      SumPermutation(Labeled(b[i].second), a, b);
      LabelAtMostOnce(a, b[i].second);
      if b[i].second == b[j].second { LabelTwice(b, i, j); }
    }
  }

  /** Loads, feasibility and bounds do not depend on the order of the virtual hosts. */
  lemma SameLoads(a: seq<Pair>, b: seq<Pair>)
    requires multiset(a) == multiset(b)
    ensures forall vt, h :: Load(a, vt, h) == Load(b, vt, h)
    ensures forall vt, m :: Mapped(a, vt, m) ==> Mapped(b, vt, m)
    ensures forall most :: AtMost(a, most) ==> AtMost(b, most)
  {
    forall vt, h: nat ensures Load(a, vt, h) == Load(b, vt, h) { SumPermutation(On(First, vt, h), a, b); }
    forall i | 0 <= i < |b| ensures b[i] in a { assert b[i] in multiset(a); }
  }

  /** What a greedy placement, largest first, of some rearrangement of the counts amounts to. */
  lemma Outcome(labeled: seq<Pair>, jobs: seq<Pair>, vt: seq<nat>, m: nat)
    requires multiset(jobs) == multiset(labeled) && Descending(jobs) && Greedy(jobs, vt, m)
    ensures Mapped(labeled, vt, m)
    ensures forall h :: 0 <= h < m ==> Load(jobs, vt, h) == Load(labeled, vt, h) <= Sum(First, labeled)
    ensures forall most, h, k :: AtMost(labeled, most) && 0 <= h < m && 0 <= k < m
              ==> Load(labeled, vt, h) <= Load(labeled, vt, k) + most
    ensures forall g, cap, h :: Feasible(labeled, g, m, cap) && 0 <= h < m
              ==> 3 * m * Load(labeled, vt, h) <= (4 * m - 1) * cap
  {
    SameLoads(labeled, jobs);
    SameLoads(jobs, labeled);
    forall i | 0 <= i < |jobs| ensures jobs[i].second < |vt| && vt[jobs[i].second] < m {
      assert GreedyAt(jobs, vt, m, i);
    }
    assert Mapped(jobs, vt, m);
    forall h | 0 <= h < m ensures Load(labeled, vt, h) <= Sum(First, labeled) {
      SumMonotone(On(First, vt, h), First, labeled);
    }
    forall most, h, k | AtMost(labeled, most) && 0 <= h < m && 0 <= k < m
      ensures Load(labeled, vt, h) <= Load(labeled, vt, k) + most
    {
      GreedyIsBalanced(jobs, vt, m, h, k, most);
    }
    forall g, cap, h | Feasible(labeled, g, m, cap) && 0 <= h < m
      ensures 3 * m * Load(labeled, vt, h) <= (4 * m - 1) * cap
    {
      GreedyIsNearOptimal(jobs, vt, m, g, cap, h);
    }
  }

  method BuildVirtualToPhysicalMapping(numHosts: nat, labeled: seq<Pair>)
    returns (vTPH: array<nat>, numEdges: array<nat>)
    requires numHosts > 0
    // the labels are a permutation of the virtual hosts
    requires DistinctLabels(labeled) && LabelsInRange(labeled, |labeled|)
    ensures vTPH.Length == |labeled| && numEdges.Length == numHosts
    // every virtual host is mapped, and numEdges is the exact sum of the counts mapped to a host
    ensures Mapped(labeled, vTPH[..], numHosts)
    ensures forall h :: 0 <= h < numHosts ==> numEdges[h] == Load(labeled, vTPH[..], h) <= Sum(First, labeled)
    // any two hosts differ by at most the largest count
    ensures forall most, h, k :: AtMost(labeled, most) && 0 <= h < numHosts && 0 <= k < numHosts
              ==> numEdges[h] <= numEdges[k] + most
    // no host exceeds 4/3 - 1/(3 numHosts) times the heaviest host of any assignment
    ensures forall g, cap, h :: Feasible(labeled, g, numHosts, cap) && 0 <= h < numHosts
              ==> 3 * numHosts * numEdges[h] <= (4 * numHosts - 1) * cap
  {
    var sorted := SortBy((p: Pair) => p.first, labeled);
    var jobs := Reverse(sorted);
    DistinctUnderPermutation(labeled, jobs);
    forall i | 0 <= i < |jobs| ensures jobs[i] in labeled { assert jobs[i] in multiset(labeled); }
    vTPH, numEdges := Assign(numHosts, jobs);
    Outcome(labeled, jobs, vTPH[..], numHosts);
  }
}
