/** The multi-host edge exchange: what the stages compute, and what they conserve. */
module EdgeExchange {
  import opened Multiples
  import opened Remainders

  datatype Edge = Edge(src: int, dst: int)

  // ---------------------------------------------------------------- bucketing

  /** The undirected edge of an input line, smaller endpoint first. */
  function Normal(raw: Edge): (e: Edge)
    ensures e.src <= e.dst && (e == raw || e == Edge(raw.dst, raw.src))
  {
    if raw.src <= raw.dst then raw else Edge(raw.dst, raw.src)
  }

  /** The input contains the edge, in either direction; self-loops do not count. */
  ghost predicate Has(input: seq<Edge>, e: Edge) {
    e.src < e.dst && exists i :: 0 <= i < |input| && (input[i] == e || input[i] == Edge(e.dst, e.src))
  }

  ghost predicate Distinct<T>(s: seq<T>) { forall i, j :: 0 <= i < j < |s| ==> s[i] != s[j] }

  /** Bucket v holds each edge of the input whose smaller endpoint hashes to v, once. */
  ghost predicate IsBucket(input: seq<Edge>, vhosts: nat, v: nat, bucket: seq<Edge>)
    requires vhosts > 0
  {
    Distinct(bucket) && forall e: Edge :: e in bucket <==> Has(input, e) && e.src % vhosts == v
  }

  ghost predicate AreBuckets(input: seq<Edge>, vhosts: nat, buckets: seq<seq<Edge>>)
    requires vhosts > 0
  {
    |buckets| == vhosts && forall v :: 0 <= v < vhosts ==> IsBucket(input, vhosts, v, buckets[v])
  }

  // ---------------------------------------------------------------- dealing out virtual hosts

  /** Host h's share of s: positions h, h + hosts, h + 2 * hosts, ... */
  function Deal(s: seq<nat>, h: nat, hosts: nat): (share: seq<nat>)
    requires hosts > 0
    decreases |s| - h
  {
    if h < |s| then [s[h]] + Deal(s, h + hosts, hosts) else []
  }

  predicate Below(vs: seq<nat>, n: nat) { forall i :: 0 <= i < |vs| ==> vs[i] < n }

  lemma {:induction false} DealBelow(s: seq<nat>, h: nat, hosts: nat, n: nat)
    requires hosts > 0 && Below(s, n)
    ensures Below(Deal(s, h, hosts), n)
    decreases |s| - h
  {
    if h < |s| { DealBelow(s, h + hosts, hosts, n); }
  }

  ghost predicate IsPermutation(s: seq<nat>) {
    Distinct(s) && Below(s, |s|) && forall v :: 0 <= v < |s| ==> v in s
  }

  /** The virtual host at position p goes to host p modulo the number of hosts, and to no other. */
  lemma {:induction false} DealtTo(s: seq<nat>, h: nat, hosts: nat, p: nat, x: nat)
    requires hosts > 0 && Distinct(s) && p < |s| && x < hosts && h % hosts == x
    ensures s[p] in Deal(s, h, hosts) <==> p >= h && p % hosts == x
    decreases |s| - h
  {
    if h < |s| {
      StepRemainder(h, hosts);
      DealtTo(s, h + hosts, hosts, p, x);
      if p >= h && p % hosts == x && p != h { SameRemainder(h, p, hosts); }
    }
  }

  lemma StepRemainder(h: nat, hosts: nat)
    requires hosts > 0
    ensures (h + hosts) % hosts == h % hosts
  {
    ModAdd(h, hosts, 1);
  }

  lemma SameRemainder(h: nat, p: nat, hosts: nat)
    requires hosts > 0 && h < p && h % hosts == p % hosts
    ensures h + hosts <= p
  {
    var q := ModEqual(p, h, hosts);
    if q <= 0 { Times(hosts, q, 0); } else { Times(hosts, 1, q); }
  }

  lemma {:induction false} DealDistinct(s: seq<nat>, h: nat, hosts: nat)
    requires hosts > 0 && Distinct(s)
    ensures Distinct(Deal(s, h, hosts))
    decreases |s| - h
  {
    if h < |s| {
      DealDistinct(s, h + hosts, hosts);
      StepRemainder(h, hosts);
      DealtTo(s, h + hosts, hosts, h, h % hosts);
    }
  }

  /** Share sizes differ by at most one. */
  lemma {:induction false} ShareSizes(s: seq<nat>, x: nat, y: nat, hosts: nat)
    requires hosts > 0 && x <= y <= x + hosts
    ensures |Deal(s, y, hosts)| <= |Deal(s, x, hosts)| <= |Deal(s, y, hosts)| + 1
    decreases |s| + |s| + hosts - x - y
  {
    if x < |s| { ShareSizes(s, y, x + hosts, hosts); }
  }

  // ---------------------------------------------------------------- sums over a share

  ghost function Total(f: nat -> nat, vs: seq<nat>): nat {
    if vs == [] then 0 else f(vs[0]) + Total(f, vs[1..])
  }

  ghost predicate Ascending(f: nat -> nat, s: seq<nat>) {
    forall i, j :: 0 <= i < j < |s| ==> f(s[i]) <= f(s[j])
  }

  ghost function Size(f: nat -> nat, s: seq<nat>, x: nat): nat { if x < |s| then f(s[x]) else 0 }

  lemma ShareTotal(f: nat -> nat, s: seq<nat>, x: nat, hosts: nat)
    requires hosts > 0
    ensures Total(f, Deal(s, x, hosts)) == if x < |s| then Size(f, s, x) + Total(f, Deal(s, x + hosts, hosts)) else 0
  {
    if x < |s| { assert Deal(s, x, hosts)[1..] == Deal(s, x + hosts, hosts); }
  }

  /** Dealing in ascending order: the totals of any two hosts differ by at most the largest size. */
  lemma {:induction false} Balanced(f: nat -> nat, s: seq<nat>, x: nat, y: nat, hosts: nat, max: nat)
    requires hosts > 0 && x <= y <= x + hosts && Ascending(f, s) && forall i :: 0 <= i < |s| ==> f(s[i]) <= max
    ensures Size(f, s, x) - max <= Total(f, Deal(s, x, hosts)) - Total(f, Deal(s, y, hosts)) <= max
    decreases |s| + |s| + hosts - x - y
  {
    ShareTotal(f, s, x, hosts);
    ShareTotal(f, s, y, hosts);
    if x < |s| { Balanced(f, s, y, x + hosts, hosts, max); }
  }

  // ---------------------------------------------------------------- the whole exchange

  /** Occurrences of an edge. */
  ghost function Occurs(e: Edge, s: seq<Edge>): nat { multiset(s)[e] }

  lemma OccursAppend(e: Edge, a: seq<Edge>, b: seq<Edge>)
    ensures Occurs(e, a + b) == Occurs(e, a) + Occurs(e, b)
  {
  }

  lemma {:induction false} OccursOnce(e: Edge, s: seq<Edge>)
    requires Distinct(s)
    ensures Occurs(e, s) == if e in s then 1 else 0
  {
    if s != [] {
      OccursOnce(e, s[1..]);
      assert s == [s[0]] + s[1..];
    }
  }

  /** The edges of the given virtual hosts, from one host's buckets. */
  function Sent(buckets: seq<seq<Edge>>, vs: seq<nat>): (edges: seq<Edge>)
    requires Below(vs, |buckets|)
  {
    if vs == [] then [] else buckets[vs[0]] + Sent(buckets, vs[1..])
  }

  ghost predicate InBuckets(buckets: seq<seq<seq<Edge>>>, vs: seq<nat>, n: nat) {
    n <= |buckets| && forall s :: 0 <= s < n ==> Below(vs, |buckets[s]|)
  }

  /** What the first n hosts send. */
  function Received(buckets: seq<seq<seq<Edge>>>, vs: seq<nat>, n: nat): (edges: seq<Edge>)
    requires InBuckets(buckets, vs, n)
  {
    if n == 0 then [] else Received(buckets, vs, n - 1) + Sent(buckets[n - 1], vs)
  }

  lemma {:induction false} SentOccurs(input: seq<Edge>, vhosts: nat, buckets: seq<seq<Edge>>, vs: seq<nat>, e: Edge)
    requires vhosts > 0 && AreBuckets(input, vhosts, buckets) && Distinct(vs) && Below(vs, vhosts)
    ensures Occurs(e, Sent(buckets, vs)) == if e.src % vhosts in vs && Has(input, e) then 1 else 0
  {
    if vs != [] {
      SentOccurs(input, vhosts, buckets, vs[1..], e);
      OccursAppend(e, buckets[vs[0]], Sent(buckets, vs[1..]));
      assert IsBucket(input, vhosts, vs[0], buckets[vs[0]]);
      OccursOnce(e, buckets[vs[0]]);
      assert vs == [vs[0]] + vs[1..] && vs[0] !in vs[1..];
    }
  }

  /** The number of the first n inputs that contain the edge. */
  ghost function Sources(inputs: seq<seq<Edge>>, e: Edge, n: nat): nat
    requires n <= |inputs|
  {
    if n == 0 then 0 else Sources(inputs, e, n - 1) + if Has(inputs[n - 1], e) then 1 else 0
  }

  ghost predicate AllBuckets(inputs: seq<seq<Edge>>, vhosts: nat, buckets: seq<seq<seq<Edge>>>)
    requires vhosts > 0
  {
    |buckets| == |inputs| && forall s :: 0 <= s < |inputs| ==> AreBuckets(inputs[s], vhosts, buckets[s])
  }

  lemma {:induction false} ReceivedOccurs(inputs: seq<seq<Edge>>, vhosts: nat, buckets: seq<seq<seq<Edge>>>, vs: seq<nat>,
                                          n: nat, e: Edge)
    requires vhosts > 0 && AllBuckets(inputs, vhosts, buckets) && n <= |inputs|
    requires Distinct(vs) && Below(vs, vhosts)
    ensures Occurs(e, Received(buckets, vs, n)) == if e.src % vhosts in vs then Sources(inputs, e, n) else 0
  {
    if n > 0 {
      ReceivedOccurs(inputs, vhosts, buckets, vs, n - 1, e);
      SentOccurs(inputs[n - 1], vhosts, buckets[n - 1], vs, e);
      OccursAppend(e, Received(buckets, vs, n - 1), Sent(buckets[n - 1], vs));
    }
  }

  /** The number of edges of virtual host v over the first n hosts: the reduced metadata. */
  ghost function EdgesOf(buckets: seq<seq<seq<Edge>>>, v: nat, n: nat): nat
    requires n <= |buckets|
  {
    if n == 0 then 0 else EdgesOf(buckets, v, n - 1) + if v < |buckets[n - 1]| then |buckets[n - 1][v]| else 0
  }

  /** Host h's final edge list. */
  function FinalEdges(buckets: seq<seq<seq<Edge>>>, sorted: seq<nat>, h: nat): (edges: seq<Edge>)
    requires |buckets| > 0 && forall s :: 0 <= s < |buckets| ==> Below(sorted, |buckets[s]|)
  {
    ShareBelow(buckets, sorted, h);
    Received(buckets, Deal(sorted, h, |buckets|), |buckets|)
  }

  lemma ShareBelow(buckets: seq<seq<seq<Edge>>>, sorted: seq<nat>, h: nat)
    requires |buckets| > 0 && forall s :: 0 <= s < |buckets| ==> Below(sorted, |buckets[s]|)
    ensures forall s :: 0 <= s < |buckets| ==> Below(Deal(sorted, h, |buckets|), |buckets[s]|)
  {
    forall s | 0 <= s < |buckets| ensures Below(Deal(sorted, h, |buckets|), |buckets[s]|) {
      DealBelow(sorted, h, |buckets|, |buckets[s]|);
    }
  }

  /** The virtual host at position p of a permutation is in the share of host p modulo the number of hosts only. */
  lemma {:induction false} OneShare(s: seq<nat>, hosts: nat, p: nat, h: nat)
    requires hosts > 0 && IsPermutation(s) && p < |s| && h < hosts
    ensures s[p] in Deal(s, h, hosts) <==> h == p % hosts
  {
    Small(h, hosts);
    if p < hosts { Small(p, hosts); }
    DealtTo(s, h, hosts, p, h);
  }

  /** Every edge ends on exactly one host, that of its smaller endpoint's virtual host, as many times as there
      are hosts whose input contains it. */
  lemma EdgesAreConserved(inputs: seq<seq<Edge>>, vhosts: nat, buckets: seq<seq<seq<Edge>>>, sorted: seq<nat>, p: nat, e: Edge, h: nat)
    requires vhosts > 0 && |inputs| > 0 && AllBuckets(inputs, vhosts, buckets)
    requires IsPermutation(sorted) && |sorted| == vhosts && p < vhosts && sorted[p] == e.src % vhosts && h < |inputs|
    ensures forall s :: 0 <= s < |buckets| ==> Below(sorted, |buckets[s]|)
    ensures Occurs(e, FinalEdges(buckets, sorted, h)) == if h == p % |inputs| then Sources(inputs, e, |inputs|) else 0
  {
    forall s | 0 <= s < |buckets| ensures Below(sorted, |buckets[s]|) { assert AreBuckets(inputs[s], vhosts, buckets[s]); }
    OneShare(sorted, |inputs|, p, h);
    DealDistinct(sorted, h, |inputs|);
    DealBelow(sorted, h, |inputs|, vhosts);
    ReceivedOccurs(inputs, vhosts, buckets, Deal(sorted, h, |inputs|), |inputs|, e);
  }

  lemma {:induction false} SentSize(buckets: seq<seq<Edge>>, vs: seq<nat>, f: nat -> nat)
    requires Below(vs, |buckets|) && forall v: nat :: v < |buckets| ==> f(v) == |buckets[v]|
    ensures |Sent(buckets, vs)| == Total(f, vs)
  {
    if vs != [] { SentSize(buckets, vs[1..], f); }
  }

  lemma {:induction false} TotalAdds(f: nat -> nat, g: nat -> nat, k: nat -> nat, vs: seq<nat>)
    requires forall v: nat :: k(v) == f(v) + g(v)
    ensures Total(k, vs) == Total(f, vs) + Total(g, vs)
  {
    if vs != [] { TotalAdds(f, g, k, vs[1..]); }
  }

  ghost function SizeAt(buckets: seq<seq<seq<Edge>>>, n: nat): nat -> nat
    requires n <= |buckets|
  {
    v => EdgesOf(buckets, v, n)
  }

  ghost function SizeIn(buckets: seq<seq<Edge>>): nat -> nat { (v: nat) => if v < |buckets| then |buckets[v]| else 0 }

  lemma SizeStep(buckets: seq<seq<seq<Edge>>>, n: nat, v: nat)
    requires 0 < n <= |buckets|
    ensures SizeAt(buckets, n)(v) == SizeAt(buckets, n - 1)(v) + SizeIn(buckets[n - 1])(v)
  {
  }

  lemma {:induction false} NoEdgesYet(buckets: seq<seq<seq<Edge>>>, vs: seq<nat>)
    ensures Total(SizeAt(buckets, 0), vs) == 0
  {
    if vs != [] {
      NoEdgesYet(buckets, vs[1..]);
      assert SizeAt(buckets, 0)(vs[0]) == EdgesOf(buckets, vs[0], 0);
    }
  }

  lemma TotalStep(buckets: seq<seq<seq<Edge>>>, vs: seq<nat>, n: nat)
    requires 0 < n <= |buckets| && Below(vs, |buckets[n - 1]|)
    ensures Total(SizeAt(buckets, n), vs) == Total(SizeAt(buckets, n - 1), vs) + |Sent(buckets[n - 1], vs)|
  {
    var f, g, k := SizeAt(buckets, n - 1), SizeIn(buckets[n - 1]), SizeAt(buckets, n);
    SentSize(buckets[n - 1], vs, g);
    forall v: nat ensures k(v) == f(v) + g(v) { SizeStep(buckets, n, v); }
    TotalAdds(f, g, k, vs);
  }

  ghost function SentInAll(buckets: seq<seq<seq<Edge>>>, vs: seq<nat>, n: nat): nat
    requires InBuckets(buckets, vs, n)
    decreases n
  {
    if n == 0 then 0 else SentInAll(buckets, vs, n - 1) + |Sent(buckets[n - 1], vs)|
  }

  lemma {:induction false} ReceivedIsSent(buckets: seq<seq<seq<Edge>>>, vs: seq<nat>, n: nat)
    requires InBuckets(buckets, vs, n)
    ensures |Received(buckets, vs, n)| == SentInAll(buckets, vs, n)
    decreases n
  {
    if n > 0 { ReceivedIsSent(buckets, vs, n - 1); }
  }

  lemma {:induction false} SentSizes(buckets: seq<seq<seq<Edge>>>, vs: seq<nat>, n: nat)
    requires InBuckets(buckets, vs, n)
    ensures Total(SizeAt(buckets, n), vs) == SentInAll(buckets, vs, n)
    decreases n
  {
    if n == 0 {
      NoEdgesYet(buckets, vs);
    } else {
      SentSizes(buckets, vs, n - 1);
      TotalStep(buckets, vs, n);
    }
  }

  /** A host's final list is as long as its virtual hosts have edges. */
  lemma ReceivedSize(buckets: seq<seq<seq<Edge>>>, vs: seq<nat>, n: nat)
    requires InBuckets(buckets, vs, n)
    ensures |Received(buckets, vs, n)| == Total(SizeAt(buckets, n), vs)
  {
    ReceivedIsSent(buckets, vs, n);
    SentSizes(buckets, vs, n);
  }

  /** Dealt in ascending order of their edge counts, the final lists of any two hosts differ by at most the
      largest count. */
  lemma FinalListsAreBalanced(buckets: seq<seq<seq<Edge>>>, sorted: seq<nat>, x: nat, y: nat, max: nat)
    requires |buckets| > 0 && forall s :: 0 <= s < |buckets| ==> Below(sorted, |buckets[s]|)
    requires Ascending(SizeAt(buckets, |buckets|), sorted)
    requires forall v: nat :: EdgesOf(buckets, v, |buckets|) <= max
    requires x < |buckets| && y < |buckets|
    ensures |FinalEdges(buckets, sorted, x)| - |FinalEdges(buckets, sorted, y)| <= max
  {
    var H := |buckets|;
    var f := SizeAt(buckets, H);
    ShareBelow(buckets, sorted, x);
    ShareBelow(buckets, sorted, y);
    ReceivedSize(buckets, Deal(sorted, x, H), H);
    ReceivedSize(buckets, Deal(sorted, y, H), H);
    if x <= y { Balanced(f, sorted, x, y, H, max); } else { Balanced(f, sorted, y, x, H, max); }
  }
}
