/** The stages of the edge exchange. Within a stage there is one task per host, and the tasks run in any order. */
module ExchangeStages {
  import opened Multiples
  import opened Remainders
  import opened Sorting
  import opened EdgeExchange

  // ---------------------------------------------------------------- reading one host's input

  /** The destinations recorded for each source are those of the edges seen. */
  ghost predicate Recorded(input: seq<Edge>, unique: map<int, set<int>>) {
    forall e: Edge :: (e.src in unique && e.dst in unique[e.src]) <==> Has(input, e)
  }

  lemma HasStep(input: seq<Edge>, raw: Edge, e: Edge)
    ensures Has(input + [raw], e) <==> Has(input, e) || (Normal(raw) == e && e.src < e.dst)
  {
    var longer := input + [raw];
    assert longer[|input|] == raw;
    if Has(input, e) {
      var i :| 0 <= i < |input| && (input[i] == e || input[i] == Edge(e.dst, e.src));
      assert longer[i] == input[i];
    }
  }

  /** A line that adds no edge. */
  lemma NothingNew(input: seq<Edge>, raw: Edge, vhosts: nat, unique: map<int, set<int>>, buckets: seq<seq<Edge>>)
    requires vhosts > 0 && Recorded(input, unique) && AreBuckets(input, vhosts, buckets)
    requires Normal(raw).src >= Normal(raw).dst || Has(input, Normal(raw))
    ensures Recorded(input + [raw], unique) && AreBuckets(input + [raw], vhosts, buckets)
  {
    forall e: Edge ensures Has(input + [raw], e) <==> Has(input, e) { HasStep(input, raw, e); }
    forall v | 0 <= v < vhosts ensures IsBucket(input + [raw], vhosts, v, buckets[v]) { assert IsBucket(input, vhosts, v, buckets[v]); }
  }

  function WithEdge(unique: map<int, set<int>>, e: Edge): map<int, set<int>> {
    unique[e.src := (if e.src in unique then unique[e.src] else {}) + {e.dst}]
  }

  /** A new edge goes to the bucket of its smaller endpoint. */
  lemma NewEdge(input: seq<Edge>, raw: Edge, vhosts: nat, unique: map<int, set<int>>, unique': map<int, set<int>>,
                buckets: seq<seq<Edge>>, v: nat)
    requires vhosts > 0 && Recorded(input, unique) && AreBuckets(input, vhosts, buckets)
    requires Normal(raw).src < Normal(raw).dst && !Has(input, Normal(raw)) && v == Normal(raw).src % vhosts < vhosts
    requires unique' == WithEdge(unique, Normal(raw))
    ensures Recorded(input + [raw], unique')
    ensures AreBuckets(input + [raw], vhosts, buckets[v := buckets[v] + [Normal(raw)]])
  {
    var added := Normal(raw);
    forall e: Edge ensures Has(input + [raw], e) <==> Has(input, e) || e == added { HasStep(input, raw, e); }
    var buckets' := buckets[v := buckets[v] + [added]];
    forall w | 0 <= w < vhosts ensures IsBucket(input + [raw], vhosts, w, buckets'[w]) {
      assert IsBucket(input, vhosts, w, buckets[w]);
    }
  }

  /** hash_vertexID_to_vhost. The remainder of a C++ division takes the dividend's sign. */
  function HashVertexToVhost(vertex: int, vhosts: nat): (v: int)
    requires vhosts > 0
    ensures v >= 0 <==> vertex >= 0 || vertex % vhosts == 0
    ensures if v >= 0 then v == vertex % vhosts else v == vertex % vhosts - vhosts
  {
    NegativeRemainder(vertex, vhosts);
    if vertex >= 0 then vertex % vhosts else -(-vertex % vhosts)
  }

  lemma NegativeRemainder(a: int, n: nat)
    requires n > 0
    ensures -a % n == if a % n == 0 then 0 else n - a % n
  {
    var r := if a % n == 0 then 0 else n - a % n;
    var q := if a % n == 0 then -(a / n) else -(a / n) - 1;
    assert -a == r + n * q by { assert a == n * (a / n) + a % n; assert n * q == if a % n == 0 then -(n * (a / n)) else -(n * (a / n)) - n; }
    ModAdd(r, n, q);
    Small(r, n);
  }

  /** Every edge has a bucket: its smaller endpoint is not negative, or is a multiple of the number of buckets. */
  ghost predicate Bucketable(input: seq<Edge>, vhosts: nat)
    requires vhosts > 0
  {
    forall e: Edge :: Has(input, e) ==> e.src >= 0 || e.src % vhosts == 0
  }

  /** An edge between a negative and another vertex, with two virtual hosts. */
  lemma NegativeVertex()
    ensures !Bucketable([Edge(-1, 2)], 2) && HashVertexToVhost(-1, 2) == -1
  {
    var input := [Edge(-1, 2)];
    assert input[0] == Edge(-1, 2);
    assert Has(input, Edge(-1, 2));
  }

  /** get_vHost_edges, with the lines of the file as input. Fails where the original takes a bucket of negative
      number, whose behaviour C++ does not define. */
  method GetVhostEdges(input: seq<Edge>, vhosts: nat) returns (ok: bool, buckets: seq<seq<Edge>>)
    requires vhosts > 0
    ensures ok <==> Bucketable(input, vhosts)
    ensures ok ==> AreBuckets(input, vhosts, buckets)
  {
    buckets := seq(vhosts, i => []);
    var unique: map<int, set<int>> := map[];
    for i := 0 to |input|
      invariant Recorded(input[..i], unique) && AreBuckets(input[..i], vhosts, buckets) && Bucketable(input[..i], vhosts)
    {
      assert input[..i + 1] == input[..i] + [input[i]];
      var e := Normal(input[i]);
      if e.src < e.dst && !(e.src in unique && e.dst in unique[e.src]) {
        var v := HashVertexToVhost(e.src, vhosts);
        if v < 0 { return false, []; }
        ghost var u, b := unique, buckets;
        unique := WithEdge(unique, e);
        buckets := buckets[v := buckets[v] + [e]];
        NewEdge(input[..i], input[i], vhosts, u, unique, b, v);
      } else {
        NothingNew(input[..i], input[i], vhosts, unique, buckets);
      }
    }
    assert input[..|input|] == input;
    ok := true;
  }

  // ---------------------------------------------------------------- the shared arrays

  /** A stage's tasks run in any order, each at least once. */
  ghost predicate IsOrder(order: seq<nat>, hosts: nat) { Below(order, hosts) && forall h :: 0 <= h < hosts ==> h in order }

  /** Host s's part of a flat array. */
  function Part<T>(flat: seq<T>, s: nat, vhosts: nat): (part: seq<T>)
    requires At(s, vhosts) + vhosts <= |flat|
    ensures |part| == vhosts
  {
    flat[At(s, vhosts)..At(s, vhosts) + vhosts]
  }

  function Parts<T>(flat: seq<T>, hosts: nat, vhosts: nat): (parts: seq<seq<T>>)
    requires |flat| == At(hosts, vhosts)
    ensures |parts| == hosts && forall s :: 0 <= s < hosts ==> At(s, vhosts) + vhosts <= |flat| && parts[s] == Part(flat, s, vhosts)
  {
    PartFits(hosts, vhosts);
    seq(hosts, s requires 0 <= s < hosts => Part(flat, s, vhosts))
  }

  lemma PartFits(hosts: nat, vhosts: nat)
    ensures forall s :: 0 <= s < hosts ==> At(s, vhosts) + vhosts <= At(hosts, vhosts)
  {
    forall s | 0 <= s < hosts ensures At(s, vhosts) + vhosts <= At(hosts, vhosts) { AtOrder(s, hosts, vhosts); }
  }

  lemma PartsApart(s: nat, u: nat, i: int, vhosts: nat)
    requires s != u && At(s, vhosts) <= i < At(s, vhosts) + vhosts
    ensures !(At(u, vhosts) <= i < At(u, vhosts) + vhosts)
  {
    if s < u { AtOrder(s, u, vhosts); } else { AtOrder(u, s, vhosts); }
  }

  // ---------------------------------------------------------------- sorting virtual hosts by size

  function Iota(n: nat): (s: seq<nat>)
    ensures |s| == n && forall i :: 0 <= i < n ==> s[i] == i
  {
    if n == 0 then [] else Iota(n - 1) + [n - 1]
  }

  lemma Twice(s: seq<nat>, i: nat, j: nat)
    requires i < j < |s| && s[i] == s[j]
    ensures multiset(s)[s[i]] >= 2
  {
    assert s[..j][i] in multiset(s[..j]);
    assert s == s[..j] + ([s[j]] + s[j + 1..]);
  }

  lemma SameElements(s: seq<nat>, r: seq<nat>, v: nat)
    requires multiset(s) == multiset(r)
    ensures v in s <==> v in r
  {
    assert v in s <==> v in multiset(s);
    assert v in r <==> v in multiset(r);
  }

  lemma RearrangedIota(s: seq<nat>)
    requires multiset(s) == multiset(Iota(|s|))
    ensures IsPermutation(s)
  {
    var n := |s|;
    forall v: nat | v < n ensures v in s {
      assert Iota(n)[v] == v;
      SameElements(s, Iota(n), v);
    }
    forall i | 0 <= i < n ensures s[i] < n { SameElements(s, Iota(n), s[i]); }
    RearrangedOnce(s);
  }

  lemma RearrangedOnce(s: seq<nat>)
    requires multiset(s) == multiset(Iota(|s|))
    ensures Distinct(s)
  {
    forall i, j | 0 <= i < j < |s| ensures s[i] != s[j] {
      if s[i] == s[j] {
        IotaOnce(|s|, s[i]);
        Twice(s, i, j);
      }
    }
  }

  lemma {:induction false} IotaOnce(n: nat, v: nat)
    ensures multiset(Iota(n))[v] <= 1
  {
    if n > 0 {
      IotaOnce(n - 1, v);
      if v == n - 1 { assert v !in Iota(n - 1); }
    }
  }

  /** Host s has delivered its buckets and their sizes. */
  ghost predicate DeliveredIn(edges: seq<seq<Edge>>, sizes: seq<nat>, hosts: nat, vhosts: nat, input: seq<Edge>, s: nat)
    requires |edges| == |sizes| == At(hosts, vhosts) && s < hosts && vhosts > 0
  {
    PartFits(hosts, vhosts);
    && AreBuckets(input, vhosts, Part(edges, s, vhosts))
    && forall i :: At(s, vhosts) <= i < At(s, vhosts) + vhosts ==> sizes[i] == |edges[i]|
  }

  /** Another host's delivery does not disturb host s's. */
  lemma StillDelivered(edges: seq<seq<Edge>>, sizes: seq<nat>, edges': seq<seq<Edge>>, sizes': seq<nat>,
                       hosts: nat, vhosts: nat, input: seq<Edge>, s: nat, me: nat)
    requires |edges| == |sizes| == |edges'| == |sizes'| == At(hosts, vhosts) && s < hosts && vhosts > 0 && me != s
    requires DeliveredIn(edges, sizes, hosts, vhosts, input, s)
    requires forall i :: 0 <= i < |edges| && !(At(me, vhosts) <= i < At(me, vhosts) + vhosts) ==>
               edges'[i] == edges[i] && sizes'[i] == sizes[i]
    ensures DeliveredIn(edges', sizes', hosts, vhosts, input, s)
  {
    PartFits(hosts, vhosts);
    var lo := At(s, vhosts);
    forall i | lo <= i < lo + vhosts ensures edges'[i] == edges[i] && sizes'[i] == sizes[i] { PartsApart(s, me, i, vhosts); }
    assert Part(edges', s, vhosts) == Part(edges, s, vhosts);
  }

  // ---------------------------------------------------------------- the stages

  class Exchange {
    const hosts: nat
    const vhosts: nat
    var dones: seq<bool>
    var vhostEdges: seq<seq<Edge>>
    var metadata: seq<nat>
    var reduced: seq<nat>
    var sortedIndices: seq<nat>
    var vhostsPerHost: seq<seq<nat>>
    var edgesToSend: seq<seq<seq<seq<Edge>>>>
    var finalEdges: seq<seq<Edge>>

    ghost predicate Valid()
      reads this
    {
      && hosts > 0 && vhosts > 0 && |dones| == hosts == |vhostsPerHost| == |edgesToSend| == |finalEdges|
      && |vhostEdges| == At(hosts, vhosts) == |metadata| && |reduced| == vhosts
    }

    /** No task is under way. */
    ghost predicate Idle() reads this { Valid() && forall h :: 0 <= h < hosts ==> !dones[h] }

    constructor (hosts: nat, vhosts: nat)
      requires hosts > 0 && vhosts > 0
      ensures Idle() && this.hosts == hosts && this.vhosts == vhosts && forall v :: 0 <= v < vhosts ==> reduced[v] == 0
    {
      this.hosts, this.vhosts := hosts, vhosts;
      dones := seq(hosts, i => false);
      vhostEdges := seq(At(hosts, vhosts), i => []);
      metadata := seq(At(hosts, vhosts), i => 0);
      reduced := seq(vhosts, i => 0);
      sortedIndices := [];
      vhostsPerHost := seq(hosts, i => []);
      edgesToSend := seq(hosts, i => []);
      finalEdges := seq(hosts, i => []);
    }

    /** Every host's buckets. */
    ghost function Buckets(): (buckets: seq<seq<seq<Edge>>>)
      requires Valid()
      reads this
    {
      Parts(vhostEdges, hosts, vhosts)
    }

    ghost predicate Delivered(input: seq<Edge>, s: nat)
      requires Valid() && s < hosts
      reads this
    {
      DeliveredIn(vhostEdges, metadata, hosts, vhosts, input, s)
    }

    /** getVHostData on host me. */
    method GetVhostData(me: nat, input: seq<Edge>) returns (ok: bool)
      requires Valid() && me < hosts
      modifies this`vhostEdges, this`metadata, this`dones
      ensures Valid() && (ok <==> Bucketable(input, vhosts))
      ensures if ok then dones == old(dones)[me := true] && Delivered(input, me) else dones == old(dones)
      ensures forall i :: 0 <= i < |metadata| && !(At(me, vhosts) <= i < At(me, vhosts) + vhosts) ==>
                vhostEdges[i] == old(vhostEdges[i]) && metadata[i] == old(metadata[i])
    {
      var buckets;
      ok, buckets := GetVhostEdges(input, vhosts);
      if ok { Deliver(me, input, buckets); }
    }

    method Deliver(me: nat, ghost input: seq<Edge>, buckets: seq<seq<Edge>>)
      requires Valid() && me < hosts && AreBuckets(input, vhosts, buckets)
      modifies this`vhostEdges, this`metadata, this`dones
      ensures Valid() && dones == old(dones)[me := true] && Delivered(input, me)
      ensures forall i :: 0 <= i < |metadata| && !(At(me, vhosts) <= i < At(me, vhosts) + vhosts) ==>
                vhostEdges[i] == old(vhostEdges[i]) && metadata[i] == old(metadata[i])
    {
      AtOrder(me, hosts, vhosts);
      StoreBuckets(At(me, vhosts), buckets);
      assert Part(vhostEdges, me, vhosts) == buckets;
      dones := dones[me := true];
    }

    method StoreBuckets(base: nat, buckets: seq<seq<Edge>>)
      requires Valid() && |buckets| == vhosts && base + vhosts <= |metadata|
      modifies this`vhostEdges, this`metadata
      ensures Valid()
      ensures forall v :: 0 <= v < vhosts ==> vhostEdges[base + v] == buckets[v] && metadata[base + v] == |buckets[v]|
      ensures forall i :: 0 <= i < |metadata| && !(base <= i < base + vhosts) ==>
                vhostEdges[i] == old(vhostEdges[i]) && metadata[i] == old(metadata[i])
    {
      for v := 0 to vhosts
        invariant Valid()
        invariant forall w :: 0 <= w < v ==> vhostEdges[base + w] == buckets[w] && metadata[base + w] == |buckets[w]|
        invariant forall i :: 0 <= i < |metadata| && !(base <= i < base + v) ==>
                    vhostEdges[i] == old(vhostEdges[i]) && metadata[i] == old(metadata[i])
      {
        metadata := metadata[base + v := |buckets[v]|];
        vhostEdges := vhostEdges[base + v := buckets[v]];
      }
    }

    /** The first half of read_reduce_local_edge_lists: every host buckets its input. */
    method ReadLocalEdgeLists(inputs: seq<seq<Edge>>, order: seq<nat>) returns (ok: bool)
      requires Idle() && |inputs| == hosts && IsOrder(order, hosts)
      modifies this`vhostEdges, this`metadata, this`dones
      ensures Valid() && (ok <==> Readable(inputs, vhosts))
      ensures ok ==> forall s :: 0 <= s < hosts ==> dones[s] && Delivered(inputs[s], s)
    {
      for k := 0 to |order|
        invariant Valid()
        invariant forall s :: s in order[..k] ==> s < hosts && Bucketable(inputs[s], vhosts)
        invariant forall s :: s in order[..k] ==> s < hosts && dones[s] && Delivered(inputs[s], s)
      {
        var me := order[k];
        ghost var e, m := vhostEdges, metadata;
        ok := GetVhostData(me, inputs[me]);
        if !ok { return; }
        forall s | s in order[..k] && s != me ensures Delivered(inputs[s], s) {
          StillDelivered(e, m, vhostEdges, metadata, hosts, vhosts, inputs[s], s, me);
        }
        assert order[..k + 1] == order[..k] + [me];
      }
      assert order[..|order|] == order;
      ok := true;
    }

    /** The second half: the reduction reads host i's part once its flag is up. It may start while other hosts
        are still reading; as it only reads finished parts, here all the reading comes first. */
    method ReduceMetadata(ghost inputs: seq<seq<Edge>>)
      requires Valid() && |inputs| == hosts && forall s :: 0 <= s < hosts ==> dones[s] && Delivered(inputs[s], s)
      requires forall v :: 0 <= v < vhosts ==> reduced[v] == 0
      modifies this`reduced, this`dones
      ensures Idle() && AllBuckets(inputs, vhosts, Buckets())
      ensures forall v: nat :: v < vhosts ==> reduced[v] == EdgesOf(Buckets(), v, hosts)
    {
      ghost var b := Buckets();
      for i := 0 to hosts
        invariant Valid() && dones == old(dones)
        invariant forall v: nat :: v < vhosts ==> reduced[v] == EdgesOf(b, v, i)
      {
        ReduceHost(i, inputs[i]);
      }
      forall s | 0 <= s < hosts ensures AreBuckets(inputs[s], vhosts, b[s]) { assert Delivered(inputs[s], s); }
      dones := seq(hosts, i => false);
    }

    method ReduceHost(i: nat, ghost input: seq<Edge>)
      requires Valid() && i < hosts && dones[i] && Delivered(input, i)
      modifies this`reduced
      ensures Valid() && forall v: nat :: v < vhosts ==> reduced[v] == old(reduced[v]) + |Buckets()[i][v]|
    {
      AtOrder(i, hosts, vhosts);
      ghost var part := Part(vhostEdges, i, vhosts);
      for j := 0 to vhosts
        invariant Valid()
        invariant forall v: nat :: v < j ==> reduced[v] == old(reduced[v]) + |part[v]|
        invariant forall v: nat :: j <= v < vhosts ==> reduced[v] == old(reduced[v])
      {
        reduced := reduced[j := reduced[j] + metadata[At(i, vhosts) + j]];
      }
      assert Buckets()[i] == part;
    }

    /** sort_metadata. */
    method SortMetadata()
      requires Valid()
      modifies this`sortedIndices
      ensures Valid() && |sortedIndices| == vhosts && IsPermutation(sortedIndices)
      ensures forall i, j :: 0 <= i < j < vhosts ==> reduced[sortedIndices[i]] <= reduced[sortedIndices[j]]
    {
      var r := reduced;
      var key := (v: nat) => if v < |r| then r[v] else 0;
      sortedIndices := SortBy(key, Iota(vhosts));
      RearrangedIota(sortedIndices);
      forall i, j | 0 <= i < j < vhosts ensures reduced[sortedIndices[i]] <= reduced[sortedIndices[j]] {
        assert key(sortedIndices[i]) <= key(sortedIndices[j]);
      }
    }

    /** assign_vhosts_to_host on host me. */
    method AssignVhosts(me: nat)
      requires Valid() && me < hosts
      modifies this`vhostsPerHost, this`dones
      ensures Valid() && dones == old(dones)[me := true]
      ensures vhostsPerHost == old(vhostsPerHost)[me := Deal(sortedIndices, me, hosts)]
    {
      var mine: seq<nat> := [];
      var i := me;
      while i < |sortedIndices|
        invariant vhostsPerHost == old(vhostsPerHost) && dones == old(dones)
        invariant mine + Deal(sortedIndices, i, hosts) == Deal(sortedIndices, me, hosts)
      {
        mine := mine + [sortedIndices[i]];
        i := i + hosts;
      }
      assert mine + [] == mine;
      vhostsPerHost := vhostsPerHost[me := mine];
      dones := dones[me := true];
    }

    method LaunchAssignVhosts(order: seq<nat>)
      requires Idle() && IsOrder(order, hosts)
      modifies this`vhostsPerHost, this`dones
      ensures Idle() && forall h :: 0 <= h < hosts ==> vhostsPerHost[h] == Deal(sortedIndices, h, hosts)
    {
      for k := 0 to |order|
        invariant Valid() && sortedIndices == old(sortedIndices)
        invariant forall h :: h in order[..k] ==> h < hosts && dones[h] && vhostsPerHost[h] == Deal(sortedIndices, h, hosts)
      {
        AssignVhosts(order[k]);
        assert order[..k + 1] == order[..k] + [order[k]];
      }
      assert order[..|order|] == order;
      dones := seq(hosts, i => false);
    }

    ghost predicate Dealt() reads this { Valid() && forall h :: 0 <= h < hosts ==> Below(vhostsPerHost[h], vhosts) }

    /** Host s has put together what it sends. */
    ghost predicate Ready(s: nat)
      requires Dealt() && s < hosts
      reads this
    {
      AreLists(Buckets()[s], vhostsPerHost, edgesToSend[s])
    }

    ghost predicate AllReady()
      requires Dealt()
      reads this
    {
      AllLists(Buckets(), vhostsPerHost, edgesToSend)
    }

    /** build_edges_to_send on host me. */
    method BuildEdgesToSend(me: nat)
      requires Dealt() && me < hosts
      modifies this`edgesToSend, this`dones
      ensures Dealt() && dones == old(dones)[me := true] && Ready(me)
      ensures forall s :: 0 <= s < hosts && s != me ==> edgesToSend[s] == old(edgesToSend[s])
    {
      PartFits(hosts, vhosts);
      ghost var b := Buckets()[me];
      var buffer: seq<seq<seq<Edge>>> := [];
      for i := 0 to hosts
        invariant |buffer| == i && forall h :: 0 <= h < i ==> buffer[h] == ListsFor(b, vhostsPerHost[h])
      {
        var vs := vhostsPerHost[i];
        var lists: seq<seq<Edge>> := [];
        for j := 0 to |vs|
          invariant |lists| == j && forall k :: 0 <= k < j ==> lists[k] == b[vs[k]]
        {
          var flat := At(me, vhosts) + vs[j];
          lists := lists + [vhostEdges[flat]];
        }
        buffer := buffer + [lists];
      }
      edgesToSend := edgesToSend[me := buffer];
      dones := dones[me := true];
    }

    method LaunchBuildEdgesToSend(order: seq<nat>)
      requires Idle() && Dealt() && IsOrder(order, hosts)
      modifies this`edgesToSend, this`dones
      ensures Idle() && Dealt() && AllReady()
    {
      for k := 0 to |order|
        invariant Dealt() && forall s :: s in order[..k] ==> s < hosts && dones[s] && Ready(s)
      {
        BuildEdgesToSend(order[k]);
        assert order[..k + 1] == order[..k] + [order[k]];
      }
      assert order[..|order|] == order;
      forall s | 0 <= s < hosts ensures AreLists(Buckets()[s], vhostsPerHost, edgesToSend[s]) { assert Ready(s); }
      dones := seq(hosts, i => false);
    }

    /** edge_exchange on host me. */
    method EdgeExchangeTask(me: nat)
      requires Dealt() && me < hosts && AllReady()
      modifies this`finalEdges, this`dones
      ensures Dealt() && dones == old(dones)[me := true]
      ensures finalEdges == old(finalEdges)[me := Received(Buckets(), vhostsPerHost[me], hosts)]
    {
      var mine := Gather(edgesToSend, me, Buckets(), vhostsPerHost);
      finalEdges := finalEdges[me := mine];
      dones := dones[me := true];
    }

    method LaunchEdgeExchange(order: seq<nat>)
      requires Idle() && Dealt() && IsOrder(order, hosts) && AllReady()
      modifies this`finalEdges, this`dones
      ensures Idle() && forall h :: 0 <= h < hosts ==> finalEdges[h] == Received(Buckets(), vhostsPerHost[h], hosts)
    {
      ghost var b := Buckets();
      for k := 0 to |order|
        invariant Dealt() && AllReady()
        invariant forall h :: h in order[..k] ==> h < hosts && dones[h] && finalEdges[h] == Received(b, vhostsPerHost[h], hosts)
      {
        EdgeExchangeTask(order[k]);
        assert order[..k + 1] == order[..k] + [order[k]];
      }
      assert order[..|order|] == order;
      dones := seq(hosts, i => false);
    }

    /** All stages; orders(k) is the order of the tasks in stage k. */
    method Run(inputs: seq<seq<Edge>>, orders: nat -> seq<nat>) returns (ok: bool)
      requires Idle() && |inputs| == hosts && forall k: nat :: IsOrder(orders(k), hosts)
      requires forall v :: 0 <= v < vhosts ==> reduced[v] == 0
      modifies this
      ensures ok <==> Readable(inputs, vhosts)
      ensures ok ==> Idle() && AllBuckets(inputs, vhosts, Buckets())
      ensures ok ==> forall v: nat :: v < vhosts ==> reduced[v] == EdgesOf(Buckets(), v, hosts)
      ensures ok ==> Exchanged(inputs, vhosts, finalEdges) && WithinOneVhost(finalEdges, reduced)
    {
      ok := ReadLocalEdgeLists(inputs, orders(0));
      if !ok { return; }
      ReduceMetadata(inputs);
      SortMetadata();
      LaunchAssignVhosts(orders(1));
      forall h | 0 <= h < hosts ensures Below(vhostsPerHost[h], vhosts) { DealBelow(sortedIndices, h, hosts, vhosts); }
      LaunchBuildEdgesToSend(orders(2));
      LaunchEdgeExchange(orders(3));
      EndsExchanged(inputs, vhosts, Buckets(), sortedIndices, reduced, finalEdges);
    }
  }

  /** All edges whose smaller endpoint hashes to v are on host h, each as often as inputs contain it. */
  ghost predicate OnHost(inputs: seq<seq<Edge>>, vhosts: nat, finalEdges: seq<seq<Edge>>, v: nat, h: nat)
    requires vhosts > 0
  {
    forall e: Edge, g :: e.src % vhosts == v && 0 <= g < |finalEdges| ==>
      Occurs(e, finalEdges[g]) == if g == h then Sources(inputs, e, |inputs|) else 0
  }

  ghost predicate Exchanged(inputs: seq<seq<Edge>>, vhosts: nat, finalEdges: seq<seq<Edge>>)
    requires vhosts > 0
  {
    |finalEdges| == |inputs| && forall v: nat :: v < vhosts ==> OnOneHost(inputs, vhosts, finalEdges, v)
  }

  ghost predicate OnOneHost(inputs: seq<seq<Edge>>, vhosts: nat, finalEdges: seq<seq<Edge>>, v: nat)
    requires vhosts > 0
  {
    exists h: nat :: h < |inputs| && OnHost(inputs, vhosts, finalEdges, v, h)
  }

  /** Any two lists differ by at most the size of the largest virtual host. */
  ghost predicate WithinOneVhost(finalEdges: seq<seq<Edge>>, sizes: seq<nat>) {
    forall x, y, max: nat :: 0 <= x < |finalEdges| && 0 <= y < |finalEdges| && AtMost(sizes, max) ==>
      |finalEdges[x]| - |finalEdges[y]| <= max
  }

  ghost predicate AtMost(sizes: seq<nat>, max: nat) { forall v :: 0 <= v < |sizes| ==> sizes[v] <= max }

  lemma EndsOnHost(inputs: seq<seq<Edge>>, vhosts: nat, buckets: seq<seq<seq<Edge>>>, sorted: seq<nat>,
                   finalEdges: seq<seq<Edge>>, v: nat) returns (h: nat)
    requires vhosts > 0 && |inputs| > 0 && AllBuckets(inputs, vhosts, buckets) && v < vhosts
    requires IsPermutation(sorted) && |sorted| == vhosts && |finalEdges| == |inputs|
    requires forall s :: 0 <= s < |buckets| ==> Below(sorted, |buckets[s]|)
    requires forall h :: 0 <= h < |inputs| ==> finalEdges[h] == FinalEdges(buckets, sorted, h)
    ensures h < |inputs| && OnHost(inputs, vhosts, finalEdges, v, h)
  {
    assert v in sorted;
    var p :| 0 <= p < |sorted| && sorted[p] == v;
    h := p % |inputs|;
    forall e: Edge, g | e.src % vhosts == v && 0 <= g < |finalEdges|
      ensures Occurs(e, finalEdges[g]) == if g == h then Sources(inputs, e, |inputs|) else 0
    {
      EdgesAreConserved(inputs, vhosts, buckets, sorted, p, e, g);
    }
  }

  lemma EndsBalanced(vhosts: nat, buckets: seq<seq<seq<Edge>>>, sorted: seq<nat>, sizes: seq<nat>,
                     finalEdges: seq<seq<Edge>>, x: nat, y: nat, max: nat)
    requires |buckets| > 0 && |sizes| == vhosts && Below(sorted, vhosts) && AtMost(sizes, max)
    requires forall s :: 0 <= s < |buckets| ==> |buckets[s]| == vhosts
    requires forall v: nat :: v < vhosts ==> sizes[v] == EdgesOf(buckets, v, |buckets|)
    requires forall i, j :: 0 <= i < j < |sorted| ==> sizes[sorted[i]] <= sizes[sorted[j]]
    requires x < |buckets| && y < |buckets|
    ensures |FinalEdges(buckets, sorted, x)| - |FinalEdges(buckets, sorted, y)| <= max
  {
    var f := SizeAt(buckets, |buckets|);
    forall i, j | 0 <= i < j < |sorted| ensures f(sorted[i]) <= f(sorted[j]) {
      assert sizes[sorted[i]] <= sizes[sorted[j]];
    }
    forall v: nat ensures EdgesOf(buckets, v, |buckets|) <= max {
      if v < vhosts { assert sizes[v] <= max; } else { NoEdges(buckets, v, |buckets|, vhosts); }
    }
    FinalListsAreBalanced(buckets, sorted, x, y, max);
  }

  lemma {:induction false} NoEdges(buckets: seq<seq<seq<Edge>>>, v: nat, n: nat, vhosts: nat)
    requires n <= |buckets| && v >= vhosts && forall s :: 0 <= s < |buckets| ==> |buckets[s]| == vhosts
    ensures EdgesOf(buckets, v, n) == 0
  {
    if n > 0 { NoEdges(buckets, v, n - 1, vhosts); }
  }

  lemma EndsExchanged(inputs: seq<seq<Edge>>, vhosts: nat, buckets: seq<seq<seq<Edge>>>, sorted: seq<nat>, sizes: seq<nat>,
                      finalEdges: seq<seq<Edge>>)
    requires vhosts > 0 && |inputs| > 0 && AllBuckets(inputs, vhosts, buckets)
    requires IsPermutation(sorted) && |sorted| == vhosts == |sizes| && |finalEdges| == |inputs|
    requires forall s :: 0 <= s < |buckets| ==> |buckets[s]| == vhosts
    requires forall v: nat :: v < vhosts ==> sizes[v] == EdgesOf(buckets, v, |buckets|)
    requires forall i, j :: 0 <= i < j < |sorted| ==> sizes[sorted[i]] <= sizes[sorted[j]]
    requires forall h :: 0 <= h < |inputs| ==> finalEdges[h] == FinalEdges(buckets, sorted, h)
    ensures Exchanged(inputs, vhosts, finalEdges) && WithinOneVhost(finalEdges, sizes)
  {
    forall v: nat | v < vhosts ensures OnOneHost(inputs, vhosts, finalEdges, v) {
      var h := EndsOnHost(inputs, vhosts, buckets, sorted, finalEdges, v);
    }
    forall x, y, max: nat | 0 <= x < |finalEdges| && 0 <= y < |finalEdges| && AtMost(sizes, max)
      ensures |finalEdges[x]| - |finalEdges[y]| <= max
    {
      EndsBalanced(vhosts, buckets, sorted, sizes, finalEdges, x, y, max);
    }
  }

  /** The lists for one host, from the sender's buckets and the host's virtual hosts. */
  ghost function ListsFor(buckets: seq<seq<Edge>>, vs: seq<nat>): (lists: seq<seq<Edge>>)
    requires Below(vs, |buckets|)
  {
    seq(|vs|, j requires 0 <= j < |vs| => buckets[vs[j]])
  }

  ghost predicate AreLists(buckets: seq<seq<Edge>>, shares: seq<seq<nat>>, lists: seq<seq<seq<Edge>>>)
    requires forall h :: 0 <= h < |shares| ==> Below(shares[h], |buckets|)
  {
    |lists| == |shares| && forall h :: 0 <= h < |shares| ==> lists[h] == ListsFor(buckets, shares[h])
  }

  ghost predicate AllLists(buckets: seq<seq<seq<Edge>>>, shares: seq<seq<nat>>, lists: seq<seq<seq<seq<Edge>>>>)
    requires forall s :: 0 <= s < |buckets| ==> forall h :: 0 <= h < |shares| ==> Below(shares[h], |buckets[s]|)
  {
    |lists| == |buckets| && forall s :: 0 <= s < |buckets| ==> AreLists(buckets[s], shares, lists[s])
  }

  /** The loops of edge_exchange on host me. */
  method Gather(toSend: seq<seq<seq<seq<Edge>>>>, me: nat, ghost buckets: seq<seq<seq<Edge>>>, ghost shares: seq<seq<nat>>)
    returns (mine: seq<Edge>)
    requires forall s :: 0 <= s < |buckets| ==> forall h :: 0 <= h < |shares| ==> Below(shares[h], |buckets[s]|)
    requires AllLists(buckets, shares, toSend) && me < |shares|
    ensures mine == Received(buckets, shares[me], |buckets|)
  {
    mine := [];
    for h := 0 to |toSend|
      invariant mine == Received(buckets, shares[me], h)
    {
      assert AreLists(buckets[h], shares, toSend[h]);
      mine := AppendLists(mine, toSend[h][me], buckets[h], shares[me]);
    }
  }

  /** The two inner loops of edge_exchange. */
  method AppendLists(mine0: seq<Edge>, lists: seq<seq<Edge>>, ghost buckets: seq<seq<Edge>>, ghost vs: seq<nat>)
    returns (mine: seq<Edge>)
    requires Below(vs, |buckets|) && lists == ListsFor(buckets, vs)
    ensures mine == mine0 + Sent(buckets, vs)
  {
    mine := mine0;
    for i := 0 to |lists|
      invariant mine == mine0 + Sent(buckets, vs[..i])
    {
      var more := lists[i];
      ghost var soFar := mine;
      for j := 0 to |more|
        invariant mine == soFar + more[..j]
      {
        mine := mine + [more[j]];
      }
      assert more[..|more|] == more;
      SentOne(buckets, vs, i);
    }
    assert vs[..|vs|] == vs;
  }

  lemma {:induction false} SentOne(buckets: seq<seq<Edge>>, vs: seq<nat>, i: nat)
    requires Below(vs, |buckets|) && i < |vs|
    ensures Sent(buckets, vs[..i + 1]) == Sent(buckets, vs[..i]) + buckets[vs[i]]
  {
    if i == 0 {
      assert vs[..1] == [vs[0]] && vs[..0] == [];
      assert Sent(buckets, [vs[0]]) == buckets[vs[0]] + Sent(buckets, []);
    } else {
      SentOne(buckets, vs[1..], i - 1);
      assert vs[..i + 1][1..] == vs[1..][..i] && vs[..i][1..] == vs[1..][..i - 1];
    }
  }

  /** No host's input has an edge without a bucket. */
  ghost predicate Readable(inputs: seq<seq<Edge>>, vhosts: nat)
    requires vhosts > 0
  {
    forall s :: 0 <= s < |inputs| ==> Bucketable(inputs[s], vhosts)
  }
}
