/** Splitting large simulator transfers into requests, and putting the responses together again. */
module LargeTransfers {
  import opened Multiples
  import opened Remainders
  import opened Sorting

  type Byte = bv8

  datatype Request = Request(addr: nat, size: nat)
  datatype Response = Response(addr: nat, data: seq<Byte>)

  function Min(a: nat, b: nat): (m: nat) { if a < b then a else b }

  /** The number of requests. */
  function Requests(n: nat, reqSz: nat): (k: nat)
    requires reqSz > 0
    decreases n
  {
    if n <= reqSz then Min(n, 1) else 1 + Requests(n - reqSz, reqSz)
  }

  /** The formula of the original. */
  lemma {:induction false} RequestsByDivision(n: nat, reqSz: nat)
    requires reqSz > 0
    ensures Requests(n, reqSz) == (n + reqSz - 1) / reqSz
    decreases n
  {
    if n > reqSz {
      RequestsByDivision(n - reqSz, reqSz);
      assert n - reqSz + reqSz - 1 == n - 1;
      DivisionIs(n - 1, reqSz);
    } else if n > 0 {
      SmallDivision(n - 1, reqSz);
      DivisionIs(n - 1, reqSz);
    } else {
      SmallDivision(reqSz - 1, reqSz);
    }
  }

  lemma SmallDivision(x: nat, d: nat)
    requires x < d
    ensures x / d == 0
  {
    var q := x / d;
    assert x == d * q + x % d;
    MultipleBelow(d, q);
  }

  lemma DivisionIs(x: nat, d: nat)
    requires d > 0
    ensures (x + d) / d == x / d + 1
  {
    ModAdd(x, d, 1);
    assert x == d * (x / d) + x % d && x + d == d * ((x + d) / d) + (x + d) % d;
    var k := (x + d) / d - x / d - 1;
    assert d * k == 0;
    MultipleBelow(d, k);
  }

  /** The last request is not empty, and all together they are enough. */
  lemma {:induction false} RequestsCover(n: nat, reqSz: nat)
    requires reqSz > 0
    ensures n <= At(Requests(n, reqSz), reqSz)
    ensures n > 0 ==> Requests(n, reqSz) > 0 && At(Requests(n, reqSz) - 1, reqSz) < n
    decreases n
  {
    if n > reqSz { RequestsCover(n - reqSz, reqSz); }
  }

  lemma RequestStarts(n: nat, reqSz: nat, k: nat)
    requires reqSz > 0 && k < Requests(n, reqSz)
    ensures At(k, reqSz) < n
  {
    RequestsCover(n, reqSz);
    AtOrder(k, Requests(n, reqSz) - 1, reqSz);
  }

  /** The first k requests for n bytes from paddr on. */
  function RequestsFor(paddr: nat, n: nat, reqSz: nat, k: nat): (rs: seq<Request>)
    requires reqSz > 0 && k <= Requests(n, reqSz)
    ensures |rs| == k
  {
    if k == 0 then []
    else
      RequestStarts(n, reqSz, k - 1);
      RequestsFor(paddr, n, reqSz, k - 1) + [Request(paddr + At(k - 1, reqSz), Min(n - At(k - 1, reqSz), reqSz))]
  }

  /** The requests follow each other without a gap, each as large as allowed but for the last. */
  lemma {:induction false} RequestAt(paddr: nat, n: nat, reqSz: nat, k: nat, i: nat)
    requires reqSz > 0 && i < k <= Requests(n, reqSz)
    ensures var rs := RequestsFor(paddr, n, reqSz, k);
      && rs[i].addr == paddr + i * reqSz && 0 < rs[i].size <= reqSz
      && (i + 1 < Requests(n, reqSz) ==> rs[i].size == reqSz)
      && (i + 1 == Requests(n, reqSz) ==> rs[i].addr + rs[i].size == paddr + n)
    decreases k
  {
    if i < k - 1 {
      RequestAt(paddr, n, reqSz, k - 1, i);
    } else {
      RequestStarts(n, reqSz, i);
      RequestsCover(n, reqSz);
      AtTimes(i, reqSz);
      if i + 1 < Requests(n, reqSz) { RequestStarts(n, reqSz, i + 1); }
    }
  }

  /** The memory's answer, if data is what it holds from paddr on. */
  function Answer(paddr: nat, data: seq<Byte>, r: Request): (a: Response)
    requires paddr <= r.addr && r.addr - paddr + r.size <= |data|
  {
    Response(r.addr, data[r.addr - paddr..r.addr - paddr + r.size])
  }

  /** The answers to the first k requests, in request order. */
  function Responses(paddr: nat, data: seq<Byte>, reqSz: nat, k: nat): (rs: seq<Response>)
    requires reqSz > 0 && k <= Requests(|data|, reqSz)
    ensures |rs| == k
  {
    if k == 0 then []
    else
      RequestStarts(|data|, reqSz, k - 1);
      Responses(paddr, data, reqSz, k - 1) + [Answer(paddr, data, RequestsFor(paddr, |data|, reqSz, k)[k - 1])]
  }

  function AddrOf(r: Response): int { r.addr }

  function Join(rs: seq<Response>): (data: seq<Byte>) { if rs == [] then [] else Join(rs[..|rs| - 1]) + rs[|rs| - 1].data }

  /** The bytes of request i. */
  function Chunk(data: seq<Byte>, reqSz: nat, i: nat): (c: seq<Byte>)
    requires At(i, reqSz) <= |data|
  {
    data[At(i, reqSz)..At(i, reqSz) + Min(|data| - At(i, reqSz), reqSz)]
  }

  lemma LastResponse(paddr: nat, data: seq<Byte>, reqSz: nat, k: nat)
    requires reqSz > 0 && 0 < k <= Requests(|data|, reqSz)
    ensures At(k - 1, reqSz) < |data|
    ensures Join(Responses(paddr, data, reqSz, k)) == Join(Responses(paddr, data, reqSz, k - 1)) + Chunk(data, reqSz, k - 1)
  {
    RequestStarts(|data|, reqSz, k - 1);
    var r := Responses(paddr, data, reqSz, k);
    assert r[..k - 1] == Responses(paddr, data, reqSz, k - 1) && r[k - 1].data == Chunk(data, reqSz, k - 1);
  }

  lemma NextChunk(data: seq<Byte>, reqSz: nat, k: nat)
    requires k > 0 && At(k - 1, reqSz) < |data|
    ensures data[..Min(At(k, reqSz), |data|)] == data[..Min(At(k - 1, reqSz), |data|)] + Chunk(data, reqSz, k - 1)
  {
  }

  /** In request order, the responses make up the data. */
  lemma {:induction false} JoinedInOrder(paddr: nat, data: seq<Byte>, reqSz: nat, k: nat)
    requires reqSz > 0 && k <= Requests(|data|, reqSz)
    ensures Join(Responses(paddr, data, reqSz, k)) == data[..Min(At(k, reqSz), |data|)]
    decreases k
  {
    if k > 0 {
      JoinedInOrder(paddr, data, reqSz, k - 1);
      LastResponse(paddr, data, reqSz, k);
      NextChunk(data, reqSz, k);
    }
  }

  ghost predicate Ascending(rs: seq<Response>) { forall i, j :: 0 <= i < j < |rs| ==> rs[i].addr < rs[j].addr }

  lemma {:induction false} ResponsesAscend(paddr: nat, data: seq<Byte>, reqSz: nat, k: nat)
    requires reqSz > 0 && k <= Requests(|data|, reqSz)
    ensures Ascending(Responses(paddr, data, reqSz, k))
    ensures forall i :: 0 <= i < k ==> Responses(paddr, data, reqSz, k)[i].addr < paddr + At(k, reqSz)
    decreases k
  {
    if k > 0 { ResponsesAscend(paddr, data, reqSz, k - 1); }
  }

  lemma SameSize(a: seq<Response>, b: seq<Response>)
    requires multiset(a) == multiset(b)
    ensures |a| == |b|
  {
    assert |a| == |multiset(a)| && |b| == |multiset(b)|;
  }

  /** The last of b, by address, is also the last of a. */
  lemma SameLast(a: seq<Response>, b: seq<Response>, n: nat)
    requires |a| == |b| == n + 1 && SortedBy(AddrOf, a) && Ascending(b) && multiset(a) == multiset(b)
    ensures a[n] == b[n]
  {
    assert a[n] in multiset(b) && b[n] in multiset(a);
    var i :| 0 <= i < |b| && b[i] == a[n];
    var j :| 0 <= j < |a| && a[j] == b[n];
    assert AddrOf(a[j]) <= AddrOf(a[n]);
  }

  lemma SameRest(a: seq<Response>, b: seq<Response>, n: nat)
    requires |a| == |b| == n + 1 && multiset(a) == multiset(b) && a[n] == b[n]
    ensures multiset(a[..n]) == multiset(b[..n])
  {
    assert a == a[..n] + [a[n]] && b == b[..n] + [b[n]];
    assert multiset(a[..n]) == multiset(a) - multiset{a[n]} && multiset(b[..n]) == multiset(b) - multiset{b[n]};
  }

  /** There is only one way to sort by distinct addresses. */
  lemma {:induction false} OneOrder(a: seq<Response>, b: seq<Response>)
    requires SortedBy(AddrOf, a) && Ascending(b) && multiset(a) == multiset(b)
    ensures a == b
    decreases |a|
  {
    SameSize(a, b);
    if a != [] {
      var n := |a| - 1;
      SameLast(a, b, n);
      SameRest(a, b, n);
      OneOrder(a[..n], b[..n]);
      assert a == a[..n] + [a[n]] && b == b[..n] + [b[n]];
    }
  }

  /** Whatever the arrival order, sorting and appending gives the data. */
  lemma Reassembled(paddr: nat, data: seq<Byte>, reqSz: nat, sorted: seq<Response>)
    requires reqSz > 0 && SortedBy(AddrOf, sorted)
    requires multiset(sorted) == multiset(Responses(paddr, data, reqSz, Requests(|data|, reqSz)))
    ensures Join(sorted) == data
  {
    var k := Requests(|data|, reqSz);
    ResponsesAscend(paddr, data, reqSz, k);
    OneOrder(sorted, Responses(paddr, data, reqSz, k));
    JoinedInOrder(paddr, data, reqSz, k);
    RequestsCover(|data|, reqSz);
  }

  // ---------------------------------------------------------------- the handlers

  /** Collects the responses of one large read. */
  class LargeReadHandler {
    const nRequests: nat
    var responses: seq<Response>

    /** What the continuation was called with so far. */
    var completions: seq<seq<Byte>>

    constructor (n: nat)
      ensures nRequests == n && responses == [] && completions == []
    {
      nRequests, responses, completions := n, [], [];
    }

    method RecvRsp(rsp: Response)
      modifies this
      ensures multiset(responses) == multiset(old(responses)) + multiset{rsp} && |responses| == |old(responses)| + 1
      ensures |responses| != nRequests ==> responses == old(responses) + [rsp] && completions == old(completions)
      ensures |responses| == nRequests ==> SortedBy(AddrOf, responses) && completions == old(completions) + [Join(responses)]
    {
      responses := responses + [rsp];
      if |responses| == nRequests {
        var sorted := SortBy(AddrOf, responses);
        var data := [];
        for k := 0 to |sorted|
          invariant responses == old(responses) + [rsp] && completions == old(completions)
          invariant data == Join(sorted[..k])
        {
          assert sorted[..k + 1][..k] == sorted[..k];
          data := data + sorted[k].data;
        }
        assert sorted[..|sorted|] == sorted;
        responses := sorted;
        completions := completions + [data];
      }
    }
  }

  /** sysReadBuffer issues the requests in order. */
  method ReadRequests(paddr: nat, n: nat, reqSz: nat) returns (issued: seq<Request>)
    requires reqSz > 0
    ensures issued == RequestsFor(paddr, n, reqSz, Requests(n, reqSz))
  {
    issued := [];
    RequestsByDivision(n, reqSz);
    for i := 0 to (n + reqSz - 1) / reqSz
      invariant issued == RequestsFor(paddr, n, reqSz, i)
    {
      RequestStarts(n, reqSz, i);
      issued := issued + [Request(paddr + At(i, reqSz), Min(n - At(i, reqSz), reqSz))];
    }
  }

  /** A whole read: the responses arrive in any order. The continuation is called once, when the last has
      arrived, with exactly the bytes asked for; when nothing was asked for it is never called. */
  method ReadBuffer(paddr: nat, data: seq<Byte>, reqSz: nat, arrivals: seq<Response>)
    returns (handler: LargeReadHandler, requests: seq<Request>)
    requires reqSz > 0
    requires multiset(arrivals) == multiset(Responses(paddr, data, reqSz, Requests(|data|, reqSz)))
    ensures requests == RequestsFor(paddr, |data|, reqSz, Requests(|data|, reqSz))
    ensures handler.completions == if data == [] then [] else [data]
  {
    requests := ReadRequests(paddr, |data|, reqSz);
    handler := new LargeReadHandler(|requests|);
    SameSize(arrivals, Responses(paddr, data, reqSz, Requests(|data|, reqSz)));
    for k := 0 to |arrivals|
      invariant |handler.responses| == k && multiset(handler.responses) == multiset(arrivals[..k])
      invariant k < |arrivals| || data == [] ==> handler.completions == []
      invariant k == |arrivals| && data != [] ==> handler.completions == [data]
    {
      assert arrivals[..k + 1] == arrivals[..k] + [arrivals[k]];
      handler.RecvRsp(arrivals[k]);
      if k + 1 == |arrivals| {
        assert arrivals[..k + 1] == arrivals;
        Reassembled(paddr, data, reqSz, handler.responses);
      }
    }
  }
}
