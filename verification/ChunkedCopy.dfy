/** Loads, stores and copies of global memory in blocks of falling size. */
module ChunkedCopy {
  import opened PowersOfTwo
  import opened Remainders

  type Byte = bv8

  function PopCount(n: nat): (ones: nat) { if n == 0 then 0 else n % 2 + PopCount(n / 2) }

  /** Clearing the top bit. */
  lemma {:induction false} TopBit(k: nat, n: nat)
    requires Pow2(k) <= n < Pow2(k + 1)
    ensures PopCount(n) == 1 + PopCount(n - Pow2(k))
    decreases k
  {
    if k > 0 {
      TopBit(k - 1, n / 2);
      assert (n - Pow2(k)) / 2 == n / 2 - Pow2(k - 1) && (n - Pow2(k)) % 2 == n % 2;
    } else {
      assert n == 1 && PopCount(1) == 1 + PopCount(0);
    }
  }

  /** The part of a transfer that is done: all but the last left of n bytes. */
  ghost predicate Done(was: seq<Byte>, from: seq<Byte>, src: nat, to: seq<Byte>, dst: nat, n: nat, left: nat) {
    && left <= n && src + n <= |from| && dst + n <= |to| == |was|
    && to[dst..dst + (n - left)] == from[src..src + (n - left)]
    && to[..dst] == was[..dst] && to[dst + (n - left)..] == was[dst + (n - left)..]
  }

  lemma DoneBlock(was: seq<Byte>, from: seq<Byte>, src: nat, to: seq<Byte>, to': seq<Byte>, dst: nat, n: nat, left: nat, size: nat)
    requires Done(was, from, src, to, dst, n, left) && size <= left && |to'| == |to|
    requires var k := n - left;
      to'[dst + k..dst + k + size] == from[src + k..src + k + size] &&
      to'[..dst + k] == to[..dst + k] && to'[dst + k + size..] == to[dst + k + size..]
    ensures Done(was, from, src, to', dst, n, left - size)
  {
    var k := n - left;
    var m, e := dst + k, dst + k + size;
    assert to'[dst..m] == to[dst..m] by { assert to'[dst..m] == to'[..m][dst..] && to[dst..m] == to[..m][dst..]; }
    assert to'[dst..e] == to'[dst..m] + to'[m..e];
    assert from[src..src + (k + size)] == from[src..src + k] + from[src + k..src + k + size];
    assert to'[..dst] == to[..dst] by { assert to'[..dst] == to'[..m][..dst] && to[..dst] == to[..m][..dst]; }
    assert to[e..] == was[e..] by { assert to[e..] == to[m..][size..] && was[e..] == was[m..][size..]; }
    assert dst + (n - (left - size)) == e;
  }

  /** One request: a block of the given size. */
  method CopyBlock(from: array<Byte>, src: nat, to: array<Byte>, dst: nat, size: nat)
    requires from != to && src + size <= from.Length && dst + size <= to.Length
    modifies to
    ensures to[dst..dst + size] == from[src..src + size]
    ensures to[..dst] == old(to[..dst]) && to[dst + size..] == old(to[dst + size..])
  {
    forall i | 0 <= i < size { to[dst + i] := from[src + i]; }
  }

  /** The transfer loop for one block size: as many requests as whole blocks are left. */
  method Transfer(from: array<Byte>, src: nat, to: array<Byte>, dst: nat, n: nat, left0: nat, size: nat, ghost was: seq<Byte>)
    returns (left: nat, requests: nat)
    requires from != to && size > 0 && Done(was, from[..], src, to[..], dst, n, left0)
    modifies to
    ensures Done(was, from[..], src, to[..], dst, n, left)
    ensures left < size && left0 == left + size * requests
  {
    left, requests := left0, 0;
    while size <= left
      invariant Done(was, from[..], src, to[..], dst, n, left) && left0 == left + size * requests
    {
      ghost var before := to[..];
      var k := n - left;
      CopyBlock(from, src + k, to, dst + k, size);
      DoneBlock(was, from[..], src, before, to[..], dst, n, left, size);
      assert size * (requests + 1) == size * requests + size;
      left, requests := left - size, requests + 1;
    }
  }

  /** With less than two blocks left, a power-of-two block size takes exactly one bit off. */
  lemma OneBit(k: nat, left0: nat, left: nat, requests: nat)
    requires left0 < Pow2(k + 1) && left < Pow2(k) && left0 == left + Pow2(k) * requests
    ensures PopCount(left0) == requests + PopCount(left)
  {
    AtMostOne(Pow2(k), left0, left, requests);
    if requests == 1 { TopBit(k, left0); }
  }

  lemma AtMostOne(p: nat, left0: nat, left: nat, requests: nat)
    requires p > 0 && left0 < 2 * p && left0 == left + p * requests
    ensures requests <= 1 && left == left0 - if requests == 1 then p else 0
  {
    if requests >= 2 { Times(p, 2, requests); }
  }

  method TransferBit(from: array<Byte>, src: nat, to: array<Byte>, dst: nat, n: nat, left0: nat, size: nat, done: nat,
                     ghost k: nat, ghost was: seq<Byte>)
    returns (left: nat, requests: nat)
    requires from != to && size == Pow2(k) && left0 < 2 * size && Done(was, from[..], src, to[..], dst, n, left0)
    modifies to
    ensures Done(was, from[..], src, to[..], dst, n, left) && left < size
    ensures requests + PopCount(left) == done + PopCount(left0)
  {
    var r;
    left, r := Transfer(from, src, to, dst, n, left0, size, was);
    OneBit(k, left0, left, r);
    requests := done + r;
  }

  lemma WholeBlocks(n: nat, left: nat, requests: nat)
    requires left < 128 && n == left + 128 * requests
    ensures left == n % 128 && requests == n / 128
  {
  }

  lemma AllDone(was: seq<Byte>, from: seq<Byte>, src: nat, to: seq<Byte>, dst: nat, n: nat)
    requires Done(was, from, src, to, dst, n, 0)
    ensures to[dst..dst + n] == from[src..src + n] && to[..dst] == was[..dst] && to[dst + n..] == was[dst + n..]
  {
  }

  /** The eight transfers of load and store: they have the effect of a plain copy, and issue a request for every
      128 bytes and one for every bit set in the number of bytes that remain. */
  method TransferAll(from: array<Byte>, src: nat, to: array<Byte>, dst: nat, n: nat) returns (requests: nat)
    requires from != to && src + n <= from.Length && dst + n <= to.Length
    modifies to
    ensures to[..] == old(to[..dst]) + from[src..src + n] + old(to[dst + n..])
    ensures requests == n / 128 + PopCount(n % 128)
  {
    ghost var was := to[..];
    var left;
    left, requests := Transfer(from, src, to, dst, n, n, 128, was);
    WholeBlocks(n, left, requests);
    ghost var rest := left;
    left, requests := TransferBit(from, src, to, dst, n, left, 64, requests, 6, was);
    left, requests := TransferBit(from, src, to, dst, n, left, 32, requests, 5, was);
    left, requests := TransferBit(from, src, to, dst, n, left, 16, requests, 4, was);
    left, requests := TransferBit(from, src, to, dst, n, left, 8, requests, 3, was);
    left, requests := TransferBit(from, src, to, dst, n, left, 4, requests, 2, was);
    left, requests := TransferBit(from, src, to, dst, n, left, 2, requests, 1, was);
    left, requests := TransferBit(from, src, to, dst, n, left, 1, requests, 0, was);
    AllDone(was, from[..], src, to[..], dst, n);
    Spliced(was, from[..], src, to[..], dst, n);
  }

  lemma Spliced(was: seq<Byte>, from: seq<Byte>, src: nat, to: seq<Byte>, dst: nat, n: nat)
    requires src + n <= |from| && dst + n <= |to| == |was|
    requires to[dst..dst + n] == from[src..src + n] && to[..dst] == was[..dst] && to[dst + n..] == was[dst + n..]
    ensures to == was[..dst] + from[src..src + n] + was[dst + n..]
  {
    assert to == to[..dst] + to[dst..dst + n] + to[dst + n..];
  }

  // ---------------------------------------------------------------- the operations

  /** load: global memory to a native buffer. */
  method Load(mem: array<Byte>, src: nat, n: nat, native: array<Byte>) returns (requests: nat)
    requires mem != native && src + n <= mem.Length && n <= native.Length
    modifies native
    ensures native[..] == mem[src..src + n] + old(native[n..])
    ensures requests == n / 128 + PopCount(n % 128)
  {
    requests := TransferAll(mem, src, native, 0, n);
  }

  /** store: a native buffer to global memory. */
  method Store(mem: array<Byte>, dst: nat, n: nat, native: array<Byte>) returns (requests: nat)
    requires mem != native && dst + n <= mem.Length && n <= native.Length
    modifies mem
    ensures mem[..] == old(mem[..dst]) + native[..n] + old(mem[dst + n..])
    ensures requests == n / 128 + PopCount(n % 128)
  {
    requests := TransferAll(native, 0, mem, dst, n);
  }

  /** bulkMemcpy goes through a temporary buffer, so that overlapping ranges are copied as they were. */
  method BulkMemcpy(mem: array<Byte>, src: nat, n: nat, dst: nat) returns (requests: nat)
    requires src + n <= mem.Length && dst + n <= mem.Length
    modifies mem
    ensures mem[..] == old(mem[..dst]) + old(mem[src..src + n]) + old(mem[dst + n..])
    ensures requests == 2 * (n / 128 + PopCount(n % 128))
  {
    var temp := new Byte[n];
    var loads := Load(mem, src, n, temp);
    var stores := Store(mem, dst, n, temp);
    requests := loads + stores;
  }
}
