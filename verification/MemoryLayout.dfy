/** Carving a memory buffer into slab, free-list and bump buckets, with 64-bit addresses. */
module MemoryLayout {
  import opened Options
  import opened PowersOfTwo
  import opened Remainders

  /** A slab bucket as wanted. */
  datatype Slab = Slab(alignment: nat, bytes: nat)

  datatype Bucket = Bucket(start: nat, bytes: nat) {
    function End(): nat { start + bytes }
  }

  /** The buffer, and the sizes of the resources' own data. */
  datatype Config = Config(buffer: nat, size: nat, freeMeta: nat, bumpMeta: nat) {
    function End(): nat { buffer + size }

    /** The buffer is real memory. */
    ghost predicate Ok() { End() < WORD && freeMeta > 0 && bumpMeta > 0 }
  }

  /** alignof(std::max_align_t). */
  const MAX_ALIGN := 16

  ghost predicate Alignment(a: nat) { 0 < a <= WORD && IsPow2(a) }

  function Word(i: int): (w: nat)
    ensures w < WORD
  {
    i % WORD
  }

  // ---------------------------------------------------------------- align

  /** q is a multiple of a; defined by subtraction, like AlignUp, to keep remainders out of the proofs. */
  ghost predicate IsAligned(q: nat, a: nat)
    requires a > 0
  {
    q == 0 || (q >= a && IsAligned(q - a, a))
  }

  lemma {:induction false} AlignedIsMultiple(q: nat, a: nat)
    requires a > 0
    ensures IsAligned(q, a) <==> q % a == 0
    decreases q
  {
    if q >= a {
      AlignedIsMultiple(q - a, a);
      ModAdd(q, a, -1);
    }
  }

  lemma WordIsAligned(a: nat)
    requires Alignment(a)
    ensures IsAligned(WORD, a)
  {
    var k: nat :| a == Pow2(k);
    Pow2Word();
    if k > 64 { Pow2Grows(64, k); }
    Pow2Sum(k, 64 - k);
    ModAdd(0, a, Pow2(64 - k));
    AlignedIsMultiple(WORD, a);
  }

  /** The next multiple of a. */
  function AlignUp(p: nat, a: nat): (q: nat)
    requires a > 0
    ensures p <= q < p + a && IsAligned(q, a)
    decreases p
  {
    if p == 0 then 0 else a + AlignUp(if p < a then 0 else p - a, a)
  }

  /** No other multiple lies between. */
  lemma {:induction false} NoMultipleBetween(p: nat, m: nat, a: nat)
    requires a > 0 && p <= m && IsAligned(m, a)
    ensures AlignUp(p, a) <= m
    decreases m
  {
    if p > 0 { NoMultipleBetween(if p < a then 0 else p - a, m - a, a); }
  }

  /** align: where an object of the given size goes, if it fits into the space from ptr on. */
  function Aligned(alignment: nat, size: nat, ptr: nat, space: nat): (r: Option<nat>)
    requires alignment > 0
  {
    if size <= space && AlignUp(ptr, alignment) - ptr <= space - size then Some(Word(AlignUp(ptr, alignment))) else None
  }

  /** The rounding by bit masks, which wraps around at the top of the address space. */
  lemma MaskedRoundUp(u: nat, a: nat)
    requires u < WORD && Alignment(a)
    ensures MasksWell(u, a)
  {
    if u == 0 {
      MaskZero(a);
    } else if u - 1 + a < WORD {
      MaskBelow(u, a);
    } else {
      MaskTop(u, a);
    }
  }

  ghost predicate MasksWell(u: nat, a: nat)
    requires a > 0
  {
    Masked(u, a) == Word(AlignUp(u, a)) && Word(Masked(u, a) - u) == AlignUp(u, a) - u
  }

  /** (u - 1 + a) & -a on 64-bit words, for a power of two a. */
  function Masked(u: nat, a: nat): (m: int)
    requires a > 0
  {
    var x := Word(u - 1 + a);
    x - x % a
  }

  lemma MaskZero(a: nat)
    requires 0 < a <= WORD
    ensures MasksWell(0, a)
  {
    assert Word(a - 1) == a - 1;
    Small(a - 1, a);
  }

  lemma {:induction false} MaskBelow(u: nat, a: nat)
    requires 0 < u && 0 < a && u - 1 + a < WORD
    ensures MasksWell(u, a)
  {
    var x, q := u - 1 + a, AlignUp(u, a);
    RoundDown(x, q, a);
    Small(x, WORD);
    Small(q, WORD);
    Small(q - u, WORD);
    assert Masked(u, a) == q;
  }

  lemma {:induction false} MaskTop(u: nat, a: nat)
    requires u < WORD && Alignment(a) && u - 1 + a >= WORD
    ensures MasksWell(u, a)
  {
    WordIsAligned(a);
    NoMultipleBetween(u, WORD, a);
    TopMultiple(AlignUp(u, a), WORD, a);
    assert Word(u - 1 + a) == u - 1 + a - WORD;
    Small(u - 1 + a - WORD, a);
  }

  lemma RoundDown(x: nat, q: nat, a: nat)
    requires a > 0 && IsAligned(q, a) && q <= x < q + a
    ensures x - x % a == q
  {
    AlignedIsMultiple(q, a);
    var m := q / a;
    assert q == a * m;
    ModAdd(x - q, a, m);
    Small(x - q, a);
  }

  lemma {:induction false} TopMultiple(q: nat, top: nat, a: nat)
    requires a > 0 && IsAligned(q, a) && IsAligned(top, a) && q <= top < q + a
    ensures q == top
    decreases top
  {
    if q > 0 { TopMultiple(q - a, top - a, a); }
  }

  /** Changes ptr and space in place; here it returns their new values. */
  method Align(alignment: nat, size: nat, ptr: nat, space: nat) returns (ok: bool, ptr': nat, space': nat)
    requires Alignment(alignment) && ptr < WORD && space < WORD
    ensures ok <==> Aligned(alignment, size, ptr, space).Some?
    ensures ok ==> Aligned(alignment, size, ptr, space) == Some(ptr') && space' == space - (AlignUp(ptr, alignment) - ptr)
    ensures !ok ==> ptr' == ptr && space' == space
  {
    ptr', space' := ptr, space;
    if space < size { return false, ptr, space; }
    MaskedRoundUp(ptr, alignment);
    var aligned := Masked(ptr, alignment);
    var difference := Word(aligned - ptr);
    if difference > space - size { return false, ptr, space; }
    space' := space - difference;
    ptr' := aligned;
    ok := true;
  }

  // ---------------------------------------------------------------- the buckets, one after the other

  ghost predicate SlabOk(s: Slab) { Alignment(s.alignment) }

  /** alignStartAndRound. The space is counted from the previous bucket's start, not from its end. */
  function PlaceSlab(c: Config, s: Slab, prev: Bucket): (b: Option<Bucket>)
    requires s.alignment > 0
  {
    var r := Aligned(s.alignment, s.bytes, Word(prev.End()), Word(c.size - (prev.start - c.buffer)));
    if r.Some? then Some(Bucket(r.value, s.bytes)) else None
  }

  /** initializeFreeListResourceBucket. */
  function PlaceFreeList(c: Config, prev: Bucket): (b: Option<Bucket>) {
    var start := Word(prev.End());
    var r := Aligned(MAX_ALIGN, c.freeMeta, start, Word(c.size - (start - c.buffer)));
    if r.Some? then Some(Bucket(r.value, c.freeMeta)) else None
  }

  /** initializeBumpResourceBucket: all that is left. */
  function PlaceBump(c: Config, prev: Bucket): (b: Option<Bucket>) {
    var start := Word(prev.End());
    var space := Word(c.size - (start - c.buffer));
    var r := Aligned(MAX_ALIGN, c.bumpMeta, start, space);
    if r.None? then None
    else
      var bytes := space - (AlignUp(start, MAX_ALIGN) - start);
      if bytes <= c.bumpMeta then None else Some(Bucket(r.value, bytes))
  }

  function PlaceSlabs(c: Config, slabs: seq<Slab>, prev: Bucket): (bs: Option<seq<Bucket>>)
    requires forall i :: 0 <= i < |slabs| ==> slabs[i].alignment > 0
  {
    if slabs == [] then Some([])
    else
      var b := PlaceSlab(c, slabs[0], prev);
      if b.None? then None
      else
        var rest := PlaceSlabs(c, slabs[1..], b.value);
        if rest.None? then None else Some([b.value] + rest.value)
  }

  function Last(prev: Bucket, bs: seq<Bucket>): (b: Bucket) { if bs == [] then prev else bs[|bs| - 1] }

  /** The breakdown constructors: the slab buckets, the free list, the bump bucket; None is an abort. */
  function Breakdown(c: Config, slabs: seq<Slab>): (bs: Option<seq<Bucket>>)
    requires forall i :: 0 <= i < |slabs| ==> slabs[i].alignment > 0
  {
    Remaining(c, slabs, Bucket(c.buffer, 0))
  }

  /** The remaining buckets, from the slabs still to place. */
  function Remaining(c: Config, slabs: seq<Slab>, prev: Bucket): (bs: Option<seq<Bucket>>)
    requires forall i :: 0 <= i < |slabs| ==> slabs[i].alignment > 0
  {
    var s := PlaceSlabs(c, slabs, prev);
    if s.None? then None
    else
      var rest := PlaceRest(c, Last(prev, s.value));
      if rest.None? then None else Some(s.value + rest.value)
  }

  function PlaceRest(c: Config, last: Bucket): (bs: Option<seq<Bucket>>)
    ensures bs.Some? ==> |bs.value| == 2
  {
    var f := PlaceFreeList(c, last);
    if f.None? then None
    else
      var b := PlaceBump(c, f.value);
      if b.None? then None else Some([f.value, b.value])
  }

  // ---------------------------------------------------------------- what fits

  ghost predicate SlabsOk(slabs: seq<Slab>) { forall i :: 0 <= i < |slabs| ==> SlabOk(slabs[i]) }

  /** Where the slab buckets end if nothing overflows. */
  function SlabsEnd(slabs: seq<Slab>, from: nat): (end: nat)
    requires forall i :: 0 <= i < |slabs| ==> slabs[i].alignment > 0
    ensures end >= from
  {
    if slabs == [] then from else SlabsEnd(slabs[1..], AlignUp(from, slabs[0].alignment) + slabs[0].bytes)
  }

  predicate SlabsFit(c: Config, slabs: seq<Slab>)
    requires forall i :: 0 <= i < |slabs| ==> slabs[i].alignment > 0
  {
    SlabsEnd(slabs, c.buffer) <= c.End()
  }

  /** The buffer is large enough for the slabs, the free list's data, and more than the bump allocator's. */
  predicate Fits(c: Config, slabs: seq<Slab>)
    requires forall i :: 0 <= i < |slabs| ==> slabs[i].alignment > 0
  {
    SlabsFit(c, slabs) && RestFits(c, SlabsEnd(slabs, c.buffer))
  }

  /** The buckets follow each other from position from on, aligned as they should be. */
  ghost predicate InOrder(bs: seq<Bucket>, alignments: seq<nat>, from: nat) {
    if bs == [] then alignments == []
    else
      alignments != [] && alignments[0] > 0 && IsAligned(bs[0].start, alignments[0]) && from <= bs[0].start &&
      InOrder(bs[1..], alignments[1..], bs[0].End())
  }

  /** In particular they are aligned, after the beginning, and pairwise disjoint. */
  lemma {:induction false} InOrderMeans(bs: seq<Bucket>, alignments: seq<nat>, from: nat, i: nat, j: nat)
    requires InOrder(bs, alignments, from) && i <= j < |bs|
    ensures |alignments| == |bs| && alignments[i] > 0 && IsAligned(bs[i].start, alignments[i]) && from <= bs[i].start
    ensures i < j ==> bs[i].End() <= bs[j].start
    decreases |bs|
  {
    if i > 0 { InOrderMeans(bs[1..], alignments[1..], bs[0].End(), i - 1, j - 1); }
    else if j > 0 { InOrderMeans(bs[1..], alignments[1..], bs[0].End(), 0, j - 1); }
    else if |bs| > 1 { InOrderMeans(bs[1..], alignments[1..], bs[0].End(), 0, 0); }
  }

  ghost function Alignments(slabs: seq<Slab>): (a: seq<nat>)
    ensures |a| == |slabs| && forall i :: 0 <= i < |slabs| ==> a[i] == slabs[i].alignment
  {
    if slabs == [] then [] else [slabs[0].alignment] + Alignments(slabs[1..])
  }

  /** In order, aligned, inside the buffer, with the bump bucket reaching the buffer's end. */
  ghost predicate Sound(c: Config, slabs: seq<Slab>, bs: seq<Bucket>) {
    && |bs| == |slabs| + 2 && InOrder(bs, Alignments(slabs) + [MAX_ALIGN, MAX_ALIGN], c.buffer)
    && bs[|bs| - 1].End() == c.End() && bs[|bs| - 1].bytes > c.bumpMeta && bs[|bs| - 2].bytes == c.freeMeta
    && forall i :: 0 <= i < |slabs| ==> slabs[i].alignment > 0 && bs[i].bytes == slabs[i].bytes
  }

  // ---------------------------------------------------------------- one bucket

  ghost predicate Inside(c: Config, b: Bucket) { c.buffer <= b.start && b.End() <= c.End() }

  lemma SlabPlaced(c: Config, s: Slab, prev: Bucket)
    requires c.Ok() && SlabOk(s) && Inside(c, prev)
    ensures AlignUp(prev.End(), s.alignment) + s.bytes <= c.End() ==>
      PlaceSlab(c, s, prev) == Some(Bucket(AlignUp(prev.End(), s.alignment), s.bytes))
    ensures PlaceSlab(c, s, prev).Some? ==>
      var b := PlaceSlab(c, s, prev).value;
      b.bytes == s.bytes && (b.start == AlignUp(prev.End(), s.alignment) || b.start == 0)
  {
    Small(prev.End(), WORD);
    Small(c.size - (prev.start - c.buffer), WORD);
    WordIsAligned(s.alignment);
    NoMultipleBetween(prev.End(), WORD, s.alignment);
    if AlignUp(prev.End(), s.alignment) < WORD { Small(AlignUp(prev.End(), s.alignment), WORD); }
  }

  lemma FreeListPlaced(c: Config, prev: Bucket)
    requires c.Ok() && Inside(c, prev)
    ensures PlaceFreeList(c, prev) ==
      if AlignUp(prev.End(), MAX_ALIGN) + c.freeMeta <= c.End() then Some(Bucket(AlignUp(prev.End(), MAX_ALIGN), c.freeMeta))
      else None
  {
    Small(prev.End(), WORD);
    Small(c.size - (prev.End() - c.buffer), WORD);
    if AlignUp(prev.End(), MAX_ALIGN) <= c.End() { Small(AlignUp(prev.End(), MAX_ALIGN), WORD); }
  }

  lemma BumpPlaced(c: Config, prev: Bucket)
    requires c.Ok() && Inside(c, prev)
    ensures var start := AlignUp(prev.End(), MAX_ALIGN);
      PlaceBump(c, prev) == if start + c.bumpMeta < c.End() then Some(Bucket(start, c.End() - start)) else None
  {
    Small(prev.End(), WORD);
    Small(c.size - (prev.End() - c.buffer), WORD);
    if AlignUp(prev.End(), MAX_ALIGN) <= c.End() { Small(AlignUp(prev.End(), MAX_ALIGN), WORD); }
  }

  // ---------------------------------------------------------------- all buckets

  ghost predicate Sizes(slabs: seq<Slab>, bs: seq<Bucket>)
  {
    |bs| == |slabs| && forall i :: 0 <= i < |slabs| ==> bs[i].bytes == slabs[i].bytes
  }

  lemma HeadPlaced(c: Config, slabs: seq<Slab>, prev: Bucket)
    requires c.Ok() && SlabsOk(slabs) && slabs != [] && Inside(c, prev) && SlabsEnd(slabs, prev.End()) <= c.End()
    ensures PlaceSlab(c, slabs[0], prev).Some?
    ensures var b := PlaceSlab(c, slabs[0], prev).value;
      IsAligned(b.start, slabs[0].alignment) && prev.End() <= b.start && Inside(c, b) && b.bytes == slabs[0].bytes &&
      SlabsEnd(slabs, prev.End()) == SlabsEnd(slabs[1..], b.End())
  {
    var b := Bucket(AlignUp(prev.End(), slabs[0].alignment), slabs[0].bytes);
    FirstEnd(slabs, prev.End(), b);
    assert b.End() <= c.End();
    SlabPlaced(c, slabs[0], prev);
  }

  /** Slabs that fit are placed where they should be. */
  lemma {:induction false} SlabsPlaced(c: Config, slabs: seq<Slab>, prev: Bucket)
    requires c.Ok() && SlabsOk(slabs) && Inside(c, prev) && SlabsEnd(slabs, prev.End()) <= c.End()
    ensures PlaceSlabs(c, slabs, prev).Some?
    ensures var bs := PlaceSlabs(c, slabs, prev).value;
      InOrder(bs, Alignments(slabs), prev.End()) && Sizes(slabs, bs) &&
      Last(prev, bs).End() == SlabsEnd(slabs, prev.End()) && Inside(c, Last(prev, bs))
    decreases |slabs|
  {
    if slabs != [] {
      HeadPlaced(c, slabs, prev);
      var b := PlaceSlab(c, slabs[0], prev).value;
      SlabsPlaced(c, slabs[1..], b);
      var rest := PlaceSlabs(c, slabs[1..], b).value;
      Joined(prev, b, rest);
      assert ([b] + rest)[1..] == rest && Alignments(slabs)[1..] == Alignments(slabs[1..]);
    }
  }

  lemma Joined(prev: Bucket, b: Bucket, rest: seq<Bucket>)
    ensures Last(prev, [b] + rest) == Last(b, rest)
  {
  }

  ghost predicate Within(c: Config, bs: seq<Bucket>) { forall i :: 0 <= i < |bs| ==> bs[i].End() <= c.End() }

  lemma FirstPlaced(c: Config, slabs: seq<Slab>, prev: Bucket, bs: seq<Bucket>)
    requires SlabsOk(slabs) && slabs != [] && PlaceSlabs(c, slabs, prev) == Some(bs)
    ensures bs != [] && PlaceSlab(c, slabs[0], prev) == Some(bs[0]) && PlaceSlabs(c, slabs[1..], bs[0]) == Some(bs[1..])
  {
    var b := PlaceSlab(c, slabs[0], prev).value;
    assert bs == [b] + PlaceSlabs(c, slabs[1..], b).value;
  }

  lemma FirstInOrder(slabs: seq<Slab>, bs: seq<Bucket>, from: nat)
    requires slabs != [] && bs != [] && InOrder(bs, Alignments(slabs), from)
    ensures InOrder(bs[1..], Alignments(slabs[1..]), bs[0].End()) && from <= bs[0].start
  {
    assert Alignments(slabs)[1..] == Alignments(slabs[1..]);
  }

  lemma NotWrapped(end: nat, start: nat, a: nat)
    requires a > 0 && end <= start && (start == AlignUp(end, a) || start == 0)
    ensures start == AlignUp(end, a)
  {
  }

  lemma FirstEnd(slabs: seq<Slab>, from: nat, b: Bucket)
    requires SlabsOk(slabs) && slabs != [] && b.bytes == slabs[0].bytes && b.start == AlignUp(from, slabs[0].alignment)
    ensures SlabsEnd(slabs, from) == SlabsEnd(slabs[1..], b.End())
  {
  }

  lemma TailWithin(c: Config, bs: seq<Bucket>)
    requires Within(c, bs) && bs != []
    ensures Within(c, bs[1..])
  {
  }

  /** Slabs that do not fit are placed wrongly, if the overflow is not noticed. */
  lemma {:induction false} SlabsMisplaced(c: Config, slabs: seq<Slab>, prev: Bucket, bs: seq<Bucket>)
    requires c.Ok() && SlabsOk(slabs) && Inside(c, prev) && SlabsEnd(slabs, prev.End()) > c.End()
    requires PlaceSlabs(c, slabs, prev) == Some(bs) && InOrder(bs, Alignments(slabs), prev.End())
    ensures !Within(c, bs)
    decreases |slabs|
  {
    if Within(c, bs) && slabs != [] {
      FirstPlaced(c, slabs, prev, bs);
      FirstInOrder(slabs, bs, prev.End());
      SlabPlaced(c, slabs[0], prev);
      NotWrapped(prev.End(), bs[0].start, slabs[0].alignment);
      FirstEnd(slabs, prev.End(), bs[0]);
      TailWithin(c, bs);
      SlabsMisplaced(c, slabs[1..], bs[0], bs[1..]);
    }
  }

  lemma {:induction false} AppendInOrder(bs: seq<Bucket>, alignments: seq<nat>, from: nat, b: Bucket, a: nat)
    requires InOrder(bs, alignments, from) && a > 0 && IsAligned(b.start, a)
    requires Last(Bucket(from, 0), bs).End() <= b.start
    ensures InOrder(bs + [b], alignments + [a], from)
    decreases |bs|
  {
    if bs != [] {
      AppendInOrder(bs[1..], alignments[1..], bs[0].End(), b, a);
      assert (bs + [b])[1..] == bs[1..] + [b] && (alignments + [a])[1..] == alignments[1..] + [a];
    } else {
      assert [b][1..] == [] && [a][1..] == [] && alignments + [a] == [a] && bs + [b] == [b];
    }
  }

  /** Where the bump bucket starts. */
  function BumpStart(c: Config, end: nat): (start: nat) { AlignUp(AlignUp(end, MAX_ALIGN) + c.freeMeta, MAX_ALIGN) }

  predicate RestFits(c: Config, end: nat) {
    AlignUp(end, MAX_ALIGN) + c.freeMeta <= c.End() && BumpStart(c, end) + c.bumpMeta < c.End()
  }

  lemma BumpAfterFreeList(c: Config, f: Bucket, end: nat)
    requires c.Ok() && f == Bucket(AlignUp(end, MAX_ALIGN), c.freeMeta) && Inside(c, f)
    ensures PlaceBump(c, f) ==
      if BumpStart(c, end) + c.bumpMeta < c.End() then Some(Bucket(BumpStart(c, end), c.End() - BumpStart(c, end))) else None
  {
    BumpPlaced(c, f);
  }

  /** The last two buckets. */
  lemma RestPlaced(c: Config, last: Bucket)
    requires c.Ok() && Inside(c, last)
    ensures PlaceRest(c, last) ==
      if RestFits(c, last.End()) then
        var b := BumpStart(c, last.End());
        Some([Bucket(AlignUp(last.End(), MAX_ALIGN), c.freeMeta), Bucket(b, c.End() - b)])
      else None
  {
    FreeListPlaced(c, last);
    if AlignUp(last.End(), MAX_ALIGN) + c.freeMeta <= c.End() {
      BumpAfterFreeList(c, Bucket(AlignUp(last.End(), MAX_ALIGN), c.freeMeta), last.End());
    }
  }

  lemma SoundTail(c: Config, slabs: seq<Slab>, bs: seq<Bucket>, f: Bucket, b: Bucket)
    requires SlabsOk(slabs) && Sizes(slabs, bs) && InOrder(bs, Alignments(slabs), c.buffer)
    requires var last := Last(Bucket(c.buffer, 0), bs); f == Bucket(AlignUp(last.End(), MAX_ALIGN), c.freeMeta)
    requires b.start == AlignUp(f.End(), MAX_ALIGN) && b.End() == c.End() && b.bytes > c.bumpMeta
    ensures Sound(c, slabs, bs + [f, b])
  {
    AppendInOrder(bs, Alignments(slabs), c.buffer, f, MAX_ALIGN);
    AppendInOrder(bs + [f], Alignments(slabs) + [MAX_ALIGN], c.buffer, b, MAX_ALIGN);
    assert bs + [f] + [b] == bs + [f, b];
    assert Alignments(slabs) + [MAX_ALIGN] + [MAX_ALIGN] == Alignments(slabs) + [MAX_ALIGN, MAX_ALIGN];
  }

  /** If the slabs fit, the constructor aborts exactly when the rest does not, and its layout is sound otherwise. */
  lemma SoundOrAborts(c: Config, slabs: seq<Slab>)
    requires c.Ok() && SlabsOk(slabs) && SlabsFit(c, slabs)
    ensures Breakdown(c, slabs).Some? <==> Fits(c, slabs)
    ensures Fits(c, slabs) ==> Sound(c, slabs, Breakdown(c, slabs).value)
  {
    var prev := Bucket(c.buffer, 0);
    SlabsPlaced(c, slabs, prev);
    var bs := PlaceSlabs(c, slabs, prev).value;
    SoundRest(c, slabs, bs, Last(prev, bs));
  }

  lemma SoundRest(c: Config, slabs: seq<Slab>, bs: seq<Bucket>, last: Bucket)
    requires c.Ok() && SlabsOk(slabs) && Sizes(slabs, bs) && InOrder(bs, Alignments(slabs), c.buffer)
    requires last == Last(Bucket(c.buffer, 0), bs) && Inside(c, last)
    ensures PlaceRest(c, last).Some? <==> RestFits(c, last.End())
    ensures PlaceRest(c, last).Some? ==> Sound(c, slabs, bs + PlaceRest(c, last).value)
  {
    RestPlaced(c, last);
    if PlaceRest(c, last).Some? { SoundFitting(c, slabs, bs, last, PlaceRest(c, last).value); }
  }

  lemma SoundFitting(c: Config, slabs: seq<Slab>, bs: seq<Bucket>, last: Bucket, rest: seq<Bucket>)
    requires SlabsOk(slabs) && Sizes(slabs, bs) && InOrder(bs, Alignments(slabs), c.buffer)
    requires last == Last(Bucket(c.buffer, 0), bs) && RestFits(c, last.End())
    requires rest == [Bucket(AlignUp(last.End(), MAX_ALIGN), c.freeMeta), Bucket(BumpStart(c, last.End()), c.End() - BumpStart(c, last.End()))]
    ensures Sound(c, slabs, bs + rest)
  {
    SoundTail(c, slabs, bs, rest[0], rest[1]);
    assert rest == [rest[0], rest[1]];
  }

  /** The constructor's layout is sound exactly when everything fits. */
  lemma SoundIffFits(c: Config, slabs: seq<Slab>)
    requires c.Ok() && SlabsOk(slabs)
    ensures Breakdown(c, slabs).Some? && Sound(c, slabs, Breakdown(c, slabs).value) <==> Fits(c, slabs)
  {
    if SlabsFit(c, slabs) {
      SoundOrAborts(c, slabs);
    } else if Breakdown(c, slabs).Some? && Sound(c, slabs, Breakdown(c, slabs).value) {
      SoundImpossible(c, slabs);
    }
  }

  lemma SoundImpossible(c: Config, slabs: seq<Slab>)
    requires c.Ok() && SlabsOk(slabs) && Breakdown(c, slabs).Some? && Sound(c, slabs, Breakdown(c, slabs).value)
    ensures SlabsFit(c, slabs)
  {
    var l, all := Breakdown(c, slabs).value, Alignments(slabs) + [MAX_ALIGN, MAX_ALIGN];
    var bs := PlaceSlabs(c, slabs, Bucket(c.buffer, 0)).value;
    forall i | 0 <= i < |bs| ensures bs[i].End() <= c.End() {
      InOrderMeans(l, all, c.buffer, i, |l| - 1);
      assert l[i] == bs[i];
    }
    PrefixInOrder(l, all, c.buffer, |slabs|);
    assert l[..|slabs|] == bs && all[..|slabs|] == Alignments(slabs);
    if !SlabsFit(c, slabs) { SlabsMisplaced(c, slabs, Bucket(c.buffer, 0), bs); }
  }

  lemma {:induction false} PrefixInOrder(bs: seq<Bucket>, alignments: seq<nat>, from: nat, n: nat)
    requires InOrder(bs, alignments, from) && n <= |bs| && n <= |alignments|
    ensures InOrder(bs[..n], alignments[..n], from)
    decreases n
  {
    if n > 0 {
      PrefixInOrder(bs[1..], alignments[1..], bs[0].End(), n - 1);
      assert bs[..n][1..] == bs[1..][..n - 1] && alignments[..n][1..] == alignments[1..][..n - 1];
    }
  }

  // ---------------------------------------------------------------- how much is enough

  /** The bytes wanted by the slabs, and the most that aligning them can cost. */
  function Wanted(slabs: seq<Slab>): (bytes: nat)
    requires forall i :: 0 <= i < |slabs| ==> slabs[i].alignment > 0
  {
    if slabs == [] then 0 else slabs[0].alignment - 1 + slabs[0].bytes + Wanted(slabs[1..])
  }

  lemma {:induction false} EndIsWanted(slabs: seq<Slab>, from: nat)
    requires SlabsOk(slabs)
    ensures SlabsEnd(slabs, from) <= from + Wanted(slabs)
    decreases |slabs|
  {
    if slabs != [] { EndIsWanted(slabs[1..], AlignUp(from, slabs[0].alignment) + slabs[0].bytes); }
  }

  /** A buffer with room for the slabs, the metadata and the worst padding fits, wherever it starts. */
  lemma RoomFits(c: Config, slabs: seq<Slab>)
    requires SlabsOk(slabs) && Wanted(slabs) + c.freeMeta + c.bumpMeta + 2 * (MAX_ALIGN - 1) < c.size
    ensures Fits(c, slabs)
  {
    EndIsWanted(slabs, c.buffer);
  }

  // ---------------------------------------------------------------- the two breakdowns

  /** The fraction num/den of the buffer, rounded down to whole slabs. */
  function Share(size: nat, num: nat, den: nat, alignment: nat): (s: Slab)
    requires den > 0 && alignment > 0
    ensures s.alignment == alignment && s.bytes % alignment == 0
    ensures den * s.bytes <= num * size < den * (s.bytes + alignment)
  {
    Slab(alignment, WholeSlabs(num * size, den, alignment))
  }

  /** x/den, rounded down to whole slabs. */
  function WholeSlabs(x: nat, den: nat, a: nat): (bytes: nat)
    requires den > 0 && a > 0
    ensures bytes % a == 0 && den * bytes <= x < den * (bytes + a)
  {
    var y := x / den;
    var bytes := y - y % a;
    Rounded(x, den, a, y, bytes);
    bytes
  }

  lemma Rounded(x: nat, den: nat, a: nat, y: nat, bytes: nat)
    requires den > 0 && a > 0 && y == x / den && bytes == y - y % a
    ensures bytes % a == 0 && den * bytes <= x < den * (bytes + a)
  {
    RoundedDown(y, a);
    Below(x, den, y);
    Times(den, bytes, y);
    Times(den, y + 1, bytes + a);
  }

  lemma RoundedDown(y: nat, a: nat)
    requires a > 0
    ensures (y - y % a) % a == 0
  {
    assert y - y % a == 0 + a * (y / a);
    ModAdd(0, a, y / a);
  }

  lemma Below(x: nat, n: nat, q: nat)
    requires n > 0 && q == x / n
    ensures n * q <= x < n * (q + 1)
  {
    assert x == n * q + x % n;
  }

  /** A slab bucket's alignment, which is its slab size, and its fraction of the buffer. */
  datatype Ratio = Ratio(alignment: nat, num: nat, den: nat) {
    ghost predicate Ok() { den > 0 && Alignment(alignment) }
  }

  ghost predicate RatiosOk(ratios: seq<Ratio>) { forall i :: 0 <= i < |ratios| ==> ratios[i].Ok() }

  ghost function SlabsFor(ratios: seq<Ratio>, size: nat): (slabs: seq<Slab>)
    requires RatiosOk(ratios)
    ensures |slabs| == |ratios| && SlabsOk(slabs)
    ensures forall i :: 0 <= i < |ratios| ==>
      slabs[i].alignment == ratios[i].alignment && ratios[i].den * slabs[i].bytes <= ratios[i].num * size
  {
    if ratios == [] then []
    else [Share(size, ratios[0].num, ratios[0].den, ratios[0].alignment)] + SlabsFor(ratios[1..], size)
  }

  lemma Standard()
    ensures Alignment(8) && Alignment(16) && Alignment(32) && Alignment(64) && Alignment(128)
    ensures RatiosOk(L2SP_RATIOS) && RatiosOk(MAIN_RATIOS)
  {
    assert Pow2(3) == 8 && Pow2(4) == 16 && Pow2(5) == 32 && Pow2(6) == 64 && Pow2(7) == 128;
  }

  /** L2SPResourceRatioBreakdown and MainMemoryResourceRatioBreakdown. */
  const L2SP_RATIOS := [Ratio(8, 2, 10), Ratio(16, 3, 10), Ratio(32, 4, 10)]
  const MAIN_RATIOS :=
    [Ratio(8, 6, 1000), Ratio(16, 6, 1000), Ratio(32, 6, 1000), Ratio(64, 63, 1000), Ratio(128, 31, 1000)]

  /** The slabs never take more than nine tenths, so any buffer of a modest size will do, wherever it starts. */
  lemma L2SPFits(c: Config)
    requires 10 * (c.freeMeta + c.bumpMeta + 83) < c.size
    ensures RatiosOk(L2SP_RATIOS) && Fits(c, SlabsFor(L2SP_RATIOS, c.size))
  {
    Standard();
    var s := SlabsFor(L2SP_RATIOS, c.size);
    var s1, s2 := s[1..], s[2..];
    assert s1[1..] == s2 && s2[1..] == [];
    assert Wanted(s2) == 31 + s[2].bytes;
    assert Wanted(s1) == 15 + s[1].bytes + Wanted(s2);
    assert Wanted(s) == 7 + s[0].bytes + Wanted(s1);
    RoomFits(c, s);
  }

  /** What a million bytes of main memory are split into. */
  lemma MainShares()
    ensures RatiosOk(MAIN_RATIOS)
    ensures SlabsFor(MAIN_RATIOS, 1_000_000) ==
      [Slab(8, 6000), Slab(16, 6000), Slab(32, 5984), Slab(64, 62976), Slab(128, 30976)]
  {
    Standard();
    var r := MAIN_RATIOS;
    assert r[1..] == [r[1], r[2], r[3], r[4]] && r[2..] == [r[2], r[3], r[4]] && r[3..] == [r[3], r[4]] && r[4..] == [r[4]];
    assert r[1..][1..] == r[2..] && r[2..][1..] == r[3..] && r[3..][1..] == r[4..] && r[4..][1..] == [];
    assert SlabsFor(r[4..], 1_000_000) == [Slab(128, 30976)];
    assert SlabsFor(r[3..], 1_000_000) == [Slab(64, 62976)] + SlabsFor(r[4..], 1_000_000);
    assert SlabsFor(r[2..], 1_000_000) == [Slab(32, 5984)] + SlabsFor(r[3..], 1_000_000);
    assert SlabsFor(r[1..], 1_000_000) == [Slab(16, 6000)] + SlabsFor(r[2..], 1_000_000);
  }

  lemma MainWanted(s: seq<Slab>)
    requires SlabsOk(s) && |s| == 5
    requires s[0].alignment == 8 && s[1].alignment == 16 && s[2].alignment == 32 && s[3].alignment == 64 && s[4].alignment == 128
    ensures Wanted(s) == 243 + s[0].bytes + s[1].bytes + s[2].bytes + s[3].bytes + s[4].bytes
  {
    var s1, s2, s3, s4 := s[1..], s[2..], s[3..], s[4..];
    assert s1[1..] == s2 && s2[1..] == s3 && s3[1..] == s4 && s4[1..] == [];
    assert Wanted(s4) == 127 + s[4].bytes;
    assert Wanted(s3) == 63 + s[3].bytes + Wanted(s4);
    assert Wanted(s2) == 31 + s[2].bytes + Wanted(s3);
    assert Wanted(s1) == 15 + s[1].bytes + Wanted(s2);
  }

  lemma MainFits(c: Config)
    requires 1000 * (c.freeMeta + c.bumpMeta + 273) < 888 * c.size
    ensures RatiosOk(MAIN_RATIOS) && Fits(c, SlabsFor(MAIN_RATIOS, c.size))
  {
    Standard();
    var s := SlabsFor(MAIN_RATIOS, c.size);
    MainWanted(s);
    RoomFits(c, s);
  }

  /** Once the slabs have run past the buffer's end, nothing aborts: the space left wraps around. */
  lemma OverflowGoesUnnoticed(c: Config, last: Bucket)
    requires c.Ok() && last.End() > c.End() && last.End() + c.freeMeta + c.bumpMeta + 2 * MAX_ALIGN < WORD
    ensures PlaceRest(c, last).Some?
  {
    FreeListPastEnd(c, last);
    BumpPastEnd(c, PlaceFreeList(c, last).value);
  }

  lemma FreeListPastEnd(c: Config, last: Bucket)
    requires c.Ok() && c.End() < last.End() && last.End() + c.freeMeta + MAX_ALIGN < WORD
    ensures PlaceFreeList(c, last) == Some(Bucket(AlignUp(last.End(), MAX_ALIGN), c.freeMeta))
  {
    Small(last.End(), WORD);
    Small(AlignUp(last.End(), MAX_ALIGN), WORD);
    Small(WORD + c.End() - last.End(), WORD);
    ModAdd(c.End() - last.End(), WORD, 1);
  }

  lemma BumpPastEnd(c: Config, f: Bucket)
    requires c.Ok() && c.End() < f.End() && f.End() + c.bumpMeta + MAX_ALIGN < WORD
    ensures PlaceBump(c, f).Some?
  {
    Small(f.End(), WORD);
    Small(WORD + c.End() - f.End(), WORD);
    ModAdd(c.End() - f.End(), WORD, 1);
  }

  /** The slabs can run past the end, because each slab's space is counted from the previous bucket's start:
      a buffer of 80 bytes at address 1 gets slabs up to address 96. */
  lemma SlabsCanOverflow()
    ensures RatiosOk(L2SP_RATIOS)
    ensures var c, slabs := Config(1, 80, 24, 16), SlabsFor(L2SP_RATIOS, 80); !SlabsFit(c, slabs) && Breakdown(c, slabs).Some?
  {
    var c := Config(1, 80, 24, 16);
    Standard();
    TinyShares();
    TinySlabs(c, Slab(8, 16), Slab(16, 16), Slab(32, 32));
    OverflowGoesUnnoticed(c, Bucket(64, 32));
  }

  lemma TinyShares()
    requires RatiosOk(L2SP_RATIOS)
    ensures SlabsFor(L2SP_RATIOS, 80) == [Slab(8, 16), Slab(16, 16), Slab(32, 32)]
  {
    var r := L2SP_RATIOS;
    assert r[1..] == [r[1], r[2]] && r[1..][1..] == [r[2]] && r[1..][1..][1..] == [];
    assert Share(80, 2, 10, 8) == Slab(8, 16) && Share(80, 3, 10, 16) == Slab(16, 16) && Share(80, 4, 10, 32) == Slab(32, 32);
  }

  lemma TinySlab(c: Config, s: Slab, prev: Bucket, k: nat)
    requires SlabOk(s) && c.buffer == 1 && c.size == 80 && 0 < prev.End() <= s.alignment * k < prev.End() + s.alignment
    requires s.alignment * k + s.bytes <= prev.End() + 81 - prev.start && prev.End() <= 81 && s.alignment * k < 100
    ensures AlignUp(prev.End(), s.alignment) == s.alignment * k
    ensures PlaceSlab(c, s, prev) == Some(Bucket(s.alignment * k, s.bytes))
  {
    Up(prev.End(), k, s.alignment);
    Small(prev.End(), WORD);
    Small(81 - prev.start, WORD);
    Small(s.alignment * k, WORD);
  }

  lemma TinySlabs(c: Config, s1: Slab, s2: Slab, s3: Slab)
    requires c.buffer == 1 && c.size == 80 && s1 == Slab(8, 16) && s2 == Slab(16, 16) && s3 == Slab(32, 32)
    ensures PlaceSlabs(c, [s1, s2, s3], Bucket(1, 0)) == Some([Bucket(8, 16), Bucket(32, 16), Bucket(64, 32)])
    ensures SlabsEnd([s1, s2, s3], 1) == 96
  {
    var b0, b1, b2, b3 := Bucket(1, 0), Bucket(8, 16), Bucket(32, 16), Bucket(64, 32);
    Standard();
    TinySlab(c, s1, b0, 1);
    TinySlab(c, s2, b1, 2);
    TinySlab(c, s3, b2, 2);
    Placed(c, s3, [], b2, b3, []);
    assert [s3] + [] == [s3] && [b3] + [] == [b3];
    Placed(c, s2, [s3], b1, b2, [b3]);
    assert [s2] + [s3] == [s2, s3] && [b2] + [b3] == [b2, b3];
    Placed(c, s1, [s2, s3], b0, b1, [b2, b3]);
    assert [s1] + [s2, s3] == [s1, s2, s3] && [b1] + [b2, b3] == [b1, b2, b3];
  }

  lemma Up(p: nat, k: nat, a: nat)
    requires a > 0 && p <= a * k < p + a
    ensures AlignUp(p, a) == a * k
  {
    ModAdd(0, a, k);
    AlignedIsMultiple(a * k, a);
    NoMultipleBetween(p, a * k, a);
    TopMultiple(AlignUp(p, a), a * k, a);
  }

  lemma OneMore(x: Slab, more: seq<Slab>, from: nat)
    requires SlabsOk([x] + more) && SlabsOk(more) && SlabOk(x)
    ensures SlabsEnd([x] + more, from) == SlabsEnd(more, AlignUp(from, x.alignment) + x.bytes)
  {
    assert ([x] + more)[1..] == more;
  }

  lemma Placed(c: Config, x: Slab, more: seq<Slab>, prev: Bucket, b: Bucket, rest: seq<Bucket>)
    requires SlabOk(x) && SlabsOk([x] + more) && PlaceSlab(c, x, prev) == Some(b) && b.start == AlignUp(prev.End(), x.alignment)
    requires SlabsOk(more) && PlaceSlabs(c, more, b) == Some(rest)
    ensures PlaceSlabs(c, [x] + more, prev) == Some([b] + rest)
    ensures SlabsEnd([x] + more, prev.End()) == SlabsEnd(more, b.End())
  {
    Step(c, x, more, prev);
    OneMore(x, more, prev.End());
    assert b.bytes == x.bytes;
  }

  lemma Step(c: Config, x: Slab, more: seq<Slab>, prev: Bucket)
    requires SlabOk(x) && SlabsOk(more)
    ensures SlabsOk([x] + more)
    ensures PlaceSlab(c, x, prev).None? ==> PlaceSlabs(c, [x] + more, prev).None?
    ensures PlaceSlab(c, x, prev).Some? ==>
      var b := PlaceSlab(c, x, prev).value;
      var rest := PlaceSlabs(c, more, b);
      PlaceSlabs(c, [x] + more, prev) == if rest.None? then None else Some([b] + rest.value)
  {
    assert ([x] + more)[1..] == more;
  }

  // ---------------------------------------------------------------- the constructors

  /** A bucket under construction; the ratio is a fraction. */
  class MemoryBucket {
    var ratioNum: nat
    var ratioDen: nat
    var bytes: nat
    var start: nat

    constructor (num: nat, den: nat, bytes: nat, start: nat)
      ensures ratioNum == num && ratioDen == den && this.bytes == bytes && this.start == start
    {
      ratioNum, ratioDen, this.bytes, this.start := num, den, bytes, start;
    }

    function Value(): Bucket reads this { Bucket(start, bytes) }

    /** alignStartAndRound: an answer of false is an abort. */
    method AlignStartAndRound(alignment: nat, previous: MemoryBucket, c: Config) returns (ok: bool)
      requires Alignment(alignment) && previous != this && ratioDen > 0
      modifies this
      ensures ratioNum == old(ratioNum) && ratioDen == old(ratioDen)
      ensures var placed := PlaceSlab(c, Share(c.size, ratioNum, ratioDen, alignment), previous.Value());
        (ok <==> placed.Some?) && (ok ==> Value() == placed.value)
    {
      bytes := Share(c.size, ratioNum, ratioDen, alignment).bytes;
      start := Word(previous.start + previous.bytes);
      var remainingBytes := Word(c.size - (previous.start - c.buffer));
      ok, start, remainingBytes := Align(alignment, bytes, start, remainingBytes);
    }

    method InitializeFreeList(previous: MemoryBucket, c: Config) returns (ok: bool)
      requires previous != this && Alignment(MAX_ALIGN)
      modifies this
      ensures var placed := PlaceFreeList(c, previous.Value()); (ok <==> placed.Some?) && (ok ==> Value() == placed.value)
    {
      bytes := c.freeMeta;
      ratioNum, ratioDen := bytes, c.size;
      start := Word(previous.start + previous.bytes);
      var remainingBytes := Word(c.size - (start - c.buffer));
      ok, start, remainingBytes := Align(MAX_ALIGN, bytes, start, remainingBytes);
    }

    method InitializeBump(previous: MemoryBucket, c: Config) returns (ok: bool)
      requires previous != this && Alignment(MAX_ALIGN)
      modifies this
      ensures var placed := PlaceBump(c, previous.Value()); (ok <==> placed.Some?) && (ok ==> Value() == placed.value)
    {
      start := Word(previous.start + previous.bytes);
      var remainingBytes := Word(c.size - (start - c.buffer));
      var bumpStart;
      ok, bumpStart, remainingBytes := Align(MAX_ALIGN, c.bumpMeta, start, remainingBytes);
      bytes := remainingBytes;
      if !ok || bytes <= c.bumpMeta { return false; }
      start := bumpStart;
      ratioNum, ratioDen := bytes, c.size;
    }
  }

  lemma RemainingStep(c: Config, x: Slab, more: seq<Slab>, prev: Bucket)
    requires SlabOk(x) && SlabsOk(more)
    ensures SlabsOk([x] + more)
    ensures PlaceSlab(c, x, prev).None? ==> Remaining(c, [x] + more, prev).None?
    ensures PlaceSlab(c, x, prev).Some? ==>
      var b := PlaceSlab(c, x, prev).value;
      var rest := Remaining(c, more, b);
      Remaining(c, [x] + more, prev) == if rest.None? then None else Some([b] + rest.value)
  {
    Step(c, x, more, prev);
    if PlaceSlab(c, x, prev).Some? {
      var b := PlaceSlab(c, x, prev).value;
      var s := PlaceSlabs(c, more, b);
      if s.Some? {
        Joined(prev, b, s.value);
        var rest := PlaceRest(c, Last(b, s.value));
        if rest.Some? { assert [b] + s.value + rest.value == [b] + (s.value + rest.value); }
      }
    }
  }

  /** One slab bucket of a breakdown: what remains to be placed after it. */
  method NextSlab(b: MemoryBucket, previous: MemoryBucket, c: Config, alignment: nat, ghost x: Slab, ghost more: seq<Slab>)
    returns (ok: bool)
    requires Alignment(alignment) && previous != b && b.ratioDen > 0 && SlabsOk(more)
    requires x == Share(c.size, b.ratioNum, b.ratioDen, alignment)
    modifies b
    ensures !ok ==> Remaining(c, [x] + more, previous.Value()).None?
    ensures ok ==>
      var rest := Remaining(c, more, b.Value());
      Remaining(c, [x] + more, previous.Value()) == if rest.None? then None else Some([b.Value()] + rest.value)
  {
    RemainingStep(c, x, more, previous.Value());
    ok := b.AlignStartAndRound(alignment, previous, c);
  }

  /** The free list and the bump bucket. */
  method LastBuckets(previous: MemoryBucket, c: Config) returns (ok: bool, freeList: MemoryBucket, bump: MemoryBucket)
    ensures fresh(freeList) && fresh(bump)
    ensures !ok ==> Remaining(c, [], previous.Value()).None?
    ensures ok ==> Remaining(c, [], previous.Value()) == Some([freeList.Value(), bump.Value()])
  {
    Standard();
    freeList := new MemoryBucket(0, 1, 0, 0);
    bump := new MemoryBucket(0, 1, 0, 0);
    ok := freeList.InitializeFreeList(previous, c);
    if !ok { return; }
    ok := bump.InitializeBump(freeList, c);
    assert Last(previous.Value(), []) == previous.Value();
    assert ok ==> [] + [freeList.Value(), bump.Value()] == [freeList.Value(), bump.Value()];
  }

  ghost function Values(bs: seq<MemoryBucket>): (v: seq<Bucket>)
    reads bs
    ensures |v| == |bs|
  {
    if bs == [] then [] else [bs[0].Value()] + Values(bs[1..])
  }

  /** Fresh slab buckets with the given ratios. */
  ghost predicate HaveRatios(bs: seq<MemoryBucket>, ratios: seq<Ratio>)
    reads bs
  {
    && |bs| == |ratios| && (forall i, j :: 0 <= i < j < |bs| ==> bs[i] != bs[j])
    && forall i :: 0 <= i < |bs| ==> bs[i].ratioNum == ratios[i].num && bs[i].ratioDen == ratios[i].den
  }

  lemma RatiosTail(bs: seq<MemoryBucket>, ratios: seq<Ratio>)
    requires RatiosOk(ratios) && HaveRatios(bs, ratios) && bs != []
    ensures RatiosOk(ratios[1..]) && HaveRatios(bs[1..], ratios[1..]) && bs[0] !in bs[1..]
  {
  }

  /** The calls of a breakdown constructor, one bucket after the other. */
  method PlaceAll(bs: seq<MemoryBucket>, ratios: seq<Ratio>, previous: MemoryBucket, c: Config)
    returns (ok: bool, freeList: MemoryBucket, bump: MemoryBucket)
    requires RatiosOk(ratios) && HaveRatios(bs, ratios) && previous !in bs
    modifies bs
    ensures fresh(freeList) && fresh(bump)
    ensures !ok ==> Remaining(c, SlabsFor(ratios, c.size), previous.Value()).None?
    ensures ok ==>
      Remaining(c, SlabsFor(ratios, c.size), previous.Value()) == Some(Values(bs) + [freeList.Value(), bump.Value()])
    decreases |bs|
  {
    if bs == [] {
      ok, freeList, bump := LastBuckets(previous, c);
      assert Values(bs) + [freeList.Value(), bump.Value()] == [freeList.Value(), bump.Value()];
      return;
    }
    var b, rest := bs[0], bs[1..];
    RatiosTail(bs, ratios);
    ghost var x := Share(c.size, ratios[0].num, ratios[0].den, ratios[0].alignment);
    ghost var more := SlabsFor(ratios[1..], c.size);
    assert ratios[0].Ok();
    ok := NextSlab(b, previous, c, ratios[0].alignment, x, more);
    if !ok {
      freeList := new MemoryBucket(0, 1, 0, 0);
      bump := new MemoryBucket(0, 1, 0, 0);
      return;
    }
    ghost var placed, before := b.Value(), previous.Value();
    ok, freeList, bump := PlaceAll(rest, ratios[1..], b, c);
    assert b.Value() == placed && previous.Value() == before;
    if ok { Prepended(placed, Values(rest), [freeList.Value(), bump.Value()], Values(bs)); }
  }

  lemma Prepended(b: Bucket, rest: seq<Bucket>, last: seq<Bucket>, all: seq<Bucket>)
    requires all == [b] + rest
    ensures [b] + (rest + last) == all + last
  {
  }

  /** L2SPResourceRatioBreakdown. */
  method L2SPBreakdown(c: Config) returns (ok: bool, bs: seq<MemoryBucket>)
    ensures RatiosOk(L2SP_RATIOS)
    ensures ok <==> Breakdown(c, SlabsFor(L2SP_RATIOS, c.size)).Some?
    ensures ok ==> Breakdown(c, SlabsFor(L2SP_RATIOS, c.size)) == Some(Values(bs))
  {
    Standard();
    var start := new MemoryBucket(0, 1, 0, c.buffer);
    var bucket8 := new MemoryBucket(2, 10, 0, 0);
    var bucket16 := new MemoryBucket(3, 10, 0, 0);
    var bucket32 := new MemoryBucket(4, 10, 0, 0);
    var slabs := [bucket8, bucket16, bucket32];
    var freeList, bump;
    ok, freeList, bump := PlaceAll(slabs, L2SP_RATIOS, start, c);
    bs := slabs + [freeList, bump];
    AppendValues(slabs, freeList, bump);
  }

  /** MainMemoryResourceRatioBreakdown. */
  method MainBreakdown(c: Config) returns (ok: bool, bs: seq<MemoryBucket>)
    ensures RatiosOk(MAIN_RATIOS)
    ensures ok <==> Breakdown(c, SlabsFor(MAIN_RATIOS, c.size)).Some?
    ensures ok ==> Breakdown(c, SlabsFor(MAIN_RATIOS, c.size)) == Some(Values(bs))
  {
    Standard();
    var start := new MemoryBucket(0, 1, 0, c.buffer);
    var bucket8 := new MemoryBucket(6, 1000, 0, 0);
    var bucket16 := new MemoryBucket(6, 1000, 0, 0);
    var bucket32 := new MemoryBucket(6, 1000, 0, 0);
    var bucket64 := new MemoryBucket(63, 1000, 0, 0);
    var bucket128 := new MemoryBucket(31, 1000, 0, 0);
    var slabs := [bucket8, bucket16, bucket32, bucket64, bucket128];
    var freeList, bump;
    ok, freeList, bump := PlaceAll(slabs, MAIN_RATIOS, start, c);
    bs := slabs + [freeList, bump];
    AppendValues(slabs, freeList, bump);
  }

  lemma AppendValues(bs: seq<MemoryBucket>, x: MemoryBucket, y: MemoryBucket)
    ensures Values(bs + [x, y]) == Values(bs) + [x.Value(), y.Value()]
  {
    if bs == [] {
      assert bs + [x, y] == [x, y] && [x, y][1..] == [y] && [y][1..] == [];
    } else {
      AppendValues(bs[1..], x, y);
      assert (bs + [x, y])[1..] == bs[1..] + [x, y];
    }
  }
}
