/** The circular block index of an implicit producer: which entry holds which block. */
module BlockIndex {
  import opened Options
  import opened PowersOfTwo
  import opened BlockSlots

  /** malloc cannot provide an index for more elements than this. */
  const MAX_ELEMENTS := 0x1000_0000_0000_0000

  datatype Header = Header(capacity: nat, index: seq<nat>)
  datatype Entry = Entry(key: nat, block: Option<nat>)

  /** What the threads share: entries by their identity, every header published so far, and each header's tail. */
  datatype Index = Index(entries: seq<Entry>, headers: seq<Header>, tails: seq<nat>)

  /** What the proofs follow. Blocks are numbered in queue order: block b holds the elements with indices from
      b * BLOCK_SIZE. Every entry has a seat, the block number it stands for, and is used once its key is set.
      Header h keeps the entry with seat b at slot (b + shifts[h]) modulo its capacity. Block b was
      inserted when births[b] headers were out of date. next is the block number to insert next; the current
      operation began at floor and has inserted up to top. */
  datatype View = View(seats: seq<int>, used: seq<bool>, shifts: seq<int>, births: map<int, nat>,
                       low: nat, floor: nat, next: nat, top: nat)

  // ---------------------------------------------------------------- the invariant

  ghost function Cur(t: Index): Header
    requires |t.headers| > 0
  {
    t.headers[|t.headers| - 1]
  }

  ghost function Shift(v: View): int
    requires |v.shifts| > 0
  {
    v.shifts[|v.shifts| - 1]
  }

  ghost predicate HeaderOk(t: Index, h: nat)
    requires h < |t.headers| == |t.tails|
  {
    var H := t.headers[h];
    && H.capacity > 0 && |H.index| == H.capacity && t.tails[h] < H.capacity
    && Divides(H.capacity, Cur(t).capacity) && Divides(H.capacity, WORD)
    && forall i :: 0 <= i < H.capacity ==> H.index[i] < |t.entries|
  }

  ghost predicate Shape(t: Index, v: View) {
    && 0 < |t.headers| == |t.tails| == |v.shifts| && |t.entries| == |v.seats| == |v.used|
    && IsPow2(Cur(t).capacity) && Cur(t).capacity * BLOCK_SIZE <= MAX_ELEMENTS
    && forall h :: 0 <= h < |t.headers| ==> HeaderOk(t, h)
  }

  /** The entry that header h keeps at b's slot. */
  ghost function EntryIn(t: Index, v: View, h: nat, b: int): (e: nat)
    requires Shape(t, v) && h < |t.headers|
    ensures e < |t.entries|
  {
    assert HeaderOk(t, h);
    t.headers[h].index[Slot(b + v.shifts[h], t.headers[h].capacity)]
  }

  ghost function EntryAt(t: Index, v: View, b: int): (e: nat)
    requires Shape(t, v)
    ensures e < |t.entries|
  {
    EntryIn(t, v, |t.headers| - 1, b)
  }

  ghost predicate KeyOk(t: Index, v: View, e: nat)
    requires Shape(t, v) && e < |t.entries|
  {
    if v.used[e] then v.seats[e] >= 0 && t.entries[e].key == Key(v.seats[e]) else t.entries[e].key == INVALID_BLOCK_BASE
  }

  ghost predicate KeysOk(t: Index, v: View)
    requires Shape(t, v)
  {
    forall e :: 0 <= e < |t.entries| ==> KeyOk(t, v, e)
  }

  /** Every header keeps every entry at its seat. */
  ghost predicate SeatAt(t: Index, v: View, h: nat, i: nat)
    requires Shape(t, v) && h < |t.headers|
  {
    i < t.headers[h].capacity ==>
      (assert HeaderOk(t, h); Slot(v.seats[t.headers[h].index[i]] + v.shifts[h], t.headers[h].capacity) == i)
  }

  ghost predicate SeatsOk(t: Index, v: View)
    requires Shape(t, v)
  {
    forall h: nat, i: nat :: h < |t.headers| ==> SeatAt(t, v, h, i)
  }

  /** The numbers from low on were inserted, and only the current operation's rolled-back numbers are ahead. */
  ghost predicate WindowOk(t: Index, v: View)
    requires Shape(t, v)
  {
    var cap := Cur(t).capacity;
    && cap > 0
    && v.low <= v.floor <= v.next <= v.top <= v.floor + cap
    && t.tails[|t.tails| - 1] == Slot(v.next - 1 + Shift(v), cap)
    && (forall m :: v.low <= m < v.next ==> Inserted(t, v, m))
    && (forall e :: 0 <= e < |v.used| && v.used[e] ==> v.seats[e] < v.floor + cap)
    && (forall h :: 0 <= h < |t.headers| - 1 ==> TailUsed(t, v, h))
  }

  ghost predicate Inserted(t: Index, v: View, m: nat)
    requires Shape(t, v)
  {
    var e := EntryAt(t, v, m);
    v.used[e] && v.seats[e] >= m
  }

  ghost function TailEntry(t: Index, v: View, h: nat): (e: nat)
    requires Shape(t, v) && h < |t.headers|
    ensures e < |t.entries|
  {
    assert HeaderOk(t, h);
    t.headers[h].index[t.tails[h]]
  }

  ghost predicate TailUsed(t: Index, v: View, h: nat)
    requires Shape(t, v) && h < |t.headers|
  {
    v.used[TailEntry(t, v, h)]
  }

  /** The entry holds a block. */
  ghost predicate Live(t: Index, v: View, e: nat)
    requires Shape(t, v)
  {
    e < |t.entries| && v.used[e] && t.entries[e].block.Some?
  }

  /** The entry is where every header from its block's birth on keeps that block. */
  ghost predicate Home(t: Index, v: View, e: nat)
    requires Shape(t, v) && e < |t.entries|
  {
    var b, cap := v.seats[e], Cur(t).capacity;
    && v.low <= b < v.top <= b + cap && b in v.births && v.births[b] < |t.headers|
    && (forall h :: v.births[b] <= h < |t.headers| ==> EntryIn(t, v, h, b) == e)
    && (forall f :: 0 <= f < |v.used| && v.used[f] ==> v.seats[f] < b + cap)
  }

  ghost predicate HomesOk(t: Index, v: View)
    requires Shape(t, v)
  {
    forall e :: Live(t, v, e) ==> Home(t, v, e)
  }

  ghost predicate Inv(t: Index, v: View) {
    Shape(t, v) && KeysOk(t, v) && SeatsOk(t, v) && WindowOk(t, v) && HomesOk(t, v)
  }

  ghost predicate Holds(t: Index, v: View, b: int)
    requires Shape(t, v)
  {
    var e := EntryAt(t, v, b);
    Live(t, v, e) && v.seats[e] == b
  }

  /** The blocks in the index, by number. */
  ghost function Blocks(t: Index, v: View): map<int, nat>
    requires Shape(t, v)
  {
    map b | b in v.births && Holds(t, v, b) :: t.entries[EntryAt(t, v, b)].block.value
  }

  lemma LiveHolds(t: Index, v: View, e: nat)
    requires Inv(t, v) && Live(t, v, e)
    ensures v.seats[e] in Blocks(t, v) && EntryAt(t, v, v.seats[e]) == e
  {
    assert Home(t, v, e);
  }

  // ---------------------------------------------------------------- lookups

  /** What a reader may know of a slot of header h from reading a key there, then and at any later time. */
  ghost predicate Read(t: Index, v: View, h: nat, slot: nat, n: nat) {
    h < |t.headers| && h < |v.shifts| && t.headers[h].capacity > 0 && slot == Slot(n + v.shifts[h], t.headers[h].capacity)
  }

  lemma ReadKey(t: Index, v: View, h: nat, slot: nat)
    requires Inv(t, v) && h < |t.headers| && slot < t.headers[h].capacity
    ensures HeaderOk(t, h)
    ensures var e := t.headers[h].index[slot];
      v.used[e] ==> v.seats[e] >= 0 && t.entries[e].key == Key(v.seats[e]) && Read(t, v, h, slot, v.seats[e])
  {
    assert HeaderOk(t, h) && KeyOk(t, v, t.headers[h].index[slot]) && SeatAt(t, v, h, slot);
  }

  /** A lookup finds block b although header, tail and key were read at different times, as long as the header
      is no older than the block and the key is within half the index range. */
  lemma TornLookup(t: Index, v: View, h: nat, tail: nat, n: nat, i: nat, b: nat)
    requires Inv(t, v) && b in Blocks(t, v) && v.births[b] <= h && Read(t, v, h, tail, n)
    requires i / BLOCK_SIZE == b && Near(b, n)
    ensures HeaderOk(t, h)
    ensures var e := t.headers[h].index[SlotFor(i % WORD, tail, Key(n), t.headers[h].capacity)];
      t.entries[e].key == Key(b) && t.entries[e].block == Some(Blocks(t, v)[b]) && e == EntryAt(t, v, b)
  {
    var e := EntryAt(t, v, b);
    assert Home(t, v, e) && HeaderOk(t, h) && KeyOk(t, v, e);
    assert EntryIn(t, v, h, b) == e;
    SlotForFinds(b, n, i, v.shifts[h], tail, t.headers[h].capacity);
  }

  /** Between operations, and while rolling back, the tail's own key is close enough to every live block. */
  lemma TailKey(t: Index, v: View, b: nat)
    requires Inv(t, v) && b in Blocks(t, v) && v.low < v.next
    ensures TailUsed(t, v, |t.headers| - 1)
    ensures var n := v.seats[TailEntry(t, v, |t.headers| - 1)]; n >= 0 && Near(b, n)
  {
    var h := |t.headers| - 1;
    assert HeaderOk(t, h) && Inserted(t, v, v.next - 1);
    assert EntryAt(t, v, v.next - 1) == TailEntry(t, v, h);
    assert Home(t, v, EntryAt(t, v, b));
  }

  // ---------------------------------------------------------------- inserting

  /** Nothing but the current operation's own blocks precede next. */
  ghost predicate CanInsert(t: Index, v: View)
    requires Shape(t, v)
  {
    v.next == v.top && (v.floor == v.next || Holds(t, v, v.floor))
  }

  ghost function InsertIn(t: Index, e: nat, n: nat, tail: nat): Index
    requires e < |t.entries| && |t.tails| > 0
  {
    Index(t.entries[e := Entry(Key(n), t.entries[e].block)], t.headers, t.tails[|t.tails| - 1 := tail])
  }

  ghost function InsertView(v: View, e: nat): View
    requires e < |v.seats| == |v.used| && |v.shifts| > 0
  {
    var n := v.next;
    v.(seats := v.seats[e := n], used := v.used[e := true], births := v.births[n := |v.shifts| - 1],
       next := n + 1, top := n + 1)
  }

  /** The entry gets a seat that all headers agree with. */
  lemma Reseat(t: Index, v: View, e: nat, h: nat, i: nat)
    requires Shape(t, v) && SeatsOk(t, v) && e == EntryAt(t, v, v.next)
    requires h < |t.headers| && i < t.headers[h].capacity && HeaderOk(t, h) && t.headers[h].index[i] == e
    ensures Slot(v.next + v.shifts[h], t.headers[h].capacity) == i
  {
    var L := |t.headers| - 1;
    assert HeaderOk(t, L) && SeatAt(t, v, h, i);
    assert SeatAt(t, v, L, Slot(v.next + Shift(v), Cur(t).capacity));
    SlotReplaced(v.seats[e], v.next, Shift(v), Cur(t).capacity, v.shifts[h], t.headers[h].capacity);
  }

  lemma ReseatKeeps(t: Index, v: View, t': Index, v': View, e: nat)
    requires Shape(t, v) && SeatsOk(t, v) && e == EntryAt(t, v, v.next)
    requires Shape(t', v') && t'.headers == t.headers && v'.shifts == v.shifts && v'.seats == v.seats[e := v.next]
    ensures SeatsOk(t', v')
  {
    forall h: nat, i: nat | h < |t.headers| ensures SeatAt(t', v', h, i) {
      assert SeatAt(t, v, h, i) && HeaderOk(t, h);
      if i < t.headers[h].capacity && t.headers[h].index[i] == e { Reseat(t, v, e, h, i); }
    }
  }

  /** A free slot at next means that every live block is less than a whole circle behind. */
  lemma LiveAhead(t: Index, v: View, l: nat)
    requires Inv(t, v) && v.next == v.top && Live(t, v, l) && !Live(t, v, EntryAt(t, v, v.next))
    ensures v.next + 1 <= v.seats[l] + Cur(t).capacity
  {
    assert Home(t, v, l) && EntryIn(t, v, |t.headers| - 1, v.seats[l]) == l;
    if v.seats[l] + Cur(t).capacity == v.next { SlotTurn(v.next + Shift(v), Cur(t).capacity); }
  }

  lemma InsertKeepsRoom(t: Index, v: View)
    requires Inv(t, v) && CanInsert(t, v) && !Live(t, v, EntryAt(t, v, v.next))
    ensures v.next < v.floor + Cur(t).capacity
  {
    if v.floor != v.next { LiveAhead(t, v, EntryAt(t, v, v.floor)); }
  }

  lemma InsertShape(t: Index, v: View, t': Index, v': View, e: nat, tail: nat)
    requires Shape(t, v) && KeysOk(t, v) && e < |t.entries| && v.next >= 0
    requires tail < Cur(t).capacity && t' == InsertIn(t, e, v.next, tail) && v' == InsertView(v, e)
    ensures Shape(t', v') && KeysOk(t', v')
  {
    forall h | 0 <= h < |t.headers| ensures HeaderOk(t', h) { assert HeaderOk(t, h); }
    forall f | 0 <= f < |t.entries| ensures KeyOk(t', v', f) { assert KeyOk(t, v, f); }
  }

  lemma SameEntry(t: Index, v: View, t': Index, v': View, b: int)
    requires Shape(t, v) && Shape(t', v') && t'.headers == t.headers && v'.shifts == v.shifts
    ensures EntryAt(t', v', b) == EntryAt(t, v, b)
  {
  }

  lemma InsertInserted(t: Index, v: View, t': Index, v': View, e: nat, m: nat)
    requires Inv(t, v) && e == EntryAt(t, v, v.next) && v.low <= m <= v.next
    requires t'.headers == t.headers && v' == InsertView(v, e) && Shape(t', v')
    ensures Inserted(t', v', m)
  {
    if m < v.next { assert Inserted(t, v, m); }
    SameEntry(t, v, t', v', m);
  }

  lemma SameTail(t: Index, v: View, t': Index, v': View, h: nat)
    requires Shape(t, v) && Shape(t', v') && h < |t.headers| <= |t'.headers| && t'.headers[h] == t.headers[h]
    requires t'.tails[h] == t.tails[h] && TailUsed(t, v, h)
    requires forall e :: 0 <= e < |v.used| && v.used[e] ==> e < |v'.used| && v'.used[e]
    ensures TailUsed(t', v', h)
  {
  }

  lemma InsertWindow(t: Index, v: View, t': Index, v': View, e: nat, tail: nat)
    requires Inv(t, v) && CanInsert(t, v) && e == EntryAt(t, v, v.next) && !Live(t, v, e)
    requires tail == Slot(v.next + Shift(v), Cur(t).capacity)
    requires t' == InsertIn(t, e, v.next, tail) && v' == InsertView(v, e) && Shape(t', v')
    ensures WindowOk(t', v')
  {
    InsertKeepsRoom(t, v);
    forall m | v.low <= m < v.next + 1 ensures Inserted(t', v', m) { InsertInserted(t, v, t', v', e, m); }
    forall h | 0 <= h < |t.headers| - 1 ensures TailUsed(t', v', h) { SameTail(t, v, t', v', h); }
  }

  lemma InsertHome(t: Index, v: View, t': Index, v': View, e: nat, l: nat)
    requires Inv(t, v) && CanInsert(t, v) && e == EntryAt(t, v, v.next) && !Live(t, v, e)
    requires t'.headers == t.headers && |t'.entries| == |t.entries| && v' == InsertView(v, e) && Shape(t', v')
    requires l == e || Live(t, v, l)
    ensures Home(t', v', l)
  {
    InsertKeepsRoom(t, v);
    if l != e {
      LiveAhead(t, v, l);
      assert Home(t, v, l);
    }
    forall h | v'.births[v'.seats[l]] <= h < |t.headers| ensures EntryIn(t', v', h, v'.seats[l]) == l {
      if l != e { assert EntryIn(t, v, h, v.seats[l]) == l; }
      assert EntryIn(t', v', h, v'.seats[l]) == EntryIn(t, v, h, v'.seats[l]);
    }
  }

  lemma InsertKeeps(t: Index, v: View, t': Index, v': View, e: nat, tail: nat)
    requires Inv(t, v) && CanInsert(t, v) && e == EntryAt(t, v, v.next) && !Live(t, v, e)
    requires tail == Slot(v.next + Shift(v), Cur(t).capacity)
    requires t' == InsertIn(t, e, v.next, tail) && v' == InsertView(v, e)
    ensures Inv(t', v') && Home(t', v', e) && EntryAt(t', v', v.next) == e
  {
    InsertShape(t, v, t', v', e, tail);
    ReseatKeeps(t, v, t', v', e);
    InsertWindow(t, v, t', v', e, tail);
    forall l | Live(t', v', l) ensures Home(t', v', l) { InsertHome(t, v, t', v', e, l); }
    InsertHome(t, v, t', v', e, e);
  }

  lemma InsertHolds(t: Index, v: View, t': Index, v': View, e: nat, tail: nat, b: int)
    requires Inv(t, v) && e == EntryAt(t, v, v.next) && !Live(t, v, e) && b != v.next
    requires t' == InsertIn(t, e, v.next, tail) && v' == InsertView(v, e) && Shape(t', v')
    ensures EntryAt(t', v', b) == EntryAt(t, v, b) && Holds(t', v', b) == Holds(t, v, b)
    ensures Holds(t, v, b) ==> t'.entries[EntryAt(t, v, b)].block == t.entries[EntryAt(t, v, b)].block
  {
    SameEntry(t, v, t', v', b);
  }

  /** Insertion disturbs no block. */
  lemma InsertBlocks(t: Index, v: View, t': Index, v': View, e: nat, tail: nat)
    requires Inv(t, v) && e == EntryAt(t, v, v.next) && !Live(t, v, e)
    requires t' == InsertIn(t, e, v.next, tail) && v' == InsertView(v, e) && Shape(t', v')
    ensures v.next !in Blocks(t, v) && Blocks(t', v') - {v.next} == Blocks(t, v)
  {
    var m, m' := Blocks(t, v), Blocks(t', v');
    assert !Holds(t, v, v.next);
    forall b | b in m ensures b in m' && m'[b] == m[b] { InsertHolds(t, v, t', v', e, tail, b); }
    forall b | b in m' && b != v.next ensures b in m { InsertHolds(t, v, t', v', e, tail, b); }
  }

  // ---------------------------------------------------------------- growing

  lemma Pow2Divides(p: nat)
    requires IsPow2(p) && p <= WORD
    ensures Divides(p, WORD)
  {
    var k: nat :| p == Pow2(k);
    Pow2Word();
    if k > 64 { Pow2Grows(64, k); }
    Pow2Sum(k, 64 - k);
  }

  /** new_block_index: the old circle from its oldest slot on, then as many new entries. */
  ghost function GrowIn(t: Index, added: seq<Entry>): Index
    requires |t.headers| == |t.tails| > 0 && HeaderOk(t, |t.headers| - 1)
  {
    var cap, tail := Cur(t).capacity, t.tails[|t.tails| - 1];
    Index(t.entries + added, t.headers + [Header(2 * cap, GrownIndex(Cur(t), tail, |t.entries|))], t.tails + [cap - 1])
  }

  ghost function GrownIndex(H: Header, tail: nat, n: nat): (index: seq<nat>)
    requires H.capacity > 0 && |H.index| == H.capacity
    ensures |index| == 2 * H.capacity
  {
    seq(2 * H.capacity, j requires 0 <= j < 2 * H.capacity => GrownEntry(H, tail, n, j))
  }

  ghost function GrownEntry(H: Header, tail: nat, n: nat, j: nat): (e: nat)
    requires H.capacity > 0 && |H.index| == H.capacity
  {
    if j < H.capacity then H.index[Slot(tail + 1 + j, H.capacity)] else n + (j - H.capacity)
  }

  ghost function GrowView(v: View, cap: nat): View {
    v.(seats := v.seats + seq(cap, j => v.next + j), used := v.used + seq(cap, j => false),
       shifts := v.shifts + [cap - v.next], low := if v.next < cap then 0 else v.next - cap)
  }

  ghost predicate Fresh(t: Index, added: seq<Entry>)
    requires |t.headers| > 0
  {
    |added| == Cur(t).capacity && forall j :: 0 <= j < |added| ==> added[j].key == INVALID_BLOCK_BASE
  }

  /** The slot for next is taken. */
  ghost predicate Full(t: Index, v: View) { Inv(t, v) && CanInsert(t, v) && Live(t, v, EntryAt(t, v, v.next)) }

  /** The circle holds the last numbers, of which some may have been cleared since. */
  ghost predicate Circle(t: Index, v: View) {
    && Inv(t, v) && CanInsert(t, v) && v.low <= v.next - Cur(t).capacity
    && (forall e :: 0 <= e < |v.used| && v.used[e] ==> v.seats[e] < v.next)
    && (forall l: nat :: Live(t, v, l) ==> v.next - Cur(t).capacity <= v.seats[l])
  }

  ghost predicate Growth(t: Index, v: View, added: seq<Entry>, t': Index, v': View) {
    && Circle(t, v) && Fresh(t, added) && HeaderOk(t, |t.headers| - 1)
    && t' == GrowIn(t, added) && v' == GrowView(v, Cur(t).capacity)
  }

  lemma OldestSeat(t: Index, v: View)
    requires Full(t, v)
    ensures v.seats[EntryAt(t, v, v.next)] == v.next - Cur(t).capacity
  {
    var L, cap, l := |t.headers| - 1, Cur(t).capacity, EntryAt(t, v, v.next);
    assert HeaderOk(t, L) && Home(t, v, l);
    assert SeatAt(t, v, L, Slot(v.next + Shift(v), cap));
    SlotTurn(v.next + Shift(v), cap);
    SlotApart(v.seats[l] + Shift(v), v.next - cap + Shift(v), cap);
  }

  /** When the slot for next is found taken, the whole circle is in use ... */
  lemma FullIsCircle(t: Index, v: View)
    requires Full(t, v)
    ensures Circle(t, v)
  {
    OldestSeat(t, v);
    assert Home(t, v, EntryAt(t, v, v.next));
    forall l: nat | Live(t, v, l) ensures v.next - Cur(t).capacity <= v.seats[l] { assert Home(t, v, l); }
  }

  /** ... and it holds the last numbers, in order. */
  lemma FullCircle(t: Index, v: View, m: int)
    requires Circle(t, v) && v.next - Cur(t).capacity <= m < v.next
    ensures v.used[EntryAt(t, v, m)] && v.seats[EntryAt(t, v, m)] == m
  {
    assert Inserted(t, v, m);
    var L := |t.headers| - 1;
    assert HeaderOk(t, L) && SeatAt(t, v, L, Slot(m + Shift(v), Cur(t).capacity));
    SlotApart(v.seats[EntryAt(t, v, m)] + Shift(v), m + Shift(v), Cur(t).capacity);
  }

  lemma GrowKeys(t: Index, v: View, added: seq<Entry>, t': Index, v': View)
    requires Growth(t, v, added, t', v') && Shape(t', v')
    ensures KeysOk(t', v')
  {
    forall e | 0 <= e < |t'.entries| ensures KeyOk(t', v', e) {
      if e < |t.entries| { assert KeyOk(t, v, e); }
    }
  }

  lemma GrowHeader(t: Index, v: View, added: seq<Entry>, t': Index, v': View, h: nat)
    requires Growth(t, v, added, t', v') && h < |t'.headers| == |t'.tails| && Divides(2 * Cur(t).capacity, WORD)
    ensures HeaderOk(t', h)
  {
    var cap, L := Cur(t).capacity, |t.headers| - 1;
    if h <= L {
      assert HeaderOk(t, h);
      DividesDouble(t.headers[h].capacity, cap);
    } else {
      assert 2 * cap == 2 * cap * 1;
      GrownInRange(t.headers[L], t.tails[L], |t.entries|);
    }
  }

  lemma GrownInRange(H: Header, tail: nat, n: nat)
    requires H.capacity > 0 && |H.index| == H.capacity && forall i :: 0 <= i < H.capacity ==> H.index[i] < n
    ensures forall j :: 0 <= j < 2 * H.capacity ==> GrownIndex(H, tail, n)[j] < n + H.capacity
  {
    forall j | 0 <= j < 2 * H.capacity ensures GrownIndex(H, tail, n)[j] < n + H.capacity {
      assert GrownIndex(H, tail, n)[j] == GrownEntry(H, tail, n, j);
    }
  }

  lemma DoubledCapacity(cap: nat)
    requires IsPow2(cap) && 2 * cap * BLOCK_SIZE <= MAX_ELEMENTS
    ensures IsPow2(2 * cap) && Divides(2 * cap, WORD)
  {
    var k: nat :| cap == Pow2(k);
    assert 2 * cap == Pow2(k + 1);
    Pow2Divides(2 * cap);
  }

  lemma GrowShape(t: Index, v: View, added: seq<Entry>, t': Index, v': View)
    requires Growth(t, v, added, t', v') && 2 * Cur(t).capacity * BLOCK_SIZE <= MAX_ELEMENTS
    ensures Shape(t', v')
  {
    DoubledCapacity(Cur(t).capacity);
    forall h | 0 <= h < |t'.headers| ensures HeaderOk(t', h) { GrowHeader(t, v, added, t', v', h); }
  }

  /** What slot j of the new header holds. */
  lemma GrowSlot(t: Index, v: View, added: seq<Entry>, t': Index, v': View, j: nat, e: nat)
    requires Growth(t, v, added, t', v') && Shape(t', v')
    requires j < |Cur(t').index| == 2 * Cur(t).capacity && e == Cur(t').index[j]
    ensures e < |v'.seats| && v'.seats[e] == v.next - Cur(t).capacity + j
    ensures EntryAt(t', v', v.next - Cur(t).capacity + j) == e
    ensures v'.used[e] <==> j < Cur(t).capacity
    ensures j < Cur(t).capacity ==> e == EntryAt(t, v, v.next - Cur(t).capacity + j)
  {
    var cap, tail := Cur(t).capacity, t.tails[|t.tails| - 1];
    SlotSmall(j, 2 * cap);
    if j < cap {
      var m := v.next - cap + j;
      FullCircle(t, v, m);
      SlotAdd(v.next - 1 + Shift(v), 1 + j, cap);
      SlotTurn(v.next + Shift(v) + j, cap);
      assert Slot(tail + 1 + j, cap) == Slot(m + Shift(v), cap);
    }
  }

  lemma GrowSeats(t: Index, v: View, added: seq<Entry>, t': Index, v': View)
    requires Growth(t, v, added, t', v')
    requires Shape(t', v')
    ensures SeatsOk(t', v')
  {
    forall h: nat, i: nat | h < |t'.headers| ensures SeatAt(t', v', h, i) {
      assert HeaderOk(t', h);
      if h < |t.headers| {
        assert SeatAt(t, v, h, i) && HeaderOk(t, h);
      } else if i < 2 * Cur(t).capacity {
        GrowSlot(t, v, added, t', v', i, Cur(t').index[i]);
        SlotSmall(i, 2 * Cur(t).capacity);
      }
    }
  }

  lemma GrowWindow(t: Index, v: View, added: seq<Entry>, t': Index, v': View)
    requires Growth(t, v, added, t', v')
    requires Shape(t', v')
    ensures WindowOk(t', v')
  {
    var cap, L := Cur(t).capacity, |t.headers| - 1;
    if v.floor < v.next { assert Live(t, v, EntryAt(t, v, v.floor)); }
    forall m | v.next - cap <= m < v.next ensures Inserted(t', v', m) {
      GrowSlot(t, v, added, t', v', m - (v.next - cap), Cur(t').index[m - (v.next - cap)]);
    }
    forall h | 0 <= h < |t'.headers| - 1 ensures TailUsed(t', v', h) {
      if h == L {
        assert Inserted(t, v, v.next - 1) && EntryAt(t, v, v.next - 1) == TailEntry(t, v, L);
      }
      SameTail(t, v, t', v', h);
    }
    SlotSmall(cap - 1, 2 * cap);
  }

  lemma GrowHome(t: Index, v: View, added: seq<Entry>, t': Index, v': View, l: nat)
    requires Growth(t, v, added, t', v')
    requires Shape(t', v') && Live(t, v, l)
    ensures Home(t', v', l)
  {
    assert Home(t, v, l);
    var b := v.seats[l];
    var j := b - (v.next - Cur(t).capacity);
    GrowSlot(t, v, added, t', v', j, Cur(t').index[j]);
    forall h | v'.births[b] <= h < |t'.headers| ensures EntryIn(t', v', h, b) == l {
      if h < |t.headers| { assert EntryIn(t, v, h, b) == l; }
    }
  }

  lemma GrowLive(t: Index, v: View, added: seq<Entry>, t': Index, v': View, l: nat)
    requires Growth(t, v, added, t', v')
    requires Shape(t', v') && Live(t', v', l)
    ensures Live(t, v, l) && v'.seats[l] == v.seats[l] && t'.entries[l] == t.entries[l]
  {
  }

  lemma GrowKeeps(t: Index, v: View, added: seq<Entry>, t': Index, v': View)
    requires Growth(t, v, added, t', v')
    requires 2 * Cur(t).capacity * BLOCK_SIZE <= MAX_ELEMENTS
    ensures Inv(t', v')
  {
    GrowShape(t, v, added, t', v');
    GrowKeys(t, v, added, t', v');
    GrowSeats(t, v, added, t', v');
    GrowWindow(t, v, added, t', v');
    forall l | Live(t', v', l) ensures Home(t', v', l) {
      GrowLive(t, v, added, t', v', l);
      GrowHome(t, v, added, t', v', l);
    }
  }

  lemma GrowHolds(t: Index, v: View, added: seq<Entry>, t': Index, v': View, b: int)
    requires Growth(t, v, added, t', v') && Inv(t', v')
    ensures Holds(t', v', b) <==> Holds(t, v, b)
    ensures Holds(t, v, b) ==>
      EntryAt(t', v', b) == EntryAt(t, v, b) && t'.entries[EntryAt(t, v, b)] == t.entries[EntryAt(t, v, b)]
  {
    if Holds(t, v, b) { GrowHome(t, v, added, t', v', EntryAt(t, v, b)); }
    if Holds(t', v', b) {
      GrowLive(t, v, added, t', v', EntryAt(t', v', b));
      assert Home(t, v, EntryAt(t', v', b));
    }
  }

  /** Growing keeps every block ... */
  lemma GrowBlocks(t: Index, v: View, added: seq<Entry>, t': Index, v': View)
    requires Growth(t, v, added, t', v') && Inv(t', v')
    ensures Blocks(t', v') == Blocks(t, v)
  {
    var m, m' := Blocks(t, v), Blocks(t', v');
    forall b | b in m ensures b in m' && m'[b] == m[b] { GrowHolds(t, v, added, t', v', b); }
    forall b | b in m' ensures b in m { GrowHolds(t, v, added, t', v', b); }
  }

  /** ... and makes room. */
  lemma GrowRoom(t: Index, v: View, added: seq<Entry>, t': Index, v': View)
    requires Growth(t, v, added, t', v') && Inv(t', v')
    ensures CanInsert(t', v') && !v'.used[EntryAt(t', v', v'.next)]
  {
    GrowSlot(t, v, added, t', v', Cur(t).capacity, Cur(t').index[Cur(t).capacity]);
    if v.floor != v.next { GrowHome(t, v, added, t', v', EntryAt(t, v, v.floor)); }
  }

  // ---------------------------------------------------------------- storing, clearing, rewinding

  ghost function WithBlock(t: Index, e: nat, block: Option<nat>): Index
    requires e < |t.entries|
  {
    t.(entries := t.entries[e := Entry(t.entries[e].key, block)])
  }

  /** Only blocks, the last tail and the operation's bounds differ. */
  ghost predicate SameFrame(t: Index, v: View, t': Index, v': View) {
    && Shape(t, v) && t'.headers == t.headers && |t'.tails| == |t.tails| && |t'.entries| == |t.entries|
    && (forall e :: 0 <= e < |t.entries| ==> t'.entries[e].key == t.entries[e].key)
    && (forall h :: 0 <= h < |t.tails| - 1 ==> t'.tails[h] == t.tails[h])
    && t'.tails[|t.tails| - 1] < Cur(t).capacity
    && v' == v.(floor := v'.floor, next := v'.next, top := v'.top)
  }

  lemma FrameKeeps(t: Index, v: View, t': Index, v': View)
    requires SameFrame(t, v, t', v') && KeysOk(t, v) && SeatsOk(t, v)
    ensures Shape(t', v') && KeysOk(t', v') && SeatsOk(t', v')
  {
    forall h | 0 <= h < |t.headers| ensures HeaderOk(t', h) { assert HeaderOk(t, h); }
    forall f | 0 <= f < |t.entries| ensures KeyOk(t', v', f) { assert KeyOk(t, v, f); }
    forall h: nat, i: nat | h < |t.headers| ensures SeatAt(t', v', h, i) { assert SeatAt(t, v, h, i); }
  }

  lemma FrameWindow(t: Index, v: View, t': Index, v': View)
    requires SameFrame(t, v, t', v') && WindowOk(t, v) && Shape(t', v') && v'.next <= v.next
    requires v.floor <= v'.floor <= v'.next <= v'.top <= v'.floor + Cur(t).capacity
    requires t'.tails[|t.tails| - 1] == Slot(v'.next - 1 + Shift(v), Cur(t).capacity)
    ensures WindowOk(t', v')
  {
    forall m | v.low <= m < v'.next ensures Inserted(t', v', m) { assert Inserted(t, v, m); SameEntry(t, v, t', v', m); }
    forall h | 0 <= h < |t.headers| - 1 ensures TailUsed(t', v', h) { SameTail(t, v, t', v', h); }
  }

  lemma FrameHome(t: Index, v: View, t': Index, v': View, l: nat)
    requires SameFrame(t, v, t', v') && Shape(t', v') && l < |t.entries| && Home(t, v, l) && v.seats[l] < v'.top <= v.top
    ensures Home(t', v', l)
  {
    forall h | v.births[v.seats[l]] <= h < |t.headers| ensures EntryIn(t', v', h, v.seats[l]) == l {
      assert EntryIn(t, v, h, v.seats[l]) == l;
    }
  }

  lemma FrameBlocks(t: Index, v: View, t': Index, v': View)
    requires SameFrame(t, v, t', v') && Shape(t', v') && t'.entries == t.entries
    ensures Blocks(t', v') == Blocks(t, v)
  {
    forall b ensures EntryAt(t', v', b) == EntryAt(t, v, b) { SameEntry(t, v, t', v', b); }
  }

  lemma StoreKeeps(t: Index, v: View, t': Index, e: nat, block: Option<nat>)
    requires Inv(t, v) && e < |t.entries| && (block.Some? ==> Home(t, v, e)) && t' == WithBlock(t, e, block)
    ensures Inv(t', v)
  {
    assert HeaderOk(t, |t.headers| - 1);
    FrameKeeps(t, v, t', v);
    FrameWindow(t, v, t', v);
    forall l: nat | Live(t', v, l) ensures Home(t', v, l) { FrameHome(t, v, t', v, l); }
  }

  lemma StoreHolds(t: Index, v: View, t': Index, e: nat, block: Option<nat>, b: int)
    requires Shape(t, v) && e < |t.entries| && v.used[e] && EntryAt(t, v, v.seats[e]) == e
    requires t' == WithBlock(t, e, block) && Shape(t', v)
    ensures EntryAt(t', v, b) == EntryAt(t, v, b)
    ensures if b == v.seats[e] then Holds(t', v, b) <==> block.Some? else Holds(t', v, b) <==> Holds(t, v, b)
    ensures b != v.seats[e] && Holds(t, v, b) ==> EntryAt(t, v, b) != e
  {
    SameEntry(t, v, t', v, b);
  }

  lemma StoreMap(t: Index, v: View, t': Index, e: nat, block: Option<nat>)
    requires Shape(t, v) && Shape(t', v) && e < |t.entries| && v.used[e] && EntryAt(t, v, v.seats[e]) == e
    requires t' == WithBlock(t, e, block) && v.seats[e] in v.births
    ensures Blocks(t', v) == if block.Some? then Blocks(t, v)[v.seats[e] := block.value] else Blocks(t, v) - {v.seats[e]}
  {
    var m, m' := Blocks(t, v), Blocks(t', v);
    StoreHolds(t, v, t', e, block, v.seats[e]);
    forall b | b in m && b != v.seats[e] ensures b in m' && m'[b] == m[b] { StoreHolds(t, v, t', e, block, b); }
    forall b | b in m' && b != v.seats[e] ensures b in m { StoreHolds(t, v, t', e, block, b); }
  }

  /** Storing a block in a used entry at its seat adds it; clearing the entry takes it away. */
  lemma StoreBlocks(t: Index, v: View, t': Index, e: nat, block: Option<nat>)
    requires Inv(t, v) && e < |t.entries| && Home(t, v, e) && v.used[e] && t' == WithBlock(t, e, block) && Inv(t', v)
    ensures Blocks(t', v) == if block.Some? then Blocks(t, v)[v.seats[e] := block.value] else Blocks(t, v) - {v.seats[e]}
  {
    assert EntryIn(t, v, |t.headers| - 1, v.seats[e]) == e;
    StoreMap(t, v, t', e, block);
  }

  /** Clearing another block leaves the circle one. */
  lemma ClearKeepsCircle(t: Index, v: View, t': Index, e: nat)
    requires Circle(t, v) && e < |t.entries| && v.used[e] && EntryAt(t, v, v.seats[e]) == e && v.seats[e] < v.floor
    requires t' == WithBlock(t, e, None) && Inv(t', v)
    ensures Circle(t', v)
  {
    StoreHolds(t, v, t', e, None, v.floor);
    forall l: nat | Live(t', v, l) ensures Live(t, v, l) {}
  }

  ghost function RewindIn(t: Index): Index
    requires |t.tails| > 0 && |t.headers| > 0 && Cur(t).capacity > 0
  {
    var L := |t.tails| - 1;
    var tail: int := t.tails[L];
    t.(tails := t.tails[L := Slot(tail - 1, Cur(t).capacity)])
  }

  lemma RewindKeeps(t: Index, v: View, t': Index, v': View)
    requires Inv(t, v) && v.floor < v.next && t' == RewindIn(t) && v' == v.(next := v.next - 1)
    ensures Inv(t', v') && Blocks(t', v') == Blocks(t, v)
  {
    SlotAdd(v.next - 1 + Shift(v), -1, Cur(t).capacity);
    FrameKeeps(t, v, t', v');
    FrameWindow(t, v, t', v');
    forall l: nat | Live(t', v', l) ensures Home(t', v', l) { FrameHome(t, v, t', v', l); }
    FrameBlocks(t, v, t', v');
  }

  /** The entry was just inserted for block number n; its value is yet to be stored. */
  ghost predicate Pending(t: Index, v: View, e: nat, n: int)
    requires Shape(t, v) && e < |t.entries|
  {
    Home(t, v, e) && v.used[e] && v.seats[e] == n && EntryAt(t, v, n) == e
  }

  // The two stores of an insertion, one at a time.

  ghost function KeyIn(t: Index, e: nat, n: nat): Index
    requires e < |t.entries|
  {
    t.(entries := t.entries[e := Entry(Key(n), t.entries[e].block)])
  }

  ghost function TailIn(t: Index, tail: nat): Index
    requires |t.tails| > 0
  {
    t.(tails := t.tails[|t.tails| - 1 := tail])
  }

  /** The entry has its key and the tail is still behind: as if the tail had moved back already. */
  lemma KeyKeeps(t: Index, v: View, t': Index, v': View, e: nat)
    requires Inv(t, v) && CanInsert(t, v) && e == EntryAt(t, v, v.next) && !Live(t, v, e)
    requires t' == KeyIn(t, e, v.next) && v' == InsertView(v, e).(next := v.next)
    ensures Inv(t', v') && Pending(t', v', e, v.next)
    ensures v.next !in Blocks(t, v) && Blocks(t', v') - {v.next} == Blocks(t, v)
  {
    var cap := Cur(t).capacity;
    var tail := Slot(v.next + Shift(v), cap);
    var t1, v1 := InsertIn(t, e, v.next, tail), InsertView(v, e);
    InsertKeeps(t, v, t1, v1, e, tail);
    InsertBlocks(t, v, t1, v1, e, tail);
    SlotAdd(v.next + Shift(v), -1, cap);
    assert t'.tails == RewindIn(t1).tails;
    RewindKeeps(t1, v1, t', v');
    FrameHome(t1, v1, t', v', e);
    SameEntry(t1, v1, t', v', v.next);
  }

  lemma TailKeeps(t: Index, v: View, t': Index, v': View, e: nat)
    requires Inv(t, v) && e < |t.entries| && Pending(t, v, e, v.next) && v.top == v.next + 1
    requires t' == TailIn(t, Slot(v.next + Shift(v), Cur(t).capacity)) && v' == v.(next := v.next + 1)
    ensures Inv(t', v') && Pending(t', v', e, v.next) && Blocks(t', v') == Blocks(t, v)
  {
    FrameKeeps(t, v, t', v');
    forall m | v.low <= m < v'.next ensures Inserted(t', v', m) {
      SameEntry(t, v, t', v', m);
      if m < v.next { assert Inserted(t, v, m); }
    }
    forall h | 0 <= h < |t.headers| - 1 ensures TailUsed(t', v', h) { SameTail(t, v, t', v', h); }
    forall l: nat | Live(t', v', l) ensures Home(t', v', l) { FrameHome(t, v, t', v', l); }
    FrameBlocks(t, v, t', v');
    FrameHome(t, v, t', v', e);
    SameEntry(t, v, t', v', v.next);
  }

  /** The end of an operation: what it inserted is published, or it is all rolled back. */
  lemma SettleKeeps(t: Index, v: View, v': View)
    requires Inv(t, v) && v' == v.(floor := v.next, top := v.next)
    requires forall b :: b in Blocks(t, v) ==> b < v.next
    ensures Inv(t, v') && Blocks(t, v') == Blocks(t, v)
  {
    assert HeaderOk(t, |t.headers| - 1);
    FrameKeeps(t, v, t, v');
    FrameWindow(t, v, t, v');
    forall l: nat | Live(t, v', l) ensures Home(t, v', l) {
      LiveHolds(t, v, l);
      FrameHome(t, v, t, v', l);
    }
    FrameBlocks(t, v, t, v');
  }

  /** What later states keep: headers do not change once published, keys stay valid once stored, and the births
      of published blocks are fixed. */
  ghost predicate Evolves(t: Index, v: View, t': Index, v': View) {
    && |t.headers| <= |t'.headers| && |v.shifts| <= |v'.shifts| && |v.used| <= |v'.used| && v.floor <= v'.floor
    && t'.headers[..|t.headers|] == t.headers && v'.shifts[..|v.shifts|] == v.shifts
    && (forall e :: 0 <= e < |v.used| && v.used[e] ==> v'.used[e])
    && (forall b :: b in v.births && b < v.floor ==> b in v'.births && v'.births[b] == v.births[b])
  }

  lemma EvolvesTwice(t: Index, v: View, t': Index, v': View, t'': Index, v'': View)
    requires Evolves(t, v, t', v') && Evolves(t', v', t'', v'')
    ensures Evolves(t, v, t'', v'')
  {
    assert t''.headers[..|t.headers|] == t''.headers[..|t'.headers|][..|t.headers|];
    assert v''.shifts[..|v.shifts|] == v''.shifts[..|v'.shifts|][..|v.shifts|];
  }
}
