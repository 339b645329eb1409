/** The block index of an implicit producer under interleaving: one producer, which inserts, grows, rewinds and
    publishes, and any number of consumers, which look blocks up and clear them. A step has at most one load or store
    that can race: the producer's loads of keys, tails and headers, which nobody else writes, go with the step that
    follows them, and so does the copying of a larger index, which nobody sees before it is published. */
module IndexRuns {
  import opened Options
  import opened PowersOfTwo
  import opened BlockSlots
  import opened BlockIndex
  import opened ImplicitProducer

  // ---------------------------------------------------------------- the machine

  /** What the producer does next. Adding: between the blocks of an operation, and between operations. */
  datatype Producer =
    | Adding                 // insert_block_index_entry: the test of the entry after the tail
    | Growing                // found taken: publish a larger index
    | Found(e: nat, grown: bool) // found free, or new from a larger index: the key
    | KeyDone(e: nat)        // the tail
    | TailDone(e: nat)       // the block, or without one the tail again
    | Rewound(e: nat)        // the entry of the block that could not be had
    | Undoing(j: nat)        // the entry of the operation's j-th block
    | Cleared(j: nat)        // the tail

  /** A consumer with the elements from i up to end to take, and its next load or store. */
  datatype Consumer =
    | Free
    | LoadHeader(i: nat, end: nat)
    | LoadTail(i: nat, end: nat, h: nat)
    | LoadKey(i: nat, end: nat, h: nat, tail: nat)
    | LoadBlock(i: nat, end: nat, h: nat, slot: nat)
    | Taking(i: nat, end: nat, h: nat, slot: nat, block: Option<nat>)
    | Clearing(i: nat, end: nat, h: nat, slot: nat)

  /** tailIndex is what consumers see of the producer's progress; first and count are the producer's locals: the first
      block of the current operation and how many it has added. The claimed elements, those taken and marked in their
      blocks, and the blocks the producer stored, by number, are kept for the record. */
  datatype State = State(index: Index, tailIndex: nat, first: nat, count: nat, producer: Producer,
                         consumers: seq<Consumer>, claimed: set<nat>, taken: set<nat>, stored: map<int, nat>)

  datatype Action =
    | Test | Grow(added: seq<Entry>) | GiveUp | Provide(block: nat) | NoBlock | Publish(tailIndex: nat) | Proceed
    | Claim(u: nat, i: nat, end: nat) | Go(u: nat)

  ghost predicate HeaderFits(t: Index, h: nat)
    requires h < |t.headers| == |t.tails|
  {
    var H := t.headers[h];
    && 0 < H.capacity == |H.index| && t.tails[h] < H.capacity
    && forall i :: 0 <= i < H.capacity ==> H.index[i] < |t.entries|
  }

  ghost predicate IndexFits(t: Index) { 0 < |t.headers| == |t.tails| && forall h :: 0 <= h < |t.headers| ==> HeaderFits(t, h) }

  ghost predicate ConsumerFits(t: Index, c: Consumer) {
    && (!c.Free? && !c.LoadHeader? ==> c.h < |t.headers|)
    && (c.LoadKey? ==> c.tail < t.headers[c.h].capacity)
    && (c.LoadBlock? || c.Taking? || c.Clearing? ==> c.slot < t.headers[c.h].capacity)
    && (!c.Free? ==> c.i < c.end)
  }

  ghost predicate WellFormed(s: State) {
    && IndexFits(s.index)
    && (s.producer.Found? || s.producer.KeyDone? || s.producer.TailDone? || s.producer.Rewound? ==> s.producer.e < |s.index.entries|)
    && (forall u :: 0 <= u < |s.consumers| ==> ConsumerFits(s.index, s.consumers[u]))
  }

  ghost function Tail(t: Index): (tail: nat)
    requires IndexFits(t)
    ensures tail < Cur(t).capacity == |Cur(t).index| && forall i :: 0 <= i < Cur(t).capacity ==> Cur(t).index[i] < |t.entries|
  {
    assert HeaderFits(t, |t.headers| - 1);
    t.tails[|t.tails| - 1]
  }

  /** The entry after the tail. */
  ghost function NextEntry(t: Index): (e: nat)
    requires IndexFits(t)
    ensures e < |t.entries|
  {
    var tail := Tail(t);
    Cur(t).index[Slot(tail + 1, Cur(t).capacity)]
  }

  ghost predicate Unused(entry: Entry) { entry.key == INVALID_BLOCK_BASE || entry.block == None }

  /** get_block_index_entry_for_index, all at once. */
  ghost function Lookup(t: Index, i: nat): (e: nat)
    requires IndexFits(t)
    ensures e < |t.entries|
  {
    var tail := Tail(t);
    Cur(t).index[SlotFor(i % WORD, tail, t.entries[Cur(t).index[tail]].key, Cur(t).capacity)]
  }

  ghost function EntryOf(t: Index, h: nat, slot: nat): (e: nat)
    requires IndexFits(t) && h < |t.headers| && slot < t.headers[h].capacity
    ensures e < |t.entries|
  {
    assert HeaderFits(t, h);
    t.headers[h].index[slot]
  }

  /** What the producer may do next. A test of the queue's size, an index that cannot grow: it may always give up. */
  ghost predicate ProducerEnabled(s: State, a: Action)
    requires WellFormed(s)
  {
    match a
    case Test => s.producer.Adding?
    case Grow(added) => s.producer.Growing? && Fresh(s.index, added) && 2 * Cur(s.index).capacity * BLOCK_SIZE <= MAX_ELEMENTS
    case GiveUp => s.producer.Adding? || s.producer.Growing?
    case Provide(block) => s.producer.TailDone?
    case NoBlock => s.producer.TailDone?
    case Publish(n) => s.producer.Adding? && s.tailIndex <= n <= (s.first + s.count) * BLOCK_SIZE
    case Proceed =>
      s.producer.Found? || s.producer.KeyDone? || s.producer.Rewound? || s.producer.Cleared? || s.producer.Undoing?
    case Claim(u, i, end) => false
    case Go(u) => false
  }

  ghost function ProducerStep(s: State, a: Action): (s': State)
    requires WellFormed(s) && ProducerEnabled(s, a)
  {
    var t := s.index;
    match a
    case Test => s.(producer := if Unused(t.entries[NextEntry(t)]) then Found(NextEntry(t), false) else Growing)
    case Grow(added) =>
      GrownFits(t, added);
      s.(index := GrownBy(t, added), producer := Found(NextEntry(GrownBy(t, added)), true))
    case GiveUp => s.(producer := Undoing(0))
    case Provide(block) =>
      s.(index := WithBlock(t, s.producer.e, Some(block)), producer := Adding, count := s.count + 1,
         stored := s.stored[s.first + s.count := block])
    case NoBlock => s.(index := TailIn(t, Slot(Tail(t) as int - 1, Cur(t).capacity)), producer := Rewound(s.producer.e))
    case Publish(n) => s.(tailIndex := n, first := s.first + s.count, count := 0)
    case Proceed =>
      match s.producer
      case Found(e, _) => s.(index := KeyIn(t, e, s.first + s.count), producer := KeyDone(e))
      case KeyDone(e) => s.(index := TailIn(t, Slot(Tail(t) + 1, Cur(t).capacity)), producer := TailDone(e))
      case Rewound(e) => s.(index := WithBlock(t, e, None), producer := Undoing(0))
      case Undoing(j) =>
        if j < s.count then s.(index := WithBlock(t, Lookup(t, (s.first + j) * BLOCK_SIZE), None), producer := Cleared(j))
        else s.(producer := Adding, count := 0)
      case Cleared(j) => s.(index := TailIn(t, Slot(Tail(t) as int - 1, Cur(t).capacity)), producer := Undoing(j + 1))
  }

  /** new_block_index: the new header, with the entries of the old circle from its oldest on, is published at once. */
  ghost function GrownBy(t: Index, added: seq<Entry>): Index
    requires IndexFits(t)
  {
    var cap, tail := Cur(t).capacity, Tail(t);
    Index(t.entries + added, t.headers + [Header(2 * cap, GrownIndex(Cur(t), tail, |t.entries|))], t.tails + [cap - 1])
  }

  lemma GrownFits(t: Index, added: seq<Entry>)
    requires IndexFits(t) && Fresh(t, added)
    ensures IndexFits(GrownBy(t, added))
  {
    assert HeaderFits(t, |t.headers| - 1);
    var t' := GrownBy(t, added);
    GrownInRange(Cur(t), Tail(t), |t.entries|);
    forall h | 0 <= h < |t'.headers| ensures HeaderFits(t', h) { if h < |t.headers| { assert HeaderFits(t, h); } }
  }

  /** Where the consumer's part of the block of element i ends. */
  function Stop(i: nat, end: nat): (stop: nat) {
    if end < (i / BLOCK_SIZE + 1) * BLOCK_SIZE then end else (i / BLOCK_SIZE + 1) * BLOCK_SIZE
  }

  ghost predicate AllTaken(taken: set<nat>, b: int) { forall i: nat :: i / BLOCK_SIZE == b ==> i in taken }

  ghost function Range(lo: nat, hi: nat): (r: set<nat>)
    ensures forall k :: k in r <==> lo <= k < hi
  {
    if lo >= hi then {} else Range(lo, hi - 1) + {hi - 1}
  }

  /** On to the next block of a batch, in the next slot of the header that was loaded. */
  ghost function Onward(t: Index, i: nat, end: nat, h: nat, slot: nat): Consumer
    requires h < |t.headers| && t.headers[h].capacity > 0
  {
    if Stop(i, end) == end then Free else LoadBlock(Stop(i, end), end, h, Slot(slot + 1, t.headers[h].capacity))
  }

  /** Consumers claim published elements, each once. */
  ghost predicate ConsumerEnabled(s: State, u: nat, a: Action)
    requires WellFormed(s) && u < |s.consumers|
  {
    match a
    case Claim(_, i, end) => s.consumers[u].Free? && i < end <= s.tailIndex && Range(i, end) !! s.claimed
    case Go(_) => !s.consumers[u].Free?
    case _ => false
  }

  ghost function ConsumerStep(s: State, u: nat, a: Action): (s': State)
    requires WellFormed(s) && u < |s.consumers| && ConsumerEnabled(s, u, a)
  {
    var t, c := s.index, s.consumers[u];
    if a.Claim? then s.(consumers := s.consumers[u := LoadHeader(a.i, a.end)], claimed := s.claimed + Range(a.i, a.end))
    else
      assert ConsumerFits(t, c);
      match c
      case LoadHeader(i, end) => s.(consumers := s.consumers[u := LoadTail(i, end, |t.headers| - 1)])
      case LoadTail(i, end, h) => s.(consumers := s.consumers[u := LoadKey(i, end, h, t.tails[h])])
      case LoadKey(i, end, h, tail) =>
        var key := t.entries[EntryOf(t, h, tail)].key;
        s.(consumers := s.consumers[u := LoadBlock(i, end, h, SlotFor(i % WORD, tail, key, t.headers[h].capacity))])
      case LoadBlock(i, end, h, slot) =>
        s.(consumers := s.consumers[u := Taking(i, end, h, slot, t.entries[EntryOf(t, h, slot)].block)])
      case Taking(i, end, h, slot, block) =>
        var taken := s.taken + Range(i, Stop(i, end));
        s.(taken := taken,
           consumers := s.consumers[u := if AllTaken(taken, i / BLOCK_SIZE) then Clearing(i, end, h, slot)
                                         else Onward(t, i, end, h, slot)])
      case Clearing(i, end, h, slot) =>
        s.(index := WithBlock(t, EntryOf(t, h, slot), None), consumers := s.consumers[u := Onward(t, i, end, h, slot)])
  }

  ghost predicate Next(s: State, s': State) {
    WellFormed(s) && exists a :: StepsBy(s, a, s')
  }

  ghost predicate StepsBy(s: State, a: Action, s': State)
    requires WellFormed(s)
  {
    if a.Claim? || a.Go? then a.u < |s.consumers| && ConsumerEnabled(s, a.u, a) && s' == ConsumerStep(s, a.u, a)
    else ProducerEnabled(s, a) && s' == ProducerStep(s, a)
  }

  /** A new index: every key is invalid, and the tail is the last slot. */
  ghost predicate Init(s: State) {
    && |s.index.headers| == 1 && IsPow2(Cur(s.index).capacity) && 1 < Cur(s.index).capacity == |s.index.entries|
    && Cur(s.index).capacity * BLOCK_SIZE <= MAX_ELEMENTS
    && |Cur(s.index).index| == Cur(s.index).capacity && s.index.tails == [Cur(s.index).capacity - 1]
    && (forall k :: 0 <= k < |s.index.entries| ==> Cur(s.index).index[k] == k && s.index.entries[k].key == INVALID_BLOCK_BASE)
    && s.tailIndex == s.first == s.count == 0 && s.producer == Adding && s.claimed == s.taken == {} && s.stored == map[]
    && forall u :: 0 <= u < |s.consumers| ==> s.consumers[u] == Free
  }

  ghost predicate IsRun(run: seq<State>) {
    |run| > 0 && Init(run[0]) && forall k :: 0 <= k < |run| - 1 ==> Next(run[k], run[k + 1])
  }

  // ---------------------------------------------------------------- the invariant

  /** The number of the block that the producer inserts next, in the view of the block index. */
  ghost function NextOf(s: State): int {
    match s.producer
    case TailDone(_) => s.first + s.count + 1
    case Undoing(j) => s.first + s.count - j
    case Cleared(j) => s.first + s.count - j
    case _ => s.first + s.count
  }

  ghost predicate HalfDone(p: Producer) { p.KeyDone? || p.TailDone? || p.Rewound? }

  /** The entry of a block that is being added may hold anything. */
  ghost predicate Pends(s: State, b: int) { HalfDone(s.producer) && b == s.first + s.count }

  /** The first block of the operation that has not been given back. */
  ghost function OwnFrom(s: State): int {
    match s.producer
    case Undoing(j) => s.first + j
    case Cleared(j) => s.first + j + 1
    case _ => s.first
  }

  ghost predicate ProducerOk(s: State, v: View)
    requires Shape(s.index, v)
  {
    && v.floor == s.first && v.next == NextOf(s)
    && match s.producer
       case Adding => v.top == v.next
       case Growing => v.top == v.next && Circle(s.index, v)
       case Found(e, grown) =>
         && v.top == v.next && e < |s.index.entries| && e == EntryAt(s.index, v, v.next) && !Live(s.index, v, e)
         && (grown ==> !v.used[e])
       case KeyDone(e) =>
         && v.top == v.next + 1 && e < |s.index.entries| && Pending(s.index, v, e, v.next)
         && v.births[v.next] == |s.index.headers| - 1
       case TailDone(e) => v.top == v.next && e < |s.index.entries| && Pending(s.index, v, e, v.next - 1)
       case Rewound(e) => e < |s.index.entries| && Pending(s.index, v, e, v.next)
       case Undoing(j) => j <= s.count
       case Cleared(j) => j < s.count
  }

  /** The index holds what the producer stored, and of the current operation just what has not been given back. */
  ghost predicate BlockOk(s: State, m: map<int, nat>, b: int) {
    && (b in m ==> b in s.stored && m[b] == s.stored[b] && (b >= s.first ==> OwnFrom(s) <= b < s.first + s.count))
    && (OwnFrom(s) <= b < s.first + s.count ==> b in m)
  }

  ghost predicate BlocksOk(s: State, m: map<int, nat>) { forall b: int :: !Pends(s, b) ==> BlockOk(s, m, b) }

  /** A published block is in the index, or all its elements have been taken and its entry has been cleared. */
  ghost predicate PublishedOk(s: State, m: map<int, nat>, cleared: set<int>) {
    && (forall b: int :: 0 <= b < s.first ==> b in m || b in cleared)
    && (forall b :: b in cleared ==> AllTaken(s.taken, b) && 0 <= b < s.first && b !in m)
  }

  /** A header that is out of date keeps a tail that is not behind any block that it was ever used for. */
  ghost predicate StaleTail(t: Index, v: View, h: nat, b: int)
    requires Shape(t, v) && h < |t.headers|
  {
    b in v.births && b < v.next && v.births[b] <= h ==> v.seats[TailEntry(t, v, h)] >= b
  }

  ghost predicate StaleTails(t: Index, v: View)
    requires Shape(t, v)
  {
    forall h: nat, b: int :: h < |t.headers| - 1 ==> StaleTail(t, v, h, b)
  }

  /** The elements the consumer has yet to take. */
  ghost predicate Owns(c: Consumer, k: nat) {
    !c.Free? && (if c.Clearing? then Stop(c.i, c.end) else c.i) <= k < c.end
  }

  ghost predicate Owner(s: State, u: nat, k: nat) { u < |s.consumers| && Owns(s.consumers[u], k) }

  /** The consumer is about to clear block b's entry. */
  ghost predicate Clears(s: State, u: nat, b: int) {
    u < |s.consumers| && s.consumers[u].Clearing? && s.consumers[u].i / BLOCK_SIZE == b
  }

  ghost predicate ClaimsOk(s: State, cleared: set<int>) {
    && s.tailIndex <= s.first * BLOCK_SIZE
    && (forall k :: k in s.claimed ==> k < s.tailIndex)
    && (forall k :: k in s.taken ==> k in s.claimed)
    && (forall u: nat, k: nat :: Owner(s, u, k) ==> k in s.claimed && k !in s.taken)
    && (forall u: nat, w: nat, k: nat :: Owner(s, u, k) && Owner(s, w, k) ==> u == w)
    && (forall u: nat, b: int :: Clears(s, u, b) ==> AllTaken(s.taken, b) && b !in cleared)
    && (forall u: nat, w: nat, b: int :: Clears(s, u, b) && Clears(s, w, b) ==> u == w)
    && (forall u :: 0 <= u < |s.consumers| && !s.consumers[u].Free? ==> s.consumers[u].i < s.consumers[u].end <= s.tailIndex)
  }

  ghost predicate Owned(s: State, k: nat) { exists u: nat :: Owner(s, u, k) }

  ghost predicate BeingCleared(s: State, b: int) { exists u: nat :: Clears(s, u, b) }

  /** Nothing claimed is forgotten, and no emptied block: it has been cleared, or some consumer is about to. */
  ghost predicate FinishedOk(s: State, cleared: set<int>) {
    && (forall k :: k in s.claimed ==> k in s.taken || Owned(s, k))
    && (forall b: int :: 0 <= b < s.first && AllTaken(s.taken, b) ==> b in cleared || BeingCleared(s, b))
  }

  /** The header is no older than any block of the batch. */
  ghost predicate Covers(t: Index, v: View, h: nat, i: nat, end: nat) {
    h < |t.headers| && forall b: int :: i / BLOCK_SIZE <= b && b * BLOCK_SIZE < end ==> b in v.births && v.births[b] <= h
  }

  ghost predicate AtSlot(t: Index, v: View, h: nat, slot: nat, b: int)
    requires Shape(t, v) && h < |t.headers|
  {
    assert HeaderOk(t, h);
    slot == Slot(b + v.shifts[h], t.headers[h].capacity)
  }

  /** The tail that the consumer read leads to a valid key, which is not behind its block. */
  ghost predicate TailOk(t: Index, v: View, h: nat, tail: nat, b: int)
    requires Shape(t, v) && h < |t.headers|
  {
    assert HeaderOk(t, h);
    tail < t.headers[h].capacity && var e := t.headers[h].index[tail]; v.used[e] && v.seats[e] >= b
  }

  ghost predicate ConsumerOk(s: State, v: View, c: Consumer)
    requires Shape(s.index, v)
  {
    !c.Free? && !c.LoadHeader? ==>
      && Covers(s.index, v, c.h, c.i, c.end)
      && (c.LoadKey? ==> TailOk(s.index, v, c.h, c.tail, c.i / BLOCK_SIZE))
      && (c.LoadBlock? || c.Taking? || c.Clearing? ==> AtSlot(s.index, v, c.h, c.slot, c.i / BLOCK_SIZE))
      && (c.Taking? ==> c.i / BLOCK_SIZE in s.stored && c.block == Some(s.stored[c.i / BLOCK_SIZE]))
  }

  datatype Ghost = Ghost(view: View, cleared: set<int>)

  ghost predicate IndexInv(s: State, v: View) {
    Inv(s.index, v) && StaleTails(s.index, v) && ProducerOk(s, v) && BlocksOk(s, Blocks(s.index, v))
  }

  ghost predicate ConsumersOk(s: State, v: View)
    requires Shape(s.index, v)
  {
    forall u :: 0 <= u < |s.consumers| ==> ConsumerOk(s, v, s.consumers[u])
  }

  ghost predicate SysInv(s: State, g: Ghost) {
    && IndexInv(s, g.view) && PublishedOk(s, Blocks(s.index, g.view), g.cleared)
    && ClaimsOk(s, g.cleared) && FinishedOk(s, g.cleared) && ConsumersOk(s, g.view)
  }

  lemma FitsIndex(t: Index, v: View)
    requires Shape(t, v)
    ensures IndexFits(t)
  {
    forall h | 0 <= h < |t.headers| ensures HeaderFits(t, h) { assert HeaderOk(t, h); }
  }

  lemma InvIsWellFormed(s: State, g: Ghost)
    requires SysInv(s, g)
    ensures WellFormed(s)
  {
    FitsIndex(s.index, g.view);
    forall u | 0 <= u < |s.consumers| ensures ConsumerFits(s.index, s.consumers[u]) {
      var c := s.consumers[u];
      assert ConsumerOk(s, g.view, c);
      if !c.Free? && !c.LoadHeader? { assert HeaderOk(s.index, c.h); }
    }
  }

  // ---------------------------------------------------------------- what later states keep

  /** Headers do not change, and an entry's seat only moves up. */
  ghost predicate Grows(t: Index, v: View, t': Index, v': View) {
    && Evolves(t, v, t', v') && |v.seats| <= |v'.seats| && |v.used| == |v.seats|
    && forall e :: 0 <= e < |v.seats| && v.used[e] ==> v'.seats[e] >= v.seats[e]
  }

  lemma ConsumerStays(s: State, v: View, s': State, v': View, c: Consumer)
    requires Shape(s.index, v) && Shape(s'.index, v') && Grows(s.index, v, s'.index, v') && ConsumerOk(s, v, c)
    requires !c.Free? ==> c.i < c.end <= v.floor * BLOCK_SIZE
    requires forall b :: b in s.stored && b < v.floor ==> b in s'.stored && s'.stored[b] == s.stored[b]
    ensures ConsumerOk(s', v', c)
  {
    if !c.Free? && !c.LoadHeader? {
      var t, t' := s.index, s'.index;
      assert HeaderOk(t, c.h) && HeaderOk(t', c.h);
      assert t'.headers[..|t.headers|][c.h] == t'.headers[c.h] && v'.shifts[..|v.shifts|][c.h] == v'.shifts[c.h];
      forall b: int | c.i / BLOCK_SIZE <= b && b * BLOCK_SIZE < c.end ensures b in v'.births && v'.births[b] <= c.h {}
    }
  }

  // ---------------------------------------------------------------- the producer's stores

  /** The blocks before number n are in both maps or in neither. */
  ghost predicate SameBelow(m: map<int, nat>, m': map<int, nat>, n: int) { forall b: int :: b < n ==> (b in m <==> b in m') }

  /** What a producer step sees to. */
  ghost predicate Advances(s: State, v: View, s': State, v': View) {
    && IndexInv(s', v') && Shape(s.index, v) && Grows(s.index, v, s'.index, v')
    && SameBelow(Blocks(s.index, v), Blocks(s'.index, v'), s.first)
    && forall b :: s.first <= b < s'.first ==> b in Blocks(s'.index, v')
  }

  /** A step that neither adds nor gives back a block. */
  lemma SameBlocks(s: State, m: map<int, nat>, s': State)
    requires BlocksOk(s, m) && s'.stored == s.stored && s'.first == s.first && s'.count == s.count && OwnFrom(s') == OwnFrom(s)
    requires HalfDone(s.producer) ==> HalfDone(s'.producer)
    ensures BlocksOk(s', m)
  {
    forall b: int | !Pends(s', b) ensures BlockOk(s', m, b) { assert BlockOk(s, m, b); }
  }

  lemma SameStale(t: Index, v: View, t': Index, v': View)
    requires Inv(t, v) && StaleTails(t, v) && Shape(t', v') && t'.headers == t.headers && |v'.seats| == |v.seats|
    requires forall h :: 0 <= h < |t.headers| - 1 ==> t'.tails[h] == t.tails[h]
    requires forall e :: 0 <= e < |v.seats| && v.used[e] ==> v'.seats[e] >= v.seats[e]
    requires forall b :: b in v'.births && b < v'.next && v'.births[b] < |t.headers| - 1 ==>
      b in v.births && b < v.next && v.births[b] == v'.births[b]
    ensures StaleTails(t', v')
  {
    forall h: nat, b: int | h < |t.headers| - 1 ensures StaleTail(t', v', h, b) {
      assert TailUsed(t, v, h) && StaleTail(t, v, h, b);
      assert TailEntry(t', v', h) == TailEntry(t, v, h);
    }
  }

  lemma GrowsSelf(t: Index, v: View, t': Index, v': View)
    requires Shape(t, v) && t'.headers == t.headers && v' == v.(floor := v'.floor, next := v'.next, top := v'.top) && v.floor <= v'.floor
    ensures Grows(t, v, t', v')
  {
    assert v.shifts[..|v.shifts|] == v.shifts && t.headers[..|t.headers|] == t.headers;
  }

  lemma NextEntryIs(t: Index, v: View)
    requires Inv(t, v) && IndexFits(t)
    ensures NextEntry(t) == EntryAt(t, v, v.next) && Slot(Tail(t) + 1, Cur(t).capacity) == Slot(v.next + Shift(v), Cur(t).capacity)
    ensures Unused(t.entries[NextEntry(t)]) <==> !Live(t, v, NextEntry(t))
  {
    NextSlotIs(t, v);
  }

  /** Between its stores the producer has room for one more block. */
  lemma AddingCanInsert(s: State, v: View)
    requires IndexInv(s, v) && (s.producer.Adding? || s.producer.Found?)
    ensures CanInsert(s.index, v)
  {
    if v.floor != v.next { assert BlockOk(s, Blocks(s.index, v), v.floor); }
  }

  /** A used entry that is inserted again gets no smaller number. */
  lemma ReusedSeat(t: Index, v: View)
    requires Inv(t, v) && v.used[EntryAt(t, v, v.next)]
    ensures v.seats[EntryAt(t, v, v.next)] <= v.next
  {
    var L, cap, e := |t.headers| - 1, Cur(t).capacity, EntryAt(t, v, v.next);
    assert HeaderOk(t, L) && SeatAt(t, v, L, Slot(v.next + Shift(v), cap));
    if v.seats[e] > v.next { SlotApart(v.seats[e] + Shift(v), v.next + Shift(v), cap); }
  }

  /** The test finds a slot to use, or that the circle is full. */
  lemma TestAdvances(s: State, v: View, s': State)
    requires WellFormed(s) && IndexInv(s, v) && s.producer.Adding? && s' == ProducerStep(s, Test)
    ensures Advances(s, v, s', v)
  {
    NextEntryIs(s.index, v);
    AddingCanInsert(s, v);
    if s'.producer.Growing? { FullIsCircle(s.index, v); }
    GrowsSelf(s.index, v, s.index, v);
    SameBlocks(s, Blocks(s.index, v), s');
  }

  lemma InsertAdvances(s: State, v: View, s': State) returns (v': View)
    requires WellFormed(s) && IndexInv(s, v) && s.producer.Found? && s' == ProducerStep(s, Proceed)
    ensures Advances(s, v, s', v')
  {
    var t, e := s.index, s.producer.e;
    AddingCanInsert(s, v);
    v' := InsertView(v, e).(next := v.next);
    KeyStored(t, v, s'.index, v', e);
    if v.used[e] { ReusedSeat(t, v); }
    SameStale(t, v, s'.index, v');
    var m, m' := Blocks(t, v), Blocks(s'.index, v');
    forall b: int | !Pends(s', b) ensures BlockOk(s', m', b) && (b in m <==> b in m') {
      assert BlockOk(s, m, b);
      assert b in m <==> b in m' - {v.next};
    }
  }

  lemma TailAdvances(s: State, v: View, s': State) returns (v': View)
    requires WellFormed(s) && IndexInv(s, v) && s.producer.KeyDone? && s' == ProducerStep(s, Proceed)
    ensures Advances(s, v, s', v')
  {
    var t := s.index;
    NextEntryIs(t, v);
    v' := v.(next := v.next + 1);
    TailStored(t, v, s'.index, v', s.producer.e);
    SameStale(t, v, s'.index, v');
    SameBlocks(s, Blocks(t, v), s');
  }

  /** A store to the value of the entry that keeps block n. */
  lemma StoreValue(t: Index, v: View, t': Index, e: nat, n: int, block: Option<nat>)
    requires Inv(t, v) && StaleTails(t, v) && e < |t.entries| && Pending(t, v, e, n) && t' == WithBlock(t, e, block)
    ensures Inv(t', v) && StaleTails(t', v) && Grows(t, v, t', v)
    ensures Blocks(t', v) == if block.Some? then Blocks(t, v)[n := block.value] else Blocks(t, v) - {n}
  {
    StoreKeeps(t, v, t', e, block);
    StoreBlocks(t, v, t', e, block);
    GrowsSelf(t, v, t', v);
    SameStale(t, v, t', v);
  }

  lemma ProvideAdvances(s: State, v: View, block: nat, s': State)
    requires WellFormed(s) && IndexInv(s, v) && s.producer.TailDone? && s' == ProducerStep(s, Provide(block))
    ensures Advances(s, v, s', v)
  {
    var t, n, m := s.index, s.first + s.count, Blocks(s.index, v);
    StoreValue(t, v, s'.index, s.producer.e, n, Some(block));
    var m' := m[n := block];
    forall b: int ensures BlockOk(s', m', b) { if b != n { assert BlockOk(s, m, b); } }
  }

  lemma NoBlockAdvances(s: State, v: View, s': State) returns (v': View)
    requires WellFormed(s) && IndexInv(s, v) && s.producer.TailDone? && s' == ProducerStep(s, NoBlock)
    ensures Advances(s, v, s', v')
  {
    var t := s.index;
    v' := v.(next := v.next - 1);
    assert s'.index == RewindIn(t);
    RewindKeeps(t, v, s'.index, v');
    RewoundPending(t, v, s'.index, v', s.producer.e, v.next - 1);
    GrowsSelf(t, v, s'.index, v');
    SameStale(t, v, s'.index, v');
    SameBlocks(s, Blocks(t, v), s');
  }

  lemma FailedEntryAdvances(s: State, v: View, s': State)
    requires WellFormed(s) && IndexInv(s, v) && s.producer.Rewound? && s' == ProducerStep(s, Proceed)
    ensures Advances(s, v, s', v)
  {
    var t, n, m := s.index, s.first + s.count, Blocks(s.index, v);
    StoreValue(t, v, s'.index, s.producer.e, n, None);
    var m' := m - {n};
    forall b: int ensures BlockOk(s', m', b) { if b != n { assert BlockOk(s, m, b); } }
  }

  /** The producer's own lookup of a block in the index, while it rolls back. */
  lemma LookupFinds(t: Index, v: View, i: nat)
    requires Inv(t, v) && IndexFits(t) && v.low < v.next && i / BLOCK_SIZE in Blocks(t, v)
    ensures Pending(t, v, Lookup(t, i), i / BLOCK_SIZE)
    ensures t.entries[Lookup(t, i)].block == Some(Blocks(t, v)[i / BLOCK_SIZE])
    ensures t.entries[Lookup(t, i)].key == Key(i / BLOCK_SIZE)
  {
    LookupIs(t, v, i, i / BLOCK_SIZE);
    assert KeyOk(t, v, Lookup(t, i));
  }

  lemma FindByLookup(t: Index, v: View, n: nat, i: nat) returns (e: nat)
    requires Inv(t, v) && IndexFits(t) && v.low < v.next && i / BLOCK_SIZE == n && n in Blocks(t, v)
    ensures e == Lookup(t, i) && Pending(t, v, e, n)
  {
    e := Lookup(t, i);
    LookupFinds(t, v, i);
  }

  lemma GiveBackAdvances(s: State, v: View, s': State)
    requires WellFormed(s) && IndexInv(s, v) && s.producer.Undoing? && s.producer.j < s.count && s' == ProducerStep(s, Proceed)
    ensures Advances(s, v, s', v)
  {
    var t, n, m := s.index, s.first + s.producer.j, Blocks(s.index, v);
    assert BlockOk(s, m, n);
    assert (n * BLOCK_SIZE) / BLOCK_SIZE == n;
    var e := FindByLookup(t, v, n, n * BLOCK_SIZE);
    StoreValue(t, v, s'.index, e, n, None);
    GivenBack(s, m, s', n);
  }

  lemma GivenBack(s: State, m: map<int, nat>, s': State, n: int)
    requires BlocksOk(s, m) && s.producer.Undoing? && n == OwnFrom(s) && s'.producer == Cleared(s.producer.j)
    requires s'.first == s.first && s'.count == s.count && s'.stored == s.stored
    ensures BlocksOk(s', m - {n})
  {
    var m' := m - {n};
    forall b: int ensures BlockOk(s', m', b) { assert BlockOk(s, m, b); }
  }

  lemma TailBackAdvances(s: State, v: View, s': State) returns (v': View)
    requires WellFormed(s) && IndexInv(s, v) && s.producer.Cleared? && s' == ProducerStep(s, Proceed)
    ensures Advances(s, v, s', v')
  {
    var t := s.index;
    v' := v.(next := v.next - 1);
    assert s'.index == RewindIn(t);
    RewindKeeps(t, v, s'.index, v');
    GrowsSelf(t, v, s'.index, v');
    SameStale(t, v, s'.index, v');
    SameBlocks(s, Blocks(t, v), s');
  }

  /** The operation ends, with its blocks in the index or with all of them given back. */
  lemma EndAdvances(s: State, v: View, s': State) returns (v': View)
    requires IndexInv(s, v) && s'.index == s.index && s'.stored == s.stored && s'.producer.Adding? && s'.count == 0
    requires || (s.producer.Adding? && s'.first == s.first + s.count)
             || (s.producer.Undoing? && s.producer.j == s.count && s'.first == s.first)
    ensures Advances(s, v, s', v')
  {
    var t, m := s.index, Blocks(s.index, v);
    v' := v.(floor := v.next, top := v.next);
    forall b | b in m ensures b < v.next { assert BlockOk(s, m, b); }
    Settled(t, v, v');
    GrowsSelf(t, v, t, v');
    SameStale(t, v, t, v');
    forall b: int ensures BlockOk(s', m, b) && (s.first <= b < s'.first ==> b in m) { assert BlockOk(s, m, b); }
  }

  lemma GiveUpAdvances(s: State, v: View, s': State)
    requires WellFormed(s) && IndexInv(s, v) && ProducerEnabled(s, GiveUp) && s' == ProducerStep(s, GiveUp)
    ensures Advances(s, v, s', v)
  {
    GrowsSelf(s.index, v, s.index, v);
    SameBlocks(s, Blocks(s.index, v), s');
  }

  lemma GrownStale(t: Index, v: View, added: seq<Entry>, t': Index, v': View)
    requires Growth(t, v, added, t', v') && StaleTails(t, v) && Shape(t', v')
    ensures StaleTails(t', v')
  {
    var L := |t.headers| - 1;
    forall h: nat, b: int | h < |t'.headers| - 1 ensures StaleTail(t', v', h, b) {
      assert TailEntry(t', v', h) == TailEntry(t, v, h);
      if h < L {
        assert StaleTail(t, v, h, b);
      } else {
        FullCircle(t, v, v.next - 1);
        assert EntryAt(t, v, v.next - 1) == TailEntry(t, v, L);
      }
    }
  }

  lemma LargerIndex(t: Index, v: View, added: seq<Entry>, t': Index, v': View)
    requires IndexFits(t) && Circle(t, v) && StaleTails(t, v) && Fresh(t, added) && 2 * Cur(t).capacity * BLOCK_SIZE <= MAX_ELEMENTS
    requires t' == GrownBy(t, added) && v' == GrowView(v, Cur(t).capacity)
    ensures Inv(t', v') && StaleTails(t', v') && Grows(t, v, t', v') && Blocks(t', v') == Blocks(t, v) && IndexFits(t')
    ensures NextEntry(t') == EntryAt(t', v', v'.next) && !v'.used[NextEntry(t')]
  {
    assert HeaderOk(t, |t.headers| - 1);
    assert t' == GrowIn(t, added);
    Grown(t, v, added, t', v');
    GrownStale(t, v, added, t', v');
    GrownFits(t, added);
    NextEntryIs(t', v');
  }

  lemma GrowAdvances(s: State, v: View, added: seq<Entry>, s': State) returns (v': View)
    requires WellFormed(s) && IndexInv(s, v) && ProducerEnabled(s, Grow(added)) && s' == ProducerStep(s, Grow(added))
    ensures Advances(s, v, s', v')
  {
    v' := GrowView(v, Cur(s.index).capacity);
    LargerIndex(s.index, v, added, s'.index, v');
    SameBlocks(s, Blocks(s.index, v), s');
  }

  lemma ProducerAdvances(s: State, v: View, a: Action, s': State) returns (v': View)
    requires WellFormed(s) && IndexInv(s, v) && ProducerEnabled(s, a) && s' == ProducerStep(s, a)
    ensures Advances(s, v, s', v')
  {
    v' := v;
    match a
    case Test => TestAdvances(s, v, s');
    case Grow(added) => v' := GrowAdvances(s, v, added, s');
    case GiveUp => GiveUpAdvances(s, v, s');
    case Provide(block) => ProvideAdvances(s, v, block, s');
    case NoBlock => v' := NoBlockAdvances(s, v, s');
    case Publish(n) => v' := EndAdvances(s, v, s');
    case Proceed =>
      match s.producer
      case Found(e, grown) => v' := InsertAdvances(s, v, s');
      case KeyDone(e) => v' := TailAdvances(s, v, s');
      case Rewound(e) => FailedEntryAdvances(s, v, s');
      case Undoing(j) => if j < s.count { GiveBackAdvances(s, v, s'); } else { v' := EndAdvances(s, v, s'); }
      case Cleared(j) => v' := TailBackAdvances(s, v, s');
  }

  lemma ProducerKeepsInv(s: State, g: Ghost, a: Action, s': State) returns (g': Ghost)
    requires SysInv(s, g) && WellFormed(s) && ProducerEnabled(s, a) && s' == ProducerStep(s, a)
    ensures SysInv(s', g')
  {
    var v := g.view;
    var v' := ProducerAdvances(s, v, a, s');
    g' := Ghost(v', g.cleared);
    forall u | 0 <= u < |s'.consumers| ensures ConsumerOk(s', v', s'.consumers[u]) {
      assert ConsumerOk(s, v, s.consumers[u]);
      ConsumerStays(s, v, s', v', s.consumers[u]);
    }
    SameClaims(s, s', g.cleared);
    NothingForgotten(s, s', g.cleared);
  }

  /** A block that is just published has elements to be taken. */
  lemma NothingForgotten(s: State, s': State, cleared: set<int>)
    requires ClaimsOk(s, cleared) && FinishedOk(s, cleared)
    requires s'.consumers == s.consumers && s'.claimed == s.claimed && s'.taken == s.taken && s.first <= s'.first
    ensures FinishedOk(s', cleared)
  {
    forall k | k in s'.claimed && k !in s'.taken ensures Owned(s', k) {
      assert Owned(s, k);
      var u: nat :| Owner(s, u, k);
      assert Owner(s', u, k);
    }
    forall b: int | 0 <= b < s'.first && AllTaken(s'.taken, b) && b !in cleared ensures BeingCleared(s', b) {
      var i: nat := b * BLOCK_SIZE;
      assert i / BLOCK_SIZE == b && i in s.taken && i < s.tailIndex;
      assert BeingCleared(s, b);
      var u: nat :| Clears(s, u, b);
      assert Clears(s', u, b);
    }
  }

  lemma SameClaims(s: State, s': State, cleared: set<int>)
    requires ClaimsOk(s, cleared) && s'.consumers == s.consumers && s'.claimed == s.claimed && s'.taken == s.taken
    requires s.tailIndex <= s'.tailIndex <= s'.first * BLOCK_SIZE
    ensures ClaimsOk(s', cleared)
  {
    forall u: nat, k: nat ensures Owner(s', u, k) <==> Owner(s, u, k) {}
    forall u: nat, b: int ensures Clears(s', u, b) <==> Clears(s, u, b) {}
  }

  // ---------------------------------------------------------------- the consumers' loads and stores

  /** A block with an element yet to be taken is in the index. */
  lemma BlockIsThere(s: State, g: Ghost, i: nat)
    requires SysInv(s, g) && i < s.tailIndex && i !in s.taken
    ensures i / BLOCK_SIZE < s.first && i / BLOCK_SIZE in Blocks(s.index, g.view)
    ensures i / BLOCK_SIZE in s.stored && Blocks(s.index, g.view)[i / BLOCK_SIZE] == s.stored[i / BLOCK_SIZE]
  {
    var b := i / BLOCK_SIZE;
    assert b in g.cleared ==> AllTaken(s.taken, b);
    assert BlockOk(s, Blocks(s.index, g.view), b);
  }

  /** So is one about to be cleared. */
  lemma ClearedIsThere(s: State, g: Ghost, u: nat, b: nat)
    requires SysInv(s, g) && Clears(s, u, b)
    ensures b in Blocks(s.index, g.view) && b in s.stored && Blocks(s.index, g.view)[b] == s.stored[b]
  {
    var c := s.consumers[u];
    assert c.i < c.end <= s.tailIndex;
    assert b < s.first && b !in g.cleared;
    assert BlockOk(s, Blocks(s.index, g.view), b);
  }

  /** The current header covers every batch of published elements. */
  lemma HeaderCovers(s: State, g: Ghost, u: nat)
    requires SysInv(s, g) && u < |s.consumers| && s.consumers[u].LoadHeader?
    ensures Covers(s.index, g.view, |s.index.headers| - 1, s.consumers[u].i, s.consumers[u].end)
  {
    var c := s.consumers[u];
    forall b: nat | c.i / BLOCK_SIZE <= b && b * BLOCK_SIZE < c.end
      ensures b in g.view.births && g.view.births[b] <= |s.index.headers| - 1
    {
      var k := if b == c.i / BLOCK_SIZE then c.i else b * BLOCK_SIZE;
      assert Owner(s, u, k);
      BlockIsThere(s, g, k);
      BornBefore(s.index, g.view, b);
    }
  }

  lemma BornBefore(t: Index, v: View, b: int)
    requires Inv(t, v) && b in Blocks(t, v)
    ensures b in v.births && v.births[b] < |t.headers|
  {
    assert Home(t, v, EntryAt(t, v, b));
  }

  /** Whatever header the consumer has, its tail leads to a key that is not behind the consumer's block. */
  lemma TailIsOk(t: Index, v: View, h: nat, b: int)
    requires Inv(t, v) && StaleTails(t, v) && h < |t.headers| && b in Blocks(t, v) && b < v.floor && v.births[b] <= h
    ensures TailOk(t, v, h, t.tails[h], b)
  {
    assert HeaderOk(t, h) && Home(t, v, EntryAt(t, v, b));
    if h == |t.headers| - 1 {
      assert Inserted(t, v, v.next - 1) && EntryAt(t, v, v.next - 1) == TailEntry(t, v, h);
    } else {
      assert TailUsed(t, v, h) && StaleTail(t, v, h, b);
    }
  }

  /** A key that is not behind is near enough, because the index is smaller than half the range of the keys. */
  lemma KeyIsNear(t: Index, v: View, b: int, e: nat)
    requires Inv(t, v) && b in Blocks(t, v) && e < |v.used| && v.used[e] && v.seats[e] >= b
    ensures Near(b, v.seats[e])
  {
    assert Home(t, v, EntryAt(t, v, b));
    assert (b - v.seats[e]) * BLOCK_SIZE > -(Cur(t).capacity * BLOCK_SIZE);
  }

  lemma KeyLeadsToSlot(t: Index, v: View, h: nat, tail: nat, i: nat)
    requires Inv(t, v) && i / BLOCK_SIZE in Blocks(t, v) && h < |t.headers| && TailOk(t, v, h, tail, i / BLOCK_SIZE)
    ensures HeaderOk(t, h)
    ensures AtSlot(t, v, h, SlotFor(i % WORD, tail, t.entries[t.headers[h].index[tail]].key, t.headers[h].capacity), i / BLOCK_SIZE)
    ensures t.entries[t.headers[h].index[tail]].key != INVALID_BLOCK_BASE
  {
    assert HeaderOk(t, h);
    var b, e, cap := i / BLOCK_SIZE, t.headers[h].index[tail], t.headers[h].capacity;
    ReadKey(t, v, h, tail);
    KeyIsNear(t, v, b, e);
    SlotForFinds(b, v.seats[e], i, v.shifts[h], tail, cap);
  }

  /** The entry in the slot holds the block. */
  lemma SlotHolds(t: Index, v: View, h: nat, slot: nat, b: nat)
    requires Inv(t, v) && IndexFits(t) && b in Blocks(t, v) && h < |t.headers| && v.births[b] <= h && AtSlot(t, v, h, slot, b)
    ensures slot < t.headers[h].capacity && Pending(t, v, EntryOf(t, h, slot), b)
    ensures t.entries[EntryOf(t, h, slot)] == BlockIndex.Entry(Key(b), Some(Blocks(t, v)[b]))
  {
    var e := EntryAt(t, v, b);
    assert HeaderOk(t, h) && Home(t, v, e) && KeyOk(t, v, e);
    assert EntryIn(t, v, h, b) == e;
  }

  lemma BlockSteps(i: nat, end: nat)
    requires i < end
    ensures i < Stop(i, end) <= end
    ensures Stop(i, end) < end ==> Stop(i, end) / BLOCK_SIZE == i / BLOCK_SIZE + 1
    ensures forall k :: i <= k < Stop(i, end) ==> k / BLOCK_SIZE == i / BLOCK_SIZE
  {
  }

  /** The next block of a batch is in the next slot of the same header. */
  lemma OnwardOk(s: State, v: View, i: nat, end: nat, h: nat, slot: nat)
    requires Shape(s.index, v) && i < end && Covers(s.index, v, h, i, end) && AtSlot(s.index, v, h, slot, i / BLOCK_SIZE)
    ensures HeaderOk(s.index, h) && ConsumerOk(s, v, Onward(s.index, i, end, h, slot))
  {
    assert HeaderOk(s.index, h);
    BlockSteps(i, end);
    SlotAdd(i / BLOCK_SIZE + v.shifts[h], 1, s.index.headers[h].capacity);
  }

  /** The other consumers do not notice a step of consumer u that leaves the index alone, or only clears an entry. */
  lemma OthersStay(s: State, v: View, s': State, u: nat, c: Consumer)
    requires Shape(s.index, v) && Shape(s'.index, v) && s'.index.headers == s.index.headers && ConsumersOk(s, v)
    requires u < |s.consumers| && s'.consumers == s.consumers[u := c] && s'.stored == s.stored && ConsumerOk(s', v, c)
    ensures ConsumersOk(s', v)
  {
    forall w | 0 <= w < |s'.consumers| ensures ConsumerOk(s', v, s'.consumers[w]) {
      assert ConsumerOk(s, v, s.consumers[w]);
      if w != u && !s.consumers[w].Free? && !s.consumers[w].LoadHeader? {
        assert HeaderOk(s.index, s.consumers[w].h) && HeaderOk(s'.index, s.consumers[w].h);
      }
    }
  }

  /** Consumer u goes on with the same elements to take. */
  lemma SameOwner(s: State, s': State, u: nat, c: Consumer, cleared: set<int>, cleared': set<int>)
    requires ClaimsOk(s, cleared) && u < |s.consumers| && s'.consumers == s.consumers[u := c] && !c.Clearing?
    requires s'.tailIndex == s.tailIndex && s'.first == s.first && s'.claimed == s.claimed && s'.taken == s.taken
    requires forall k: nat :: Owns(c, k) <==> Owns(s.consumers[u], k)
    requires !c.Free? ==> c.i < c.end <= s.tailIndex
    requires forall b :: b in cleared' ==> b in cleared || Clears(s, u, b)
    ensures ClaimsOk(s', cleared')
  {
    forall w: nat, k: nat ensures Owner(s', w, k) <==> Owner(s, w, k) {}
    forall w: nat, b: int | Clears(s', w, b) ensures w != u && Clears(s, w, b) && b !in cleared' {
      assert w != u && Clears(s, w, b);
      assert b in cleared' ==> b in cleared || Clears(s, u, b);
    }
  }

  /** What other consumers own and clear they still do. */
  lemma StillFinished(s: State, s': State, u: nat, cleared: set<int>, cleared': set<int>)
    requires FinishedOk(s, cleared) && u < |s.consumers| && |s'.consumers| == |s.consumers| && s'.first == s.first
    requires forall w :: 0 <= w < |s.consumers| && w != u ==> s'.consumers[w] == s.consumers[w]
    requires forall k :: k in s.taken ==> k in s'.taken
    requires forall k :: k in s'.claimed && k !in s'.taken ==> k in s.claimed || Owner(s', u, k)
    requires forall k: nat :: Owner(s, u, k) ==> k in s'.taken || Owner(s', u, k)
    requires forall b: int :: 0 <= b < s.first && AllTaken(s'.taken, b) ==> AllTaken(s.taken, b) || Clears(s', u, b)
    requires forall b: int :: (b in cleared ==> b in cleared') && (Clears(s, u, b) ==> b in cleared')
    ensures FinishedOk(s', cleared')
  {
    forall k | k in s'.claimed && k !in s'.taken ensures Owned(s', k) {
      if !Owner(s', u, k) {
        assert Owned(s, k);
        var w: nat :| Owner(s, w, k);
        assert Owner(s', w, k);
      }
    }
    forall b: int | 0 <= b < s'.first && AllTaken(s'.taken, b) && b !in cleared' ensures BeingCleared(s', b) {
      if !Clears(s', u, b) {
        assert BeingCleared(s, b);
        var w: nat :| Clears(s, w, b);
        assert Clears(s', w, b);
      }
    }
  }

  lemma ClaimKeeps(s: State, g: Ghost, u: nat, a: Action, s': State)
    requires SysInv(s, g) && WellFormed(s) && u < |s.consumers| && a.Claim? && ConsumerEnabled(s, u, a) && s' == ConsumerStep(s, u, a)
    ensures SysInv(s', g)
  {
    var c := LoadHeader(a.i, a.end);
    OthersStay(s, g.view, s', u, c);
    forall w: nat, k: nat ensures Owner(s', w, k) <==> if w == u then a.i <= k < a.end else Owner(s, w, k) {}
    forall w: nat, b: int ensures Clears(s', w, b) <==> Clears(s, w, b) {}
    StillFinished(s, s', u, g.cleared, g.cleared);
    SameIndex(s, g, s');
  }

  lemma SameIndex(s: State, g: Ghost, s': State)
    requires IndexInv(s, g.view) && PublishedOk(s, Blocks(s.index, g.view), g.cleared)
    requires s' == s.(consumers := s'.consumers, claimed := s'.claimed, taken := s'.taken)
    requires forall k :: k in s.taken ==> k in s'.taken
    ensures IndexInv(s', g.view) && PublishedOk(s', Blocks(s'.index, g.view), g.cleared)
  {
    var m := Blocks(s.index, g.view);
    forall b: int | !Pends(s', b) ensures BlockOk(s', m, b) { assert BlockOk(s, m, b); }
    forall b | b in g.cleared ensures AllTaken(s'.taken, b) { assert AllTaken(s.taken, b); }
  }

  /** The load of consumer u, whose element's block is in the index. */
  lemma LoadIsOk(s: State, g: Ghost, u: nat, s': State)
    requires SysInv(s, g) && WellFormed(s) && u < |s.consumers| && ConsumerEnabled(s, u, Go(u)) && s' == ConsumerStep(s, u, Go(u))
    requires !s.consumers[u].Taking? && !s.consumers[u].Clearing?
    ensures ConsumerOk(s', g.view, s'.consumers[u])
  {
    var t, v, c := s.index, g.view, s.consumers[u];
    assert ConsumerOk(s, v, c) && Owner(s, u, c.i);
    BlockIsThere(s, g, c.i);
    match c
    case LoadHeader(i, end) => HeaderCovers(s, g, u);
    case LoadTail(i, end, h) => TailIsOk(t, v, h, i / BLOCK_SIZE);
    case LoadKey(i, end, h, tail) => KeyLeadsToSlot(t, v, h, tail, i);
    case LoadBlock(i, end, h, slot) => SlotHolds(t, v, h, slot, i / BLOCK_SIZE);
  }

  lemma LoadKeeps(s: State, g: Ghost, u: nat, s': State)
    requires SysInv(s, g) && WellFormed(s) && u < |s.consumers| && ConsumerEnabled(s, u, Go(u)) && s' == ConsumerStep(s, u, Go(u))
    requires !s.consumers[u].Taking? && !s.consumers[u].Clearing?
    ensures SysInv(s', g)
  {
    LoadIsOk(s, g, u, s');
    OthersStay(s, g.view, s', u, s'.consumers[u]);
    SameOwner(s, s', u, s'.consumers[u], g.cleared, g.cleared);
    StillFinished(s, s', u, g.cleared, g.cleared);
    SameIndex(s, g, s');
  }

  /** Who owns what after consumer u has taken its part of a block. */
  lemma TakingClaims(s: State, g: Ghost, u: nat, s': State)
    requires SysInv(s, g) && WellFormed(s) && u < |s.consumers| && s.consumers[u].Taking? && s' == ConsumerStep(s, u, Go(u))
    ensures ClaimsOk(s', g.cleared)
  {
    var c, c' := s.consumers[u], s'.consumers[u];
    var b := c.i / BLOCK_SIZE;
    BlockSteps(c.i, c.end);
    forall w: nat, k: nat ensures Owner(s', w, k) <==> Owner(s, w, k) && !(w == u && k < Stop(c.i, c.end)) {}
    forall k: nat | k in s'.taken ensures k in s'.claimed { if k !in s.taken { assert Owner(s, u, k); } }
    forall w: nat, k: nat | Owner(s', w, k) ensures k in s'.claimed && k !in s'.taken {
      assert Owner(s, w, k);
      if c.i <= k < Stop(c.i, c.end) { assert Owner(s, u, k); }
    }
    TakingClears(s, g, u, s');
  }

  /** Only consumer u may have become the one to clear the block. */
  lemma TakingClears(s: State, g: Ghost, u: nat, s': State)
    requires SysInv(s, g) && WellFormed(s) && u < |s.consumers| && s.consumers[u].Taking? && s' == ConsumerStep(s, u, Go(u))
    ensures forall w: nat, b: int :: Clears(s', w, b) ==>
      AllTaken(s'.taken, b) && b !in g.cleared && (w == u <==> b == s.consumers[u].i / BLOCK_SIZE) && (w != u ==> Clears(s, w, b))
  {
    var c := s.consumers[u];
    assert Owner(s, u, c.i) && c.i !in s.taken;
    forall w: nat, b: int | Clears(s', w, b)
      ensures AllTaken(s'.taken, b) && b !in g.cleared && (w == u <==> b == c.i / BLOCK_SIZE) && (w != u ==> Clears(s, w, b))
    {
      if w != u { assert Clears(s, w, b) && AllTaken(s.taken, b); }
      assert b in g.cleared ==> AllTaken(s.taken, b);
    }
  }

  /** A consumer that empties a block goes on to clear it. */
  lemma TakingFinished(s: State, g: Ghost, u: nat, s': State)
    requires SysInv(s, g) && WellFormed(s) && u < |s.consumers| && s.consumers[u].Taking? && s' == ConsumerStep(s, u, Go(u))
    ensures FinishedOk(s', g.cleared)
  {
    var c := s.consumers[u];
    BlockSteps(c.i, c.end);
    forall b: int | 0 <= b < s.first && AllTaken(s'.taken, b) ensures AllTaken(s.taken, b) || Clears(s', u, b) {
      if b != c.i / BLOCK_SIZE {
        forall i: nat | i / BLOCK_SIZE == b ensures i in s.taken { assert i in s'.taken; }
      }
    }
    StillFinished(s, s', u, g.cleared, g.cleared);
  }

  lemma TakingKeeps(s: State, g: Ghost, u: nat, s': State)
    requires SysInv(s, g) && WellFormed(s) && u < |s.consumers| && s.consumers[u].Taking? && s' == ConsumerStep(s, u, Go(u))
    ensures SysInv(s', g)
  {
    var c := s.consumers[u];
    assert ConsumerOk(s, g.view, c);
    OnwardOk(s, g.view, c.i, c.end, c.h, c.slot);
    OthersStay(s, g.view, s', u, s'.consumers[u]);
    TakingClaims(s, g, u, s');
    TakingFinished(s, g, u, s');
    SameIndex(s, g, s');
  }

  /** The producer does not notice that a published block is cleared. */
  lemma ClearKeepsIndex(s: State, g: Ghost, s': State, e: nat, b: nat)
    requires SysInv(s, g) && b in Blocks(s.index, g.view) && b < s.first && e < |s.index.entries| && Pending(s.index, g.view, e, b)
    requires s' == s.(index := WithBlock(s.index, e, None), consumers := s'.consumers) && AllTaken(s.taken, b)
    ensures IndexInv(s', g.view) && PublishedOk(s', Blocks(s'.index, g.view), g.cleared + {b})
  {
    var t, v, m := s.index, g.view, Blocks(s.index, g.view);
    StoreValue(t, v, s'.index, e, b, None);
    ClearedBlock(s, g, s', m, b);
    ClearKeepsProducer(s, v, s', e);
  }

  lemma ClearKeepsProducer(s: State, v: View, s': State, e: nat)
    requires Inv(s.index, v) && ProducerOk(s, v) && e < |s.index.entries| && v.used[e]
    requires EntryAt(s.index, v, v.seats[e]) == e && v.seats[e] < v.floor
    requires s' == s.(index := WithBlock(s.index, e, None), consumers := s'.consumers) && Inv(s'.index, v)
    ensures ProducerOk(s', v)
  {
    var t := s.index;
    if HalfDone(s.producer) { PendingStays(t, v, s'.index, s.producer.e, e); }
    if s.producer.Found? { SameEntry(t, v, s'.index, v, v.next); }
    if s.producer.Growing? { ClearKeepsCircle(t, v, s'.index, e); }
  }

  lemma ClearedBlock(s: State, g: Ghost, s': State, m: map<int, nat>, b: nat)
    requires BlocksOk(s, m) && PublishedOk(s, m, g.cleared) && b < s.first && AllTaken(s.taken, b)
    requires s' == s.(index := s'.index, consumers := s'.consumers)
    ensures BlocksOk(s', m - {b}) && PublishedOk(s', m - {b}, g.cleared + {b})
  {
    var m' := m - {b};
    forall k: int | !Pends(s', k) ensures BlockOk(s', m', k) { assert BlockOk(s, m, k); }
  }

  lemma PendingStays(t: Index, v: View, t': Index, e: nat, cleared: nat)
    requires Inv(t, v) && e < |t.entries| && Home(t, v, e) && cleared < |t.entries| && t' == WithBlock(t, cleared, None) && Shape(t', v)
    ensures Home(t', v, e) && EntryAt(t', v, v.seats[e]) == EntryAt(t, v, v.seats[e])
  {
    FrameHome(t, v, t', v, e);
    SameEntry(t, v, t', v, v.seats[e]);
  }

  lemma ClearKeeps(s: State, g: Ghost, u: nat, s': State) returns (g': Ghost)
    requires SysInv(s, g) && WellFormed(s) && u < |s.consumers| && s.consumers[u].Clearing? && s' == ConsumerStep(s, u, Go(u))
    ensures SysInv(s', g')
  {
    var t, v, c := s.index, g.view, s.consumers[u];
    var b := c.i / BLOCK_SIZE;
    g' := Ghost(v, g.cleared + {b});
    assert ConsumerOk(s, v, c) && Clears(s, u, b);
    ClearedIsThere(s, g, u, b);
    SlotHolds(t, v, c.h, c.slot, b);
    ClearKeepsIndex(s, g, s', EntryOf(t, c.h, c.slot), b);
    BlockSteps(c.i, c.end);
    OnwardOk(s', v, c.i, c.end, c.h, c.slot);
    OthersStay(s, v, s', u, s'.consumers[u]);
    SameOwner(s, s', u, s'.consumers[u], g.cleared, g'.cleared);
    StillFinished(s, s', u, g.cleared, g'.cleared);
  }

  /** Every atomic step keeps the invariant. */
  lemma StepKeepsInv(s: State, g: Ghost, a: Action, s': State) returns (g': Ghost)
    requires SysInv(s, g) && WellFormed(s) && StepsBy(s, a, s')
    ensures SysInv(s', g')
  {
    g' := g;
    if a.Claim? {
      ClaimKeeps(s, g, a.u, a, s');
    } else if a.Go? {
      if s.consumers[a.u].Taking? { TakingKeeps(s, g, a.u, s'); }
      else if s.consumers[a.u].Clearing? { g' := ClearKeeps(s, g, a.u, s'); }
      else { LoadKeeps(s, g, a.u, s'); }
    } else {
      g' := ProducerKeepsInv(s, g, a, s');
    }
  }

  // ---------------------------------------------------------------- all runs

  lemma InitInv(s: State) returns (g: Ghost)
    requires Init(s)
    ensures SysInv(s, g)
  {
    var cap := Cur(s.index).capacity;
    var v := View(seq(cap, j => j), seq(cap, j => false), [0], map[], 0, 0, 0, 0);
    InitialInv(s.index, v, cap);
    g := Ghost(v, {});
    forall u: nat, k: nat ensures !Owner(s, u, k) {}
    forall u: nat, b: int ensures !Clears(s, u, b) {}
    forall b: int ensures BlockOk(s, map[], b) {}
  }

  /** The entry holds block b, as the producer stored it. */
  ghost predicate HoldsStored(s: State, e: nat, b: nat) {
    e < |s.index.entries| && b in s.stored && s.index.entries[e] == BlockIndex.Entry(Key(b), Some(s.stored[b]))
  }

  /** A block in use: part of the operation under way, or published with an element left to take, or about to be
      cleared. */
  ghost predicate InUse(s: State, b: nat) {
    b in s.stored && (s.first <= b < s.first + s.count || (b < s.first && (!AllTaken(s.taken, b) || BeingCleared(s, b))))
  }

  /** What holds in every state, of the shared memory and the threads' locals alone. */
  ghost predicate Safe(s: State) {
    && WellFormed(s)
    // a consumer's lookup, whenever its loads took place, ends at the entry of its block, and takes the right block
    && (forall u :: 0 <= u < |s.consumers| && (s.consumers[u].LoadBlock? || s.consumers[u].Taking? || s.consumers[u].Clearing?) ==>
          HoldsStored(s, EntryOf(s.index, s.consumers[u].h, s.consumers[u].slot), s.consumers[u].i / BLOCK_SIZE))
    && (forall u :: 0 <= u < |s.consumers| && s.consumers[u].Taking? ==>
          s.consumers[u].block == Some(s.stored[s.consumers[u].i / BLOCK_SIZE]))
    // the assertion on the key at the tail
    && (forall u :: 0 <= u < |s.consumers| && s.consumers[u].LoadKey? ==>
          s.index.entries[EntryOf(s.index, s.consumers[u].h, s.consumers[u].tail)].key != INVALID_BLOCK_BASE)
    // the producer's assertion on the key of the entry it takes from a larger index
    && (s.producer.Found? && s.producer.grown ==> s.index.entries[s.producer.e].key == INVALID_BLOCK_BASE)
    // a lookup of any published element that has not been taken would find its block now
    && (forall i: nat :: i < s.tailIndex && i !in s.taken ==> HoldsStored(s, Lookup(s.index, i), i / BLOCK_SIZE))
    // and nothing else is in the index: every entry that is neither free nor being filled holds a block in use
    && (forall e: nat :: e < |s.index.entries| && !Unused(s.index.entries[e]) && !(HalfDone(s.producer) && e == s.producer.e) ==>
          exists b: nat :: InUse(s, b) && HoldsStored(s, e, b))
    // every claimed element is taken, or some consumer is about to take it
    && (forall k :: k in s.claimed ==> k in s.taken || Owned(s, k))
    // an emptied block is cleared by one consumer
    && (forall u: nat, w: nat, b: int :: Clears(s, u, b) && Clears(s, w, b) ==> u == w)
    // so does the producer's own lookup of a block that it gives back
    && (s.producer.Undoing? && s.producer.j < s.count ==>
          HoldsStored(s, Lookup(s.index, (s.first + s.producer.j) * BLOCK_SIZE), s.first + s.producer.j))
  }

  lemma ConsumerIsSafe(s: State, g: Ghost, u: nat)
    requires SysInv(s, g) && WellFormed(s) && u < |s.consumers|
    ensures var c := s.consumers[u];
      && (c.LoadBlock? || c.Taking? || c.Clearing? ==> HoldsStored(s, EntryOf(s.index, c.h, c.slot), c.i / BLOCK_SIZE))
      && (c.LoadKey? ==> s.index.entries[EntryOf(s.index, c.h, c.tail)].key != INVALID_BLOCK_BASE)
      && (c.Taking? ==> c.i / BLOCK_SIZE in s.stored && c.block == Some(s.stored[c.i / BLOCK_SIZE]))
  {
    var c := s.consumers[u];
    assert ConsumerOk(s, g.view, c);
    if c.Clearing? {
      assert Clears(s, u, c.i / BLOCK_SIZE);
      ClearedIsThere(s, g, u, c.i / BLOCK_SIZE);
    } else if !c.Free? {
      assert Owner(s, u, c.i);
      BlockIsThere(s, g, c.i);
    }
    if c.LoadKey? { KeyLeadsToSlot(s.index, g.view, c.h, c.tail, c.i); }
    if c.LoadBlock? || c.Taking? || c.Clearing? { SlotHolds(s.index, g.view, c.h, c.slot, c.i / BLOCK_SIZE); }
  }

  lemma LookupIsSafe(s: State, g: Ghost, i: nat)
    requires SysInv(s, g) && WellFormed(s) && i < s.tailIndex && i !in s.taken
    ensures HoldsStored(s, Lookup(s.index, i), i / BLOCK_SIZE)
  {
    BlockIsThere(s, g, i);
    LiveBelow(s.index, g.view, i / BLOCK_SIZE);
    LookupFinds(s.index, g.view, i);
  }

  lemma UndoIsSafe(s: State, g: Ghost)
    requires SysInv(s, g) && WellFormed(s) && s.producer.Undoing? && s.producer.j < s.count
    ensures HoldsStored(s, Lookup(s.index, (s.first + s.producer.j) * BLOCK_SIZE), s.first + s.producer.j)
  {
    var n := s.first + s.producer.j;
    assert BlockOk(s, Blocks(s.index, g.view), n);
    LookupFinds(s.index, g.view, n * BLOCK_SIZE);
  }

  lemma EntryIsInUse(s: State, g: Ghost, e: nat)
    requires SysInv(s, g) && e < |s.index.entries| && !Unused(s.index.entries[e]) && !(HalfDone(s.producer) && e == s.producer.e)
    ensures exists b: nat :: InUse(s, b) && HoldsStored(s, e, b)
  {
    var t, v, m := s.index, g.view, Blocks(s.index, g.view);
    assert KeyOk(t, v, e);
    var b: nat := v.seats[e];
    LiveHolds(t, v, e);
    if HalfDone(s.producer) { assert Home(t, v, s.producer.e) && v.seats[s.producer.e] == s.first + s.count; }
    assert !Pends(s, b);
    assert BlockOk(s, m, b);
    assert b in g.cleared ==> b !in m;
    assert InUse(s, b) && HoldsStored(s, e, b);
  }

  lemma InvIsSafe(s: State, g: Ghost)
    requires SysInv(s, g)
    ensures Safe(s)
  {
    InvIsWellFormed(s, g);
    forall u: nat | u < |s.consumers|
      ensures var c := s.consumers[u];
        && (c.LoadBlock? || c.Taking? || c.Clearing? ==> HoldsStored(s, EntryOf(s.index, c.h, c.slot), c.i / BLOCK_SIZE))
        && (c.LoadKey? ==> s.index.entries[EntryOf(s.index, c.h, c.tail)].key != INVALID_BLOCK_BASE)
        && (c.Taking? ==> c.i / BLOCK_SIZE in s.stored && c.block == Some(s.stored[c.i / BLOCK_SIZE]))
    {
      ConsumerIsSafe(s, g, u);
    }
    forall i: nat | i < s.tailIndex && i !in s.taken ensures HoldsStored(s, Lookup(s.index, i), i / BLOCK_SIZE) {
      LookupIsSafe(s, g, i);
    }
    forall e: nat | e < |s.index.entries| && !Unused(s.index.entries[e]) && !(HalfDone(s.producer) && e == s.producer.e)
      ensures exists b: nat :: InUse(s, b) && HoldsStored(s, e, b)
    {
      EntryIsInUse(s, g, e);
    }
    if s.producer.Found? { assert KeyOk(s.index, g.view, s.producer.e); }
    if s.producer.Undoing? && s.producer.j < s.count { UndoIsSafe(s, g); }
  }

  lemma {:induction false} RunKeepsInv(run: seq<State>, k: nat) returns (g: Ghost)
    requires IsRun(run) && k < |run|
    ensures SysInv(run[k], g)
  {
    if k == 0 {
      g := InitInv(run[0]);
    } else {
      var g0 := RunKeepsInv(run, k - 1);
      assert Next(run[k - 1], run[k]);
      var a :| StepsBy(run[k - 1], a, run[k]);
      g := StepKeepsInv(run[k - 1], g0, a, run[k]);
    }
  }

  /** Every state of every run is safe. */
  lemma RunsAreSafe(run: seq<State>)
    requires IsRun(run)
    ensures forall k :: 0 <= k < |run| ==> Safe(run[k])
  {
    forall k | 0 <= k < |run| ensures Safe(run[k]) {
      var g := RunKeepsInv(run, k);
      InvIsSafe(run[k], g);
    }
  }

  // ---------------------------------------------------------------- progress

  ghost function BlocksLeft(i: nat, end: nat): int { (end - 1) / BLOCK_SIZE - i / BLOCK_SIZE + 1 }

  /** The most loads and stores that are left of a batch: three to find its first block, three for each block. */
  ghost function StepsLeft(c: Consumer): int {
    match c
    case Free => 0
    case LoadHeader(i, end) => 3 + 3 * BlocksLeft(i, end)
    case LoadTail(i, end, _) => 2 + 3 * BlocksLeft(i, end)
    case LoadKey(i, end, _, _) => 1 + 3 * BlocksLeft(i, end)
    case LoadBlock(i, end, _, _) => 3 * BlocksLeft(i, end)
    case Taking(i, end, _, _, _) => 3 * BlocksLeft(i, end) - 1
    case Clearing(i, end, _, _) => 3 * BlocksLeft(i, end) - 2
  }

  /** Every step of a consumer brings it closer to the end of its batch, whatever the others do. */
  lemma LookGetsCloser(s: State, u: nat)
    requires WellFormed(s) && u < |s.consumers| && ConsumerEnabled(s, u, Go(u))
    ensures 0 <= StepsLeft(ConsumerStep(s, u, Go(u)).consumers[u]) < StepsLeft(s.consumers[u])
  {
    var c := s.consumers[u];
    assert ConsumerFits(s.index, c);
    BlockSteps(c.i, c.end);
  }

  /** The producer gives back what it has added, step by step. */
  ghost function Undone(s: State, k: nat): (s': State)
    requires WellFormed(s)
    decreases k
  {
    if k == 0 || s.producer.Adding? || !ProducerEnabled(s, Proceed) || !WellFormed(ProducerStep(s, Proceed)) then s
    else Undone(ProducerStep(s, Proceed), k - 1)
  }

  ghost function UndoSteps(s: State): int {
    match s.producer
    case Undoing(j) => 2 * (s.count - j) + 1
    case Cleared(j) => 2 * (s.count - j)
    case _ => 0
  }

  /** What an operation that failed comes to. */
  ghost predicate GivenUp(s: State, s': State) {
    && s'.producer == Adding && s'.count == 0 && s'.first == s.first && s'.tailIndex == s.tailIndex
    && s'.consumers == s.consumers && s'.claimed == s.claimed && s'.taken == s.taken
  }

  ghost predicate Reached(s: State) { WellFormed(s) && exists g :: SysInv(s, g) }

  lemma ProducerMoves(s: State, a: Action) returns (s': State)
    requires Reached(s) && ProducerEnabled(s, a)
    ensures Reached(s') && s' == ProducerStep(s, a)
  {
    var g :| SysInv(s, g);
    s' := ProducerStep(s, a);
    var g' := ProducerKeepsInv(s, g, a, s');
    InvIsWellFormed(s', g');
  }

  lemma UndoRange(s: State)
    requires Reached(s)
    ensures (s.producer.Undoing? ==> s.producer.j <= s.count) && (s.producer.Cleared? ==> s.producer.j < s.count)
  {
    var g :| SysInv(s, g);
    assert ProducerOk(s, g.view);
  }

  lemma UndoMove(s: State) returns (s': State)
    requires Reached(s) && (s.producer.Undoing? || s.producer.Cleared?)
    ensures Reached(s') && ProducerEnabled(s, Proceed) && s' == ProducerStep(s, Proceed) && UndoSteps(s) > 0
    ensures if UndoSteps(s) == 1 then s' == s.(producer := Adding, count := 0)
            else && (s'.producer.Undoing? || s'.producer.Cleared?) && UndoSteps(s') == UndoSteps(s) - 1
                 && s' == s.(index := s'.index, producer := s'.producer)
  {
    UndoRange(s);
    s' := ProducerMoves(s, Proceed);
  }

  lemma UndoEnds(s: State)
    requires Reached(s) && (s.producer.Undoing? || s.producer.Cleared?)
    ensures UndoSteps(s) > 0 && GivenUp(s, Undone(s, UndoSteps(s)))
    decreases UndoSteps(s)
  {
    var s' := UndoMove(s);
    if UndoSteps(s) > 1 { UndoEnds(s'); }
  }

  /** A producer that gives up has soon given back all it had added, and nothing it published or consumers hold. */
  lemma GiveUpEnds(s: State)
    requires Reached(s) && ProducerEnabled(s, GiveUp)
    ensures var s1 := ProducerStep(s, GiveUp); WellFormed(s1) && GivenUp(s, Undone(s1, 2 * s.count + 1))
  {
    var s1 := StartsUndoing(s);
    UndoEnds(s1);
  }

  lemma StartsUndoing(s: State) returns (s': State)
    requires Reached(s) && ProducerEnabled(s, GiveUp)
    ensures Reached(s') && s' == ProducerStep(s, GiveUp) == s.(producer := Undoing(0))
  {
    s' := ProducerMoves(s, GiveUp);
  }

  /** The slots of the current header. */
  ghost function Slots(s: State): int
    requires WellFormed(s)
  {
    Cur(s.index).capacity
  }

  /** A producer that nobody disturbs: the test of the slot, one growth if that is needed and possible, and three stores
      insert a block. */
  lemma InsertionCompletes(s: State, added: seq<Entry>, block: nat) returns (s': State)
    requires Reached(s) && s.producer.Adding? && Fresh(s.index, added) && 2 * Slots(s) * BLOCK_SIZE <= MAX_ELEMENTS
    ensures Reached(s') && s' == s.(index := s'.index, count := s.count + 1, stored := s.stored[s.first + s.count := block])
    ensures Slots(s') == if Unused(s.index.entries[NextEntry(s.index)]) then Slots(s) else 2 * Slots(s)
  {
    var s1 := FindsSlot(s, added);
    s' := FillsSlot(s1, block);
  }

  lemma FillsSlot(s: State, block: nat) returns (s': State)
    requires Reached(s) && s.producer.Found?
    ensures Reached(s') && Slots(s') == Slots(s)
    ensures s' == s.(index := s'.index, producer := Adding, count := s.count + 1, stored := s.stored[s.first + s.count := block])
  {
    var s1 := StoresKeyAndTail(s);
    s' := StoresBlock(s1, block);
  }

  lemma FindsSlot(s: State, added: seq<Entry>) returns (s': State)
    requires Reached(s) && s.producer.Adding? && Fresh(s.index, added) && 2 * Slots(s) * BLOCK_SIZE <= MAX_ELEMENTS
    ensures Reached(s') && s'.producer.Found? && s' == s.(index := s'.index, producer := s'.producer)
    ensures Slots(s') == if Unused(s.index.entries[NextEntry(s.index)]) then Slots(s) else 2 * Slots(s)
  {
    s' := ProducerMoves(s, Test);
    if s'.producer.Growing? { s' := ProducerMoves(s', Grow(added)); }
  }

  lemma StoresKeyAndTail(s: State) returns (s': State)
    requires Reached(s) && s.producer.Found?
    ensures Reached(s') && s'.producer.TailDone? && s' == s.(index := s'.index, producer := s'.producer) && Slots(s') == Slots(s)
  {
    s' := ProducerMoves(s, Proceed);
    s' := ProducerMoves(s', Proceed);
  }

  lemma StoresBlock(s: State, block: nat) returns (s': State)
    requires Reached(s) && s.producer.TailDone?
    ensures Reached(s') && Slots(s') == Slots(s)
    ensures s' == s.(index := s'.index, producer := Adding, count := s.count + 1, stored := s.stored[s.first + s.count := block])
  {
    s' := ProducerMoves(s, Provide(block));
  }
}
