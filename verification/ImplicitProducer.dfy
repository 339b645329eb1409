/** An implicit producer's block index: the single writer's operations and its readers' lookups. */
module ImplicitProducer {
  import opened Options
  import opened PowersOfTwo
  import opened BlockSlots
  import opened BlockIndex

  /** What an enqueue needs when it begins a block: whether the test of the queue's size finds it full, whether an
      allocation of a larger index would succeed, and what requisition_block provides. */
  datatype Request = Request(full: bool, mallocOk: bool, block: Option<nat>)

  class ProducerIndex {
    var entries: seq<Entry>
    var headers: seq<Header>
    var tails: seq<nat>
    var nextCapacity: nat
    ghost var view: View

    ghost function Snapshot(): Index reads this { Index(entries, headers, tails) }

    /** There is an index; its constructor's allocation may have failed. */
    ghost predicate Exists() reads this { |headers| > 0 }

    ghost predicate Valid()
      reads this
    {
      Exists() ==> Inv(Snapshot(), view) && nextCapacity == 2 * Cur(Snapshot()).capacity
    }

    /** No operation is under way. */
    ghost predicate Idle()
      reads this
    {
      Valid() && (Exists() ==> view.floor == view.next == view.top)
    }

    /** The blocks in the index, by block number. */
    ghost function Contents(): map<int, nat>
      requires Valid()
      reads this
    {
      if Exists() then Blocks(Snapshot(), view) else map[]
    }

    constructor (initialCapacity: nat, mallocOk: bool, garbage: nat -> Option<nat>)
      requires IsPow2(initialCapacity) && 1 < initialCapacity && initialCapacity * BLOCK_SIZE <= MAX_ELEMENTS
      ensures Idle() && Exists() == mallocOk && Contents() == map[] && (Exists() ==> view.next == 0)
    {
      entries, headers, tails, nextCapacity := [], [], [], initialCapacity;
      new;
      if mallocOk {
        var index := [];
        for i := 0 to initialCapacity
          invariant |index| == |entries| == i && forall k :: 0 <= k < i ==> index[k] == k && entries[k].key == INVALID_BLOCK_BASE
          invariant headers == [] && tails == []
        {
          entries := entries + [Entry(INVALID_BLOCK_BASE, garbage(i))];
          index := index + [i];
        }
        headers := [Header(initialCapacity, index)];
        tails := [initialCapacity - 1];
        nextCapacity := 2 * initialCapacity;
        view := View(seq(initialCapacity, j => j), seq(initialCapacity, j => false), [0], map[], 0, 0, 0, 0);
        InitialInv(Snapshot(), view, initialCapacity);
      }
    }

    /** new_block_index, when there is an index already. */
    method NewBlockIndex(mallocOk: bool, garbage: nat -> Option<nat>) returns (ok: bool)
      requires Exists() && Valid() && Full(Snapshot(), view)
      modifies this
      ensures Valid() && Contents() == old(Contents()) && Evolves(old(Snapshot()), old(view), Snapshot(), view)
      ensures ok <==> mallocOk && 2 * old(Cap()) * BLOCK_SIZE <= MAX_ELEMENTS
      ensures view.floor == old(view.floor) && view.next == old(view.next) && view.top == old(view.top)
      ensures ok ==> CanInsert(Snapshot(), view) && !view.used[EntryAt(Snapshot(), view, view.next)]
      ensures !ok ==> Snapshot() == old(Snapshot()) && view == old(view)
      ensures ok ==> Cap() == 2 * old(Cap())
    {
      if !(mallocOk && nextCapacity * BLOCK_SIZE <= MAX_ELEMENTS) { return false; }
      Current(Snapshot(), view);
      FullIsCircle(Snapshot(), view);
      var L := |headers| - 1;
      var prev, prevTail := headers[L], tails[L];
      var index := CopyCircle(prev, prevTail, |entries|);
      var added, ids := NewEntries(prev.capacity, |entries|, garbage);
      CircleIsGrown(prev, prevTail, |entries|, index, ids);
      Publish(Header(nextCapacity, index + ids), added);
      return true;
    }

    /** The new index comes into use. */
    method Publish(header: Header, added: seq<Entry>)
      requires Exists() && Valid() && Circle(Snapshot(), view) && Fresh(Snapshot(), added)
      requires HeaderOk(Snapshot(), |headers| - 1) && 2 * Cap() * BLOCK_SIZE <= MAX_ELEMENTS
      requires header == Header(2 * Cap(), GrownIndex(Cur(Snapshot()), tails[|headers| - 1], |entries|))
      modifies this
      ensures Exists() && Valid() && Contents() == old(Contents()) && Evolves(old(Snapshot()), old(view), Snapshot(), view)
      ensures view.floor == old(view.floor) && view.next == old(view.next) && view.top == old(view.top)
      ensures CanInsert(Snapshot(), view) && !view.used[EntryAt(Snapshot(), view, view.next)] && Cap() == 2 * old(Cap())
    {
      ghost var t, v := Snapshot(), view;
      var capacity := headers[|headers| - 1].capacity;
      entries := entries + added;
      headers := headers + [header];
      tails := tails + [capacity - 1];
      nextCapacity := 2 * nextCapacity;
      view := GrowView(view, capacity);
      assert Snapshot() == GrowIn(t, added);
      Grown(t, v, added, Snapshot(), view);
    }

    /** The loop that makes the new entries; their values stay indeterminate. */
    static method NewEntries(count: nat, first: nat, garbage: nat -> Option<nat>) returns (added: seq<Entry>, ids: seq<nat>)
      ensures |added| == |ids| == count
      ensures forall k :: 0 <= k < count ==> added[k].key == INVALID_BLOCK_BASE && ids[k] == first + k
    {
      added, ids := [], [];
      for i := 0 to count
        invariant |added| == |ids| == i
        invariant forall k :: 0 <= k < i ==> added[k].key == INVALID_BLOCK_BASE && ids[k] == first + k
      {
        added := added + [Entry(INVALID_BLOCK_BASE, garbage(i))];
        ids := ids + [first + i];
      }
    }

    /** The copying loop: from the slot after the tail all the way round. */
    static method CopyCircle(prev: Header, prevTail: nat, ghost n: nat) returns (index: seq<nat>)
      requires prevTail < prev.capacity == |prev.index|
      ensures |index| == prev.capacity
      ensures forall j :: 0 <= j < |index| ==> index[j] == GrownEntry(prev, prevTail, n, j)
    {
      index := [];
      var prevPos := prevTail;
      while |index| < prev.capacity
        invariant |index| <= prev.capacity && prevPos < prev.capacity
        invariant prevPos == Slot(prevTail + |index|, prev.capacity)
        invariant forall j :: 0 <= j < |index| ==> index[j] == GrownEntry(prev, prevTail, n, j)
      {
        SlotAdd(prevTail + |index|, 1, prev.capacity);
        prevPos := (prevPos + 1) % prev.capacity;
        index := index + [prev.index[prevPos]];
      }
    }

    ghost function Cap(): (cap: nat)
      requires Exists() && Valid()
      reads this
    {
      Cur(Snapshot()).capacity
    }

    /** The next slot is taken: a whole circle ago a block was inserted that is still in the index. */
    ghost predicate Taken()
      requires Exists() && Valid()
      reads this
    {
      view.next - Cap() in Contents()
    }

    /** The next slot is free, or the index can grow. */
    ghost predicate Room(mallocOk: bool)
      requires Valid()
      reads this
    {
      Exists() && (Taken() ==> mallocOk && 2 * Cap() * BLOCK_SIZE <= MAX_ELEMENTS)
    }

    /** insert_block_index_entry's check of the slot after the tail. */
    method NextSlot() returns (newTail: nat, e: nat, taken: bool)
      requires Exists() && Valid()
      ensures newTail == Slot(view.next + Shift(view), Cur(Snapshot()).capacity)
      ensures e == EntryAt(Snapshot(), view, view.next) && (taken <==> Live(Snapshot(), view, e))
      ensures CanInsert(Snapshot(), view) ==> (taken <==> Taken())
    {
      if CanInsert(Snapshot(), view) { TakenIsLive(Snapshot(), view); }
      var L := |headers| - 1;
      NextSlotIs(Snapshot(), view);
      newTail := (tails[L] + 1) % headers[L].capacity;
      e := headers[L].index[newTail];
      taken := !(entries[e].key == INVALID_BLOCK_BASE || entries[e].block == None);
    }

    /** The first of its two stores. To a reader it looks as if the entry had been inserted and the tail moved back. */
    method StoreKey(blockStartIndex: nat, e: nat)
      requires Exists() && Valid() && CanInsert(Snapshot(), view) && blockStartIndex == Key(view.next)
      requires e == EntryAt(Snapshot(), view, view.next) && !Live(Snapshot(), view, e)
      modifies this`entries, this`view
      ensures Exists() && Valid() && Evolves(old(Snapshot()), old(view), Snapshot(), view)
      ensures view.floor == old(view.floor) && view.next == old(view.next) && view.top == view.next + 1
      ensures view.shifts == old(view.shifts) && e < |entries| && Pending(Snapshot(), view, e, view.next)
      ensures view.next !in old(Contents()) && Contents() - {view.next} == old(Contents())
    {
      ghost var t, v := Snapshot(), view;
      Current(t, v);
      entries := entries[e := entries[e].(key := blockStartIndex)];
      view := InsertView(view, e).(next := v.next);
      assert Snapshot() == KeyIn(t, e, v.next);
      KeyStored(t, v, Snapshot(), view, e);
    }

    /** The second. */
    method StoreTail(newTail: nat, e: nat)
      requires Exists() && Valid() && view.top == view.next + 1
      requires newTail == Slot(view.next + Shift(view), Cur(Snapshot()).capacity)
      requires e < |entries| && Pending(Snapshot(), view, e, view.next)
      modifies this`tails, this`view
      ensures Exists() && Valid() && Evolves(old(Snapshot()), old(view), Snapshot(), view)
      ensures view == old(view).(next := old(view.next) + 1) && Pending(Snapshot(), view, e, old(view.next))
      ensures Contents() == old(Contents())
    {
      ghost var t, v := Snapshot(), view;
      Current(t, v);
      tails := tails[|tails| - 1 := newTail];
      view := view.(next := view.next + 1);
      assert Snapshot() == TailIn(t, newTail);
      TailStored(t, v, Snapshot(), view, e);
    }

    method StoreEntry(blockStartIndex: nat, newTail: nat, e: nat)
      requires Exists() && Valid() && CanInsert(Snapshot(), view) && blockStartIndex == Key(view.next)
      requires newTail == Slot(view.next + Shift(view), Cur(Snapshot()).capacity)
      requires e == EntryAt(Snapshot(), view, view.next) && !Live(Snapshot(), view, e)
      modifies this`entries, this`tails, this`view
      ensures Exists() && Valid() && Evolves(old(Snapshot()), old(view), Snapshot(), view)
      ensures view.floor == old(view.floor) && view.next == view.top == old(view.next) + 1
      ensures e < |entries| && Pending(Snapshot(), view, e, old(view.next))
      ensures old(view.next) !in old(Contents()) && Contents() - {old(view.next)} == old(Contents())
    {
      ghost var t, v := Snapshot(), view;
      StoreKey(blockStartIndex, e);
      ghost var t1, v1 := Snapshot(), view;
      StoreTail(newTail, e);
      EvolvesTwice(t, v, t1, v1, Snapshot(), view);
    }

    /** insert_block_index_entry. With CannotAlloc, mallocOk is false. */
    method InsertBlockIndexEntry(blockStartIndex: nat, mallocOk: bool, garbage: nat -> Option<nat>) returns (ok: bool, e: nat)
      requires Valid() && (Exists() ==> CanInsert(Snapshot(), view) && blockStartIndex == Key(view.next))
      modifies this
      ensures Valid() && (old(Exists()) ==> Exists() && Evolves(old(Snapshot()), old(view), Snapshot(), view))
      ensures ok ==> old(Exists()) && view.floor == old(view.floor) && view.next == view.top == old(view.next) + 1
      ensures ok ==> e < |entries| && Pending(Snapshot(), view, e, old(view.next))
      ensures ok ==> old(view.next) !in old(Contents()) && Contents() - {old(view.next)} == old(Contents())
      ensures !ok ==> headers == old(headers) && Contents() == old(Contents()) && view == old(view)
      ensures ok <==> old(Room(mallocOk))
      ensures ok ==> Cap() == if old(Taken()) then 2 * old(Cap()) else old(Cap())
    {
      if headers == [] { return false, 0; }
      ghost var t, v := Snapshot(), view;
      var newTail;
      ok, newTail, e := MakeRoom(mallocOk, garbage);
      if !ok { return; }
      ghost var t1, v1 := Snapshot(), view;
      StoreEntry(blockStartIndex, newTail, e);
      EvolvesTwice(t, v, t1, v1, Snapshot(), view);
    }

    method MakeRoom(mallocOk: bool, garbage: nat -> Option<nat>) returns (ok: bool, newTail: nat, e: nat)
      requires Exists() && Valid() && CanInsert(Snapshot(), view)
      modifies this
      ensures Exists() && Valid() && Contents() == old(Contents()) && Evolves(old(Snapshot()), old(view), Snapshot(), view)
      ensures view.floor == old(view.floor) && view.next == old(view.next)
      ensures !ok ==> headers == old(headers) && view == old(view)
      ensures ok ==> CanInsert(Snapshot(), view) && newTail == Slot(view.next + Shift(view), Cur(Snapshot()).capacity)
      ensures ok ==> e == EntryAt(Snapshot(), view, view.next) && !Live(Snapshot(), view, e)
      ensures ok <==> old(Room(mallocOk))
      ensures ok ==> Cap() == if old(Taken()) then 2 * old(Cap()) else old(Cap())
    {
      EvolvesSelf(Snapshot(), view);
      var taken;
      newTail, e, taken := NextSlot();
      ok := true;
      if taken { ok, newTail, e := Grow(mallocOk, garbage); }
    }

    /** The slot after the tail of a new index holds an entry that was never used. */
    method FreshSlot() returns (newTail: nat, e: nat)
      requires Exists() && Valid() && !view.used[EntryAt(Snapshot(), view, view.next)]
      ensures newTail == Slot(view.next + Shift(view), Cur(Snapshot()).capacity)
      ensures e == EntryAt(Snapshot(), view, view.next) && !Live(Snapshot(), view, e)
    {
      var taken;
      newTail, e, taken := NextSlot();
    }

    /** The slot after the tail, once the index has grown. */
    method Grow(mallocOk: bool, garbage: nat -> Option<nat>) returns (ok: bool, newTail: nat, e: nat)
      requires Exists() && Valid() && Full(Snapshot(), view)
      modifies this
      ensures Exists() && Valid() && Contents() == old(Contents()) && Evolves(old(Snapshot()), old(view), Snapshot(), view)
      ensures view.floor == old(view.floor) && view.next == old(view.next)
      ensures !ok ==> headers == old(headers) && view == old(view)
      ensures ok ==> CanInsert(Snapshot(), view) && newTail == Slot(view.next + Shift(view), Cur(Snapshot()).capacity)
      ensures ok ==> e == EntryAt(Snapshot(), view, view.next) && !Live(Snapshot(), view, e) && Cap() == 2 * old(Cap())
      ensures ok <==> mallocOk && 2 * old(Cap()) * BLOCK_SIZE <= MAX_ELEMENTS
    {
      newTail, e := 0, 0;
      ok := NewBlockIndex(mallocOk, garbage);
      if ok { newTail, e := FreshSlot(); }
    }

    /** rewind_block_index_tail. */
    method RewindBlockIndexTail()
      requires Exists() && Valid() && view.floor < view.next
      modifies this`tails, this`view
      ensures Exists() && Valid() && Contents() == old(Contents()) && Evolves(old(Snapshot()), old(view), Snapshot(), view)
      ensures view == old(view).(next := old(view.next) - 1)
    {
      ghost var t, v := Snapshot(), view;
      Current(t, v);
      var L := |headers| - 1;
      var tail: int := tails[L];
      tails := tails[L := (tail - 1) % headers[L].capacity];
      view := view.(next := view.next - 1);
      RewindKeeps(t, v, Snapshot(), view);
      assert v.shifts[..|v.shifts|] == v.shifts && t.headers[..|t.headers|] == t.headers;
    }

    /** idxEntry->value.store. */
    method StoreBlock(e: nat, block: Option<nat>)
      requires Exists() && Valid() && e < |entries| && Home(Snapshot(), view, e) && view.used[e]
      modifies this`entries
      ensures Exists() && Valid() && Evolves(old(Snapshot()), view, Snapshot(), view)
      ensures var n := view.seats[e];
        Contents() == if block.Some? then old(Contents())[n := block.value] else old(Contents()) - {n}
    {
      ghost var t := Snapshot();
      entries := entries[e := entries[e].(block := block)];
      assert Snapshot() == WithBlock(t, e, block);
      StoreKeeps(t, view, Snapshot(), e, block);
      StoreBlocks(t, view, Snapshot(), e, block);
      assert view.shifts[..|view.shifts|] == view.shifts && t.headers[..|t.headers|] == t.headers;
    }

    /** The end of an operation, for the proofs. */
    ghost method Settle()
      requires Exists() && Valid() && Below(Contents(), view.next)
      modifies this`view
      ensures Idle() && Exists() && Contents() == old(Contents()) && view.next == old(view.next)
      ensures Evolves(Snapshot(), old(view), Snapshot(), view)
    {
      ghost var v := view;
      view := view.(floor := view.next, top := view.next);
      Settled(Snapshot(), v, view);
    }

    /** get_block_index_entry_for_index, for a word that stands for element index i. */
    method EntryFor(index: nat, ghost i: nat) returns (e: nat)
      requires Exists() && Valid() && view.low < view.next && index == i % WORD && i / BLOCK_SIZE in Contents()
      ensures e < |entries| && Pending(Snapshot(), view, e, i / BLOCK_SIZE)
      ensures entries[e].block == Some(Contents()[i / BLOCK_SIZE])
    {
      var L := |headers| - 1;
      LookupIs(Snapshot(), view, i, i / BLOCK_SIZE);
      var tailBase := entries[headers[L].index[tails[L]]].key;
      e := headers[L].index[SlotFor(index, tails[L], tailBase, headers[L].capacity)];
    }

    /** A consumer that takes a block's last element clears the block's entry. */
    method Release(index: nat, ghost i: nat)
      requires Exists() && Idle() && index == i % WORD && i / BLOCK_SIZE in Contents()
      modifies this`entries
      ensures Idle() && Contents() == old(Contents()) - {i / BLOCK_SIZE}
      ensures Evolves(old(Snapshot()), view, Snapshot(), view)
    {
      LiveBelow(Snapshot(), view, i / BLOCK_SIZE);
      ClearEntry(index, i);
    }

    /** Looks a block's entry up and clears it. */
    method ClearEntry(index: nat, ghost i: nat)
      requires Exists() && Valid() && view.low < view.next && index == i % WORD && i / BLOCK_SIZE in Contents()
      modifies this`entries
      ensures Exists() && Valid() && Contents() == old(Contents()) - {i / BLOCK_SIZE}
      ensures Evolves(old(Snapshot()), view, Snapshot(), view)
    {
      var e := EntryFor(index, i);
      StoreBlock(e, None);
    }

    /** An index entry for block n, and the block itself; without the block, the entry is given back. */
    method AddBlock(n: nat, q: Request, garbage: nat -> Option<nat>) returns (ok: bool)
      requires Valid() && (Exists() ==> CanInsert(Snapshot(), view) && n == view.next && Below(Contents(), n))
      modifies this
      ensures Valid() && Exists() == old(Exists())
      ensures Exists() ==> Evolves(old(Snapshot()), old(view), Snapshot(), view) && view.floor == old(view.floor)
      ensures ok <==> !q.full && old(Room(q.mallocOk)) && q.block.Some?
      ensures ok ==> Cap() == if old(Taken()) then 2 * old(Cap()) else old(Cap())
      ensures Contents() == if ok then old(Contents())[n := q.block.value] else old(Contents())
      ensures Exists() ==> view.next == (if ok then n + 1 else n) && (ok ==> view.top == view.next)
    {
      if Exists() { EvolvesSelf(Snapshot(), view); }
      if q.full { return false; }
      ok := AddEntry(n, q.mallocOk, garbage, q.block);
    }

    /** ... once the sub-queue has been found not to be full. */
    method AddEntry(n: nat, mallocOk: bool, garbage: nat -> Option<nat>, block: Option<nat>) returns (ok: bool)
      requires Valid() && (Exists() ==> CanInsert(Snapshot(), view) && n == view.next && Below(Contents(), n))
      modifies this
      ensures Valid() && Exists() == old(Exists())
      ensures Exists() ==> Evolves(old(Snapshot()), old(view), Snapshot(), view) && view.floor == old(view.floor)
      ensures ok <==> old(Room(mallocOk)) && block.Some?
      ensures ok ==> Cap() == if old(Taken()) then 2 * old(Cap()) else old(Cap())
      ensures Contents() == if ok then old(Contents())[n := block.value] else old(Contents())
      ensures Exists() ==> view.next == (if ok then n + 1 else n) && (ok ==> view.top == view.next)
    {
      ghost var t, v, before := Snapshot(), view, Contents();
      var inserted, e := InsertBlockIndexEntry((n * BLOCK_SIZE) % WORD, mallocOk, garbage);
      if !inserted { return false; }
      ghost var t1, v1 := Snapshot(), view;
      FinishInsert(e, n, block, before);
      EvolvesTwice(t, v, t1, v1, Snapshot(), view);
      ok := block.Some?;
    }

    method FinishInsert(e: nat, ghost n: int, block: Option<nat>, ghost before: map<int, nat>)
      requires Exists() && Valid() && e < |entries| && Pending(Snapshot(), view, e, n)
      requires view.floor <= n && view.next == n + 1
      requires Contents() - {n} == before
      modifies this
      ensures Exists() && Valid() && Contents() == if block.Some? then before[n := block.value] else before
      ensures view == if block.Some? then old(view) else old(view).(next := old(view.next) - 1)
      ensures Evolves(old(Snapshot()), old(view), Snapshot(), view) && headers == old(headers)
    {
      if block.None? {
        UndoInsert(e, n, before);
      } else {
        StoreBlock(e, block);
        assert Contents() == before[n := block.value];
      }
    }

    /** The allocation of a block failed. */
    method UndoInsert(e: nat, ghost n: int, ghost before: map<int, nat>)
      requires Exists() && Valid() && e < |entries| && Pending(Snapshot(), view, e, n)
      requires view.floor <= n && view.next == n + 1
      requires Contents() - {n} == before
      modifies this
      ensures Exists() && Valid() && Contents() == before && view == old(view).(next := old(view.next) - 1)
      ensures Evolves(old(Snapshot()), old(view), Snapshot(), view) && headers == old(headers)
    {
      ghost var t, v := Snapshot(), view;
      RewindBlockIndexTail();
      ghost var t1, v1 := Snapshot(), view;
      RewoundPending(t, v, t1, v1, e, n);
      StoreBlock(e, None);
      EvolvesTwice(t, v, t1, v1, Snapshot(), view);
    }

    /** The index part of enqueue at a block boundary: first is the number of the block to begin. */
    method EnqueueBlock(first: nat, q: Request, garbage: nat -> Option<nat>) returns (ok: bool)
      requires Idle() && (Exists() ==> first == view.next)
      modifies this
      ensures Idle() && Exists() == old(Exists())
      ensures Exists() ==> Evolves(old(Snapshot()), old(view), Snapshot(), view)
      ensures ok <==> !q.full && old(Room(q.mallocOk)) && q.block.Some?
      ensures Contents() == if ok then old(Contents())[first := q.block.value] else old(Contents())
      ensures Exists() ==> view.next == if ok then first + 1 else first
    {
      ghost var t, v := Snapshot(), view;
      if Exists() { AllBelow(t, v); }
      ok := AddBlock(first, q, garbage);
      if Exists() {
        ghost var t1, v1 := Snapshot(), view;
        Settle();
        EvolvesTwice(t, v, t1, v1, Snapshot(), view);
      }
    }

    /** The first count blocks of an operation are in, and nothing else has changed. */
    ghost predicate Adding(first: nat, count: nat, qs: seq<Request>, before: map<int, nat>)
      reads this
    {
      && Exists() && Valid() && count <= |qs| && view.floor == first && view.next == first + count
      && AllSome(qs[..count]) && Contents() == Added(before, first, qs[..count])
    }

    method AddNext(first: nat, count: nat, qs: seq<Request>, garbage: nat -> Option<nat>, ghost before: map<int, nat>, ghost cap: nat)
      returns (ok: bool)
      requires Adding(first, count, qs, before) && count < |qs| && view.next == view.top && Below(before, first) && cap == Cap()
      modifies this
      ensures Adding(first, if ok then count + 1 else count, qs, before) && (ok ==> view.next == view.top)
      ensures Evolves(old(Snapshot()), old(view), Snapshot(), view)
      ensures ok <==> Fits(before, first, cap, qs, count)
      ensures ok ==> Cap() == NextCap(before, first, cap, count)
    {
      ghost var m := Contents();
      NextSlotFor(first, count, qs, before);
      ok := AddBlock(first + count, qs[count], garbage);
      if ok { Counted(first, count, qs, before, m); }
    }

    ghost method NextSlotFor(first: nat, count: nat, qs: seq<Request>, before: map<int, nat>)
      requires Adding(first, count, qs, before) && view.next == view.top && Below(before, first)
      ensures CanInsert(Snapshot(), view) && Below(Contents(), view.next)
      ensures Taken() <==> SlotTaken(before, first, Cap(), count)
    {
      CanAdd(Snapshot(), view, Contents(), before, first, qs[..count]);
      AddedHas(before, first, qs[..count], first + count - Cap());
    }

    /** The block just added is the next of the operation. */
    ghost method Counted(first: nat, count: nat, qs: seq<Request>, before: map<int, nat>, m: map<int, nat>)
      requires Exists() && Valid() && count < |qs| && view.floor == first && view.next == first + count + 1
      requires AllSome(qs[..count]) && m == Added(before, first, qs[..count]) && qs[count].block.Some?
      requires Contents() == m[first + count := qs[count].block.value]
      ensures Adding(first, count + 1, qs, before)
    {
      AddedOne(before, first, qs, count);
    }

    method AddAll(first: nat, qs: seq<Request>, garbage: nat -> Option<nat>, ghost before: map<int, nat>)
      returns (count: nat)
      requires Adding(first, 0, qs, before) && view.next == view.top && Below(before, first)
      modifies this
      ensures Adding(first, count, qs, before) && Evolves(old(Snapshot()), old(view), Snapshot(), view)
      ensures count == |qs| <==> AllFit(before, first, old(Cap()), qs, 0)
    {
      ghost var t, v, cap := Snapshot(), view, Cap();
      ghost var fits := AllFit(before, first, cap, qs, 0);
      EvolvesSelf(t, v);
      count := 0;
      var ok := true;
      while count < |qs| && ok
        invariant Adding(first, count, qs, before) && Evolves(t, v, Snapshot(), view)
        invariant ok ==> view.next == view.top && cap == Cap()
        invariant fits <==> ok && AllFit(before, first, cap, qs, count)
        invariant !ok ==> count < |qs|
        decreases |qs| - count, ok
      {
        ghost var t1, v1 := Snapshot(), view;
        ok := AddNext(first, count, qs, garbage, before, cap);
        EvolvesTwice(t, v, t1, v1, Snapshot(), view);
        cap := NextCap(before, first, cap, count);
        if ok { count := count + 1; }
      }
    }

    /** The index part of enqueue_bulk: all the blocks, or none of them. */
    method EnqueueBlocks(first: nat, qs: seq<Request>, garbage: nat -> Option<nat>) returns (ok: bool)
      requires Idle() && Exists() && first == view.next
      modifies this
      ensures Idle() && Exists() && Evolves(old(Snapshot()), old(view), Snapshot(), view)
      ensures ok <==> AllFit(old(Contents()), first, old(Cap()), qs, 0)
      ensures ok ==> AllSome(qs)
      ensures Contents() == if ok then Added(old(Contents()), first, qs) else old(Contents())
      ensures view.next == if ok then first + |qs| else first
    {
      ghost var t, v, before := Snapshot(), view, Contents();
      AllBelow(t, v);
      assert qs[..0] == [];
      var count := AddAll(first, qs, garbage, before);
      ghost var t2, v2 := Snapshot(), view;
      ok := count == |qs|;
      assert ok ==> qs[..count] == qs;
      if !ok {
        RollBack(first, count, qs, before);
        EvolvesTwice(t, v, t2, v2, Snapshot(), view);
      } else {
        AddedBelow(before, first, qs);
      }
      ghost var t3, v3 := Snapshot(), view;
      Settle();
      EvolvesTwice(t, v, t3, v3, Snapshot(), view);
    }

    /** Part of the blocks added are left, from number first + j on. */
    ghost predicate Removing(first: nat, j: nat, count: nat, qs: seq<Request>, before: map<int, nat>)
      reads this
    {
      && Exists() && Valid() && j <= count <= |qs| && view.floor == first && view.next == first + count - j
      && AllSome(qs[j..count]) && Contents() == Added(before, first + j, qs[j..count])
    }

    /** Gives back the entries of the blocks added so far, looking each one up; the tail moves back under the lookups. */
    method RollBack(first: nat, count: nat, qs: seq<Request>, ghost before: map<int, nat>)
      requires Adding(first, count, qs, before) && Below(before, first)
      modifies this
      ensures Exists() && Valid() && Contents() == before && view.next == first == view.floor
      ensures Evolves(old(Snapshot()), old(view), Snapshot(), view)
    {
      ghost var t, v := Snapshot(), view;
      EvolvesSelf(t, v);
      assert qs[0..count] == qs[..count];
      for j := 0 to count
        invariant Removing(first, j, count, qs, before) && Evolves(t, v, Snapshot(), view)
      {
        ghost var t1, v1 := Snapshot(), view;
        RemoveNext(first, j, count, qs, before);
        EvolvesTwice(t, v, t1, v1, Snapshot(), view);
      }
      assert qs[count..count] == [];
    }

    method RemoveNext(first: nat, j: nat, count: nat, qs: seq<Request>, ghost before: map<int, nat>)
      requires Removing(first, j, count, qs, before) && Below(before, first) && j < count
      modifies this
      ensures Removing(first, j + 1, count, qs, before) && Evolves(old(Snapshot()), old(view), Snapshot(), view)
    {
      ghost var m := RestOfAdded(before, first, j, count, qs);
      GiveBack(first + j);
      assert Contents() == m;
    }

    method GiveBack(n: nat)
      requires Exists() && Valid() && n in Contents() && view.floor < view.next
      modifies this
      ensures Exists() && Valid() && Contents() == old(Contents()) - {n}
      ensures view == old(view).(next := old(view.next) - 1) && Evolves(old(Snapshot()), old(view), Snapshot(), view)
    {
      ghost var t, v := Snapshot(), view;
      ClearEntry((n * BLOCK_SIZE) % WORD, n * BLOCK_SIZE);
      ghost var t1 := Snapshot();
      RewindBlockIndexTail();
      EvolvesTwice(t, v, t1, v, Snapshot(), view);
    }
  }

  /** The slot for the k-th block to add is taken: the block a whole circle ago was in the index before, or is one
      of those added. */
  ghost predicate SlotTaken(before: map<int, nat>, first: int, cap: nat, k: nat) {
    first + k - cap in before || 0 <= k - cap < k
  }

  /** The k-th block can be added to an index with cap slots: the queue is not full, the block is there, and the index
      can double if the slot is taken. */
  ghost predicate Fits(before: map<int, nat>, first: int, cap: nat, qs: seq<Request>, k: nat)
    requires k < |qs|
  {
    && !qs[k].full && qs[k].block.Some?
    && (SlotTaken(before, first, cap, k) ==> qs[k].mallocOk && 2 * cap * BLOCK_SIZE <= MAX_ELEMENTS)
  }

  ghost function NextCap(before: map<int, nat>, first: int, cap: nat, k: nat): nat {
    if SlotTaken(before, first, cap, k) then 2 * cap else cap
  }

  /** All blocks from the k-th on can be added. */
  ghost predicate AllFit(before: map<int, nat>, first: int, cap: nat, qs: seq<Request>, k: nat)
    requires k <= |qs|
    decreases |qs| - k
  {
    k == |qs| || (Fits(before, first, cap, qs, k) && AllFit(before, first, NextCap(before, first, cap, k), qs, k + 1))
  }

  lemma {:induction false} AddedHas(m: map<int, nat>, first: int, qs: seq<Request>, b: int)
    requires AllSome(qs)
    ensures b in Added(m, first, qs) <==> b in m || 0 <= b - first < |qs|
  {
    if qs != [] { AddedHas(m, first, qs[..|qs| - 1], b); }
  }

  ghost predicate AllSome(qs: seq<Request>) { forall j :: 0 <= j < |qs| ==> qs[j].block.Some? }

  /** The map with the blocks under the numbers from first on. */
  ghost function Added(m: map<int, nat>, first: int, qs: seq<Request>): map<int, nat>
    requires AllSome(qs)
  {
    var n := |qs| - 1;
    if qs == [] then m else Added(m, first, qs[..n])[first + n := qs[n].block.value]
  }

  lemma {:induction false} AddedBelow(m: map<int, nat>, first: int, qs: seq<Request>)
    requires AllSome(qs) && Below(m, first)
    ensures Below(Added(m, first, qs), first + |qs|)
  {
    if qs != [] { AddedBelow(m, first, qs[..|qs| - 1]); }
  }

  lemma AddedOne(m: map<int, nat>, first: int, qs: seq<Request>, count: nat)
    requires count < |qs| && AllSome(qs[..count]) && qs[count].block.Some?
    ensures AllSome(qs[..count + 1])
    ensures Added(m, first, qs[..count + 1]) == Added(m, first, qs[..count])[first + count := qs[count].block.value]
  {
    assert qs[..count + 1][..count] == qs[..count];
  }

  /** Taking the first block out again. */
  lemma {:induction false} FirstOfAdded(m: map<int, nat>, first: int, qs: seq<Request>)
    requires qs != [] && AllSome(qs) && Below(m, first)
    ensures first in Added(m, first, qs) && Added(m, first, qs) - {first} == Added(m, first + 1, qs[1..])
  {
    var n := |qs| - 1;
    if n == 0 {
      assert qs[..0] == [] && qs[1..] == [];
    } else {
      FirstOfAdded(m, first, qs[..n]);
      assert qs[..n][1..] == qs[1..][..n - 1];
    }
  }

  lemma RestOfAdded(m: map<int, nat>, first: int, j: nat, count: nat, qs: seq<Request>) returns (rest: map<int, nat>)
    requires j < count <= |qs| && AllSome(qs[j..count]) && Below(m, first)
    ensures AllSome(qs[j + 1..count]) && rest == Added(m, first + j + 1, qs[j + 1..count])
    ensures first + j in Added(m, first + j, qs[j..count]) && rest == Added(m, first + j, qs[j..count]) - {first + j}
  {
    FirstOfAdded(m, first + j, qs[j..count]);
    assert qs[j..count][1..] == qs[j + 1..count];
    rest := Added(m, first + j + 1, qs[j + 1..count]);
  }

  lemma CanAdd(t: Index, v: View, m: map<int, nat>, before: map<int, nat>, first: int, qs: seq<Request>)
    requires Inv(t, v) && AllSome(qs) && m == Added(before, first, qs) && m == Blocks(t, v) && Below(before, first)
    requires v.next == v.top && v.floor == first && v.next == first + |qs|
    ensures CanInsert(t, v) && Below(m, v.next)
  {
    AddedBelow(before, first, qs);
    if qs != [] { FirstOfAdded(before, first, qs); }
  }

  lemma EvolvesSelf(t: Index, v: View)
    requires |t.headers| == |v.shifts|
    ensures Evolves(t, v, t, v)
  {
    assert v.shifts[..|v.shifts|] == v.shifts && t.headers[..|t.headers|] == t.headers;
  }

  ghost predicate Below(m: map<int, nat>, n: int) { forall b :: b in m ==> b < n }

  lemma Settled(t: Index, v: View, v': View)
    requires Inv(t, v) && v' == v.(floor := v.next, top := v.next) && Below(Blocks(t, v), v.next)
    ensures Inv(t, v') && Blocks(t, v') == Blocks(t, v) && Evolves(t, v, t, v')
  {
    SettleKeeps(t, v, v');
    assert v.shifts[..|v.shifts|] == v.shifts && t.headers[..|t.headers|] == t.headers;
  }

  lemma RewoundPending(t: Index, v: View, t': Index, v': View, e: nat, n: int)
    requires Shape(t, v) && e < |t.entries| && Pending(t, v, e, n) && Shape(t', v')
    requires t'.headers == t.headers && |t'.entries| == |t.entries| && v.next > 0 && v' == v.(next := v.next - 1)
    ensures Pending(t', v', e, n)
  {
    SameEntry(t, v, t', v', n);
    forall h | v.births[n] <= h < |t.headers| ensures EntryIn(t', v', h, n) == e { assert EntryIn(t, v, h, n) == e; }
  }

  lemma LiveBelow(t: Index, v: View, b: int)
    requires Inv(t, v) && b in Blocks(t, v)
    ensures v.low <= b < v.top
  {
    assert Home(t, v, EntryAt(t, v, b));
  }

  lemma AllBelow(t: Index, v: View)
    requires Inv(t, v)
    ensures Below(Blocks(t, v), v.top)
  {
    forall b | b in Blocks(t, v) ensures b < v.top { LiveBelow(t, v, b); }
  }

  lemma LookupIs(t: Index, v: View, i: nat, b: nat)
    requires Inv(t, v) && v.low < v.next && b == i / BLOCK_SIZE && b in Blocks(t, v)
    ensures HeaderOk(t, |t.headers| - 1)
    ensures var H, tail := Cur(t), t.tails[|t.tails| - 1];
      var e := H.index[SlotFor(i % WORD, tail, t.entries[H.index[tail]].key, H.capacity)];
      Pending(t, v, e, b) && t.entries[e].block == Some(Blocks(t, v)[b])
  {
    var h := |t.headers| - 1;
    TailKey(t, v, b);
    ReadKey(t, v, h, t.tails[h]);
    assert Home(t, v, EntryAt(t, v, b));
    TornLookup(t, v, h, t.tails[h], v.seats[TailEntry(t, v, h)], i, b);
  }

  lemma NextSlotIs(t: Index, v: View)
    requires Inv(t, v)
    ensures HeaderOk(t, |t.headers| - 1)
    ensures Slot(t.tails[|t.tails| - 1] + 1, Cur(t).capacity) == Slot(v.next + Shift(v), Cur(t).capacity)
    ensures var e := EntryAt(t, v, v.next);
      Live(t, v, e) <==> !(t.entries[e].key == INVALID_BLOCK_BASE || t.entries[e].block == None)
  {
    SlotAdd(v.next - 1 + Shift(v), 1, Cur(t).capacity);
    assert KeyOk(t, v, EntryAt(t, v, v.next));
  }

  /** A block that is a whole circle old is in the slot to use next. */
  lemma TakenIsLive(t: Index, v: View)
    requires Inv(t, v) && CanInsert(t, v)
    ensures Live(t, v, EntryAt(t, v, v.next)) <==> v.next - Cur(t).capacity in Blocks(t, v)
  {
    SlotTurn(v.next + Shift(v), Cur(t).capacity);
    if Live(t, v, EntryAt(t, v, v.next)) {
      OldestSeat(t, v);
      LiveHolds(t, v, EntryAt(t, v, v.next));
    }
  }

  lemma KeyStored(t: Index, v: View, t': Index, v': View, e: nat)
    requires Inv(t, v) && CanInsert(t, v) && e == EntryAt(t, v, v.next) && !Live(t, v, e)
    requires t' == KeyIn(t, e, v.next) && v' == InsertView(v, e).(next := v.next)
    ensures Inv(t', v') && Evolves(t, v, t', v') && Pending(t', v', e, v.next)
    ensures v.next !in Blocks(t, v) && Blocks(t', v') - {v.next} == Blocks(t, v)
  {
    KeyKeeps(t, v, t', v', e);
    assert v.shifts[..|v.shifts|] == v.shifts && t.headers[..|t.headers|] == t.headers;
  }

  lemma TailStored(t: Index, v: View, t': Index, v': View, e: nat)
    requires Inv(t, v) && e < |t.entries| && Pending(t, v, e, v.next) && v.top == v.next + 1
    requires t' == TailIn(t, Slot(v.next + Shift(v), Cur(t).capacity)) && v' == v.(next := v.next + 1)
    ensures Inv(t', v') && Evolves(t, v, t', v') && Pending(t', v', e, v.next) && Blocks(t', v') == Blocks(t, v)
  {
    TailKeeps(t, v, t', v', e);
    assert v.shifts[..|v.shifts|] == v.shifts && t.headers[..|t.headers|] == t.headers;
  }

  lemma InitialInv(t: Index, v: View, cap: nat)
    requires IsPow2(cap) && 1 < cap && cap * BLOCK_SIZE <= MAX_ELEMENTS
    requires |t.entries| == cap && |t.headers| == 1 && t.tails == [cap - 1]
    requires t.headers[0].capacity == cap == |t.headers[0].index|
    requires forall k :: 0 <= k < cap ==> t.headers[0].index[k] == k && t.entries[k].key == INVALID_BLOCK_BASE
    requires v == View(seq(cap, j => j), seq(cap, j => false), [0], map[], 0, 0, 0, 0)
    ensures Inv(t, v) && Blocks(t, v) == map[]
  {
    Pow2Divides(cap);
    assert cap == cap * 1;
    assert HeaderOk(t, 0);
    SlotTurn(-1, cap);
    SlotSmall(cap - 1, cap);
    forall h: nat, i: nat | h < |t.headers| ensures SeatAt(t, v, h, i) {
      if i < cap { SlotSmall(i, cap); }
    }
  }

  lemma Grown(t: Index, v: View, added: seq<Entry>, t': Index, v': View)
    requires Growth(t, v, added, t', v') && 2 * Cur(t).capacity * BLOCK_SIZE <= MAX_ELEMENTS
    ensures Inv(t', v') && Blocks(t', v') == Blocks(t, v) && Evolves(t, v, t', v')
    ensures CanInsert(t', v') && !v'.used[EntryAt(t', v', v'.next)]
    ensures Cur(t').capacity == 2 * Cur(t).capacity
  {
    GrowKeeps(t, v, added, t', v');
    GrowBlocks(t, v, added, t', v');
    GrowRoom(t, v, added, t', v');
  }

  lemma Current(t: Index, v: View)
    requires Inv(t, v)
    ensures HeaderOk(t, |t.headers| - 1) && |t.tails| == |t.headers|
  {
  }

  lemma CircleIsGrown(prev: Header, prevTail: nat, n: nat, index: seq<nat>, ids: seq<nat>)
    requires |index| == |ids| == prev.capacity == |prev.index| && prev.capacity > 0
    requires forall j :: 0 <= j < |index| ==> index[j] == GrownEntry(prev, prevTail, n, j)
    requires forall k :: 0 <= k < |ids| ==> ids[k] == n + k
    ensures index + ids == GrownIndex(prev, prevTail, n)
  {
  }
}
