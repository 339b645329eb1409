/** The quadratic-probing hash table, refined to a finite map. */
module HashTable {
  import opened Options
  import opened PowersOfTwo
  import opened Probing
  import opened Remainders

  datatype Status = Success | BadAlloc | Error

  datatype Entry<K, V> = Entry(key: K, value: V, occupied: bool)

  /** An array of more entries than this does not fit the address space. */
  const MAX_CAPACITY := 0x4000_0000_0000_0000

  // ---------------------------------------------------------------- tables as sequences of entries

  function Slot<K>(hash: K -> nat, key: K, i: nat, cap: nat): (slot: nat)
    requires cap > 0
    ensures slot < cap
  {
    Probe(hash(key) % cap, i, cap)
  }

  /** A probe for key ends at such an entry. */
  predicate Ends<K(==), V>(e: Entry<K, V>, key: K) { !e.occupied || e.key == key }

  /** The search for key ends at its i-th probe. */
  ghost predicate EndsAt<K, V>(buf: seq<Entry<K, V>>, hash: K -> nat, key: K, i: nat) {
    && i + 1 < WORD && |buf| > 0
    && Ends(buf[Slot(hash, key, i, |buf|)], key)
    && forall q :: 0 <= q < i ==> !Ends(buf[Slot(hash, key, q, |buf|)], key)
  }

  /** The entry at slot j is where the search for its key ends. */
  ghost predicate AtHome<K, V>(buf: seq<Entry<K, V>>, hash: K -> nat, j: nat)
    requires j < |buf|
  {
    exists i: nat :: EndsAt(buf, hash, buf[j].key, i) && Slot(hash, buf[j].key, i, |buf|) == j
  }

  /** A well-formed buffer: it fits the address space, and every entry is at home. */
  ghost predicate Table<K, V>(buf: seq<Entry<K, V>>, hash: K -> nat) {
    && |buf| <= MAX_CAPACITY
    && forall j :: 0 <= j < |buf| && buf[j].occupied ==> AtHome(buf, hash, j)
  }

  ghost predicate DistinctKeys<K, V>(buf: seq<Entry<K, V>>) {
    forall i, j :: 0 <= i < j < |buf| && buf[i].occupied && buf[j].occupied ==> buf[i].key != buf[j].key
  }

  /** The finite map a buffer stands for. */
  ghost function Contents<K, V>(buf: seq<Entry<K, V>>): map<K, V> {
    if buf == [] then map[]
    else
      var m, e := Contents(buf[..|buf| - 1]), buf[|buf| - 1];
      if e.occupied then m[e.key := e.value] else m
  }

  lemma SearchIsUnique<K, V>(buf: seq<Entry<K, V>>, hash: K -> nat, key: K, i: nat, j: nat)
    requires EndsAt(buf, hash, key, i) && EndsAt(buf, hash, key, j)
    ensures i == j
  {
  }

  lemma TableKeysDistinct<K, V>(buf: seq<Entry<K, V>>, hash: K -> nat)
    requires Table(buf, hash)
    ensures DistinctKeys(buf)
  {
    forall i, j | 0 <= i < j < |buf| && buf[i].occupied && buf[j].occupied ensures buf[i].key != buf[j].key {
      assert AtHome(buf, hash, i) && AtHome(buf, hash, j);
    }
  }

  lemma CapacityExponent(cap: nat) returns (k: nat)
    requires cap <= MAX_CAPACITY && IsPow2(cap)
    ensures k < 64 && cap == Pow2(k)
  {
    k :| cap == Pow2(k);
    if k >= 63 {
      Pow2Grows(63, k);
      Pow2Word();
    }
  }

  /** With a free slot every search ends, whatever the capacity. */
  lemma SearchEnds<K, V>(buf: seq<Entry<K, V>>, hash: K -> nat, key: K, free: nat)
    requires free < |buf| <= MAX_CAPACITY && !buf[free].occupied
    ensures exists i: nat :: i + 1 < WORD && Ends(buf[Slot(hash, key, i, |buf|)], key)
  {
    var i := AnyCapacityCovered(hash(key) % |buf|, |buf|, free);
    assert Ends(buf[Slot(hash, key, i, |buf|)], key);
  }

  /** The search ends within as many probes as there are slots. */
  ghost predicate EndsInTime<K, V>(buf: seq<Entry<K, V>>, hash: K -> nat, key: K) {
    exists i: nat :: i < |buf| && Ends(buf[Slot(hash, key, i, |buf|)], key)
  }

  /** With a free slot and a capacity that is a power of two, it ends within the first |buf| probes. */
  lemma SearchEndsInTime<K, V>(buf: seq<Entry<K, V>>, hash: K -> nat, key: K, free: nat)
    requires free < |buf| <= MAX_CAPACITY && IsPow2(|buf|) && !buf[free].occupied
    ensures EndsInTime(buf, hash, key)
  {
    var k := CapacityExponent(|buf|);
    var i := ProbesCover(hash(key) % |buf|, k, free);
    assert Ends(buf[Slot(hash, key, i, |buf|)], key);
  }

  ghost predicate HasFree<K, V>(buf: seq<Entry<K, V>>) { exists j :: 0 <= j < |buf| && !buf[j].occupied }

  /** Every search in a table of cap slots with a free slot ends in time. */
  ghost predicate AllEndInTime(cap: nat) {
    forall buf: seq<Entry<nat, bool>>, key: nat {:trigger EndsInTime(buf, Itself(), key)} ::
      |buf| == cap && Table(buf, Itself()) && HasFree(buf) ==> EndsInTime(buf, Itself(), key)
  }

  /** A hash function. */
  function Itself(): nat -> nat { (n: nat) => n }

  /** A table with one free slot, each entry in the slot that its key hashes to. */
  function AllBut(cap: nat, slot: nat): (buf: seq<Entry<nat, bool>>)
    requires slot < cap
  {
    seq(cap, j requires 0 <= j < cap => Entry(j, true, j != slot))
  }

  lemma AllButIsTable(cap: nat, slot: nat)
    requires slot < cap <= MAX_CAPACITY
    ensures Table(AllBut(cap, slot), Itself()) && HasFree(AllBut(cap, slot))
  {
    var buf := AllBut(cap, slot);
    forall j | 0 <= j < |buf| && buf[j].occupied ensures AtHome(buf, Itself(), j) {
      Small(j, cap);
      FirstProbe(j, cap);
      assert EndsAt(buf, Itself(), buf[j].key, 0);
    }
    assert !buf[slot].occupied;
  }

  /** A capacity that is no power of two has a table with a free slot and a key whose search passes the free slot by
      for the first 2^32 probes. */
  lemma SlowSearch(cap: nat) returns (buf: seq<Entry<nat, bool>>, key: nat)
    requires 0 < cap <= MAX_CAPACITY && !IsPow2(cap)
    ensures |buf| == cap && Table(buf, Itself()) && HasFree(buf)
    ensures forall i: nat :: i < 0x1_0000_0000 ==> !Ends(buf[Slot(Itself(), key, i, cap)], key)
  {
    var slot := OtherCapacityMisses(cap);
    buf, key := AllBut(cap, slot), cap;
    AllButIsTable(cap, slot);
    Small(0, cap);
    ModAdd(0, cap, 1);
  }

  /** So in tables that are not beyond all size, searches end in time exactly for powers of two. */
  lemma EndInTimeIffPowerOfTwo(cap: nat)
    requires 0 < cap <= 0x1_0000_0000
    ensures AllEndInTime(cap) <==> IsPow2(cap)
  {
    if IsPow2(cap) {
      forall buf: seq<Entry<nat, bool>>, key: nat {:trigger EndsInTime(buf, Itself(), key)}
        | |buf| == cap && Table(buf, Itself()) && HasFree(buf) ensures EndsInTime(buf, Itself(), key)
      {
        var free :| 0 <= free < |buf| && !buf[free].occupied;
        SearchEndsInTime(buf, Itself(), key, free);
      }
    } else {
      var buf, key := SlowSearch(cap);
      assert !EndsInTime(buf, Itself(), key);
    }
  }

  lemma {:induction false} ContentsHas<K, V>(buf: seq<Entry<K, V>>, key: K)
    ensures key in Contents(buf) <==> exists j :: 0 <= j < |buf| && buf[j].occupied && buf[j].key == key
  {
    if buf != [] {
      var n := |buf| - 1;
      ContentsHas(buf[..n], key);
      if key in Contents(buf[..n]) {
        var j :| 0 <= j < n && buf[..n][j].occupied && buf[..n][j].key == key;
        assert buf[j] == buf[..n][j];
      }
      if j :| 0 <= j < |buf| && buf[j].occupied && buf[j].key == key {
        if j < n { assert buf[..n][j] == buf[j]; }
      }
    }
  }

  lemma {:induction false} ContentsAt<K, V>(buf: seq<Entry<K, V>>, j: nat)
    requires DistinctKeys(buf) && j < |buf| && buf[j].occupied
    ensures buf[j].key in Contents(buf) && Contents(buf)[buf[j].key] == buf[j].value
  {
    var n := |buf| - 1;
    if j < n {
      ContentsAt(buf[..n], j);
      assert buf[n].occupied ==> buf[j].key != buf[n].key;
    }
  }

  /** As many entries as keys: a map smaller than the buffer leaves a free slot. */
  lemma {:induction false} FreeSlot<K, V>(buf: seq<Entry<K, V>>) returns (free: nat)
    requires DistinctKeys(buf) && |Contents(buf)| < |buf|
    ensures free < |buf| && !buf[free].occupied
  {
    var n := |buf| - 1;
    if !buf[n].occupied {
      free := n;
    } else {
      ContentsHas(buf[..n], buf[n].key);
      free := FreeSlot(buf[..n]);
    }
  }

  lemma {:induction false} ContentsSize<K, V>(buf: seq<Entry<K, V>>)
    ensures |Contents(buf)| <= |buf|
  {
    if buf != [] { ContentsSize(buf[..|buf| - 1]); }
  }

  lemma {:induction false} EmptyContents<K, V>(buf: seq<Entry<K, V>>)
    requires forall j :: 0 <= j < |buf| ==> !buf[j].occupied
    ensures Contents(buf) == map[]
  {
    if buf != [] { EmptyContents(buf[..|buf| - 1]); }
  }

  /** What a search for key finds. */
  lemma SearchFinds<K, V>(buf: seq<Entry<K, V>>, hash: K -> nat, key: K, i: nat)
    requires Table(buf, hash) && EndsAt(buf, hash, key, i)
    ensures var e := buf[Slot(hash, key, i, |buf|)];
            if e.occupied then key in Contents(buf) && Contents(buf)[key] == e.value else key !in Contents(buf)
  {
    TableKeysDistinct(buf, hash);
    var s := Slot(hash, key, i, |buf|);
    KeyIsFound(buf, hash, key);
    forall q: nat | EndsAt(buf, hash, key, q) ensures q == i { SearchIsUnique(buf, hash, key, i, q); }
    if buf[s].occupied { ContentsAt(buf, s); }
  }

  /** The search for a key in the table ends at its entry. */
  lemma KeyIsFound<K, V>(buf: seq<Entry<K, V>>, hash: K -> nat, key: K)
    requires Table(buf, hash)
    ensures key in Contents(buf) ==>
      exists q: nat :: EndsAt(buf, hash, key, q) && buf[Slot(hash, key, q, |buf|)].occupied
  {
    ContentsHas(buf, key);
    if key in Contents(buf) {
      var j :| 0 <= j < |buf| && buf[j].occupied && buf[j].key == key;
      assert AtHome(buf, hash, j);
    }
  }

  // ---------------------------------------------------------------- insertion

  lemma InsertKeepsTable<K, V>(buf: seq<Entry<K, V>>, hash: K -> nat, key: K, value: V, i: nat)
    requires Table(buf, hash) && EndsAt(buf, hash, key, i)
    ensures Table(buf[Slot(hash, key, i, |buf|) := Entry(key, value, true)], hash)
  {
    var s := Slot(hash, key, i, |buf|);
    var buf' := buf[s := Entry(key, value, true)];
    assert EndsAt(buf', hash, key, i);
    forall j | 0 <= j < |buf'| && buf'[j].occupied ensures AtHome(buf', hash, j) {
      if j == s {
        assert EndsAt(buf', hash, buf'[s].key, i);
      } else {
        assert AtHome(buf, hash, j);
        var p: nat :| EndsAt(buf, hash, buf[j].key, p) && Slot(hash, buf[j].key, p, |buf|) == j;
        assert EndsAt(buf', hash, buf'[j].key, p);
      }
    }
  }

  lemma InsertUpdatesContents<K, V>(buf: seq<Entry<K, V>>, hash: K -> nat, key: K, value: V, i: nat)
    requires Table(buf, hash) && EndsAt(buf, hash, key, i)
    ensures Contents(buf[Slot(hash, key, i, |buf|) := Entry(key, value, true)]) == Contents(buf)[key := value]
  {
    var s := Slot(hash, key, i, |buf|);
    InsertKeepsTable(buf, hash, key, value, i);
    TableKeysDistinct(buf, hash);
    TableKeysDistinct(buf[s := Entry(key, value, true)], hash);
    UpdateContents(buf, s, Entry(key, value, true));
  }

  lemma UpdateContents<K, V>(buf: seq<Entry<K, V>>, s: nat, e: Entry<K, V>)
    requires s < |buf| && e.occupied && Ends(buf[s], e.key) && DistinctKeys(buf) && DistinctKeys(buf[s := e])
    ensures Contents(buf[s := e]) == Contents(buf)[e.key := e.value]
  {
    var m, m' := Contents(buf)[e.key := e.value], Contents(buf[s := e]);
    forall k | k in m' ensures k in m && m'[k] == m[k] { SameKeys(buf, s, e, k); SameValues(buf, s, e, k); }
    forall k | k in m ensures k in m' { SameKeys(buf, s, e, k); }
  }

  lemma SameValues<K, V>(buf: seq<Entry<K, V>>, s: nat, e: Entry<K, V>, k: K)
    requires s < |buf| && e.occupied && Ends(buf[s], e.key) && DistinctKeys(buf) && DistinctKeys(buf[s := e])
    requires k in Contents(buf[s := e])
    ensures if k == e.key then Contents(buf[s := e])[k] == e.value
            else k in Contents(buf) && Contents(buf[s := e])[k] == Contents(buf)[k]
  {
    var buf' := buf[s := e];
    if k == e.key {
      ContentsAt(buf', s);
    } else {
      ContentsHas(buf', k);
      var j :| 0 <= j < |buf'| && buf'[j].occupied && buf'[j].key == k;
      ContentsAt(buf', j);
      ContentsAt(buf, j);
    }
  }

  lemma SameKeys<K, V>(buf: seq<Entry<K, V>>, s: nat, e: Entry<K, V>, k: K)
    requires s < |buf| && e.occupied && Ends(buf[s], e.key)
    ensures k in Contents(buf[s := e]) <==> k == e.key || k in Contents(buf)
  {
    var buf' := buf[s := e];
    ContentsHas(buf, k);
    ContentsHas(buf', k);
    if k == e.key { assert buf'[s].occupied && buf'[s].key == k; }
    if j :| 0 <= j < |buf| && buf[j].occupied && buf[j].key == k { assert j != s ==> buf'[j] == buf[j]; }
    if j :| 0 <= j < |buf'| && buf'[j].occupied && buf'[j].key == k { assert j != s ==> buf[j] == buf'[j]; }
  }

  // ---------------------------------------------------------------- the class

  /** The table is at or over the load limit num/den. */
  predicate OverLimit(size: nat, cap: nat, num: nat, den: nat) { size * den >= num * cap }

  /** The load limit keeps a table of cap slots from filling up. */
  ghost predicate LeavesRoom(cap: nat, num: nat, den: nat) { num * cap <= den * (cap - 1) }

  /** A put that does not grow the table finds a slot to spare, whatever the size, exactly if there is room. */
  lemma RoomIsExact(cap: nat, num: nat, den: nat)
    requires cap > 0
    ensures LeavesRoom(cap, num, den)
       <==> forall size: nat :: size < cap && !OverLimit(size, cap, num, den) ==> size + 1 < cap
  {
    if LeavesRoom(cap, num, den) {
      forall size: nat | size < cap && !OverLimit(size, cap, num, den) ensures size + 1 < cap {
        Times(den, cap - 1, if size < cap - 1 then cap - 1 else size);
        assert size * den == den * size;
      }
    } else {
      assert (cap - 1) * den == den * (cap - 1);
      assert !OverLimit(cap - 1, cap, num, den);
    }
  }

  /** Limits up to 7/8 are safe for all capacities from 8. */
  lemma SevenEighthsLeaveRoom(cap: nat, num: nat, den: nat)
    requires cap >= 8 && LeavesRoom(8, num, den)
    ensures LeavesRoom(cap, num, den)
  {
    var c := cap - 8;
    assert num * cap == num * 8 + num * c;
    assert den * (cap - 1) == den * 7 + den * c;
    assert num <= den;
    Times(c + 1, num, den);
  }

  /** The table after an insertion that does not grow it. */
  ghost predicate Inserted<K, V>(buf: seq<Entry<K, V>>, hash: K -> nat, key: K, value: V, buf': seq<Entry<K, V>>) {
    exists i: nat :: EndsAt(buf, hash, key, i) && buf' == buf[Slot(hash, key, i, |buf|) := Entry(key, value, true)]
  }

  /** The p-th put does not meet the growth test. */
  ghost predicate PutInPlace<K, V>(bufs: seq<seq<Entry<K, V>>>, hash: K -> nat, items: seq<(K, V)>, num: nat, den: nat, p: nat)
    requires p < |items| && |bufs| == |items| + 1
  {
    && !OverLimit(|Contents(bufs[p])|, |bufs[p]|, num, den)
    && Inserted(bufs[p], hash, items[p].0, items[p].1, bufs[p + 1])
  }

  /** A run of puts, none of which grows the table; bufs are the tables before and after each. */
  ghost predicate PutsInPlace<K, V>(bufs: seq<seq<Entry<K, V>>>, hash: K -> nat, items: seq<(K, V)>, num: nat, den: nat) {
    |bufs| == |items| + 1 && forall p :: 0 <= p < |items| ==> PutInPlace(bufs, hash, items, num, den, p)
  }

  ghost predicate Full<K, V>(buf: seq<Entry<K, V>>) { forall j :: 0 <= j < |buf| ==> buf[j].occupied }

  ghost predicate NewKeys<K, V>(items: seq<(K, V)>) { forall p, q :: 0 <= p < q < |items| ==> items[p].0 != items[q].0 }

  ghost function Keys<K, V>(items: seq<(K, V)>): set<K> { set p | 0 <= p < |items| :: items[p].0 }

  lemma FirstPuts<K, V>(bufs: seq<seq<Entry<K, V>>>, hash: K -> nat, items: seq<(K, V)>, num: nat, den: nat, n: nat)
    requires PutsInPlace(bufs, hash, items, num, den) && n <= |items|
    ensures PutsInPlace(bufs[..n + 1], hash, items[..n], num, den)
  {
    var fewer, first := bufs[..n + 1], items[..n];
    forall p | 0 <= p < n ensures PutInPlace(fewer, hash, first, num, den, p) {
      assert PutInPlace(bufs, hash, items, num, den, p);
    }
  }

  lemma LastPut<K, V>(bufs: seq<seq<Entry<K, V>>>, hash: K -> nat, items: seq<(K, V)>, num: nat, den: nat, buf': seq<Entry<K, V>>)
    requires items != [] && PutsInPlace(bufs, hash, items[..|items| - 1], num, den)
    requires var n := |items| - 1;
      !OverLimit(|Contents(bufs[n])|, |bufs[n]|, num, den) && Inserted(bufs[n], hash, items[n].0, items[n].1, buf')
    ensures PutsInPlace(bufs + [buf'], hash, items, num, den)
  {
    var n, more := |items| - 1, bufs + [buf'];
    forall p | 0 <= p < |items| ensures PutInPlace(more, hash, items, num, den, p) {
      if p < n { assert PutInPlace(bufs, hash, items[..n], num, den, p); }
    }
  }

  lemma OneMore<K, V>(buf: seq<Entry<K, V>>, hash: K -> nat, key: K, value: V) returns (buf': seq<Entry<K, V>>)
    requires Table(buf, hash) && |Contents(buf)| < |buf| && key !in Contents(buf)
    ensures Inserted(buf, hash, key, value, buf') && |buf'| == |buf| && Table(buf', hash)
    ensures Contents(buf') == Contents(buf)[key := value] && |Contents(buf')| == |Contents(buf)| + 1
  {
    var last := SearchBound(buf, hash, key);
    var i := FirstEnd(buf, hash, key, last);
    buf' := buf[Slot(hash, key, i, |buf|) := Entry(key, value, true)];
    InsertKeepsTable(buf, hash, key, value, i);
    InsertUpdatesContents(buf, hash, key, value, i);
  }

  lemma {:induction false} FirstEnd<K, V>(buf: seq<Entry<K, V>>, hash: K -> nat, key: K, last: nat) returns (i: nat)
    requires last + 1 < WORD && |buf| > 0 && Ends(buf[Slot(hash, key, last, |buf|)], key)
    ensures EndsAt(buf, hash, key, i)
    decreases last
  {
    if q: nat :| q < last && Ends(buf[Slot(hash, key, q, |buf|)], key) { i := FirstEnd(buf, hash, key, q); } else { i := last; }
  }

  lemma NeverOver(cap: nat, num: nat, den: nat, size: nat)
    requires !LeavesRoom(cap, num, den) && size < cap
    ensures !OverLimit(size, cap, num, den)
  {
    assert size * den == den * size;
    if den > 0 { Times(den, size, cap - 1); }
  }

  lemma LastKey<K, V>(items: seq<(K, V)>)
    requires items != [] && NewKeys(items)
    ensures var n := |items| - 1;
      NewKeys(items[..n]) && items[n].0 !in Keys(items[..n]) && Keys(items) == Keys(items[..n]) + {items[n].0}
  {
    var n := |items| - 1;
    forall key | key in Keys(items) ensures key in Keys(items[..n]) + {items[n].0} {
      var p :| 0 <= p < |items| && items[p].0 == key;
      if p < n { assert items[..n][p].0 == key; }
    }
    forall key | key in Keys(items[..n]) ensures key in Keys(items) && key != items[n].0 {
      var p :| 0 <= p < n && items[..n][p].0 == key;
      assert items[p].0 == key;
    }
  }

  /** The table holds as many of the items as there are, and nothing else. */
  ghost predicate Holds<K, V>(buf: seq<Entry<K, V>>, hash: K -> nat, items: seq<(K, V)>) {
    Table(buf, hash) && Contents(buf).Keys == Keys(items) && |Contents(buf)| == |items|
  }

  lemma FillOne<K, V>(buf: seq<Entry<K, V>>, hash: K -> nat, items: seq<(K, V)>, num: nat, den: nat)
    returns (buf': seq<Entry<K, V>>)
    requires items != [] && NewKeys(items) && |items| <= |buf| && !LeavesRoom(|buf|, num, den)
    requires Holds(buf, hash, items[..|items| - 1])
    ensures !OverLimit(|Contents(buf)|, |buf|, num, den)
    ensures Inserted(buf, hash, items[|items| - 1].0, items[|items| - 1].1, buf') && |buf'| == |buf| && Holds(buf', hash, items)
  {
    LastKey(items);
    var n := |items| - 1;
    NeverOver(|buf|, num, den, n);
    buf' := OneMore(buf, hash, items[n].0, items[n].1);
  }

  /** Without room, as many new keys as slots go in without growing the table. */
  lemma {:induction false} FillsUp<K, V>(buf: seq<Entry<K, V>>, hash: K -> nat, items: seq<(K, V)>, num: nat, den: nat)
    returns (bufs: seq<seq<Entry<K, V>>>)
    requires Table(buf, hash) && Contents(buf) == map[] && NewKeys(items) && |items| <= |buf| && !LeavesRoom(|buf|, num, den)
    ensures PutsInPlace(bufs, hash, items, num, den) && bufs[0] == buf
    ensures |bufs[|items|]| == |buf| && Holds(bufs[|items|], hash, items)
    decreases |items|
  {
    if items == [] {
      bufs := [buf];
    } else {
      LastKey(items);
      var init := FillsUp(buf, hash, items[..|items| - 1], num, den);
      var buf' := FillOne(init[|items| - 1], hash, items, num, den);
      LastPut(init, hash, items, num, den, buf');
      bufs := init + [buf'];
    }
  }

  lemma {:induction false} FullOfKeys<K, V>(buf: seq<Entry<K, V>>)
    requires DistinctKeys(buf)
    ensures Full(buf) <==> |Contents(buf)| == |buf|
  {
    if buf != [] {
      var n := |buf| - 1;
      FullOfKeys(buf[..n]);
      ContentsSize(buf[..n]);
      ContentsHas(buf[..n], buf[n].key);
      assert forall j :: 0 <= j < n ==> buf[..n][j] == buf[j];
    }
  }

  /** With room, no run of puts that do not grow the table fills it. */
  lemma {:induction false} NeverFills<K, V>(bufs: seq<seq<Entry<K, V>>>, hash: K -> nat, items: seq<(K, V)>, num: nat, den: nat)
    requires PutsInPlace(bufs, hash, items, num, den) && Table(bufs[0], hash) && Contents(bufs[0]) == map[] && |bufs[0]| > 0
    requires LeavesRoom(|bufs[0]|, num, den)
    ensures var end := bufs[|items|]; Table(end, hash) && |end| == |bufs[0]| && |Contents(end)| < |end|
    decreases |items|
  {
    if items != [] {
      var n := |items| - 1;
      FirstPuts(bufs, hash, items, num, den, n);
      NeverFills(bufs[..n + 1], hash, items[..n], num, den);
      assert PutInPlace(bufs, hash, items, num, den, n);
      var key, value := items[n].0, items[n].1;
      var i: nat :| EndsAt(bufs[n], hash, key, i) && bufs[n + 1] == bufs[n][Slot(hash, key, i, |bufs[n]|) := Entry(key, value, true)];
      InsertKeepsTable(bufs[n], hash, key, value, i);
      InsertUpdatesContents(bufs[n], hash, key, value, i);
      RoomIsExact(|bufs[n]|, num, den);
    }
  }

  /** No probe ends the search for key. */
  ghost predicate NeverEnds<K, V>(buf: seq<Entry<K, V>>, hash: K -> nat, key: K)
    requires |buf| > 0
  {
    forall i: nat :: !Ends(buf[Slot(hash, key, i, |buf|)], key)
  }

  /** In a full table the search for an absent key passes every slot for ever. */
  lemma FullTableNeverEnds<K, V>(buf: seq<Entry<K, V>>, hash: K -> nat, key: K)
    requires |buf| > 0 && key !in Contents(buf) && Full(buf)
    ensures NeverEnds(buf, hash, key)
  {
    ContentsHas(buf, key);
  }

  /** Puts of the given new keys, one for each slot, can end in a table whose searches for other keys never end exactly
      if the capacity and the load limit leave no room; the growth test is not met on the way. */
  lemma FillsUpIffNoRoom<K, V>(buf: seq<Entry<K, V>>, hash: K -> nat, items: seq<(K, V)>, num: nat, den: nat)
    requires Table(buf, hash) && Contents(buf) == map[] && |buf| > 0 && NewKeys(items) && |items| == |buf|
    ensures !LeavesRoom(|buf|, num, den)
       <==> exists bufs :: PutsInPlace(bufs, hash, items, num, den) && bufs[0] == buf && Full(bufs[|items|])
    ensures forall bufs, key :: PutsInPlace(bufs, hash, items, num, den) && bufs[0] == buf && Full(bufs[|items|]) ==>
              |bufs[|items|]| > 0 && (key !in Contents(bufs[|items|]) ==> NeverEnds(bufs[|items|], hash, key))
  {
    if !LeavesRoom(|buf|, num, den) {
      var bufs := FillsUp(buf, hash, items, num, den);
      TableKeysDistinct(bufs[|items|], hash);
      FullOfKeys(bufs[|items|]);
    }
    forall bufs | PutsInPlace(bufs, hash, items, num, den) && bufs[0] == buf && Full(bufs[|items|])
      ensures !LeavesRoom(|buf|, num, den) && |bufs[|items|]| == |buf|
    {
      SameLength(bufs, hash, items, num, den);
      if LeavesRoom(|buf|, num, den) {
        NeverFills(bufs, hash, items, num, den);
        TableKeysDistinct(bufs[|items|], hash);
        FullOfKeys(bufs[|items|]);
      }
    }
    forall bufs, key | PutsInPlace(bufs, hash, items, num, den) && bufs[0] == buf && Full(bufs[|items|]) &&
      key !in Contents(bufs[|items|]) ensures |bufs[|items|]| > 0 && NeverEnds(bufs[|items|], hash, key)
    {
      SameLength(bufs, hash, items, num, den);
      FullTableNeverEnds(bufs[|items|], hash, key);
    }
  }

  lemma {:induction false} SameLength<K, V>(bufs: seq<seq<Entry<K, V>>>, hash: K -> nat, items: seq<(K, V)>, num: nat, den: nat)
    requires PutsInPlace(bufs, hash, items, num, den)
    ensures |bufs[|items|]| == |bufs[0]|
    decreases |items|
  {
    if items != [] {
      var n := |items| - 1;
      FirstPuts(bufs, hash, items, num, den, n);
      SameLength(bufs[..n + 1], hash, items[..n], num, den);
      assert PutInPlace(bufs, hash, items, num, den, n);
    }
  }

  /** The default limit, 4/5, on a table that was resized to four slots: four puts fill it. */
  lemma DefaultLimitFillsFour<V>(buf: seq<Entry<int, V>>, hash: int -> nat, value: V) returns (bufs: seq<seq<Entry<int, V>>>)
    requires |buf| == 4 && forall j :: 0 <= j < 4 ==> !buf[j].occupied
    ensures PutsInPlace(bufs, hash, seq(4, p => (p, value)), 4, 5) && bufs[0] == buf
    ensures Full(bufs[4]) && |bufs[4]| == 4 && 4 !in Contents(bufs[4])
    ensures NeverEnds(bufs[4], hash, 4)
  {
    var items := seq(4, p => (p, value));
    EmptyContents(buf);
    bufs := FillsUp(buf, hash, items, 4, 5);
    TableKeysDistinct(bufs[4], hash);
    FullOfKeys(bufs[4]);
    FullTableNeverEnds(bufs[4], hash, 4);
  }

  /** HashTable::probe: the slot where the search for key ends. In a full table a search for an absent key goes on for
      ever; here it is given up when the counter wraps. */
  method ProbeFor<K(==), V>(buf: array<Entry<K, V>>, hash: K -> nat, key: K) returns (ends: bool, idx: nat, ghost i: nat)
    requires Table(buf[..], hash) && buf.Length > 0
    ensures ends <==> key in Contents(buf[..]) || |Contents(buf[..])| < buf.Length
    ensures ends ==> idx < buf.Length && EndsAt(buf[..], hash, key, i) && idx == Slot(hash, key, i, buf.Length)
    ensures ends && IsPow2(buf.Length) && |Contents(buf[..])| < buf.Length ==> i < buf.Length
    ensures !ends ==> NeverEnds(buf[..], hash, key)
  {
    ghost var b := buf[..];
    var h := hash(key) % buf.Length;
    FirstProbe(h, buf.Length);
    idx, i := h, 0;
    var e, n := buf[h], 1;
    while e.occupied && e.key != key
      invariant 1 <= n == i + 1 < WORD
      invariant idx == Slot(hash, key, i, |b|) && e == b[idx]
      invariant forall q :: 0 <= q < i ==> !Ends(b[Slot(hash, key, q, |b|)], key)
      decreases WORD - n
    {
      if n == WORD - 1 {
        EndlessSearch(b, hash, key);
        return false, 0, 0;
      }
      idx := (h + Polynomial(n, buf.Length)) % buf.Length;
      e := buf[idx];
      i := n;
      n := n + 1;
    }
    ends := true;
    EndedSearch(b, hash, key, i);
  }

  /** A search that none of the first 2^64 - 1 probes ends is for an absent key in a full table. */
  lemma EndlessSearch<K, V>(buf: seq<Entry<K, V>>, hash: K -> nat, key: K)
    requires Table(buf, hash) && |buf| > 0
    requires forall q: nat :: q + 1 < WORD ==> !Ends(buf[Slot(hash, key, q, |buf|)], key)
    ensures key !in Contents(buf) && |Contents(buf)| == |buf| && NeverEnds(buf, hash, key)
  {
    TableKeysDistinct(buf, hash);
    forall j | 0 <= j < |buf| ensures buf[j].occupied { if !buf[j].occupied { SearchEnds(buf, hash, key, j); } }
    KeyIsFound(buf, hash, key);
    FullOfKeys(buf);
    FullTableNeverEnds(buf, hash, key);
  }

  lemma EndedSearch<K, V>(buf: seq<Entry<K, V>>, hash: K -> nat, key: K, i: nat)
    requires Table(buf, hash) && EndsAt(buf, hash, key, i)
    ensures key in Contents(buf) || |Contents(buf)| < |buf|
    ensures IsPow2(|buf|) && |Contents(buf)| < |buf| ==> i < |buf|
  {
    TableKeysDistinct(buf, hash);
    FullOfKeys(buf);
    ContentsSize(buf);
    if |Contents(buf)| == |buf| { ContentsHas(buf, key); }
    if IsPow2(|buf|) && |Contents(buf)| < |buf| {
      var free := FreeSlot(buf);
      SearchEndsInTime(buf, hash, key, free);
    }
  }

  /** Some probe ends the search. */
  lemma SearchBound<K, V>(buf: seq<Entry<K, V>>, hash: K -> nat, key: K) returns (last: nat)
    requires Table(buf, hash) && |Contents(buf)| < |buf|
    ensures last + 1 < WORD && Ends(buf[Slot(hash, key, last, |buf|)], key)
  {
    TableKeysDistinct(buf, hash);
    var free := FreeSlot(buf);
    SearchEnds(buf, hash, key, free);
    last :| last + 1 < WORD && Ends(buf[Slot(hash, key, last, |buf|)], key);
  }

  lemma FirstProbe(h: nat, cap: nat)
    requires h < cap
    ensures Probe(h, 0, cap) == h
  {
    Small(h, cap);
  }

  /** The entries of a table met one by one: each brings a new key. */
  lemma NextEntry<K, V>(b: seq<Entry<K, V>>, i: nat)
    requires DistinctKeys(b) && i < |b|
    ensures |Contents(b[..i])| <= i
    ensures Contents(b[..i + 1]) == if b[i].occupied then Contents(b[..i])[b[i].key := b[i].value] else Contents(b[..i])
    ensures b[i].occupied ==> b[i].key !in Contents(b[..i])
  {
    assert b[..i + 1][..i] == b[..i];
    ContentsSize(b[..i]);
    ContentsHas(b[..i], b[i].key);
    assert forall j :: 0 <= j < i ==> b[..i][j] == b[j];
  }

  /** HashTable::bufferInsert. */
  method BufferInsert<K(==), V>(buf: array<Entry<K, V>>, hash: K -> nat, key: K, value: V) returns (wasOccupied: bool)
    requires Table(buf[..], hash) && |Contents(buf[..])| < buf.Length
    modifies buf
    ensures Table(buf[..], hash) && Contents(buf[..]) == old(Contents(buf[..]))[key := value]
    ensures wasOccupied <==> key in old(Contents(buf[..]))
  {
    var ends, idx, i := ProbeFor(buf, hash, key);
    ghost var b := buf[..];
    SearchFinds(b, hash, key, i);
    InsertKeepsTable(b, hash, key, value, i);
    InsertUpdatesContents(b, hash, key, value, i);
    wasOccupied := buf[idx].occupied;
    buf[idx] := Entry(key, value, true);
    assert buf[..] == b[idx := Entry(key, value, true)];
  }

  /** The capacity that initialize rounds up to: the least power of two that holds the capacity and eight slots; up2 doubles
      only what is no power of two. */
  ghost function FirstCapacity(capacity: nat): (c: nat)
    ensures if capacity == 0 then c == 0 else IsPow2(c) && 8 <= c && capacity <= c && (8 < c ==> c < 2 * capacity)
  {
    assert Pow2(3) == 8;
    if capacity == 0 then 0
    else if capacity <= 8 then 8
    else if IsPow2(capacity) then capacity
    else (Pow2Between(capacity, Log2Floor(capacity)); Up2(capacity))
  }

  class HashTable<K(==), V> {
    const hash: K -> nat
    const blank: Entry<K, V>
    const num: nat
    const den: nat
    var size: nat
    var buffer: array<Entry<K, V>>

    /** All but the element count is right. */
    ghost predicate WellFormed()
      reads this, buffer
    {
      && !blank.occupied && Table(buffer[..], hash)
      && 0 < num <= den
    }

    ghost predicate Valid()
      reads this, buffer
    {
      WellFormed() && size == |Contents(buffer[..])|
    }

    /** The table is not full, and the load limit keeps it, and the tables it grows into, from filling up. */
    ghost predicate Roomy()
      reads this
    {
      && LeavesRoom(if buffer.Length == 0 then 8 else buffer.Length, num, den)
      && (buffer.Length == 0 || size < buffer.Length)
    }

    /** A put grows the table first. */
    ghost predicate Grows()
      reads this
    {
      buffer.Length == 0 || OverLimit(size, buffer.Length, num, den)
    }

    /** Searches end within as many probes as there are slots, if one is free. */
    ghost predicate Swift()
      reads this
    {
      buffer.Length == 0 || IsPow2(buffer.Length)
    }

    ghost function Model(): (m: map<K, V>)
      reads this, buffer
    {
      Contents(buffer[..])
    }

    /** A load limit above 1 or below 1/1000 is replaced by 0.8. */
    constructor (hash: K -> nat, blank: Entry<K, V>, num: nat, den: nat)
      requires den > 0 && !blank.occupied
      ensures Valid() && Swift() && Model() == map[] && size == 0 && fresh(buffer) && buffer.Length == 0
      ensures this.hash == hash
      ensures (this.num, this.den) == if num > den || 1000 * num < den then (4, 5) else (num, den)
    {
      this.hash, this.blank := hash, blank;
      if num > den || 1000 * num < den {
        this.num, this.den := 4, 5;
      } else {
        this.num, this.den := num, den;
      }
      size := 0;
      buffer := new Entry<K, V>[0];
    }

    /** A fresh buffer of free entries; allocation may fail. */
    method Allocate(capacity: nat, allocOk: bool) returns (ok: bool, buf: array<Entry<K, V>>)
      requires !blank.occupied
      ensures fresh(buf) && (ok <==> allocOk && capacity <= MAX_CAPACITY)
      ensures ok ==> buf.Length == capacity && Contents(buf[..]) == map[]
      ensures ok ==> Table(buf[..], hash)
    {
      ok := allocOk && capacity <= MAX_CAPACITY;
      buf := new Entry<K, V>[if ok then capacity else 0](_ => blank);
      EmptyContents(buf[..]);
    }

    /** Forgets the contents and keeps the element count, so the table is valid again exactly if that was zero. */
    method Initialize(capacity: nat, allocOk: bool) returns (status: Status)
      requires WellFormed()
      modifies this`buffer
      ensures WellFormed() && Swift() && Model() == map[] && size == old(size)
      ensures Valid() <==> old(size) == 0
      ensures buffer.Length == if status == Success then FirstCapacity(capacity) else 0
      ensures status == if capacity == 0 || (allocOk && FirstCapacity(capacity) <= MAX_CAPACITY) then Success else BadAlloc
      ensures fresh(buffer)
    {
      var c := if capacity < 8 && capacity != 0 then 8 else capacity;
      if c == 0 {
        buffer := new Entry<K, V>[0];
        return Success;
      }
      assert Pow2(3) == 8;
      c := if PowerOfTwo(c) then c else Up2(c);
      var ok, buf := Allocate(c, allocOk);
      buffer := buf;
      if !ok { buffer := new Entry<K, V>[0]; }
      status := if ok then Success else BadAlloc;
    }

    /** Re-inserting never meets a key twice, so the Error return is never taken. Any capacity will do; only with a
        power of two are the searches in the new table sure to end in time. */
    method Resize(capacity: nat, allocOk: bool) returns (status: Status)
      requires Valid()
      modifies this`buffer
      ensures Valid() && Model() == old(Model()) && size == old(size)
      ensures status == if capacity > old(buffer.Length) && !(allocOk && capacity <= MAX_CAPACITY) then BadAlloc else Success
      ensures if status == Success && capacity > old(buffer.Length) then buffer.Length == capacity else buffer == old(buffer)
      ensures buffer == old(buffer) || fresh(buffer)
    {
      if capacity <= buffer.Length { return Success; }
      var ok, newBuffer := Allocate(capacity, allocOk);
      if !ok { return BadAlloc; }
      ghost var b := buffer[..];
      TableKeysDistinct(b, hash);
      for i := 0 to buffer.Length
        invariant Table(newBuffer[..], hash) && Contents(newBuffer[..]) == Contents(b[..i])
        invariant buffer[..] == b
      {
        var e := buffer[i];
        NextEntry(b, i);
        if e.occupied {
          var wasOccupied := BufferInsert(newBuffer, hash, e.key, e.value);
          if wasOccupied { return Error; }
        }
      }
      assert b[..|b|] == b;
      buffer := newBuffer;
      return Success;
    }

    /** A full table is over every limit, so its next put grows it first: no put goes on for ever. */
    method Put(key: K, value: V, allocOk: bool) returns (status: Status)
      requires Valid()
      modifies this, buffer
      ensures Valid() && (old(Roomy()) ==> Roomy()) && (old(Swift()) ==> Swift())
      ensures Model() == if status == Success then old(Model())[key := value] else old(Model())
      ensures var grows, next := old(Grows()), if old(buffer.Length) == 0 then 8 else 2 * old(buffer.Length);
        && status == (if grows && !(allocOk && next <= MAX_CAPACITY) then BadAlloc else Success)
        && (if status == Success && grows then buffer.Length == next else buffer == old(buffer))
      ensures buffer == old(buffer) || fresh(buffer)
    {
      ContentsSize(buffer[..]);
      if buffer.Length == 0 || OverLimit(size, buffer.Length, num, den) {
        var next := if buffer.Length == 0 then 8 else buffer.Length * 2;
        NextCapacity(buffer.Length, num, den);
        status := Resize(next, allocOk);
        if status != Success { return; }
      } else {
        BelowLimit(size, buffer.Length, num, den);
        RoomIsExact(buffer.Length, num, den);
      }
      var wasOccupied := BufferInsert(buffer, hash, key, value);
      if !wasOccupied { size := size + 1; }
      return Success;
    }

    /** Does not end exactly if the table is full and does not have the key. */
    method Get(key: K) returns (ends: bool, r: Option<V>)
      requires Valid()
      ensures ends <==> buffer.Length == 0 || size < buffer.Length || key in Model()
      ensures ends ==> r == if key in Model() then Some(Model()[key]) else None
      ensures !ends ==> buffer.Length > 0 && NeverEnds(buffer[..], hash, key)
    {
      if buffer.Length == 0 { return true, None; }
      var idx;
      ghost var i;
      ends, idx, i := ProbeFor(buffer, hash, key);
      if !ends { return false, None; }
      SearchFinds(buffer[..], hash, key, i);
      var e := buffer[idx];
      r := if e.occupied && e.key == key then Some(e.value) else None;
    }

    method Contains(key: K) returns (ends: bool, r: bool)
      requires Valid()
      ensures ends <==> buffer.Length == 0 || size < buffer.Length || key in Model()
      ensures ends ==> (r <==> key in Model())
      ensures !ends ==> buffer.Length > 0 && NeverEnds(buffer[..], hash, key)
    {
      if buffer.Length == 0 { return true, false; }
      var idx;
      ghost var i;
      ends, idx, i := ProbeFor(buffer, hash, key);
      if !ends { return false, false; }
      SearchFinds(buffer[..], hash, key, i);
      r := buffer[idx].occupied && buffer[idx].key == key;
    }

    method Clear()
      requires Valid()
      modifies this`size, buffer
      ensures Valid() && Model() == map[] && size == 0
    {
      ghost var b := buffer[..];
      assert Table(b, hash) && |b| == buffer.Length;
      size := 0;
      for i := 0 to buffer.Length
        invariant size == 0 && forall j :: 0 <= j < i ==> !buffer[j].occupied
      {
        buffer[i] := buffer[i].(occupied := false);
      }
      EmptyContents(buffer[..]);
    }

    method Deinitialize()
      requires Valid()
      modifies this
      ensures Valid() && Model() == map[] && size == 0 && buffer.Length == 0 && fresh(buffer)
    {
      buffer := new Entry<K, V>[0];
      size := 0;
    }
  }

  lemma BelowLimit(size: nat, cap: nat, num: nat, den: nat)
    requires size <= cap && num <= den && !OverLimit(size, cap, num, den)
    ensures size < cap
  {
    if cap > 0 { Times(cap, num, den); }
    assert num * cap == cap * num <= cap * den;
  }

  /** Growth keeps room, and powers of two. */
  lemma NextCapacity(cap: nat, num: nat, den: nat)
    requires 0 < num <= den
    ensures var next := if cap == 0 then 8 else cap * 2;
      && (LeavesRoom(if cap == 0 then 8 else cap, num, den) ==> LeavesRoom(next, num, den) && (cap > 0 ==> cap + 1 < next))
      && (cap == 0 || IsPow2(cap) ==> IsPow2(next))
  {
    if cap == 0 {
      assert Pow2(3) == 8;
    } else {
      if k: nat :| cap == Pow2(k) { assert Pow2(k + 1) == cap * 2; }
      assert num * (cap * 2) == 2 * (num * cap);
      assert den * (cap * 2 - 1) == 2 * (den * (cap - 1)) + den;
      assert cap == 1 ==> den * (cap - 1) == 0 && num * cap > 0;
    }
  }
}
