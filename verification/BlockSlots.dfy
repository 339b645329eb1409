/** Slots of a circle, and the block index's lookup arithmetic on 64-bit words. */
module BlockSlots {
  import opened PowersOfTwo
  import opened Remainders

  const BLOCK_SIZE := 32
  const INVALID_BLOCK_BASE := 1

  // ---------------------------------------------------------------- slots

  /** The slot of n in a circle of cap slots, also for negative n. */
  function Slot(n: int, cap: nat): (slot: nat)
    requires cap > 0
    ensures slot < cap
  {
    n % cap
  }

  lemma SlotSmall(n: nat, cap: nat)
    requires n < cap
    ensures Slot(n, cap) == n
  {
  }

  lemma SlotTurns(n: int, cap: nat, k: int)
    requires cap > 0
    ensures Slot(n + cap * k, cap) == Slot(n, cap)
  {
    ModAdd(n, cap, k);
  }

  lemma SlotTurn(n: int, cap: nat)
    requires cap > 0
    ensures Slot(n + cap, cap) == Slot(n, cap) == Slot(n - cap, cap)
  {
    SlotTurns(n, cap, 1);
    SlotTurns(n, cap, -1);
  }

  lemma SlotAdd(a: int, b: int, cap: nat)
    requires cap > 0
    ensures Slot(Slot(a, cap) + b, cap) == Slot(a + b, cap)
  {
    assert a == cap * (a / cap) + a % cap;
    SlotTurns(Slot(a, cap) + b, cap, a / cap);
  }

  lemma SameSlot(a: int, b: int, cap: nat) returns (k: int)
    requires cap > 0 && Slot(a, cap) == Slot(b, cap)
    ensures a == b + cap * k
  {
    k := a / cap - b / cap;
    assert a == cap * (a / cap) + a % cap && b == cap * (b / cap) + b % cap;
  }

  lemma SlotApart(a: int, b: int, cap: nat)
    requires cap > 0 && Slot(a, cap) == Slot(b, cap) && a - b < cap && b - a < cap
    ensures a == b
  {
    var k := SameSlot(a, b, cap);
    MultipleBelow(cap, k);
  }

  lemma SameSlotAdd(a: int, b: int, d: int, cap: nat)
    requires cap > 0 && Slot(a, cap) == Slot(b, cap)
    ensures Slot(a + d, cap) == Slot(b + d, cap)
  {
    SlotAdd(a, d, cap);
    SlotAdd(b, d, cap);
  }

  ghost predicate Divides(a: nat, b: nat) { a > 0 && exists m: nat :: b == a * m }

  /** Numbers that share a slot of a larger circle share one of a smaller circle that divides it. */
  lemma SlotNarrow(a: int, b: int, small: nat, large: nat)
    requires Divides(small, large) && large > 0 && Slot(a, large) == Slot(b, large)
    ensures Slot(a, small) == Slot(b, small)
  {
    var m: nat :| large == small * m;
    var k := SameSlot(a, b, large);
    assert large * k == small * (m * k);
    SlotTurns(b, small, m * k);
  }

  /** A number that replaces another at its slot of the large circle replaces it in every smaller one. */
  lemma SlotReplaced(was: int, now: int, shift: int, large: nat, shift': int, small: nat)
    requires Divides(small, large) && large > 0 && Slot(was + shift, large) == Slot(now + shift, large)
    ensures Slot(was + shift', small) == Slot(now + shift', small)
  {
    SameSlotAdd(was + shift, now + shift, -shift, large);
    SlotNarrow(was, now, small, large);
    SameSlotAdd(was, now, shift', small);
  }

  lemma DividesDouble(a: nat, b: nat)
    requires Divides(a, b)
    ensures Divides(a, 2 * b)
  {
    var m: nat :| b == a * m;
    assert 2 * b == a * (2 * m);
  }

  // ---------------------------------------------------------------- the lookup's arithmetic

  /** The key of block number n: its first element index, as a 64-bit word. */
  function Key(n: nat): (key: nat)
    ensures key < WORD && key % BLOCK_SIZE == 0
  {
    (n * BLOCK_SIZE) % WORD
  }

  function Signed(w: nat): (i: int) { if w < WORD / 2 then w else w - WORD }

  /** C++ division of a signed word by BLOCK_SIZE, which truncates. */
  function Truncated(i: int): (q: int)
    ensures if i >= 0 then 0 <= i - q * BLOCK_SIZE < BLOCK_SIZE else -BLOCK_SIZE < i - q * BLOCK_SIZE <= 0
  {
    if i >= 0 then i / BLOCK_SIZE else -(-i / BLOCK_SIZE)
  }

  /** get_block_index_index_for_index, from the tail slot and the key found there. */
  function SlotFor(index: nat, tail: nat, tailBase: nat, cap: nat): (slot: nat)
    requires cap > 0
    ensures slot < cap
  {
    var base := index - index % BLOCK_SIZE;
    var offset := Truncated(Signed((base - tailBase) % WORD)) % WORD;
    ((tail + offset) % WORD) % cap
  }

  /** Two block numbers are close enough for a signed word to tell them apart. */
  predicate Near(a: int, b: int) { -(WORD / 2) <= (a - b) * BLOCK_SIZE < WORD / 2 }

  lemma BaseIsKey(i: nat)
    ensures var index := i % WORD; index - index % BLOCK_SIZE == Key(i / BLOCK_SIZE)
  {
    var q, w := i / WORD, i % WORD;
    var a := w / 32;
    assert i / 32 == (WORD / 32) * q + a;
    var n := i / BLOCK_SIZE;
    assert n * BLOCK_SIZE == 32 * a + WORD * q;
    ModAdd(32 * a, WORD, q);
  }

  lemma WordDifference(x: int, y: int)
    ensures (x % WORD - y % WORD) % WORD == (x - y) % WORD
  {
    ModAdd(x % WORD - y % WORD, WORD, x / WORD - y / WORD);
  }

  lemma SignedWord(k: int)
    requires Near(k, 0)
    ensures Truncated(Signed((k * BLOCK_SIZE) % WORD)) == k
  {
    var d := k * BLOCK_SIZE;
    if d >= 0 { assert d % WORD == d; } else { ModAdd(d, WORD, 1); }
    assert Signed(d % WORD) == d;
  }

  lemma OffsetIsDifference(b: nat, n: nat)
    requires Near(b, n)
    ensures Truncated(Signed((Key(b) - Key(n)) % WORD)) == b - n
  {
    WordDifference(b * BLOCK_SIZE, n * BLOCK_SIZE);
    assert b * BLOCK_SIZE - n * BLOCK_SIZE == (b - n) * BLOCK_SIZE;
    SignedWord(b - n);
  }

  lemma WordSlot(a: int, cap: nat)
    requires cap > 0 && Divides(cap, WORD)
    ensures (a % WORD) % cap == Slot(a, cap)
  {
    var m: nat :| WORD == cap * m;
    var k := -(a / WORD);
    assert a % WORD == a + WORD * k;
    assert WORD * k == cap * (m * k);
    SlotTurns(a, cap, m * k);
  }

  lemma OffsetSlot(tail: nat, d: int, cap: nat)
    requires cap > 0 && Divides(cap, WORD)
    ensures ((tail + d % WORD) % WORD) % cap == Slot(tail + d, cap)
  {
    var offset := d % WORD;
    WordSlot(tail + offset, cap);
    WordSlot(d, cap);
    SlotAdd(offset, tail, cap);
    SlotAdd(d, tail, cap);
  }

  /** From any entry's slot and number, the signed offset leads to block b's slot, whatever wraps around. */
  lemma SlotForFinds(b: nat, n: nat, i: nat, shift: int, tail: nat, cap: nat)
    requires cap > 0 && Divides(cap, WORD) && Near(b, n) && i / BLOCK_SIZE == b && tail == Slot(n + shift, cap)
    ensures SlotFor(i % WORD, tail, Key(n), cap) == Slot(b + shift, cap)
  {
    BaseIsKey(i);
    OffsetIsDifference(b, n);
    OffsetSlot(tail, b - n, cap);
    SlotAdd(n + shift, b - n, cap);
  }
}
