/** Powers of two, and the rounding functions of the runtime built on them. */
module PowersOfTwo {

  const WORD := 0x1_0000_0000_0000_0000

  function Pow2(k: nat): (p: nat)
    ensures p > 0
  {
    if k == 0 then 1 else 2 * Pow2(k - 1)
  }

  ghost predicate IsPow2(n: nat) { exists k: nat :: n == Pow2(k) }

  lemma {:induction false} Pow2Sum(i: nat, j: nat)
    ensures Pow2(i + j) == Pow2(i) * Pow2(j)
  {
    if i > 0 { Pow2Sum(i - 1, j); }
  }

  lemma Pow2Word()
    ensures Pow2(64) == WORD
  {
    assert Pow2(8) == 0x100;
    Pow2Sum(8, 8);
    Pow2Sum(16, 16);
    Pow2Sum(32, 32);
  }

  /** pando::up2: the least power of two above n, by its bit length. */
  function Up2(n: nat): (p: nat)
    requires n > 0
    ensures n < p <= 2 * n && IsPow2(p)
  {
    var k := Log2Floor(n);
    Pow2(k + 1)
  }

  function Log2Floor(n: nat): (k: nat)
    requires n > 0
    ensures Pow2(k) <= n < Pow2(k + 1)
  {
    if n == 1 then 0 else 1 + Log2Floor(n / 2)
  }

  predicate PowerOfTwo(n: nat)
    requires n > 0
    ensures PowerOfTwo(n) <==> IsPow2(n)
  {
    var k := Log2Floor(n);
    Pow2Between(n, k);
    n == Pow2(k)
  }

  lemma Pow2Between(n: nat, k: nat)
    requires Pow2(k) <= n < Pow2(k + 1)
    ensures IsPow2(n) ==> n == Pow2(k)
  {
    if e: nat :| n == Pow2(e) { Pow2Order(e, k); }
  }

  lemma Pow2Order(e: nat, k: nat)
    requires Pow2(k) <= Pow2(e) < Pow2(k + 1)
    ensures e == k
  {
    if e < k { Pow2Grows(e, k); }
    if e > k { Pow2Grows(k + 1, e); }
  }

  lemma {:induction false} Pow2Grows(a: nat, b: nat)
    requires a <= b
    ensures Pow2(a) <= Pow2(b) && (a < b ==> Pow2(a) < Pow2(b))
    decreases b
  {
    if a < b { Pow2Grows(a, b - 1); }
  }

  lemma HalfPow2(p: nat)
    requires IsPow2(p) && p > 1
    ensures IsPow2(p / 2) && p == 2 * (p / 2)
  {
    var e: nat :| p == Pow2(e);
    assert p / 2 == Pow2(e - 1);
  }
}
