/** Number theory behind the quadratic probe sequence: the triangular numbers
    0, 1, 3, 6, ... visit every residue modulo n exactly when n is a power of two. */
module Probing {
  import opened PowersOfTwo
  import opened Remainders

  /** The i-th triangular number. */
  ghost function Tri(i: nat): nat { if i == 0 then 0 else Tri(i - 1) + i }

  lemma {:induction false} TriClosedForm(i: nat)
    ensures 2 * Tri(i) == i * (i + 1)
  {
    if i > 0 {
      TriClosedForm(i - 1);
      assert i * (i + 1) == (i - 1) * i + 2 * i;
    }
  }

  /** HashTable::polynomial, with its 64-bit wrap-around. */
  function Polynomial(i: nat, cap: nat): (r: nat)
    requires cap > 0
    ensures r < cap
  {
    var next := (i + 1) % WORD;
    var inner := if i % 2 == 1 then (next / 2) * i else (i / 2) * next;
    (inner % WORD) % cap
  }

  /** The slot of the i-th probe from start slot h. */
  function Probe(h: nat, i: nat, cap: nat): (slot: nat)
    requires cap > 0
    ensures slot < cap
  {
    (h + Polynomial(i, cap)) % cap
  }

  lemma HalvedProduct(i: nat)
    ensures (if i % 2 == 1 then ((i + 1) / 2) * i else (i / 2) * (i + 1)) == Tri(i)
  {
    TriClosedForm(i);
    var h := i / 2;
    if i % 2 == 1 {
      assert i == 2 * h + 1 && (i + 1) / 2 == h + 1;
      assert i * (i + 1) == 2 * ((h + 1) * i);
    } else {
      assert i == 2 * h;
      assert i * (i + 1) == 2 * (h * (i + 1));
    }
  }

  /** As long as the counter itself does not wrap, the product is a triangular number modulo 2^64 ... */
  lemma PolynomialWraps(i: nat, cap: nat)
    requires cap > 0 && i + 1 < WORD
    ensures Polynomial(i, cap) == (Tri(i) % WORD) % cap
  {
    HalvedProduct(i);
    Small(i + 1, WORD);
  }

  /** ... which makes no difference for a capacity that divides 2^64. */
  lemma PolynomialIsTriangular(i: nat, k: nat)
    requires k <= 64 && i + 1 < WORD
    ensures Polynomial(i, Pow2(k)) == Tri(i) % Pow2(k)
  {
    PolynomialWraps(i, Pow2(k));
    Pow2Word();
    Pow2Sum(k, 64 - k);
    ModMod(Tri(i), Pow2(k), Pow2(64 - k));
  }

  // ---------------------------------------------------------------- counting

  ghost function Range(n: nat): (s: set<int>)
    ensures |s| == n && forall x :: x in s <==> 0 <= x < n
  {
    if n == 0 then {} else Range(n - 1) + {n - 1}
  }

  ghost function Elements(s: seq<int>): (e: set<int>)
    ensures |e| <= |s| && forall x :: x in e <==> x in s
  {
    if s == [] then {} else Elements(s[..|s| - 1]) + {s[|s| - 1]}
  }

  lemma {:induction false} DistinctElements(s: seq<int>)
    requires forall i, j :: 0 <= i < j < |s| ==> s[i] != s[j]
    ensures |Elements(s)| == |s|
  {
    if s != [] {
      DistinctElements(s[..|s| - 1]);
      assert s[|s| - 1] !in s[..|s| - 1];
    }
  }

  lemma SubsetSize(a: set<int>, b: set<int>)
    requires a <= b
    ensures |a| <= |b| && (|a| == |b| ==> a == b)
  {
    assert b == a + (b - a);
  }

  /** n distinct numbers below n are all the numbers below n. */
  lemma Pigeonhole(s: seq<int>, y: nat)
    requires forall i, j :: 0 <= i < j < |s| ==> s[i] != s[j]
    requires (forall i :: 0 <= i < |s| ==> 0 <= s[i] < |s|) && y < |s|
    ensures y in s
  {
    DistinctElements(s);
    SubsetSize(Elements(s), Range(|s|));
  }

  /** n numbers, two of them equal, miss one of the numbers below n. */
  lemma NotOnto(s: seq<int>) returns (y: nat)
    requires |s| > 1 && s[0] == s[|s| - 1]
    ensures y < |s| && y !in s
  {
    var short := s[..|s| - 1];
    assert s[0] == short[0];
    if Range(|s|) <= Elements(short) { SubsetSize(Range(|s|), Elements(short)); }
    var x :| x in Range(|s|) && x !in Elements(short);
    y := x;
  }

  // ---------------------------------------------------------------- powers of two: all slots, each once

  lemma OddTimes(a: int, b: int)
    requires a % 2 == 1 && (a * b) % 2 == 0
    ensures b % 2 == 0
  {
    var x := a / 2;
    assert a == 2 * x + 1;
    assert a * b == 2 * (x * b) + b;
    ModAdd(b, 2, x * b);
  }

  /** A power of two that divides a product with an odd factor divides the other factor. */
  lemma {:induction false} OddFactorDrops(k: nat, a: int, b: int, q: int) returns (r: int)
    requires a % 2 == 1 && a * b == Pow2(k) * q
    ensures b == Pow2(k) * r
    decreases k
  {
    if k == 0 {
      r := b;
    } else {
      var half := Pow2(k - 1) * q;
      assert a * b == 2 * half;
      OddTimes(a, b);
      var c := b / 2;
      assert b == 2 * c;
      assert 2 * (a * c) == a * b;
      r := OddFactorDrops(k - 1, a, c, q);
    }
  }

  lemma NotMultiple(p: int, b: int, r: int)
    requires 0 < b < p
    ensures b != p * r
  {
    if b == p * r { MultipleBelow(p, r); }
  }

  /** Of two numbers below 2^k whose sum is odd, the product is no multiple of 2^k. */
  lemma SmallProduct(k: nat, a: nat, b: nat, q: int)
    requires 0 < a < Pow2(k) && 0 < b < Pow2(k) && a % 2 == 1
    ensures a * b != Pow2(k) * q
  {
    if a * b == Pow2(k) * q {
      var r := OddFactorDrops(k, a, b, q);
      NotMultiple(Pow2(k), b, r);
    }
  }

  lemma Doubled(k: nat, q: int)
    ensures Pow2(k + 1) * q == 2 * (Pow2(k) * q)
  {
  }

  lemma TriDifference(i: nat, j: nat)
    requires i <= j
    ensures (j - i) * (j + i + 1) == 2 * (Tri(j) - Tri(i))
  {
    TriClosedForm(i);
    TriClosedForm(j);
    assert (j - i) * (j + i + 1) == j * (j + 1) - i * (i + 1);
  }

  lemma Commutes(a: int, b: int)
    ensures a * b == b * a
  {
  }

  lemma SmallPair(a: nat, b: nat, k: nat, q: int)
    requires 0 < a < Pow2(k + 1) && 0 < b < Pow2(k + 1) && (a + b) % 2 == 1
    ensures a * b != 2 * (Pow2(k) * q)
  {
    var m := Pow2(k + 1) * q;
    assert m == 2 * (Pow2(k) * q) by { Doubled(k, q); }
    if a % 2 == 1 {
      SmallProduct(k + 1, a, b, q);
    } else {
      assert b % 2 == 1;
      SmallProduct(k + 1, b, a, q);
      Commutes(a, b);
    }
  }

  lemma DistinctHalves(x: int, y: int, p: int, n: nat)
    requires p == 2 * (y - x) && n > 0 && forall q :: p != 2 * (n * q)
    ensures x % n != y % n
  {
    if x % n == y % n { var q := ModEqual(y, x, n); }
  }

  /** The first 2^k triangular numbers differ modulo 2^k. */
  lemma TriDistinct(i: nat, j: nat, k: nat)
    requires i < j < Pow2(k)
    ensures Tri(i) % Pow2(k) != Tri(j) % Pow2(k)
  {
    TriDifference(i, j);
    var a, b, p := j - i, j + i + 1, (j - i) * (j + i + 1);
    forall q ensures p != 2 * (Pow2(k) * q) { SmallPair(a, b, k, q); }
    DistinctHalves(Tri(i), Tri(j), p, Pow2(k));
  }

  /** From any start slot, the first 2^k probes of a table of 2^k slots are pairwise distinct. */
  lemma ProbesDistinct(h: nat, i: nat, j: nat, k: nat)
    requires i < j < Pow2(k) && k < 64
    ensures Probe(h, i, Pow2(k)) != Probe(h, j, Pow2(k))
  {
    var n := Pow2(k);
    Pow2Word();
    Pow2Grows(k, 63);
    PolynomialIsTriangular(i, k);
    PolynomialIsTriangular(j, k);
    TriDistinct(i, j, k);
    var x, y := Polynomial(i, n), Polynomial(j, n);
    if (h + x) % n == (h + y) % n {
      var q := ModEqual(h + x, h + y, n);
      MultipleBelow(n, q);
    }
  }

  /** ... and so they visit every slot. */
  lemma ProbesCover(h: nat, k: nat, slot: nat) returns (i: nat)
    requires k < 64 && slot < Pow2(k)
    ensures i < Pow2(k) && Probe(h, i, Pow2(k)) == slot
  {
    var s := seq(Pow2(k), i requires 0 <= i => Probe(h, i, Pow2(k)));
    forall i, j | 0 <= i < j < |s| ensures s[i] != s[j] { ProbesDistinct(h, i, j, k); }
    Pigeonhole(s, slot);
    i :| 0 <= i < |s| && s[i] == slot;
  }

  // ---------------------------------------------------------------- only powers of two

  ghost predicate Hit(r: nat, cap: nat)
    requires cap > 0
  {
    exists i: nat :: Tri(i) % cap == r
  }

  lemma PowerOfTwoCovers(k: nat, r: nat) returns (i: nat)
    requires r < Pow2(k)
    ensures i < Pow2(k) && Tri(i) % Pow2(k) == r
  {
    var s := seq(Pow2(k), i requires 0 <= i => Tri(i) % Pow2(k));
    forall i, j | 0 <= i < j < |s| ensures s[i] != s[j] { TriDistinct(i, j, k); }
    Pigeonhole(s, r);
    i :| 0 <= i < |s| && s[i] == r;
  }

  lemma {:induction false} OddPart(n: nat) returns (k: nat, d: nat)
    requires n > 0
    ensures n == Pow2(k) * d && d % 2 == 1
  {
    if n % 2 == 1 {
      k, d := 0, n;
    } else {
      k, d := OddPart(n / 2);
      k := k + 1;
    }
  }

  lemma {:induction false} TriShift(j: nat, d: nat, h: nat)
    requires d + 1 == 2 * h
    ensures Tri(j + d) % d == Tri(j) % d
  {
    TriClosedForm(j);
    TriClosedForm(j + d);
    assert (j + d) * (j + d + 1) == j * (j + 1) + 2 * (d * j) + d * (d + 1);
    assert d * (d + 1) == 2 * (d * h);
    assert d * (j + h) == d * j + d * h;
    ModAdd(Tri(j), d, j + h);
  }

  /** Modulo an odd d, the triangular numbers repeat with period d. */
  lemma {:induction false} TriPeriod(i: nat, d: nat) returns (r: nat)
    requires d % 2 == 1
    ensures r < d && Tri(i) % d == Tri(r) % d
    decreases i
  {
    if i < d {
      r := i;
    } else {
      TriShift(i - d, d, (d + 1) / 2);
      r := TriPeriod(i - d, d);
    }
  }

  lemma TriMirror(d: nat, h: nat)
    requires d == 2 * h + 1
    ensures Tri(d - 1) % d == 0 == Tri(0) % d
  {
    TriClosedForm(d - 1);
    assert (d - 1) * d == 2 * (d * h);
    ModAdd(0, d, h);
  }

  /** Modulo an odd d > 1 some residue is never hit: positions 0 and d - 1 of the period agree. */
  lemma OddModulusMisses(d: nat) returns (r: nat)
    requires d % 2 == 1 && d > 1
    ensures r < d && !Hit(r, d)
  {
    TriMirror(d, d / 2);
    var s := seq(d, i requires 0 <= i => Tri(i) % d);
    r := NotOnto(s);
    forall i: nat ensures Tri(i) % d != r {
      var p := TriPeriod(i, d);
      assert s[p] in s;
    }
  }

  /** An odd factor above 1 keeps a number from being a power of two. */
  lemma {:induction false} OddFactorOfPow2(d: nat, k: nat, e: nat)
    requires d % 2 == 1 && d * Pow2(k) == Pow2(e)
    ensures d == 1
    decreases k
  {
    if k > 0 {
      if e == 0 {
        Times(Pow2(k), 1, d);
      } else {
        assert d * Pow2(k) == 2 * (d * Pow2(k - 1));
        OddFactorOfPow2(d, k - 1, e - 1);
      }
    }
  }

  lemma MissesMultiple(r: nat, d: nat, m: nat)
    requires d > 0 && m > 0 && r < d && !Hit(r, d)
    ensures d * m > 0 && !Hit(r, d * m)
  {
    assert d * m > 0;
    forall i: nat ensures Tri(i) % (d * m) != r {
      ModMod(Tri(i), d, m);
      Small(r, d);
    }
  }

  lemma OtherMisses(cap: nat, k: nat, d: nat) returns (r: nat)
    requires cap == d * Pow2(k) && d % 2 == 1 && d > 1
    ensures 0 <= r < cap && !Hit(r, cap)
  {
    r := OddModulusMisses(d);
    Times(d, 1, Pow2(k));
    MissesMultiple(r, d, Pow2(k));
  }

  /** The triangular numbers themselves, unwrapped, reach all residues exactly for powers of two. */
  lemma CoversIffPowerOfTwo(cap: nat)
    requires cap > 0
    ensures (forall r :: 0 <= r < cap ==> Hit(r, cap)) <==> IsPow2(cap)
  {
    var k, d := OddPart(cap);
    if d == 1 {
      assert cap == Pow2(k);
      forall r | 0 <= r < cap ensures Hit(r, cap) { var i := PowerOfTwoCovers(k, r); }
    } else {
      if IsPow2(cap) {
        var e: nat :| cap == Pow2(e);
        OddFactorOfPow2(d, k, e);
      }
      var r := OtherMisses(cap, k, d);
    }
  }

  // ---------------------------------------------------------------- any capacity: the wrap-around helps

  lemma LastTri()
    ensures Tri(WORD - 1) % WORD == WORD / 2
  {
    TriClosedForm(WORD - 1);
    assert Tri(WORD - 1) == WORD / 2 + WORD * (WORD / 2 - 1);
    ModAdd(WORD / 2, WORD, WORD / 2 - 1);
  }

  /** Modulo 2^64 the triangular numbers take every value, so sooner or later the probes visit every slot of any table,
      before the counter wraps. */
  lemma AnyCapacityCovered(h: nat, cap: nat, slot: nat) returns (i: nat)
    requires h < cap <= WORD / 4 && slot < cap
    ensures i + 1 < WORD && Probe(h, i, cap) == slot
  {
    var v := if h <= slot then slot - h else slot + cap - h;
    Pow2Word();
    i := PowerOfTwoCovers(64, v);
    LastTri();
    PolynomialWraps(i, cap);
    Small(v, cap);
    if h <= slot { Small(slot, cap); } else { Small(slot, cap); ModAdd(slot, cap, 1); }
  }

  /** Before the product wraps, the probes of a table whose capacity is no power of two miss a slot. */
  lemma OtherCapacityMisses(cap: nat) returns (slot: nat)
    requires cap > 0 && !IsPow2(cap)
    ensures slot < cap && forall i: nat :: i < 0x1_0000_0000 ==> Probe(0, i, cap) != slot
  {
    CoversIffPowerOfTwo(cap);
    slot :| 0 <= slot < cap && !Hit(slot, cap);
    forall i: nat | i < 0x1_0000_0000 ensures Probe(0, i, cap) != slot {
      TriBelowWord(i);
      PolynomialWraps(i, cap);
      Small(Tri(i) % cap, cap);
    }
  }

  lemma TriBelowWord(i: nat)
    requires i < 0x1_0000_0000
    ensures Tri(i) % WORD == Tri(i)
  {
    TriClosedForm(i);
    var m := 0x1_0000_0000;
    Times(m, i + 1, m);
    assert i * (i + 1) <= m * (i + 1);
    Small(Tri(i), WORD);
  }
}
