/** Facts about remainders, stated so that the proofs that use them stay free of nonlinear arithmetic. */
module Remainders {

  lemma MultipleBelow(n: int, k: int)
    requires n > 0 && -n < n * k < n
    ensures k == 0
  {
    if k > 0 { Times(n, 1, k); }
    if k < 0 { Times(n, k, -1); }
  }

  lemma Times(n: int, a: int, b: int)
    requires n > 0 && a <= b
    ensures n * a <= n * b
  {
  }

  lemma Small(x: nat, n: nat)
    requires x < n
    ensures x % n == x
  {
  }

  lemma ModAdd(a: int, n: int, q: int)
    requires n > 0
    ensures (a + n * q) % n == a % n
  {
    var e := a + n * q;
    assert e == n * (e / n) + e % n && a == n * (a / n) + a % n;
    var k := e / n - a / n - q;
    assert n * k == a % n - e % n by { assert n * k == n * (e / n) - n * (a / n) - n * q; }
    MultipleBelow(n, k);
  }

  /** Equal remainders: the difference is a multiple. */
  lemma ModEqual(a: int, b: int, n: int) returns (q: int)
    requires n > 0 && a % n == b % n
    ensures a - b == n * q
  {
    q := a / n - b / n;
    assert a == n * (a / n) + a % n && b == n * (b / n) + b % n;
  }

  lemma ModMod(a: int, n: int, m: int)
    requires n > 0 && m > 0
    ensures (a % (n * m)) % n == a % n
  {
    var w := n * m;
    assert a == w * (a / w) + a % w;
    assert w * (a / w) == n * (m * (a / w));
    ModAdd(a % w, n, m * (a / w));
  }
}
