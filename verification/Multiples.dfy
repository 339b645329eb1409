/** Positions in an array of equal parts, defined by addition to keep products out of the proofs. */
module Multiples {

  /** The start of run k, k * sub, by addition. */
  function At(k: nat, sub: nat): (i: nat) { if k == 0 then 0 else At(k - 1, sub) + sub }

  lemma {:induction false} AtTimes(k: nat, sub: nat)
    ensures At(k, sub) == k * sub
  {
    if k > 0 { AtTimes(k - 1, sub); }
  }

  lemma {:induction false} AtOrder(a: nat, b: nat, sub: nat)
    requires a <= b
    ensures At(a, sub) <= At(b, sub)
    ensures a < b ==> At(a, sub) + sub <= At(b, sub)
    decreases b
  {
    if a < b { AtOrder(a, b - 1, sub); }
  }

  lemma {:induction false} AtDouble(k: nat, sub: nat)
    ensures At(k, 2 * sub) == At(2 * k, sub)
  {
    if k > 0 { AtDouble(k - 1, sub); assert At(2 * k, sub) == At(2 * k - 1, sub) + sub; }
  }
}
