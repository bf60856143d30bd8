/** Bitwise operations on numbers. */
module Bits {

  /** Bitwise or of two numbers. */
  function Or(a: nat, b: nat): nat
    decreases a + b
  {
    if a == 0 && b == 0 then 0
    else (if a % 2 == 1 || b % 2 == 1 then 1 else 0) + 2 * Or(a / 2, b / 2)
  }

  function Pow2(k: nat): (p: nat)
    ensures p > 0
  {
    if k == 0 then 1 else 2 * Pow2(k - 1)
  }

  lemma {:induction false} OrZero(b: nat)
    ensures Or(0, b) == b
  {
    if b != 0 {
      OrZero(b / 2);
    }
  }

  /** Or with bits above all bits of `x` is addition. */
  lemma {:induction false} OrDisjoint(x: nat, y: nat, k: nat)
    requires x < Pow2(k)
    ensures Or(x, y * Pow2(k)) == x + y * Pow2(k)
  {
    if k == 0 {
      OrZero(y);
    } else {
      var high := y * Pow2(k - 1);
      assert y * Pow2(k) == 2 * high;
      OrDisjoint(x / 2, y, k - 1);
    }
  }

  /** The number of bits of `x`. */
  function BitLength(x: nat): nat {
    if x == 0 then 0 else 1 + BitLength(x / 2)
  }

  lemma {:induction false} BitLengthBound(x: nat, k: nat)
    ensures BitLength(x) <= k <==> x < Pow2(k)
  {
    if k > 0 && x > 0 {
      BitLengthBound(x / 2, k - 1);
    }
  }
}
