/** Unsigned machine words as numbers, and the bitwise operations on them. */
module Bits {
  const TWO_32: nat := 0x1_0000_0000
  const TWO_34: nat := 0x4_0000_0000
  const TWO_64: nat := 0x1_0000_0000_0000_0000

  function Pow2(k: nat): (p: nat)
    ensures p > 0
  {
    if k == 0 then 1 else 2 * Pow2(k - 1)
  }

  function Or(a: nat, b: nat): nat {
    if a == 0 && b == 0 then 0
    else 2 * Or(a / 2, b / 2) + if a % 2 == 1 || b % 2 == 1 then 1 else 0
  }

  function And(a: nat, b: nat): nat {
    if a == 0 && b == 0 then 0
    else 2 * And(a / 2, b / 2) + if a % 2 == 1 && b % 2 == 1 then 1 else 0
  }

  /** What either has and what both have come to what the two have. */
  lemma {:induction false} OrAndSum(a: nat, b: nat)
    ensures Or(a, b) + And(a, b) == a + b
  {
    if a != 0 || b != 0 {
      OrAndSum(a / 2, b / 2);
    }
  }

  /** Fields that share no bit add up. */
  lemma {:induction false} OrOfFields(low: nat, high: nat, k: nat)
    requires low < Pow2(k)
    ensures Or(low, high * Pow2(k)) == low + high * Pow2(k)
    ensures And(low, high * Pow2(k)) == 0
    decreases k
  {
    if k == 0 {
      assert low == 0 && high * Pow2(k) == high;
      OrZero(high);
    } else {
      var half := high * Pow2(k - 1);
      assert high * Pow2(k) == 2 * half;
      OrOfFields(low / 2, high, k - 1);
    }
  }

  lemma {:induction false} OrZero(a: nat)
    ensures Or(0, a) == a && And(0, a) == 0
  {
    if a != 0 {
      OrZero(a / 2);
    }
  }

  lemma Powers()
    ensures Pow2(32) == TWO_32 && Pow2(34) == TWO_34
  {
    assert Pow2(8) == 256;
    assert Pow2(16) == 65536;
    assert Pow2(24) == 0x100_0000;
  }

  /** `as u32`, and `as u64`. */
  function U32(x: int): (u: nat)
    ensures u < TWO_32
  {
    x % TWO_32
  }

  function U64(x: int): (u: nat)
    ensures u < TWO_64
  {
    x % TWO_64
  }

  /** `as i32`. */
  function I32(x: int): (i: int)
    ensures -0x8000_0000 <= i < 0x8000_0000
  {
    var u := U32(x);
    if u < 0x8000_0000 then u else u - TWO_32
  }
}
