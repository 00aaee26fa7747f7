/**
  Non-negative integers used as bit masks of positions, with the three operations the route
  search needs: testing a bit (`mask & (1 << k)`), setting a bit (`mask | (1 << k)`) and the
  mask with the lowest `count` bits set (`(1 << count) - 1`).
 */
module Masks {

  function Pow2(k: nat): (r: nat)
    ensures r > 0
  {
    if k == 0 then 1 else 2 * Pow2(k - 1)
  }

  predicate Bit(mask: nat, k: nat) {
    if k == 0 then mask % 2 == 1 else Bit(mask / 2, k - 1)
  }

  function WithBit(mask: nat, k: nat): nat {
    if k == 0 then mask - mask % 2 + 1 else 2 * WithBit(mask / 2, k - 1) + mask % 2
  }

  /** Setting a bit adds exactly that bit. */
  lemma {:induction false} WithBitBits(mask: nat, k: nat, j: nat)
    ensures Bit(WithBit(mask, k), j) <==> j == k || Bit(mask, j)
  {
    if k > 0 && j > 0 {
      WithBitBits(mask / 2, k - 1, j - 1);
      assert WithBit(mask, k) / 2 == WithBit(mask / 2, k - 1);
    } else if j > 0 {
      assert WithBit(mask, 0) / 2 == mask / 2;
    }
  }

  /** A mask only grows when a bit that was clear is set, and stays within its width. */
  lemma {:induction false} WithBitGrows(mask: nat, k: nat, count: nat)
    requires k < count && mask < Pow2(count)
    ensures WithBit(mask, k) < Pow2(count)
    ensures !Bit(mask, k) ==> mask < WithBit(mask, k)
  {
    if k > 0 {
      WithBitGrows(mask / 2, k - 1, count - 1);
    }
  }

  lemma {:induction false} NoBitOfZero(k: nat)
    ensures !Bit(0, k)
  {
    if k > 0 {
      NoBitOfZero(k - 1);
    }
  }

  /** Only the full mask has every bit of its width. */
  lemma {:induction false} FullMask(mask: nat, count: nat)
    requires mask < Pow2(count)
    requires forall j: nat | j < count :: Bit(mask, j)
    ensures mask == Pow2(count) - 1
  {
    if count > 0 {
      assert Bit(mask, 0);
      forall j: nat | j < count - 1 ensures Bit(mask / 2, j) {
        assert Bit(mask, j + 1);
      }
      FullMask(mask / 2, count - 1);
    }
  }
}
