/** The bitmap macros of the pager (default_pager_internal.h): a bitmap is an array of
    bytes, and bit `i` is bit `i % 8` of byte `i / 8`. */
module Bits {

  const NBBY: nat := 8
  const BYTEMASK: bv8 := 0xff

  /** Bit `k` alone, 1 << k. */
  function Mask(k: nat): bv8
    requires k < NBBY
  {
    if k == 0 then 1 else if k == 1 then 2 else if k == 2 then 4 else if k == 3 then 8
    else if k == 4 then 16 else if k == 5 then 32 else if k == 6 then 64 else 128
  }

  predicate Isset(b: bv8, k: nat)
    requires k < NBBY
  {
    b & Mask(k) != 0
  }

  function SetBit(b: bv8, k: nat): bv8
    requires k < NBBY
  {
    b | Mask(k)
  }

  function ClrBit(b: bv8, k: nat): bv8
    requires k < NBBY
  {
    b & !Mask(k)
  }

  /** Setting or clearing one bit of a byte changes that bit and no other. */
  lemma BitFrame(b: bv8, k: nat, j: nat)
    requires k < NBBY && j < NBBY
    ensures Isset(SetBit(b, k), j) == (j == k || Isset(b, j))
    ensures Isset(ClrBit(b, k), j) == (j != k && Isset(b, j))
  {
    MasksApart(k, j);
    Masked(b, Mask(k), Mask(j), j == k);
  }

  lemma MaskIs(k: nat)
    requires k < NBBY
    ensures Mask(k) == 1 << k
  {
    if k == 0 { } else if k == 1 { } else if k == 2 { } else if k == 3 { }
    else if k == 4 { } else if k == 5 { } else if k == 6 { } else { }
  }

  lemma MasksApart(k: nat, j: nat)
    requires k < NBBY && j < NBBY
    ensures Mask(j) != 0 && (j != k ==> Mask(k) & Mask(j) == 0)
  {
    if k == 0 { } else if k == 1 { } else if k == 2 { } else if k == 3 { }
    else if k == 4 { } else if k == 5 { } else if k == 6 { } else { }
  }

  /** Adding or taking away bits of a byte, seen through the same bits or others. */
  lemma Masked(b: bv8, m: bv8, n: bv8, same: bool)
    requires n != 0 && if same then m == n else m & n == 0
    ensures ((b | m) & n != 0) == (same || b & n != 0)
    ensures ((b & !m) & n != 0) == (!same && b & n != 0)
  {
  }

  /** A byte is skipped by the search (it equals BYTEMASK) exactly when all its bits are set. */
  lemma FullByte(b: bv8)
    ensures b == BYTEMASK <==> forall k: nat :: k < NBBY ==> Isset(b, k)
  {
    if forall k: nat :: k < NBBY ==> Isset(b, k) {
      assert Isset(b, 0) && Isset(b, 1) && Isset(b, 2) && Isset(b, 3);
      assert Isset(b, 4) && Isset(b, 5) && Isset(b, 6) && Isset(b, 7);
    }
    if b == BYTEMASK {
      forall k: nat | k < NBBY ensures Isset(b, k) {
        if k == 0 { } else if k == 1 { } else if k == 2 { } else if k == 3 { }
        else if k == 4 { } else if k == 5 { } else if k == 6 { } else { }
      }
    }
  }

  /** Bit `i` of a whole bitmap. */
  predicate BitOf(bm: seq<bv8>, i: nat)
    requires i < NBBY * |bm|
  {
    Isset(bm[i / NBBY], i % NBBY)
  }

  /** The bitmap with bit `c` set, or cleared: one byte is rewritten. */
  function WithBit(bm: seq<bv8>, c: nat, value: bool): (r: seq<bv8>)
    requires c < NBBY * |bm|
    ensures |r| == |bm|
  {
    var b := bm[c / NBBY];
    bm[c / NBBY := if value then SetBit(b, c % NBBY) else ClrBit(b, c % NBBY)]
  }

  /** The set of bits that are set in a bitmap, the padding of the last byte included. */
  function UsedBits(bm: seq<bv8>): (s: set<nat>) {
    set i: nat | i < NBBY * |bm| && BitOf(bm, i)
  }

  /** Rewriting one byte changes one bit of the whole bitmap. */
  lemma WithBitUsed(bm: seq<bv8>, c: nat, value: bool)
    requires c < NBBY * |bm|
    ensures UsedBits(WithBit(bm, c, value)) == if value then UsedBits(bm) + {c} else UsedBits(bm) - {c}
  {
    var r := WithBit(bm, c, value);
    forall i: nat | i < NBBY * |bm|
      ensures BitOf(r, i) == if i == c then value else BitOf(bm, i)
    {
      if i / NBBY == c / NBBY {
        BitFrame(bm[c / NBBY], c % NBBY, i % NBBY);
      }
    }
  }
}
