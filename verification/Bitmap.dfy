/** Bits of a bitmap block, as balloc and bfree read and change them. */
module Bitmap {
  import opened Blocks

  const BPB := 4096  // bits per block

  function Mask(k: nat): nat {
    if k == 0 then 1 else 2 * Mask(k - 1)
  }

  // x & (1 << k)
  predicate HasBit(x: nat, k: nat) {
    if k == 0 then x % 2 == 1 else HasBit(x / 2, k - 1)
  }

  lemma {:induction false} AddMask(x: nat, k: nat, j: nat)
    requires !HasBit(x, k)
    ensures HasBit(x + Mask(k), j) <==> j == k || HasBit(x, j)
  {
    if k == 0 {
      assert (x + 1) / 2 == x / 2;
    } else {
      assert (x + Mask(k)) / 2 == x / 2 + Mask(k - 1);
      if j > 0 {
        AddMask(x / 2, k - 1, j - 1);
      }
    }
  }

  lemma {:induction false} SubMask(x: nat, k: nat, j: nat)
    requires HasBit(x, k)
    ensures Mask(k) <= x
    ensures HasBit(x - Mask(k), j) <==> j != k && HasBit(x, j)
  {
    if k == 0 {
      assert (x - 1) / 2 == x / 2;
    } else {
      SubMask(x / 2, k - 1, if j > 0 then j - 1 else 0);
      assert (x - Mask(k)) / 2 == x / 2 - Mask(k - 1);
    }
  }

  lemma {:induction false} MaskFits(x: nat, k: nat, n: nat)
    requires k < n && x < Mask(n) && !HasBit(x, k)
    ensures x + Mask(k) < Mask(n)
  {
    var h, m := x / 2, Mask(n - 1);
    assert Mask(n) == 2 * m;
    if k > 0 {
      var q := Mask(k - 1);
      assert Mask(k) == 2 * q;
      MaskFits(h, k - 1, n - 1);
    }
  }

  predicate Bit(b: Block, bi: nat)
    requires bi < BPB
  {
    HasBit(b[bi / 8], bi % 8)
  }

  // data[bi/8] |= m, for a clear bit
  function SetBit(b: Block, bi: nat): Block
    requires bi < BPB && !Bit(b, bi)
  {
    ByteRoom(b, bi);
    var x: int := b[bi / 8];
    b[bi / 8 := x + Mask(bi % 8)]
  }

  lemma ByteRoom(b: Block, bi: nat)
    requires bi < BPB && !Bit(b, bi)
    ensures b[bi / 8] as int + Mask(bi % 8) < 256
  {
    MaskFits(b[bi / 8], bi % 8, 8);
  }

  // data[bi/8] &= ~m, for a set bit
  function ClearBit(b: Block, bi: nat): Block
    requires bi < BPB && Bit(b, bi)
  {
    SubMask(b[bi / 8], bi % 8, 0);
    var x: int := b[bi / 8];
    b[bi / 8 := x - Mask(bi % 8)]
  }

  /** Setting a bit changes that bit only. */
  lemma SetBitBits(b: Block, bi: nat)
    requires bi < BPB && !Bit(b, bi)
    ensures forall bj :: 0 <= bj < BPB ==> (Bit(SetBit(b, bi), bj) <==> bj == bi || Bit(b, bj))
  {
    forall bj | 0 <= bj < BPB ensures Bit(SetBit(b, bi), bj) <==> bj == bi || Bit(b, bj) {
      AddMask(b[bi / 8], bi % 8, bj % 8);
    }
  }

  /** Clearing a bit changes that bit only. */
  lemma ClearBitBits(b: Block, bi: nat)
    requires bi < BPB && Bit(b, bi)
    ensures forall bj :: 0 <= bj < BPB ==> (Bit(ClearBit(b, bi), bj) <==> bj != bi && Bit(b, bj))
  {
    forall bj | 0 <= bj < BPB ensures Bit(ClearBit(b, bi), bj) <==> bj != bi && Bit(b, bj) {
      SubMask(b[bi / 8], bi % 8, bj % 8);
    }
  }

  lemma {:induction false} NoBits(k: nat)
    ensures !HasBit(0, k)
  {
    if k > 0 {
      NoBits(k - 1);
    }
  }

  /** The bitmap mkfs writes: the bits of the blocks in use are set, and no others. */
  method MarkFirst(used: nat) returns (b: Block)
    requires used <= BPB
    ensures forall bi :: 0 <= bi < BPB ==> (Bit(b, bi) <==> bi < used)
  {
    b := ZeroBlock();
    forall bi | 0 <= bi < BPB ensures !Bit(b, bi) {
      NoBits(bi % 8);
    }
    for i := 0 to used
      invariant forall bi :: 0 <= bi < BPB ==> (Bit(b, bi) <==> bi < i)
    {
      SetBitBits(b, i);
      b := SetBit(b, i);
    }
  }
}
