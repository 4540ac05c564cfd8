/** The free map of fs.c: one bit per block, eight to a byte, 4096 to a block. */
module Bitmap {
  import opened Blocks

  const BPB: nat := 4096

  function Pow2(n: nat): nat {
    if n == 0 then 1 else 2 * Pow2(n - 1)
  }

  /** Bit k of x. */
  predicate Bit(x: nat, k: nat) {
    if k == 0 then x % 2 == 1 else Bit(x / 2, k - 1)
  }

  /** x with bit k turned over: x | m for a bit that is clear, x & ~m for one that is set. */
  function Flip(x: nat, k: nat): nat {
    if k == 0 then (if x % 2 == 1 then x - 1 else x + 1) else 2 * Flip(x / 2, k - 1) + x % 2
  }

  lemma {:induction false} FlipBit(x: nat, k: nat, j: nat)
    ensures Bit(Flip(x, k), j) <==> if j == k then !Bit(x, k) else Bit(x, j)
  {
    if k > 0 && j > 0 {
      FlipBit(x / 2, k - 1, j - 1);
      assert Flip(x, k) / 2 == Flip(x / 2, k - 1);
    }
  }

  lemma {:induction false} FlipBound(x: nat, k: nat, n: nat)
    requires k < n && x < Pow2(n)
    ensures Flip(x, k) < Pow2(n)
  {
    var half := Pow2(n - 1);
    assert Pow2(n) == 2 * half;
    assert x / 2 < half;
    if k > 0 {
      FlipBound(x / 2, k - 1, n - 1);
      assert Flip(x, k) == 2 * Flip(x / 2, k - 1) + x % 2;
    } else {
      assert Flip(x, k) <= 2 * (x / 2) + 1;
    }
  }

  lemma FlipByte(x: byte, k: nat)
    requires k < 8
    ensures Flip(x, k) < 256
  {
    assert Pow2(8) == 256 by { assert Pow2(4) == 16; }
    FlipBound(x, k, 8);
  }

  /** Bit i of a bitmap block. */
  predicate BlockBit(b: Block, i: nat)
    requires i < BPB
  {
    Bit(b[i / 8], i % 8)
  }

  function FlipBlock(b: Block, i: nat): Block
    requires i < BPB
  {
    FlipByte(b[i / 8], i % 8);
    b[i / 8 := Flip(b[i / 8], i % 8)]
  }

  lemma FlipBlockBit(b: Block, i: nat, j: nat)
    requires i < BPB && j < BPB
    ensures BlockBit(FlipBlock(b, i), j) <==> if j == i then !BlockBit(b, i) else BlockBit(b, j)
  {
    FlipByte(b[i / 8], i % 8);
    FlipBit(b[i / 8], i % 8, j % 8);
    if j / 8 == i / 8 && j % 8 == i % 8 { assert j == i / 8 * 8 + i % 8; }
  }

  /** The bit of block b in the map that starts at block `start`. */
  predicate Used(disk: Disk, start: nat, b: nat)
    requires start + b / BPB < |disk|
  {
    BlockBit(disk[start + b / BPB], b % BPB)
  }

  function FlipUsed(disk: Disk, start: nat, b: nat): Disk
    requires start + b / BPB < |disk|
  {
    disk[start + b / BPB := FlipBlock(disk[start + b / BPB], b % BPB)]
  }

  lemma FlipUsedBit(disk: Disk, start: nat, b: nat, c: nat)
    requires start + b / BPB < |disk| && start + c / BPB < |disk|
    ensures Used(FlipUsed(disk, start, b), start, c) <==> if c == b then !Used(disk, start, b) else Used(disk, start, c)
  {
    FlipBlockBit(disk[start + b / BPB], b % BPB, c % BPB);
    if c / BPB == b / BPB && c % BPB == b % BPB { assert c == b / BPB * BPB + b % BPB; }
  }
}
