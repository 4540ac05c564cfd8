/** Disk blocks: 512 bytes, also read as 128 little-endian 32-bit words, as
    log.c does for its header and fs.c does for indirect blocks. */
module Blocks {

  const BSIZE := 512
  const WORDS := 128
  const WORD_LIMIT := 0x1_0000_0000

  type byte = x: int | 0 <= x < 256
  type Block = b: seq<byte> | |b| == 512 witness seq(512, _ => 0)
  type Disk = seq<Block>

  /** memset of a whole block. */
  function FilledBlock(x: byte): Block {
    seq(512, _ => x)
  }

  const ZeroBlock: Block := FilledBlock(0)

  /** The number whose little-endian bytes are a, b, c, d. */
  function Join(a: int, b: int, c: int, d: int): int {
    a + 0x100 * (b + 0x100 * (c + 0x100 * d))
  }

  /** The j-th 32-bit word of a block. */
  function Word(b: Block, j: nat): (w: nat)
    requires j < WORDS
    ensures w < WORD_LIMIT
  {
    Join(b[4 * j], b[4 * j + 1], b[4 * j + 2], b[4 * j + 3])
  }

  /** The k-th byte of a number, least significant first. */
  function ByteOf(v: nat, k: nat): byte {
    if k == 0 then v % 0x100 else ByteOf(v / 0x100, k - 1)
  }

  /** Store v as the j-th word, leaving every other byte alone. */
  function SetWord(b: Block, j: nat, v: nat): Block
    requires j < WORDS && v < WORD_LIMIT
  {
    seq(512, i requires 0 <= i < 512 => if i / 4 == j then ByteOf(v, i % 4) else b[i])
  }

  lemma SplitByte(v: nat)
    ensures v == v % 0x100 + 0x100 * (v / 0x100)
  {
  }

  lemma BytesOfWord(v: nat)
    requires v < WORD_LIMIT
    ensures Join(ByteOf(v, 0), ByteOf(v, 1), ByteOf(v, 2), ByteOf(v, 3)) == v
  {
    var v1 := v / 0x100;
    var v2 := v1 / 0x100;
    var v3 := v2 / 0x100;
    SplitByte(v);
    SplitByte(v1);
    SplitByte(v2);
    SplitByte(v3);
    assert v3 < 0x100;
    calc {
      Join(ByteOf(v, 0), ByteOf(v, 1), ByteOf(v, 2), ByteOf(v, 3));
      Join(v % 0x100, ByteOf(v1, 0), ByteOf(v1, 1), ByteOf(v1, 2));
      Join(v % 0x100, v1 % 0x100, ByteOf(v2, 0), ByteOf(v2, 1));
      Join(v % 0x100, v1 % 0x100, v2 % 0x100, v3);
      v;
    }
  }

  /** A stored word is read back, and no other word moves. */
  lemma SetWordGet(b: Block, j: nat, v: nat, k: nat)
    requires j < WORDS && v < WORD_LIMIT && k < WORDS
    ensures Word(SetWord(b, j, v), k) == if k == j then v else Word(b, k)
  {
    var c := SetWord(b, j, v);
    assert (4 * k) / 4 == k && (4 * k + 1) / 4 == k && (4 * k + 2) / 4 == k && (4 * k + 3) / 4 == k;
    if k == j {
      assert c[4 * k] == ByteOf(v, 0) && c[4 * k + 1] == ByteOf(v, 1);
      assert c[4 * k + 2] == ByteOf(v, 2) && c[4 * k + 3] == ByteOf(v, 3);
      BytesOfWord(v);
    }
  }
}
