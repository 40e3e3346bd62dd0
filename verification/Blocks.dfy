/** Disk blocks: 1024 bytes, also seen as 256 little-endian 32-bit words. */
module Blocks {
  import opened Prelude

  const BSIZE := 1024
  const WORDS := 256

  type Word32 = x: int | 0 <= x < 0x1_0000_0000
  type Block = s: seq<Byte> | |s| == BSIZE witness seq(BSIZE, _ => 0)

  /** The contents of a disk, one block per block number. */
  type Disk = seq<Block>

  function ZeroBlock(): (b: Block)
    ensures forall i | 0 <= i < BSIZE :: b[i] == 0
  {
    seq(BSIZE, _ => 0)
  }

  /** The `i`-th word of the block, as a C program sees it through a `uint *`. */
  function Word(b: Block, i: nat): (w: Word32)
    requires i < WORDS
  {
    var b0: int, b1: int, b2: int, b3: int := b[4 * i], b[4 * i + 1], b[4 * i + 2], b[4 * i + 3];
    b0 + 0x100 * b1 + 0x1_0000 * b2 + 0x100_0000 * b3
  }

  /** Storing a word changes that word and no other. */
  function SetWord(b: Block, i: nat, w: Word32): (r: Block)
    requires i < WORDS
    ensures Word(r, i) == w
    ensures forall j: nat | j < WORDS && j != i :: Word(r, j) == Word(b, j)
  {
    var q1 := w / 0x100;
    var q2 := q1 / 0x100;
    b[4 * i := w % 0x100][4 * i + 1 := q1 % 0x100][4 * i + 2 := q2 % 0x100][4 * i + 3 := q2 / 0x100]
  }

  /** The number with these bytes, the lowest first. */
  function LittleEndian(s: seq<Byte>): (n: int) {
    if s == [] then 0 else s[0] + 256 * LittleEndian(s[1..])
  }

  lemma WordIsLittleEndian(b: Block, i: nat)
    requires i < WORDS
    ensures Word(b, i) == LittleEndian(b[4 * i..4 * i + 4])
  {
    var s := b[4 * i..4 * i + 4];
    var b2: int, b3: int := s[2], s[3];
    assert s[1..][1..] == s[2..] && s[2..][1..] == s[3..] && s[3..][1..] == [];
    assert LittleEndian(s[3..]) == b3;
    assert LittleEndian(s[2..]) == b2 + 256 * b3;
  }

  lemma ZeroWord(i: nat)
    requires i < WORDS
    ensures Word(ZeroBlock(), i) == 0
  {
  }
}
