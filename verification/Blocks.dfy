/**
 Disk blocks as byte sequences, and the 32-bit little-endian words inside them.
 The log header and the indirect blocks of files are arrays of such words.
 */
module Blocks {
  const BSIZE: nat := 512
  const WORDS_PER_BLOCK: nat := BSIZE / 4

  type Byte = x: int | 0 <= x < 256
  type Word = x: int | 0 <= x < 0x1_0000_0000
  type Block = b: seq<Byte> | |b| == BSIZE witness seq(BSIZE, _ => 0)

  function ZeroBlock(): Block {
    seq(BSIZE, _ => 0)
  }

  function GetWord(b: Block, i: nat): Word
    requires i < WORDS_PER_BLOCK
  {
    var b0: int, b1: int, b2: int, b3: int := b[4 * i], b[4 * i + 1], b[4 * i + 2], b[4 * i + 3];
    b0 + 256 * b1 + 0x1_0000 * b2 + 0x100_0000 * b3
  }

  function PutWord(b: Block, i: nat, w: Word): Block
    requires i < WORDS_PER_BLOCK
  {
    b[4 * i := w % 256][4 * i + 1 := w / 256 % 256][4 * i + 2 := w / 0x1_0000 % 256][4 * i + 3 := w / 0x100_0000]
  }

  lemma BytesOfWord(w: Word)
    ensures w == w % 256 + 256 * (w / 256 % 256) + 0x1_0000 * (w / 0x1_0000 % 256) + 0x100_0000 * (w / 0x100_0000)
  {
  }

  /** A stored word reads back, and storing it leaves every other word alone. */
  lemma GetPutWord(b: Block, i: nat, w: Word)
    requires i < WORDS_PER_BLOCK
    ensures GetWord(PutWord(b, i, w), i) == w
    ensures forall j: nat | j < WORDS_PER_BLOCK && j != i :: GetWord(PutWord(b, i, w), j) == GetWord(b, j)
  {
    BytesOfWord(w);
    forall j: nat | j < WORDS_PER_BLOCK && j != i
      ensures GetWord(PutWord(b, i, w), j) == GetWord(b, j)
    {
    }
  }

  lemma ZeroBlockWords(i: nat)
    requires i < WORDS_PER_BLOCK
    ensures GetWord(ZeroBlock(), i) == 0
  {
  }
}
