/** Disk blocks: 512 bytes, also read as 128 little-endian 32-bit words
    (the log header and an indirect block are arrays of words). */
module Blocks {

  const BSIZE := 512
  const WORDS := 128
  const WORD_LIMIT := 0x1_0000_0000

  type byte = b: int | 0 <= b < 256

  type Block = b: seq<byte> | |b| == BSIZE witness seq(BSIZE, i => 0)

  function ZeroBlock(): Block {
    seq(BSIZE, i => 0)
  }

  function Word(b: Block, i: nat): (w: nat)
    requires i < WORDS
    ensures w < WORD_LIMIT
  {
    var b0: int, b1: int, b2: int, b3: int := b[4*i], b[4*i+1], b[4*i+2], b[4*i+3];
    b0 + 0x100 * b1 + 0x1_0000 * b2 + 0x100_0000 * b3
  }

  function PutWord(b: Block, i: nat, w: nat): Block
    requires i < WORDS && w < WORD_LIMIT
  {
    b[4*i := w % 0x100][4*i+1 := w / 0x100 % 0x100][4*i+2 := w / 0x1_0000 % 0x100][4*i+3 := w / 0x100_0000]
  }

  /** Storing a word changes that word and no other. */
  lemma PutWordWord(b: Block, i: nat, w: nat, j: nat)
    requires i < WORDS && j < WORDS && w < WORD_LIMIT
    ensures Word(PutWord(b, i, w), j) == if i == j then w else Word(b, j)
  {
    if i == j {
      var p := PutWord(b, i, w);
      assert p[4*i] == w % 0x100 && p[4*i+1] == w / 0x100 % 0x100;
      assert p[4*i+2] == w / 0x1_0000 % 0x100 && p[4*i+3] == w / 0x100_0000;
      WordSplit(w);
    } else if i < j {
      assert 4*i+3 < 4*j;
    } else {
      assert 4*j+3 < 4*i;
    }
  }

  lemma WordSplit(w: nat)
    requires w < WORD_LIMIT
    ensures w == w % 0x100 + 0x100 * (w / 0x100 % 0x100) + 0x1_0000 * (w / 0x1_0000 % 0x100) + 0x100_0000 * (w / 0x100_0000)
  {
    var q := w / 0x100;
    var r := q / 0x100;
    assert r == w / 0x1_0000;
    assert r / 0x100 == w / 0x100_0000;
  }

  lemma ZeroWord(i: nat)
    requires i < WORDS
    ensures Word(ZeroBlock(), i) == 0
  {
  }
}
