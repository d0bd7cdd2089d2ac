/** Disk blocks: BSIZE bytes, which the log header and indirect blocks use as little-endian words. */
module Blocks {
  import opened Common

  const BSIZE := 1024
  const WORDS := BSIZE / 4

  type Block = b: seq<Byte> | |b| == BSIZE witness seq(BSIZE, i => 0)

  function ZeroBlock(): (b: Block) {
    seq(BSIZE, i => 0)
  }

  function GetWord(b: Block, j: nat): (w: Word)
    requires j < WORDS
  {
    b[4 * j] as int + 0x100 * b[4 * j + 1] as int + 0x1_0000 * b[4 * j + 2] as int + 0x100_0000 * b[4 * j + 3] as int
  }

  function PutWord(b: Block, j: nat, w: Word): (r: Block)
    requires j < WORDS
  {
    b[4 * j := w % 0x100][4 * j + 1 := w / 0x100 % 0x100][4 * j + 2 := w / 0x1_0000 % 0x100][4 * j + 3 := w / 0x100_0000]
  }

  lemma WordDigits(w: Word)
    ensures w == w % 0x100 + 0x100 * (w / 0x100 % 0x100) + 0x1_0000 * (w / 0x1_0000 % 0x100) + 0x100_0000 * (w / 0x100_0000)
  {
    assert w / 0x1_0000 == w / 0x100 / 0x100 && w / 0x100_0000 == w / 0x100 / 0x100 / 0x100;
  }

  lemma PutGetWord(b: Block, j: nat, w: Word, i: nat)
    requires j < WORDS && i < WORDS
    ensures GetWord(PutWord(b, j, w), i) == if i == j then w else GetWord(b, i)
  {
    WordDigits(w);
  }

  lemma ZeroWord(j: nat)
    requires j < WORDS
    ensures GetWord(ZeroBlock(), j) == 0
  {
  }

  lemma PutGetWords(b: Block, j: nat, w: Word)
    requires j < WORDS
    ensures forall i :: 0 <= i < WORDS ==> GetWord(PutWord(b, j, w), i) == if i == j then w else GetWord(b, i)
  {
    forall i | 0 <= i < WORDS
      ensures GetWord(PutWord(b, j, w), i) == if i == j then w else GetWord(b, i)
    {
      PutGetWord(b, j, w, i);
    }
  }
}
