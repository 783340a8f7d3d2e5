/** Disk sectors as byte sequences, and the little-endian words stored in them. */
module Bytes {

  const BSIZE: nat := 512
  const WORDS: nat := 128        // 32-bit words in a sector
  const U16: nat := 0x1_0000
  const U32: nat := 0x1_0000_0000

  type Byte = x: int | 0 <= x < 256
  type Block = b: seq<Byte> | |b| == BSIZE witness ZeroBlock()

  function ZeroBlock(): (b: seq<Byte>)
    ensures |b| == BSIZE && forall i :: 0 <= i < BSIZE ==> b[i] == 0
  {
    seq(BSIZE, _ => 0)
  }

  /** The i-th little-endian 32-bit word of a sector. */
  function Word(b: Block, i: nat): (w: nat)
    requires i < WORDS
    ensures w < U32
  {
    (b[4 * i] as int) + 0x100 * (b[4 * i + 1] as int)
    + 0x1_0000 * (b[4 * i + 2] as int) + 0x100_0000 * (b[4 * i + 3] as int)
  }

  function PutWord(b: Block, i: nat, w: nat): (r: Block)
    requires i < WORDS && w < U32
  {
    b[4 * i := w % 0x100]
     [4 * i + 1 := w / 0x100 % 0x100]
     [4 * i + 2 := w / 0x1_0000 % 0x100]
     [4 * i + 3 := w / 0x100_0000]
  }

  /** A word written is read back, and no other word or byte changes. */
  lemma PutWordGet(b: Block, i: nat, w: nat)
    requires i < WORDS && w < U32
    ensures Word(PutWord(b, i, w), i) == w
    ensures forall j :: 0 <= j < WORDS && j != i ==> Word(PutWord(b, i, w), j) == Word(b, j)
    ensures forall k :: 0 <= k < BSIZE && !(4 * i <= k < 4 * i + 4) ==> PutWord(b, i, w)[k] == b[k]
  {
  }

  lemma ZeroWords(i: nat)
    requires i < WORDS
    ensures Word(ZeroBlock(), i) == 0
  {
  }
}
