/** Disk blocks as byte arrays, with the two views the kernel casts them to:
    little-endian 32-bit words (log header, indirect blocks) and bits (free map). */
module Blocks {
  import opened Wrappers

  const BSIZE: nat := 512
  const WORDS_PER_BLOCK: nat := 128
  const BITS_PER_BLOCK: nat := 4096
  const MAXOPBLOCKS: nat := 10  // the most blocks a file-system operation writes

  type Block = b: seq<Byte> | |b| == 512 witness seq(512, _ => 0)

  function ZeroBlock(): (b: Block)
    ensures forall i :: 0 <= i < BSIZE ==> b[i] == 0
  {
    seq(512, _ => 0)
  }

  // ---- words ---------------------------------------------------------------

  function Word(b: Block, i: nat): (w: nat)
    requires i < WORDS_PER_BLOCK
    ensures w < TWO_32
  {
    b[4 * i] as int + 0x100 * b[4 * i + 1] as int + 0x1_0000 * b[4 * i + 2] as int + 0x100_0000 * b[4 * i + 3] as int
  }

  function PutWord(b: Block, i: nat, w: nat): Block
    requires i < WORDS_PER_BLOCK && w < TWO_32
  {
    b[4 * i := w % 0x100]
     [4 * i + 1 := w / 0x100 % 0x100]
     [4 * i + 2 := w / 0x1_0000 % 0x100]
     [4 * i + 3 := w / 0x100_0000 % 0x100]
  }

  lemma BytesOfWord(w: nat)
    requires w < TWO_32
    ensures w == w % 0x100 + 0x100 * (w / 0x100 % 0x100) + 0x1_0000 * (w / 0x1_0000 % 0x100)
                 + 0x100_0000 * (w / 0x100_0000 % 0x100)
  {
  }

  /** Storing a word changes that word and no other. */
  lemma WordAfterPut(b: Block, i: nat, w: nat, j: nat)
    requires i < WORDS_PER_BLOCK && j < WORDS_PER_BLOCK && w < TWO_32
    ensures Word(PutWord(b, i, w), j) == if i == j then w else Word(b, j)
  {
    BytesOfWord(w);
  }

  // ---- bits ----------------------------------------------------------------

  function Pow2(k: nat): (p: nat)
    ensures p > 0
  {
    if k == 0 then 1 else 2 * Pow2(k - 1)
  }

  /** Bit k of a byte is set. */
  predicate ByteBit(x: nat, k: nat) {
    if k == 0 then x % 2 == 1 else ByteBit(x / 2, k - 1)
  }

  /** A byte with bit k set or cleared. */
  function WithBit(x: nat, k: nat, on: bool): nat {
    if k == 0 then x / 2 * 2 + (if on then 1 else 0) else 2 * WithBit(x / 2, k - 1, on) + x % 2
  }

  lemma {:induction false} WithBitBound(x: nat, k: nat, on: bool, n: nat)
    requires k < n && x < Pow2(n)
    ensures WithBit(x, k, on) < Pow2(n)
  {
    assert Pow2(n) == 2 * Pow2(n - 1);
    if k != 0 {
      WithBitBound(x / 2, k - 1, on, n - 1);
    }
  }

  lemma {:induction false} BitOfWithBit(x: nat, k: nat, on: bool, j: nat)
    ensures ByteBit(WithBit(x, k, on), j) == if j == k then on else ByteBit(x, j)
  {
    if k != 0 && j != 0 {
      BitOfWithBit(x / 2, k - 1, on, j - 1);
    }
  }

  predicate Bit(b: Block, i: nat)
    requires i < BITS_PER_BLOCK
  {
    ByteBit(b[i / 8], i % 8)
  }

  /** The free map with bit i set or cleared. */
  function PutBit(b: Block, i: nat, on: bool): Block
    requires i < BITS_PER_BLOCK
  {
    assert WithBit(b[i / 8], i % 8, on) < 256 by {
      assert Pow2(8) == 256;
      WithBitBound(b[i / 8], i % 8, on, 8);
    }
    b[i / 8 := WithBit(b[i / 8], i % 8, on)]
  }

  /** Setting or clearing a bit changes that bit and no other. */
  lemma BitAfterPut(b: Block, i: nat, on: bool, j: nat)
    requires i < BITS_PER_BLOCK && j < BITS_PER_BLOCK
    ensures Bit(PutBit(b, i, on), j) == if i == j then on else Bit(b, j)
  {
    if i / 8 == j / 8 {
      BitOfWithBit(b[i / 8], i % 8, on, j % 8);
    }
  }
}
