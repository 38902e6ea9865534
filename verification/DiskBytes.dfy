/** Blocks of bytes, and the bits and 32-bit words that the file system keeps in them. */
module DiskBytes {

  const BSIZE := 1024
  const BPB := 8192       // bitmap bits per block
  const NINDIRECT := 256  // block numbers per indirect block

  type Byte = x: nat | x < 256
  type Block = s: seq<Byte> | |s| == BSIZE witness seq(BSIZE, _ => 0)

  function Zero(): Block {
    seq(BSIZE, _ => 0)
  }

  function Pow2(n: nat): (p: nat)
    ensures p > 0
  {
    if n == 0 then 1 else 2 * Pow2(n - 1)
  }

  /** x & (1 << i) is not 0. */
  predicate HasBit(x: nat, i: nat) {
    if i == 0 then x % 2 == 1 else HasBit(x / 2, i - 1)
  }

  /** x | (1 << i) or x & ~(1 << i) */
  function WithBit(x: nat, i: nat, v: bool): nat {
    if i == 0 then x / 2 * 2 + (if v then 1 else 0) else x % 2 + 2 * WithBit(x / 2, i - 1, v)
  }

  lemma {:induction false} WithBitFits(x: nat, i: nat, v: bool, n: nat)
    requires i < n && x < Pow2(n)
    ensures WithBit(x, i, v) < Pow2(n)
  {
    if i > 0 {
      WithBitFits(x / 2, i - 1, v, n - 1);
    }
  }

  lemma {:induction false} WithBitAt(x: nat, i: nat, v: bool, j: nat)
    ensures HasBit(WithBit(x, i, v), j) == if j == i then v else HasBit(x, j)
  {
    if i == 0 {
      assert WithBit(x, i, v) / 2 == x / 2;
    } else {
      assert WithBit(x, i, v) / 2 == WithBit(x / 2, i - 1, v);
      if j > 0 {
        WithBitAt(x / 2, i - 1, v, j - 1);
      }
    }
  }

  lemma PowEight()
    ensures Pow2(8) == 256
  {
    assert Pow2(4) == 16;
  }

  function Bit(b: Block, i: nat): bool
    requires i < BPB
  {
    HasBit(b[i / 8], i % 8)
  }

  function PutBit(b: Block, i: nat, v: bool): Block
    requires i < BPB
  {
    PowEight();
    WithBitFits(b[i / 8], i % 8, v, 8);
    b[i / 8 := WithBit(b[i / 8], i % 8, v)]
  }

  lemma PutBitAt(b: Block, i: nat, v: bool, j: nat)
    requires i < BPB && j < BPB
    ensures Bit(PutBit(b, i, v), j) == if j == i then v else Bit(b, j)
  {
    WithBitAt(b[i / 8], i % 8, v, j % 8);
  }

  /** The n-th 32-bit word of a block, lowest byte first. */
  function Word(b: Block, n: nat): nat
    requires n < NINDIRECT
  {
    b[4 * n] as int + 256 * (b[4 * n + 1] as int + 256 * (b[4 * n + 2] as int + 256 * b[4 * n + 3] as int))
  }

  function PutWord(b: Block, n: nat, w: nat): Block
    requires n < NINDIRECT && w < 0x1_0000_0000
  {
    b[4 * n := w % 256][4 * n + 1 := w / 256 % 256][4 * n + 2 := w / 65536 % 256][4 * n + 3 := w / 16777216]
  }

  lemma WordOfBytes(w: nat)
    requires w < 0x1_0000_0000
    ensures w % 256 + 256 * (w / 256 % 256 + 256 * (w / 65536 % 256 + 256 * (w / 16777216))) == w
  {
    assert w / 256 / 256 == w / 65536 && w / 65536 / 256 == w / 16777216;
  }

  lemma PutWordAt(b: Block, n: nat, w: nat, k: nat)
    requires n < NINDIRECT && k < NINDIRECT && w < 0x1_0000_0000
    ensures Word(PutWord(b, n, w), k) == if k == n then w else Word(b, k)
  {
    WordOfBytes(w);
  }

  /** Byte k of a word has weight 256 to the power k: a number is stored with its lowest byte first, as mkfs stores it
      on any machine and the kernel reads it on RISC-V. */
  lemma ByteWeight(b: Block, n: nat, k: nat, v: Byte, j: nat)
    requires n < NINDIRECT && k < 4 && j < NINDIRECT
    ensures Word(b[4 * n + k := v], n) as int - Word(b, n) as int == (v as int - b[4 * n + k] as int) * Pow2(8 * k)
    ensures j != n ==> Word(b[4 * n + k := v], j) == Word(b, j)
  {
    PowEight();
    PowSum(8, 8);
    PowSum(8, 16);
  }

  lemma {:induction false} PowSum(m: nat, n: nat)
    ensures Pow2(m + n) == Pow2(m) * Pow2(n)
  {
    if m > 0 {
      PowSum(m - 1, n);
    }
  }

  /** The lowest bits of x + 256 * y are those of the byte x, and those of y follow. */
  lemma {:induction false} BitsAfter(x: nat, y: nat, w: nat, j: nat)
    requires x < Pow2(w)
    ensures HasBit(x + Pow2(w) * y, j) == if j < w then HasBit(x, j) else HasBit(y, j - w)
  {
    if w > 0 {
      assert (x + Pow2(w) * y) % 2 == x % 2 && (x + Pow2(w) * y) / 2 == x / 2 + Pow2(w - 1) * y by {
        assert Pow2(w) * y == 2 * (Pow2(w - 1) * y);
      }
      if j > 0 {
        BitsAfter(x / 2, y, w - 1, j - 1);
      }
    }
  }

  /** The bits of a block, in the order in which the bitmap counts them, are those of its words one after another. */
  lemma WordBits(b: Block, n: nat, j: nat)
    requires n < NINDIRECT && j < 32
    ensures HasBit(Word(b, n), j) <==> Bit(b, 32 * n + j)
  {
    PowEight();
    var b0, b1, b2, b3: nat := b[4 * n], b[4 * n + 1], b[4 * n + 2], b[4 * n + 3];
    BitsAfter(b2, b3, 8, if j < 16 then 0 else j - 16);
    BitsAfter(b1, b2 + 256 * b3, 8, if j < 8 then 0 else j - 8);
    BitsAfter(b0, b1 + 256 * (b2 + 256 * b3), 8, j);
  }

  /** Bit i is the one that counts 2 to the power i % 8 in its byte. */
  lemma {:induction false} BitWeight(x: nat, i: nat)
    ensures WithBit(x, i, true) == x + if HasBit(x, i) then 0 else Pow2(i)
  {
    if i > 0 {
      BitWeight(x / 2, i - 1);
    }
  }

  function Ones(): Block {
    seq(BSIZE, _ => 255)
  }

  lemma OnesBits(i: nat)
    requires i < BPB
    ensures Bit(Ones(), i)
  {
    PowEight();
    AllOnes(8, i % 8);
  }

  lemma {:induction false} AllOnes(w: nat, k: nat)
    requires k < w
    ensures HasBit(Pow2(w) - 1, k)
  {
    if k > 0 {
      AllOnes(w - 1, k - 1);
    }
  }

  /** A block whose first n bits are set. */
  function FirstBits(n: nat): Block
    requires n <= BPB
  {
    if n == 0 then Zero() else PutBit(FirstBits(n - 1), n - 1, true)
  }

  lemma {:induction false} FirstBitsAre(n: nat, i: nat)
    requires n <= BPB && i < BPB
    ensures Bit(FirstBits(n), i) <==> i < n
  {
    if n == 0 {
      ZeroBits(i);
    } else {
      FirstBitsAre(n - 1, i);
      PutBitAt(FirstBits(n - 1), n - 1, true, i);
    }
  }

  lemma ZeroBits(i: nat)
    requires i < BPB
    ensures !Bit(Zero(), i)
  {
    NoBit(i % 8);
  }

  lemma {:induction false} NoBit(i: nat)
    ensures !HasBit(0, i)
  {
    if i > 0 {
      NoBit(i - 1);
    }
  }

  lemma ZeroWords(n: nat)
    requires n < NINDIRECT
    ensures Word(Zero(), n) == 0
  {
  }
}
