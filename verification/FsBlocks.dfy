/** Disk blocks as fs.c sees them: 512 bytes, read as little-endian 32-bit words in indirect blocks
    and as bits in the free map. */
module FsBlocks {
  const BSIZE: nat := 512
  const NINDIRECT: nat := 128
  const BPB: nat := 4096
  const UINT: nat := 0x1_0000_0000

  type Byte = x: int | 0 <= x < 256

  type Block = b: seq<Byte> | |b| == BSIZE witness seq(BSIZE, _ => 0)

  predicate IsZero(b: Block) {
    forall i | 0 <= i < BSIZE :: b[i] == 0
  }

  // ----- words -----

  function Word(b: Block, j: nat): nat
    requires j < NINDIRECT
  {
    var b0: nat, b1: nat, b2: nat, b3: nat := b[4 * j], b[4 * j + 1], b[4 * j + 2], b[4 * j + 3];
    b0 + 0x100 * b1 + 0x1_0000 * b2 + 0x100_0000 * b3
  }

  function SetWord(b: Block, j: nat, w: nat): Block
    requires j < NINDIRECT && w < UINT
  {
    b[4 * j := w % 0x100][4 * j + 1 := w / 0x100 % 0x100]
     [4 * j + 2 := w / 0x1_0000 % 0x100][4 * j + 3 := w / 0x100_0000]
  }

  lemma {:induction false} SplitWord(w: nat)
    requires w < UINT
    ensures w % 0x100 + 0x100 * (w / 0x100 % 0x100) + 0x1_0000 * (w / 0x1_0000 % 0x100) +
              0x100_0000 * (w / 0x100_0000) == w
  {
    assert w / 0x100 / 0x100 == w / 0x1_0000;
    assert w / 0x1_0000 / 0x100 == w / 0x100_0000;
  }

  lemma {:induction false} WordSet(b: Block, j: nat, w: nat, k: nat)
    requires j < NINDIRECT && k < NINDIRECT && w < UINT
    ensures Word(SetWord(b, j, w), k) == if k == j then w else Word(b, k)
  {
    if k == j { SplitWord(w); }
  }

  lemma {:induction false} WordZero(b: Block, j: nat)
    requires IsZero(b) && j < NINDIRECT
    ensures Word(b, j) == 0
  {
  }

  // ----- bits -----

  type Bitmap = seq<Block>

  function Pow2(n: nat): nat {
    if n == 0 then 1 else 2 * Pow2(n - 1)
  }

  /** x & (1 << k) */
  predicate HasBit(x: nat, k: nat) {
    if k == 0 then x % 2 == 1 else HasBit(x / 2, k - 1)
  }

  /** x | (1 << k), or x & ~(1 << k). */
  function WithBit(x: nat, k: nat, on: bool): nat {
    if k == 0 then x / 2 * 2 + (if on then 1 else 0) else WithBit(x / 2, k - 1, on) * 2 + x % 2
  }

  lemma {:induction false} WithBitHas(x: nat, k: nat, on: bool, j: nat)
    ensures HasBit(WithBit(x, k, on), j) <==> if j == k then on else HasBit(x, j)
  {
    if k > 0 && j > 0 { WithBitHas(x / 2, k - 1, on, j - 1); }
  }

  lemma {:induction false} WithBitSmall(x: nat, k: nat, on: bool, n: nat)
    requires k < n && x < Pow2(n)
    ensures WithBit(x, k, on) < Pow2(n)
  {
    var half, y, r := Pow2(n - 1), x / 2, x % 2;
    assert x == 2 * y + r && Pow2(n) == 2 * half && y < half;
    if k > 0 {
      WithBitSmall(y, k - 1, on, n - 1);
      assert WithBit(x, k, on) == WithBit(y, k - 1, on) * 2 + r;
    }
  }

  function SetByte(x: Byte, k: nat, on: bool): Byte
    requires k < 8
  {
    WithBitSmall(x, k, on, 8);
    assert Pow2(8) == 256 by { assert Pow2(4) == 16; assert Pow2(6) == 64; }
    WithBit(x, k, on)
  }

  predicate Bit(m: Bitmap, b: nat)
    requires b / BPB < |m|
  {
    HasBit(m[b / BPB][b % BPB / 8], b % BPB % 8)
  }

  function PutBit(m: Bitmap, b: nat, on: bool): Bitmap
    requires b / BPB < |m|
  {
    var block := m[b / BPB];
    m[b / BPB := block[b % BPB / 8 := SetByte(block[b % BPB / 8], b % BPB % 8, on)]]
  }

  lemma {:induction false} Position(b: nat, c: nat)
    requires b / BPB == c / BPB && b % BPB / 8 == c % BPB / 8 && b % BPB % 8 == c % BPB % 8
    ensures b == c
  {
  }

  lemma {:induction false} BitPut(m: Bitmap, b: nat, on: bool, c: nat)
    requires b / BPB < |m| && c / BPB < |m|
    ensures Bit(PutBit(m, b, on), c) <==> if c == b then on else Bit(m, c)
  {
    WithBitHas(m[b / BPB][b % BPB / 8], b % BPB % 8, on, c % BPB % 8);
    if c != b && b / BPB == c / BPB && b % BPB / 8 == c % BPB / 8 && b % BPB % 8 == c % BPB % 8 { Position(b, c); }
  }
}
