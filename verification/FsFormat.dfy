/**
 The on-disk format of the file system: bytes, bitmap bits, 32-bit words, and the regions
 that the super block lays out.
 */
module FsFormat {
  import opened Common

  const BSIZE: nat := 512
  const NDIRECT: nat := 12
  const NINDIRECT: nat := 128
  const MAXFILE: nat := 140
  /** MAXFILE blocks in bytes. Divisions below write the 512 of BSIZE and the 4096 of BPB out. */
  const MAXBYTES: nat := 71680
  /** Bitmap bits in a block, and inodes in a block. */
  const BPB: nat := 4096
  const IPB: nat := 8

  type Block = b: seq<byte> | |b| == BSIZE witness seq(BSIZE, _ => 0)
  type Disk = seq<Block>

  function ZeroBlock(): (b: Block)
    ensures forall i :: 0 <= i < BSIZE ==> b[i] == 0
  {
    seq(BSIZE, _ => 0)
  }

  // ----- bits -----

  function Pow2(k: nat): (p: nat)
    ensures 1 <= p
  {
    if k == 0 then 1 else 2 * Pow2(k - 1)
  }

  /** x & (1 << k) is not zero. */
  predicate Bit(x: nat, k: nat) {
    if k == 0 then x % 2 == 1 else Bit(x / 2, k - 1)
  }

  /** The bits of a byte have the weights 1, 2, 4 and so on. */
  lemma BitWeight(x: nat)
    ensures Bit(x, 0) == (x % 2 == 1) && Bit(x, 1) == (x / 2 % 2 == 1) && Bit(x, 2) == (x / 4 % 2 == 1) && Bit(x, 3) == (x / 8 % 2 == 1)
    ensures Bit(x, 4) == (x / 16 % 2 == 1) && Bit(x, 5) == (x / 32 % 2 == 1) && Bit(x, 6) == (x / 64 % 2 == 1) && Bit(x, 7) == (x / 128 % 2 == 1)
  {
    hide Bit;
    BitFour(x);
    BitFour(x / 16);
    BitPast(x, 0);
    BitPast(x, 1);
    BitPast(x, 2);
    BitPast(x, 3);
  }

  lemma BitFour(x: nat)
    ensures Bit(x, 0) == (x % 2 == 1) && Bit(x, 1) == (x / 2 % 2 == 1) && Bit(x, 2) == (x / 4 % 2 == 1) && Bit(x, 3) == (x / 8 % 2 == 1)
  {
    hide Bit;
    BitTwo(x, 0);
    BitTwo(x, 1);
    BitTwo(x / 4, 0);
  }

  lemma BitTwo(x: nat, k: nat)
    ensures Bit(x, 0) == (x % 2 == 1) && Bit(x, 1) == (x / 2 % 2 == 1) && Bit(x, k + 2) == Bit(x / 4, k)
  {
    assert Bit(x, k + 2) == Bit(x / 2, k + 1) == Bit(x / 4, k);
  }

  lemma BitPast(x: nat, k: nat)
    ensures Bit(x, k + 4) == Bit(x / 16, k)
  {
    hide Bit;
    BitTwo(x, k + 2);
    BitTwo(x / 4, k);
  }

  lemma {:induction false} BitAfterSet(x: nat, j: nat, k: nat)
    requires !Bit(x, j)
    ensures Bit(x + Pow2(j), k) == (k == j || Bit(x, k))
  {
    if j > 0 && k > 0 {
      BitAfterSet(x / 2, j - 1, k - 1);
      assert (x + Pow2(j)) / 2 == x / 2 + Pow2(j - 1);
    }
  }

  lemma {:induction false} BitAfterClear(x: nat, j: nat, k: nat)
    requires Bit(x, j)
    ensures Pow2(j) <= x
    ensures Bit(x - Pow2(j), k) == (k != j && Bit(x, k))
  {
    if j > 0 {
      BitAfterClear(x / 2, j - 1, if k > 0 then k - 1 else 0);
      assert (x - Pow2(j)) / 2 == x / 2 - Pow2(j - 1);
    }
  }

  lemma {:induction false} SetFits(x: nat, j: nat, n: nat)
    requires x < Pow2(n) && j < n && !Bit(x, j)
    ensures x + Pow2(j) < Pow2(n)
  {
    if j > 0 {
      assert Pow2(n) == 2 * Pow2(n - 1) && Pow2(j) == 2 * Pow2(j - 1);
      SetFits(x / 2, j - 1, n - 1);
    }
  }

  lemma EightBits()
    ensures Pow2(8) == 256
  {
    assert Pow2(4) == 16;
  }

  /** Bit i of a bitmap block: bit i % 8 of byte i / 8. */
  predicate BlockBit(b: Block, i: nat)
    requires i < BPB
  {
    Bit(b[i / 8], i % 8)
  }

  function SetBlockBit(b: Block, i: nat): (r: Block)
    requires i < BPB && !BlockBit(b, i)
    ensures forall j :: 0 <= j < BPB ==> BlockBit(r, j) == (j == i || BlockBit(b, j))
  {
    EightBits();
    SetFits(b[i / 8], i % 8, 8);
    var r: Block := b[i / 8 := b[i / 8] + Pow2(i % 8)];
    assert forall j :: 0 <= j < BPB ==> BlockBit(r, j) == (j == i || BlockBit(b, j)) by {
      forall j | 0 <= j < BPB ensures BlockBit(r, j) == (j == i || BlockBit(b, j)) {
        if j / 8 == i / 8 { BitAfterSet(b[i / 8], i % 8, j % 8); }
      }
    }
    r
  }

  function ClearBlockBit(b: Block, i: nat): (r: Block)
    requires i < BPB && BlockBit(b, i)
    ensures forall j :: 0 <= j < BPB ==> BlockBit(r, j) == (j != i && BlockBit(b, j))
  {
    BitAfterClear(b[i / 8], i % 8, 0);
    var r: Block := b[i / 8 := b[i / 8] - Pow2(i % 8)];
    assert forall j :: 0 <= j < BPB ==> BlockBit(r, j) == (j != i && BlockBit(b, j)) by {
      forall j | 0 <= j < BPB ensures BlockBit(r, j) == (j != i && BlockBit(b, j)) {
        if j / 8 == i / 8 { BitAfterClear(b[i / 8], i % 8, j % 8); }
      }
    }
    r
  }

  // ----- words -----

  /** The k-th little-endian 32-bit word of a block. */
  function Word(b: Block, k: nat): (w: nat)
    requires k < NINDIRECT
    ensures w < 0x1_0000_0000
  {
    LittleEndian(b[4 * k], b[4 * k + 1], b[4 * k + 2], b[4 * k + 3])
  }

  function SetWord(b: Block, k: nat, w: nat): (r: Block)
    requires k < NINDIRECT && w < 0x1_0000_0000
    ensures forall j :: 0 <= j < NINDIRECT ==> Word(r, j) == if j == k then w else Word(b, j)
  {
    hide Bytes;
    hide LittleEndian;
    b[..4 * k] + Bytes(w) + b[4 * k + 4..]
  }

  // ----- regions -----

  datatype Super = Super(size: nat, ninodes: nat, inodestart: nat, bmapstart: nat, datastart: nat) {

    /** Boot, super, log, inode and bitmap blocks come first, then data, in that order. */
    predicate Layout() {
      && size < 0x1_0000_0000
      && 2 <= inodestart
      && inodestart + ninodes / IPB + 1 <= bmapstart
      && bmapstart + size / 4096 + 1 <= datastart <= size
    }

    function IBlock(inum: nat): nat { inum / IPB + inodestart }

    function BBlock(b: nat): nat { b / 4096 + bmapstart }

    predicate IsData(b: nat) { datastart <= b < size }

    predicate IsBitmap(b: nat) { bmapstart <= b <= bmapstart + size / 4096 }
  }

  predicate Used(sb: Super, d: Disk, b: nat)
    requires sb.Layout() && |d| == sb.size && b < sb.size
  {
    BlockBit(d[sb.BBlock(b)], b % 4096)
  }

  /** The mark of block b: bit b % 8 of byte b / 8, counted through the bitmap blocks one after the other. */
  lemma UsedIsBit(sb: Super, d: Disk, b: nat)
    requires sb.Layout() && |d| == sb.size && b < sb.size
    ensures sb.bmapstart + b / 8 / 512 < |d| && (Used(sb, d, b) <==> Bit(d[sb.bmapstart + b / 8 / 512][b / 8 % 512], b % 8))
  {
    assert b / 8 / 512 == b / 4096 && b % 4096 / 8 == b / 8 % 512 && b % 4096 % 8 == b % 8;
  }

  lemma UsedInGroup(sb: Super, d: Disk, b: nat, bi: nat)
    requires sb.Layout() && |d| == sb.size && b % 4096 == 0 && bi < 4096 && b + bi < sb.size
    ensures sb.BBlock(b + bi) == sb.BBlock(b) < sb.size && (b + bi) % 4096 == bi
    ensures Used(sb, d, b + bi) == BlockBit(d[sb.BBlock(b)], bi)
  {
  }

  /** A block is marked used exactly when its bit is set, so writing other bitmap bits does not change it. */
  lemma UsedAfterMark(sb: Super, d: Disk, e: Disk, b: nat, x: nat)
    requires sb.Layout() && |d| == |e| == sb.size && b < sb.size && x < sb.size
    requires !Used(sb, d, b)
    requires e == d[sb.BBlock(b) := SetBlockBit(d[sb.BBlock(b)], b % 4096)]
    ensures Used(sb, e, x) == (x == b || Used(sb, d, x))
  {
  }

  lemma UsedAfterFree(sb: Super, d: Disk, e: Disk, b: nat, x: nat)
    requires sb.Layout() && |d| == |e| == sb.size && b < sb.size && x < sb.size
    requires Used(sb, d, b)
    requires e == d[sb.BBlock(b) := ClearBlockBit(d[sb.BBlock(b)], b % 4096)]
    ensures Used(sb, e, x) == (x != b && Used(sb, d, x))
  {
  }
}
