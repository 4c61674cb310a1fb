/**
 What a file is: the block map read from an inode and its indirect block, the bytes it maps,
 and who owns which block.
 */
module FsSpec {
  import opened Common
  import opened FsFormat

  /** The metadata blocks are marked used, as mkfs leaves them. */
  ghost predicate DiskOk(sb: Super, d: Disk) {
    && sb.Layout() && |d| == sb.size
    && forall x :: 0 <= x < sb.datastart ==> Used(sb, d, x)
  }

  function RefAt(d: Disk, addrs: seq<nat>, k: nat): nat
    requires |addrs| == NDIRECT + 1 && addrs[NDIRECT] < |d| && k < MAXFILE
  {
    if k < NDIRECT then addrs[k]
    else if addrs[NDIRECT] == 0 then 0
    else Word(d[addrs[NDIRECT]], k - NDIRECT)
  }

  /** The data block numbers of an inode: 12 direct ones, then those in the indirect block. Zero is none. */
  function Refs(d: Disk, addrs: seq<nat>): (r: seq<nat>)
    requires |addrs| == NDIRECT + 1 && addrs[NDIRECT] < |d|
    ensures |r| == MAXFILE
  {
    seq(MAXFILE, k requires 0 <= k < MAXFILE => RefAt(d, addrs, k))
  }

  /** A block named by this file: marked used, a data block, and named by nobody else. */
  ghost predicate Mine(sb: Super, d: Disk, x: nat, others: set<nat>)
    requires DiskOk(sb, d)
  {
    sb.IsData(x) && Used(sb, d, x) && x !in others
  }

  /**
   Block ownership. Every block a direct slot, the indirect slot or an indirect entry names is
   marked used and named exactly once; `others` are the blocks of all other files.
   */
  ghost predicate FileOk(sb: Super, d: Disk, addrs: seq<nat>, others: set<nat>)
    requires DiskOk(sb, d)
  {
    && |addrs| == NDIRECT + 1
    && (addrs[NDIRECT] != 0 ==> Mine(sb, d, addrs[NDIRECT], others))
    && addrs[NDIRECT] < |d|
    && (forall k :: 0 <= k < MAXFILE && Refs(d, addrs)[k] != 0 ==>
          Mine(sb, d, Refs(d, addrs)[k], others) && Refs(d, addrs)[k] != addrs[NDIRECT])
    && Unique(Refs(d, addrs))
    && OthersUsed(sb, d, others)
  }

  ghost predicate Unique(r: seq<nat>) {
    forall j, k :: 0 <= j < k < |r| && r[j] != 0 ==> r[j] != r[k]
  }

  ghost predicate OthersUsed(sb: Super, d: Disk, others: set<nat>)
    requires DiskOk(sb, d)
  {
    forall x :: x in others ==> sb.IsData(x) && Used(sb, d, x)
  }

  /** All blocks the file names, its indirect block among them. */
  ghost function Named(d: Disk, addrs: seq<nat>): (s: set<nat>)
    requires |addrs| == NDIRECT + 1 && addrs[NDIRECT] < |d|
  {
    (set k | 0 <= k < MAXFILE && Refs(d, addrs)[k] != 0 :: Refs(d, addrs)[k])
    + (if addrs[NDIRECT] == 0 then {} else {addrs[NDIRECT]})
  }

  /** Every block below the size is mapped. */
  ghost predicate Mapped(r: seq<nat>, size: nat) {
    && |r| == MAXFILE && size <= MAXBYTES
    && forall k :: 0 <= k < MAXFILE && k * 512 < size ==> r[k] != 0
  }

  /** Byte i of the file. */
  function ByteAt(d: Disk, r: seq<nat>, i: nat): byte
    requires |r| == MAXFILE && i < MAXBYTES && r[i / 512] < |d|
  {
    d[r[i / 512]][i % 512]
  }

  ghost predicate InRange(d: Disk, r: seq<nat>) {
    |r| == MAXFILE && forall k :: 0 <= k < MAXFILE ==> r[k] < |d|
  }

  ghost function Contents(d: Disk, r: seq<nat>, size: nat): (s: seq<byte>)
    requires InRange(d, r) && size <= MAXBYTES
    ensures |s| == size
    ensures forall i :: 0 <= i < size ==> s[i] == ByteAt(d, r, i)
  {
    seq(size, i requires 0 <= i < size => ByteAt(d, r, i))
  }

  /** What writing `src` at `off` makes of a byte sequence. */
  function Splice(s: seq<byte>, off: nat, src: seq<byte>): (r: seq<byte>)
    requires off <= |s|
    ensures |r| == if off + |src| > |s| then off + |src| else |s|
  {
    s[..off] + src + (if off + |src| < |s| then s[off + |src|..] else [])
  }

  // ----- allocation -----

  /** Block b went from free to used and zero; nothing else changed but bitmap blocks. */
  ghost predicate Alloced(sb: Super, d: Disk, e: Disk, b: nat)
    requires DiskOk(sb, d)
  {
    && |e| == |d| && sb.IsData(b) && !Used(sb, d, b) && e[b] == ZeroBlock()
    && (forall x :: 0 <= x < sb.size ==> Used(sb, e, x) == (x == b || Used(sb, d, x)))
    && (forall x :: 0 <= x < sb.size && x != b && !sb.IsBitmap(x) ==> e[x] == d[x])
  }

  lemma BitmapIsMeta(sb: Super)
    requires sb.Layout()
    ensures forall x: nat {:trigger sb.IsBitmap(x)} :: sb.IsBitmap(x) ==> x < sb.datastart
  {
  }

  lemma AllocOk(sb: Super, d: Disk, e: Disk, b: nat)
    requires DiskOk(sb, d) && Alloced(sb, d, e, b)
    ensures DiskOk(sb, e)
  {
  }

  lemma RefsKept(sb: Super, d: Disk, e: Disk, b: nat, addrs: seq<nat>, others: set<nat>)
    requires DiskOk(sb, d) && Alloced(sb, d, e, b) && FileOk(sb, d, addrs, others)
    ensures Refs(e, addrs) == Refs(d, addrs)
    ensures b !in others && b != addrs[NDIRECT]
    ensures forall k :: 0 <= k < MAXFILE ==> Refs(d, addrs)[k] != b
  {
    BitmapIsMeta(sb);
    if addrs[NDIRECT] != 0 { assert e[addrs[NDIRECT]] == d[addrs[NDIRECT]]; }
  }

  lemma AllocDirect(sb: Super, d: Disk, e: Disk, b: nat, addrs: seq<nat>, k: nat, others: set<nat>)
    requires DiskOk(sb, d) && Alloced(sb, d, e, b) && FileOk(sb, d, addrs, others)
    requires k < NDIRECT && addrs[k] == 0
    ensures DiskOk(sb, e) && FileOk(sb, e, addrs[k := b], others)
    ensures Refs(e, addrs[k := b]) == Refs(d, addrs)[k := b]
  {
    AllocOk(sb, d, e, b);
    RefsKept(sb, d, e, b, addrs, others);
    assert Refs(e, addrs[k := b]) == Refs(e, addrs)[k := b];
  }

  lemma AllocIndirect(sb: Super, d: Disk, e: Disk, b: nat, addrs: seq<nat>, others: set<nat>)
    requires DiskOk(sb, d) && Alloced(sb, d, e, b) && FileOk(sb, d, addrs, others)
    requires addrs[NDIRECT] == 0
    ensures DiskOk(sb, e) && FileOk(sb, e, addrs[NDIRECT := b], others)
    ensures Refs(e, addrs[NDIRECT := b]) == Refs(d, addrs) && b != 0
  {
    AllocOk(sb, d, e, b);
    RefsKept(sb, d, e, b, addrs, others);
    assert forall k :: 0 <= k < NINDIRECT ==> Word(ZeroBlock(), k) == 0;
    assert Refs(e, addrs[NDIRECT := b]) == Refs(d, addrs);
  }

  lemma AllocEntry(sb: Super, d: Disk, e: Disk, b: nat, addrs: seq<nat>, k: nat, others: set<nat>)
    requires DiskOk(sb, d) && Alloced(sb, d, e, b) && FileOk(sb, d, addrs, others)
    requires k < NINDIRECT && addrs[NDIRECT] != 0 && Refs(d, addrs)[NDIRECT + k] == 0
    ensures DiskOk(sb, e) && b < 0x1_0000_0000
    ensures var f := e[addrs[NDIRECT] := SetWord(e[addrs[NDIRECT]], k, b)];
            && DiskOk(sb, f) && FileOk(sb, f, addrs, others)
            && Refs(f, addrs) == Refs(d, addrs)[NDIRECT + k := b]
            && (forall x :: 0 <= x < sb.size ==> Used(sb, f, x) == Used(sb, e, x))
  {
    AllocOk(sb, d, e, b);
    RefsKept(sb, d, e, b, addrs, others);
    var ind := addrs[NDIRECT];
    var f := e[ind := SetWord(e[ind], k, b)];
    DataWriteKeepsUsed(sb, e, ind, SetWord(e[ind], k, b));
    assert Refs(f, addrs) == Refs(e, addrs)[NDIRECT + k := b];
  }

  lemma DataWriteKeepsUsed(sb: Super, d: Disk, b: nat, data: Block)
    requires DiskOk(sb, d) && sb.IsData(b)
    ensures DiskOk(sb, d[b := data])
    ensures forall x :: 0 <= x < sb.size ==> Used(sb, d[b := data], x) == Used(sb, d, x)
  {
    var e := d[b := data];
    forall x | 0 <= x < sb.size ensures Used(sb, e, x) == Used(sb, d, x) {
      assert e[sb.BBlock(x)] == d[sb.BBlock(x)];
    }
  }

  /** The indirect block and the bitmap block of its bit. */
  ghost function IndirectBlocks(sb: Super, addrs: seq<nat>): (s: set<nat>)
    requires |addrs| == NDIRECT + 1
  {
    if addrs[NDIRECT] == 0 then {} else {addrs[NDIRECT], sb.BBlock(addrs[NDIRECT])}
  }

  /** The disk and slots bmap leaves (e, after) for those it started from (d, addrs). */
  ghost predicate BmapDone(sb: Super, d: Disk, addrs: seq<nat>, e: Disk, after: seq<nat>, bn: nat, addr: nat, others: set<nat>)
    requires DiskOk(sb, d) && FileOk(sb, d, addrs, others)
  {
    && bn < MAXFILE && sb.IsData(addr)
    && DiskOk(sb, e) && FileOk(sb, e, after, others)
    && Refs(e, after) == Refs(d, addrs)[bn := addr]
    && (Refs(d, addrs)[bn] == 0 ==> !Used(sb, d, addr) && e[addr] == ZeroBlock())
    && (addrs[NDIRECT] != 0 ==> after[NDIRECT] == addrs[NDIRECT])
    && (forall x :: 0 <= x < sb.size && Used(sb, d, x) && !sb.IsBitmap(x) && (x == 0 || x != addrs[NDIRECT]) ==> e[x] == d[x])
    && (forall x :: 0 <= x < sb.size ==>
          Used(sb, e, x) == (Used(sb, d, x) || x == addr || (x == after[NDIRECT] && x != 0)))
  }

  lemma PresentDone(sb: Super, d: Disk, addrs: seq<nat>, bn: nat, others: set<nat>)
    requires DiskOk(sb, d) && FileOk(sb, d, addrs, others) && bn < MAXFILE && Refs(d, addrs)[bn] != 0
    ensures BmapDone(sb, d, addrs, d, addrs, bn, Refs(d, addrs)[bn], others)
  {
    assert Mine(sb, d, Refs(d, addrs)[bn], others);
    assert Refs(d, addrs)[bn := Refs(d, addrs)[bn]] == Refs(d, addrs);
  }

  lemma DirectDone(sb: Super, d: Disk, addrs: seq<nat>, e: Disk, bn: nat, b: nat, others: set<nat>)
    requires DiskOk(sb, d) && Alloced(sb, d, e, b) && FileOk(sb, d, addrs, others)
    requires bn < NDIRECT && addrs[bn] == 0
    ensures BmapDone(sb, d, addrs, e, addrs[bn := b], bn, b, others)
  {
    AllocDirect(sb, d, e, b, addrs, bn, others);
  }

  lemma EntryDone(sb: Super, d: Disk, addrs: seq<nat>, e: Disk, k: nat, b: nat, others: set<nat>)
    requires DiskOk(sb, d) && Alloced(sb, d, e, b) && FileOk(sb, d, addrs, others)
    requires k < NINDIRECT && addrs[NDIRECT] != 0 && Refs(d, addrs)[NDIRECT + k] == 0
    ensures b < 0x1_0000_0000
    ensures var f := e[addrs[NDIRECT] := SetWord(e[addrs[NDIRECT]], k, b)];
            BmapDone(sb, d, addrs, f, addrs, NDIRECT + k, b, others)
  {
    AllocEntry(sb, d, e, b, addrs, k, others);
    RefsKept(sb, d, e, b, addrs, others);
  }

  /** bmap that first had to allocate the indirect block. */
  lemma IndirectDone(sb: Super, d0: Disk, addrs0: seq<nat>, d: Disk, ind: nat, f: Disk, bn: nat, b: nat, others: set<nat>)
    requires DiskOk(sb, d0) && FileOk(sb, d0, addrs0, others) && |addrs0| == NDIRECT + 1 && addrs0[NDIRECT] == 0
    requires Alloced(sb, d0, d, ind) && NDIRECT <= bn < MAXFILE
    requires DiskOk(sb, d) && FileOk(sb, d, addrs0[NDIRECT := ind], others)
    requires BmapDone(sb, d, addrs0[NDIRECT := ind], f, addrs0[NDIRECT := ind], bn, b, others)
    requires Refs(d, addrs0[NDIRECT := ind]) == Refs(d0, addrs0) && Refs(d0, addrs0)[bn] == 0
    ensures BmapDone(sb, d0, addrs0, f, addrs0[NDIRECT := ind], bn, b, others)
  {
    hide Used, FileOk, Refs, ZeroBlock, Super.IsBitmap;
    var after := addrs0[NDIRECT := ind];
    forall x | 0 <= x < sb.size
      ensures Used(sb, f, x) == (Used(sb, d0, x) || x == b || (x == ind && x != 0))
      ensures Used(sb, d0, x) && !sb.IsBitmap(x) ==> f[x] == d0[x]
    {
      assert Used(sb, d, x) == (x == ind || Used(sb, d0, x));
    }
  }

  // ----- freeing -----

  /** d0 with the blocks in `freed` marked free; only bitmap blocks differ. */
  ghost predicate Freed(sb: Super, d0: Disk, d: Disk, freed: set<nat>)
    requires DiskOk(sb, d0)
  {
    && DiskOk(sb, d)
    && (forall x :: 0 <= x < sb.size ==> Used(sb, d, x) == (Used(sb, d0, x) && x !in freed))
    && (forall x :: 0 <= x < sb.size && !sb.IsBitmap(x) ==> d[x] == d0[x])
  }

  /** The first n data blocks of a file, without the holes. */
  ghost function FirstRefs(r: seq<nat>, n: nat): (s: set<nat>)
    requires n <= |r|
  {
    set k | 0 <= k < n && r[k] != 0 :: r[k]
  }

  lemma FirstRefsNext(r: seq<nat>, n: nat)
    requires n < |r| && Unique(r)
    ensures FirstRefs(r, n + 1) == if r[n] == 0 then FirstRefs(r, n) else FirstRefs(r, n) + {r[n]}
    ensures r[n] != 0 ==> r[n] !in FirstRefs(r, n)
  {
  }

  lemma NamedIsRefs(d: Disk, addrs: seq<nat>)
    requires |addrs| == NDIRECT + 1 && addrs[NDIRECT] < |d|
    ensures addrs[NDIRECT] == 0 ==> Named(d, addrs) == FirstRefs(Refs(d, addrs), NDIRECT)
    ensures addrs[NDIRECT] != 0 ==> Named(d, addrs) == FirstRefs(Refs(d, addrs), MAXFILE) + {addrs[NDIRECT]}
  {
  }

  lemma NoneFreed(sb: Super, d: Disk, r: seq<nat>)
    requires DiskOk(sb, d)
    ensures Freed(sb, d, d, FirstRefs(r, 0))
  {
  }

  /** Freeing one more block that is still used. */
  lemma FreedOne(sb: Super, d0: Disk, d: Disk, e: Disk, freed: set<nat>, b: nat)
    requires DiskOk(sb, d0) && Freed(sb, d0, d, freed) && sb.IsData(b) && DiskOk(sb, e)
    requires forall x :: 0 <= x < sb.size ==> Used(sb, e, x) == (x != b && Used(sb, d, x))
    requires forall x :: 0 <= x < sb.size && !sb.IsBitmap(x) ==> e[x] == d[x]
    ensures Freed(sb, d0, e, freed + {b})
  {
  }

  /** The blocks r of a file: each named once, in the data region and marked used. */
  ghost predicate HeldRefs(sb: Super, d: Disk, r: seq<nat>)
    requires sb.Layout() && |d| == sb.size
  {
    && |r| == MAXFILE && Unique(r)
    && forall k :: 0 <= k < MAXFILE && r[k] != 0 ==> sb.IsData(r[k]) && Used(sb, d, r[k])
  }

  lemma HeldNext(sb: Super, d: Disk, r: seq<nat>, n: nat)
    requires sb.Layout() && |d| == sb.size && HeldRefs(sb, d, r) && n < MAXFILE
    ensures |r| == MAXFILE && r[n] !in FirstRefs(r, n)
    ensures FirstRefs(r, n + 1) == if r[n] == 0 then FirstRefs(r, n) else FirstRefs(r, n) + {r[n]}
    ensures r[n] != 0 ==> sb.IsData(r[n]) && Used(sb, d, r[n])
  {
    FirstRefsNext(r, n);
  }

  lemma FileBlocks(sb: Super, d: Disk, addrs: seq<nat>, others: set<nat>)
    requires DiskOk(sb, d) && FileOk(sb, d, addrs, others)
    ensures |addrs| == NDIRECT + 1 && |d| == sb.size && sb.Layout() && addrs[NDIRECT] < |d| && HeldRefs(sb, d, Refs(d, addrs))
    ensures forall k :: 0 <= k < NDIRECT ==> Refs(d, addrs)[k] == addrs[k]
    ensures addrs[NDIRECT] != 0 ==> forall k :: 0 <= k < NINDIRECT ==> Refs(d, addrs)[NDIRECT + k] == Word(d[addrs[NDIRECT]], k)
    ensures addrs[NDIRECT] != 0 ==> sb.IsData(addrs[NDIRECT]) && Used(sb, d, addrs[NDIRECT])
    ensures addrs[NDIRECT] !in FirstRefs(Refs(d, addrs), MAXFILE)
  {
    assert forall k :: 0 <= k < MAXFILE && Refs(d, addrs)[k] != 0 ==> Mine(sb, d, Refs(d, addrs)[k], others);
  }

  lemma StillUsed(sb: Super, d0: Disk, d: Disk, freed: set<nat>, b: nat)
    requires DiskOk(sb, d0) && Freed(sb, d0, d, freed) && b < sb.size && Used(sb, d0, b) && b !in freed
    ensures DiskOk(sb, d) && Used(sb, d, b)
  {
  }

  lemma FreedKeeps(sb: Super, d0: Disk, d: Disk, freed: set<nat>, b: nat)
    requires DiskOk(sb, d0) && Freed(sb, d0, d, freed) && sb.IsData(b)
    ensures |d| == sb.size && d[b] == d0[b]
  {
    BitmapIsMeta(sb);
  }

  lemma FreedAt(sb: Super, d0: Disk, d: Disk, freed: set<nat>, x: nat)
    requires DiskOk(sb, d0) && Freed(sb, d0, d, freed) && x < sb.size && !sb.IsBitmap(x)
    ensures |d| == sb.size && d[x] == d0[x]
  {
  }

  lemma PlainWriteKeepsUsed(sb: Super, d: Disk, b: nat, data: Block)
    requires DiskOk(sb, d) && b < sb.size && !sb.IsBitmap(b)
    ensures DiskOk(sb, d[b := data])
    ensures forall x :: 0 <= x < sb.size ==> Used(sb, d[b := data], x) == Used(sb, d, x)
  {
    var e := d[b := data];
    forall x | 0 <= x < sb.size ensures Used(sb, e, x) == Used(sb, d, x) {
      assert e[sb.BBlock(x)] == d[sb.BBlock(x)];
    }
  }

  /** The blocks in `named` are marked free and no others; apart from the free map only block b was written. */
  ghost predicate Truncated(sb: Super, d0: Disk, e: Disk, named: set<nat>, b: nat)
    requires DiskOk(sb, d0)
  {
    && DiskOk(sb, e)
    && (forall x :: 0 <= x < sb.size ==> Used(sb, e, x) == (Used(sb, d0, x) && x !in named))
    && (forall x :: 0 <= x < sb.size && !sb.IsBitmap(x) && x != b ==> e[x] == d0[x])
  }

  /** The end of itrunc: everything the file named is free, and the empty inode is written. */
  lemma TruncDone(sb: Super, d0: Disk, a0: seq<nat>, d: Disk, zero: seq<nat>, b: nat, data: Block, others: set<nat>)
    requires DiskOk(sb, d0) && FileOk(sb, d0, a0, others) && Freed(sb, d0, d, Named(d0, a0))
    requires b < sb.bmapstart && sb.Layout() && zero == seq(NDIRECT + 1, _ => 0)
    ensures var e := d[b := data];
            Truncated(sb, d0, e, Named(d0, a0), b) && FileOk(sb, e, zero, others)
  {
    PlainWriteKeepsUsed(sb, d, b, data);
    var e := d[b := data];
    forall x | x in others ensures Used(sb, e, x) {
      assert x !in Named(d0, a0);
    }
  }

  // ----- inodes on disk -----

  datatype Dinode = Dinode(typ: nat, major: nat, minor: nat, nlink: nat, size: nat, addrs: seq<nat>) {

    /** The fields have the widths of struct dinode: four shorts, then words. */
    ghost predicate Small() {
      && typ < 0x1_0000 && major < 0x1_0000 && minor < 0x1_0000 && nlink < 0x1_0000
      && size < 0x1_0000_0000 && |addrs| == NDIRECT + 1
      && forall k :: 0 <= k < |addrs| ==> addrs[k] < 0x1_0000_0000
    }

    /** struct dinode as the sixteen words it occupies. */
    function Words(): seq<nat> {
      [typ + 0x1_0000 * major, minor + 0x1_0000 * nlink, size] + addrs
    }
  }

  const DINODE_WORDS: nat := 16

  function DinodeBase(inum: nat): (w: nat)
    ensures w + DINODE_WORDS <= NINDIRECT
  {
    inum % IPB * DINODE_WORDS
  }

  /** The inode block holds v for inode inum. */
  ghost predicate Synced(b: Block, inum: nat, v: Dinode) {
    && v.Small()
    && forall k :: 0 <= k < DINODE_WORDS ==> Word(b, DinodeBase(inum) + k) == v.Words()[k]
  }

  /** The two bytes at i as a short, the four at i as a word, low byte first. */
  function ShortAt(b: Block, i: nat): nat
    requires i + 2 <= BSIZE
  {
    var low: int, high: int := b[i], b[i + 1];
    low + 256 * high
  }

  function LongAt(b: Block, i: nat): nat
    requires i + 4 <= BSIZE
  {
    ShortAt(b, i) + 65536 * ShortAt(b, i + 2)
  }

  /**
   struct dinode byte by byte, from `at` on: type, major, minor and nlink in two bytes each, then size and the
   thirteen addresses in four.
   */
  ghost predicate DinodeIs(b: Block, at: nat, v: Dinode)
    requires at + 64 <= BSIZE && v.Small()
  {
    && v.typ == ShortAt(b, at) && v.major == ShortAt(b, at + 2) && v.minor == ShortAt(b, at + 4) && v.nlink == ShortAt(b, at + 6)
    && v.size == LongAt(b, at + 8) && forall k :: 0 <= k < 13 ==> v.addrs[k] == LongAt(b, at + 12 + 4 * k)
  }

  /** Inode inum fills the 64 bytes from inum % 8 * 64 on of its block. */
  lemma DinodeBytes(b: Block, inum: nat, v: Dinode)
    requires v.Small()
    ensures Synced(b, inum, v) <==> DinodeIs(b, inum % 8 * 64, v)
  {
    hide Synced, DinodeIs;
    if Synced(b, inum, v) { DinodeRead(b, inum, v); }
    if DinodeIs(b, inum % 8 * 64, v) { DinodeStored(b, inum, v); }
  }

  lemma DinodeWord(b: Block, inum: nat, k: nat)
    requires k < DINODE_WORDS
    ensures Word(b, DinodeBase(inum) + k) == LongAt(b, inum % 8 * 64 + 4 * k)
  {
  }

  lemma DinodeRead(b: Block, inum: nat, v: Dinode)
    requires Synced(b, inum, v)
    ensures DinodeIs(b, inum % 8 * 64, v)
  {
    var at := inum % 8 * 64;
    hide Synced, LongAt, ShortAt;
    WordRead(b, inum, v, 0);
    WordRead(b, inum, v, 1);
    WordRead(b, inum, v, 2);
    TwoShorts(b, at, v.typ, v.major);
    TwoShorts(b, at + 4, v.minor, v.nlink);
    forall k | 0 <= k < 13 ensures v.addrs[k] == LongAt(b, at + 12 + 4 * k) { WordRead(b, inum, v, 3 + k); }
  }

  lemma WordRead(b: Block, inum: nat, v: Dinode, k: nat)
    requires Synced(b, inum, v) && k < DINODE_WORDS
    ensures v.Small() && LongAt(b, inum % 8 * 64 + 4 * k) == v.Words()[k]
  {
    hide Word, LongAt, DinodeBase;
    DinodeWord(b, inum, k);
  }

  lemma DinodeStored(b: Block, inum: nat, v: Dinode)
    requires v.Small() && DinodeIs(b, inum % 8 * 64, v)
    ensures Synced(b, inum, v)
  {
    hide Word, DinodeIs, DinodeBase;
    forall k | 0 <= k < DINODE_WORDS ensures Word(b, DinodeBase(inum) + k) == v.Words()[k] { WordStored(b, inum, v, k); }
  }

  lemma WordStored(b: Block, inum: nat, v: Dinode, k: nat)
    requires v.Small() && DinodeIs(b, inum % 8 * 64, v) && k < DINODE_WORDS
    ensures Word(b, DinodeBase(inum) + k) == v.Words()[k]
  {
    var at := inum % 8 * 64;
    hide Word, LongAt, ShortAt, DinodeBase;
    DinodeWord(b, inum, k);
    if k == 0 {
      TwoShorts(b, at, v.typ, v.major);
    } else if k == 1 {
      TwoShorts(b, at + 4, v.minor, v.nlink);
    } else if k >= 3 {
      assert v.Words()[k] == v.addrs[k - 3];
    }
  }

  lemma TwoShorts(b: Block, i: nat, low: nat, high: nat)
    requires i + 4 <= BSIZE && low < 65536 && high < 65536
    ensures LongAt(b, i) == low + 65536 * high <==> low == ShortAt(b, i) && high == ShortAt(b, i + 2)
  {
  }

  /** Reading an inode back gives the one that was stored. */
  lemma SyncedUnique(b: Block, inum: nat, v: Dinode, w: Dinode)
    requires Synced(b, inum, v) && Synced(b, inum, w)
    ensures v == w
  {
    DinodeRead(b, inum, v);
    DinodeRead(b, inum, w);
    hide Synced, ShortAt, LongAt;
    assert forall k :: 0 <= k < 13 ==> v.addrs[k] == w.addrs[k];
  }
}
