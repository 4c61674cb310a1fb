/**
 Byte-level facts about block maps, used by readi and writei.
 */
module FsBytes {
  import opened Common
  import opened FsFormat
  import opened FsSpec

  /** After `tot` bytes of `src` went in at `off`: those bytes are in place and every older one is where it was. */
  ghost predicate Written(d0: Disk, r0: seq<nat>, size0: nat, off: nat, src: seq<byte>, tot: nat, d: Disk, r: seq<nat>)
    requires InRange(d0, r0) && InRange(d, r)
  {
    && tot <= |src| && off + |src| <= MAXBYTES
    && forall i :: 0 <= i < MAXBYTES && (i < size0 || off <= i < off + tot) ==>
         && r[i / 512] != 0
         && ByteAt(d, r, i) == if off <= i < off + tot then src[i - off] else ByteAt(d0, r0, i)
  }

  lemma RefsInRange(sb: Super, d: Disk, addrs: seq<nat>, others: set<nat>)
    requires DiskOk(sb, d) && FileOk(sb, d, addrs, others)
    ensures InRange(d, Refs(d, addrs))
  {
    forall k | 0 <= k < MAXFILE ensures Refs(d, addrs)[k] < |d| {
      if Refs(d, addrs)[k] != 0 { assert Mine(sb, d, Refs(d, addrs)[k], others); }
    }
  }

  /** bmap does not move or change a byte of the file. */
  lemma BmapKeepsBytes(sb: Super, d: Disk, addrs: seq<nat>, e: Disk, after: seq<nat>, bn: nat, addr: nat, others: set<nat>, i: nat)
    requires DiskOk(sb, d) && FileOk(sb, d, addrs, others)
    requires BmapDone(sb, d, addrs, e, after, bn, addr, others)
    requires i < MAXBYTES && Refs(d, addrs)[i / 512] != 0
    requires bn == i / 512 ==> addr == Refs(d, addrs)[bn]
    ensures InRange(d, Refs(d, addrs)) && InRange(e, Refs(e, after))
    ensures Refs(e, after)[i / 512] == Refs(d, addrs)[i / 512]
    ensures ByteAt(e, Refs(e, after), i) == ByteAt(d, Refs(d, addrs), i)
  {
    RefsInRange(sb, d, addrs, others);
    RefsInRange(sb, e, after, others);
    var x := Refs(d, addrs)[i / 512];
    assert Mine(sb, d, x, others);
    BitmapIsMeta(sb);
    assert e[x] == d[x];
  }

  /** Writing part of one data block changes exactly those bytes of the file. */
  lemma DataWrite(sb: Super, d: Disk, addrs: seq<nat>, bn: nat, data: Block, others: set<nat>)
    requires DiskOk(sb, d) && FileOk(sb, d, addrs, others) && bn < MAXFILE && Refs(d, addrs)[bn] != 0
    ensures sb.IsData(Refs(d, addrs)[bn])
    ensures var e := d[Refs(d, addrs)[bn] := data];
            && DiskOk(sb, e) && FileOk(sb, e, addrs, others) && Refs(e, addrs) == Refs(d, addrs)
            && InRange(d, Refs(d, addrs)) && InRange(e, Refs(d, addrs))
            && (forall i :: 0 <= i < MAXBYTES && Refs(d, addrs)[i / 512] != 0 ==>
                 ByteAt(e, Refs(d, addrs), i) == if i / 512 == bn then data[i % 512] else ByteAt(d, Refs(d, addrs), i))
  {
    var r := Refs(d, addrs);
    assert Mine(sb, d, r[bn], others);
    DataWriteKeepsUsed(sb, d, r[bn], data);
    var e := d[r[bn] := data];
    assert addrs[NDIRECT] != 0 ==> e[addrs[NDIRECT]] == d[addrs[NDIRECT]];
    assert Refs(e, addrs) == r;
    RefsInRange(sb, d, addrs, others);
    forall k | 0 <= k < MAXFILE && r[k] != 0 && k != bn ensures r[k] != r[bn] {
      if k < bn { assert r[k] != r[bn]; } else { assert r[bn] != r[k]; }
    }
  }

  /** One round of writei's loop: bmap, then m bytes into that block. */
  lemma WriteRound(sb: Super, d0: Disk, r0: seq<nat>, size0: nat, off: nat, src: seq<byte>, tot: nat, m: nat,
                   d: Disk, addrs: seq<nat>, e: Disk, after: seq<nat>, addr: nat, data: Block, others: set<nat>)
    requires InRange(d0, r0) && size0 <= MAXBYTES
    requires DiskOk(sb, d) && FileOk(sb, d, addrs, others) && InRange(d, Refs(d, addrs))
    requires Written(d0, r0, size0, off, src, tot, d, Refs(d, addrs)) && tot + m <= |src|
    requires BmapDone(sb, d, addrs, e, after, (off + tot) / 512, addr, others)
    requires Refs(d, addrs)[(off + tot) / 512] != 0 ==> addr == Refs(d, addrs)[(off + tot) / 512]
    requires 0 < m <= 512 - (off + tot) % 512
    requires data == e[addr][..(off + tot) % 512] + src[tot..tot + m] + e[addr][(off + tot) % 512 + m..]
    ensures var f := e[addr := data];
            && DiskOk(sb, f) && FileOk(sb, f, after, others) && Refs(f, after) == Refs(e, after)
            && InRange(f, Refs(f, after)) && Written(d0, r0, size0, off, src, tot + m, f, Refs(f, after))
  {
    hide Used, Refs, Mine, Unique, OthersUsed;
    var o := off + tot;
    var bn := o / 512;
    var f := e[addr := data];
    var r, r' := Refs(d, addrs), Refs(e, after);
    DataWrite(sb, e, after, bn, data, others);
    forall i | 0 <= i < MAXBYTES && (i < size0 || off <= i < off + tot + m)
      ensures r'[i / 512] != 0
      ensures ByteAt(f, r', i) == if off <= i < off + tot + m then src[i - off] else ByteAt(d0, r0, i)
    {
      if o <= i < o + m {
        assert i / 512 == bn && i % 512 == o % 512 + (i - o);
      } else {
        assert r[i / 512] != 0;
        BmapKeepsBytes(sb, d, addrs, e, after, bn, addr, others, i);
        if i / 512 == bn {
          assert i % 512 < o % 512 || i % 512 >= o % 512 + m;
          assert data[i % 512] == e[addr][i % 512];
        }
      }
    }
  }

  /** The finished write is a splice of the file's bytes. */
  lemma WrittenIsSplice(d0: Disk, r0: seq<nat>, size0: nat, off: nat, src: seq<byte>, d: Disk, r: seq<nat>)
    requires InRange(d0, r0) && InRange(d, r) && off <= size0 && Mapped(r0, size0)
    requires Written(d0, r0, size0, off, src, |src|, d, r)
    ensures var size := if off + |src| > size0 then off + |src| else size0;
            && Mapped(r, size)
            && Contents(d, r, size) == Splice(Contents(d0, r0, size0), off, src)
  {
    var size := if off + |src| > size0 then off + |src| else size0;
    forall k | 0 <= k < MAXFILE && k * 512 < size ensures r[k] != 0 {
      var i := if k * 512 < size0 then k * 512 else off + |src| - 1;
      if k * 512 < size0 || (off + |src| - 1) / 512 == k {
        assert i / 512 == k;
      } else {
        var j := if off <= k * 512 then k * 512 else off;
        assert j / 512 == k;
      }
    }
  }

  /** One round of readi's loop: the next m bytes come from one block. */
  lemma ReadRound(d: Disk, r: seq<nat>, size: nat, off: nat, o: nat, m: nat)
    requires InRange(d, r) && size <= MAXBYTES && off <= o && o + m <= size && o % 512 + m <= BSIZE && 0 < m
    ensures Contents(d, r, size)[off..o + m] == Contents(d, r, size)[off..o] + d[r[o / 512]][o % 512..o % 512 + m]
  {
    var s := Contents(d, r, size);
    forall i | o <= i < o + m ensures s[i] == d[r[o / 512]][o % 512 + (i - o)] {
      assert i / 512 == o / 512 && i % 512 == o % 512 + (i - o);
    }
  }

  // ----- what a file's growth leaves alone -----

  /**
   The file at (d, addrs) grew out of (d0, a0): mapped blocks stayed, the blocks newly used are
   ones the file names, and neither another file's block nor any block before the bitmap
   changed.
   */
  ghost predicate Grown(sb: Super, d0: Disk, a0: seq<nat>, d: Disk, addrs: seq<nat>, others: set<nat>)
    requires DiskOk(sb, d0) && FileOk(sb, d0, a0, others)
  {
    && DiskOk(sb, d) && FileOk(sb, d, addrs, others)
    && (a0[NDIRECT] != 0 ==> addrs[NDIRECT] == a0[NDIRECT])
    && (forall k :: 0 <= k < MAXFILE && Refs(d0, a0)[k] != 0 ==> Refs(d, addrs)[k] == Refs(d0, a0)[k])
    && (forall x :: 0 <= x < sb.size ==> Used(sb, d, x) == (Used(sb, d0, x) || x in Named(d, addrs)))
    && (forall x :: 0 <= x < sb.size && (x in others || x < sb.bmapstart) ==> d[x] == d0[x])
  }

  lemma GrownStart(sb: Super, d: Disk, addrs: seq<nat>, others: set<nat>)
    requires DiskOk(sb, d) && FileOk(sb, d, addrs, others)
    ensures Grown(sb, d, addrs, d, addrs, others)
  {
    FileBlocks(sb, d, addrs, others);
  }

  /** bmap names exactly one block more, apart from a new indirect block. */
  lemma NamedAfterBmap(sb: Super, d: Disk, addrs: seq<nat>, e: Disk, after: seq<nat>, bn: nat, addr: nat, others: set<nat>, x: nat)
    requires DiskOk(sb, d) && FileOk(sb, d, addrs, others) && BmapDone(sb, d, addrs, e, after, bn, addr, others)
    requires Refs(d, addrs)[bn] != 0 ==> Refs(d, addrs)[bn] == addr
    ensures x in Named(e, after) <==> x in Named(d, addrs) || x == addr || (x == after[NDIRECT] && x != 0)
  {
    hide Used;
    var r, r' := Refs(d, addrs), Refs(e, after);
    assert r'[bn] == addr;
    if x in Named(d, addrs) && x != addrs[NDIRECT] {
      var k :| 0 <= k < MAXFILE && r[k] != 0 && r[k] == x;
      assert r'[k] == x;
    }
    if x in Named(e, after) && x != after[NDIRECT] && x != addr {
      var k :| 0 <= k < MAXFILE && r'[k] != 0 && r'[k] == x;
      assert r[k] == x;
    }
  }

  lemma BmapLeavesOthers(sb: Super, d: Disk, addrs: seq<nat>, e: Disk, after: seq<nat>, bn: nat, addr: nat, others: set<nat>, x: nat)
    requires DiskOk(sb, d) && FileOk(sb, d, addrs, others) && BmapDone(sb, d, addrs, e, after, bn, addr, others)
    requires x < sb.size && (x in others || x < sb.bmapstart)
    ensures e[x] == d[x]
  {
    hide Refs, Unique;
    BitmapIsMeta(sb);
    assert addrs[NDIRECT] != 0 ==> Mine(sb, d, addrs[NDIRECT], others);
    assert Used(sb, d, x);
  }

  lemma GrownBmap(sb: Super, d0: Disk, a0: seq<nat>, d: Disk, addrs: seq<nat>, e: Disk, after: seq<nat>, bn: nat, addr: nat, others: set<nat>)
    requires DiskOk(sb, d0) && FileOk(sb, d0, a0, others) && Grown(sb, d0, a0, d, addrs, others)
    requires BmapDone(sb, d, addrs, e, after, bn, addr, others)
    requires Refs(d, addrs)[bn] != 0 ==> Refs(d, addrs)[bn] == addr
    ensures Grown(sb, d0, a0, e, after, others)
  {
    hide Used, Mine, Unique, OthersUsed, Named;
    forall x | 0 <= x < sb.size ensures Used(sb, e, x) == (Used(sb, d0, x) || x in Named(e, after)) {
      NamedAfterBmap(sb, d, addrs, e, after, bn, addr, others, x);
    }
    forall x | 0 <= x < sb.size && (x in others || x < sb.bmapstart) ensures e[x] == d0[x] {
      BmapLeavesOthers(sb, d, addrs, e, after, bn, addr, others, x);
    }
  }

  lemma GrownWrite(sb: Super, d0: Disk, a0: seq<nat>, d: Disk, addrs: seq<nat>, bn: nat, data: Block, others: set<nat>)
    requires DiskOk(sb, d0) && FileOk(sb, d0, a0, others) && Grown(sb, d0, a0, d, addrs, others)
    requires bn < MAXFILE && Refs(d, addrs)[bn] != 0
    ensures sb.IsData(Refs(d, addrs)[bn])
    ensures Grown(sb, d0, a0, d[Refs(d, addrs)[bn] := data], addrs, others)
  {
    var b := Refs(d, addrs)[bn];
    assert Mine(sb, d, b, others);
    DataWriteKeepsUsed(sb, d, b, data);
    DataWrite(sb, d, addrs, bn, data, others);
    assert Named(d[b := data], addrs) == Named(d, addrs);
  }

  // ----- how many blocks a write logs -----

  /** The number of blocks that n bytes at off lie in. */
  function Touched(off: nat, n: nat): nat {
    if n == 0 then 0 else (off + n - 1) / 512 - off / 512 + 1
  }

  predicate Aligned(o: nat) {
    o % 512 == 0
  }

  /** m bytes at o lie in one block. */
  predicate InBlock(o: nat, m: nat) {
    m <= 512 - o % 512
  }

  lemma TouchedNext(off: nat, tot: nat, m: nat)
    requires tot == 0 || Aligned(off + tot)
    requires 0 < m <= 512 - (off + tot) % 512
    ensures Touched(off, tot + m) == Touched(off, tot) + 1
  {
  }

  lemma UnionSize(a: set<nat>, b: set<nat>)
    ensures |a + b| <= |a| + |b|
  {
    assert a + b == a + (b - a);
    assert |a + (b - a)| == |a| + |b - a|;
    assert b == (b - a) + (b * a);
    assert |b| == |b - a| + |b * a|;
  }

  lemma LoggedSize(logged: set<nat>, base: set<nat>, data: set<nat>, bitmap: set<nat>, ind: set<nat>)
    requires logged <= base + data + bitmap + ind
    ensures |logged| <= |base| + |data| + |bitmap| + |ind|
  {
    SubsetSize(logged, base + data + bitmap + ind);
    UnionSize(base + data + bitmap, ind);
    UnionSize(base + data, bitmap);
    UnionSize(base, data);
  }

  /** Since it was `base`, the logged set grew by data blocks, bitmap blocks and the two of the indirect block. */
  ghost predicate Counted(logged: set<nat>, base: set<nat>, data: set<nat>, bitmap: set<nat>, ind: set<nat>, off: nat, tot: nat) {
    && logged <= base + data + bitmap + ind
    && |data| <= Touched(off, tot)
    && |bitmap| <= Touched(off, tot) - (if tot > 0 && !Aligned(off) then 1 else 0)
  }

  lemma CountedRound(logged: set<nat>, base: set<nat>, data: set<nat>, bitmap: set<nat>, ind: set<nat>, off: nat, tot: nat, m: nat,
                     logged': set<nat>, addr: nat, bits: set<nat>, ind': set<nat>)
    requires Counted(logged, base, data, bitmap, ind, off, tot)
    requires logged' <= logged + {addr} + bits + ind' && ind <= ind'
    requires |bits| <= if tot == 0 && !Aligned(off) then 0 else 1
    requires tot == 0 || Aligned(off + tot)
    requires 0 < m && InBlock(off + tot, m)
    ensures Counted(logged', base, data + {addr}, bitmap + bits, ind', off, tot + m)
  {
    TouchedNext(off, tot, m);
    UnionSize(data, {addr});
    UnionSize(bitmap, bits);
  }

  /** How many blocks a write of n bytes at off may log, its inode apart: data, bitmap and indirect blocks. */
  function LogBound(off: nat, n: nat): nat {
    2 * Touched(off, n) + 2 - (if n > 0 && !Aligned(off) then 1 else 0)
  }

  lemma CountedBound(logged: set<nat>, base: set<nat>, data: set<nat>, bitmap: set<nat>, ind: set<nat>, off: nat, n: nat)
    requires Counted(logged, base, data, bitmap, ind, off, n) && |ind| <= 2
    ensures |logged| <= |base| + LogBound(off, n)
  {
    LoggedSize(logged, base, data, bitmap, ind);
  }

  lemma TwoIndirect(sb: Super, addrs: seq<nat>)
    requires |addrs| == NDIRECT + 1
    ensures |IndirectBlocks(sb, addrs)| <= 2
  {
  }

  // ----- one round of writei, all together -----

  /** A block that holds a byte below the size, or the unaligned start of a write, is mapped already. */
  lemma MappedBelow(sb: Super, d0: Disk, a0: seq<nat>, d: Disk, addrs: seq<nat>, size: nat, off: nat, tot: nat, others: set<nat>)
    requires DiskOk(sb, d0) && FileOk(sb, d0, a0, others) && Grown(sb, d0, a0, d, addrs, others)
    requires Mapped(Refs(d0, a0), size) && off <= size && off + tot < MAXBYTES
    ensures size <= MAXBYTES
    ensures off + tot < size || (tot == 0 && off % 512 != 0) ==> Refs(d, addrs)[(off + tot) / 512] != 0
  {
    var k := (off + tot) / 512;
    if off + tot < size || (tot == 0 && off % 512 != 0) {
      assert k * 512 < size;
    }
  }

  lemma RoundDone(sb: Super, d0: Disk, a0: seq<nat>, size0: nat, off: nat, src: seq<byte>, tot: nat, m: nat,
                  d: Disk, addrs: seq<nat>, e: Disk, after: seq<nat>, addr: nat, data: Block, others: set<nat>)
    requires DiskOk(sb, d0) && FileOk(sb, d0, a0, others) && InRange(d0, Refs(d0, a0)) && size0 <= MAXBYTES
    requires Grown(sb, d0, a0, d, addrs, others) && InRange(d, Refs(d, addrs))
    requires Written(d0, Refs(d0, a0), size0, off, src, tot, d, Refs(d, addrs)) && tot + m <= |src|
    requires BmapDone(sb, d, addrs, e, after, (off + tot) / 512, addr, others)
    requires Refs(d, addrs)[(off + tot) / 512] != 0 ==> addr == Refs(d, addrs)[(off + tot) / 512]
    requires 0 < m <= 512 - (off + tot) % 512
    requires data == e[addr][..(off + tot) % 512] + src[tot..tot + m] + e[addr][(off + tot) % 512 + m..]
    ensures var f := e[addr := data];
            && DiskOk(sb, f) && FileOk(sb, f, after, others)
            && InRange(f, Refs(f, after)) && Written(d0, Refs(d0, a0), size0, off, src, tot + m, f, Refs(f, after))
            && Grown(sb, d0, a0, f, after, others)
            && IndirectBlocks(sb, addrs) <= IndirectBlocks(sb, after)
  {
    WriteRound(sb, d0, Refs(d0, a0), size0, off, src, tot, m, d, addrs, e, after, addr, data, others);
    GrownBmap(sb, d0, a0, d, addrs, e, after, (off + tot) / 512, addr, others);
    GrownWrite(sb, d0, a0, e, after, (off + tot) / 512, data, others);
  }

  lemma WrittenRoom(d0: Disk, r0: seq<nat>, size0: nat, off: nat, src: seq<byte>, tot: nat, d: Disk, r: seq<nat>)
    requires InRange(d0, r0) && InRange(d, r) && Written(d0, r0, size0, off, src, tot, d, r)
    ensures tot <= |src| && off + |src| <= MAXBYTES
  {
  }

  lemma WrittenStart(d: Disk, r: seq<nat>, size: nat, off: nat, src: seq<byte>)
    requires InRange(d, r) && Mapped(r, size) && off + |src| <= MAXBYTES
    ensures Written(d, r, size, off, src, 0, d, r)
  {
    forall i | 0 <= i < size ensures r[i / 512] != 0 {
      assert i / 512 * 512 < size;
    }
  }

  lemma DoneInRange(sb: Super, d: Disk, addrs: seq<nat>, e: Disk, after: seq<nat>, bn: nat, addr: nat, others: set<nat>)
    requires DiskOk(sb, d) && FileOk(sb, d, addrs, others) && BmapDone(sb, d, addrs, e, after, bn, addr, others)
    ensures addr < |e| && DiskOk(sb, e) && FileOk(sb, e, after, others)
  {
  }

  /** Writing an inode block changes neither the file's blocks nor its bytes. */
  lemma InodeWrite(sb: Super, d: Disk, addrs: seq<nat>, b: nat, data: Block, size: nat, others: set<nat>)
    requires DiskOk(sb, d) && FileOk(sb, d, addrs, others) && b < sb.bmapstart && size <= MAXBYTES
    requires Mapped(Refs(d, addrs), size)
    ensures InRange(d, Refs(d, addrs)) && b < |d|
    ensures var e := d[b := data];
            && DiskOk(sb, e) && FileOk(sb, e, addrs, others) && InRange(e, Refs(e, addrs))
            && Refs(e, addrs) == Refs(d, addrs) && Named(e, addrs) == Named(d, addrs)
            && Contents(e, Refs(e, addrs), size) == Contents(d, Refs(d, addrs), size)
            && (forall x :: 0 <= x < sb.size ==> Used(sb, e, x) == Used(sb, d, x))
  {
    var e := d[b := data];
    PlainWriteKeepsUsed(sb, d, b, data);
    RefsInRange(sb, d, addrs, others);
    FileBlocks(sb, d, addrs, others);
    assert Refs(e, addrs) == Refs(d, addrs);
    forall i | 0 <= i < size ensures ByteAt(e, Refs(d, addrs), i) == ByteAt(d, Refs(d, addrs), i) {
      assert i / 512 * 512 < size;
      assert Refs(d, addrs)[i / 512] != b;
    }
  }

  lemma AddrsAreWords(sb: Super, d: Disk, addrs: seq<nat>, others: set<nat>)
    requires DiskOk(sb, d) && FileOk(sb, d, addrs, others)
    ensures forall k :: 0 <= k < NDIRECT + 1 ==> addrs[k] < 0x1_0000_0000
  {
    FileBlocks(sb, d, addrs, others);
  }

  lemma GrownFacts(sb: Super, d0: Disk, a0: seq<nat>, d: Disk, addrs: seq<nat>, others: set<nat>)
    requires DiskOk(sb, d0) && FileOk(sb, d0, a0, others) && Grown(sb, d0, a0, d, addrs, others)
    ensures DiskOk(sb, d) && FileOk(sb, d, addrs, others)
    ensures forall x :: 0 <= x < sb.size ==> Used(sb, d, x) == (Used(sb, d0, x) || x in Named(d, addrs))
    ensures forall x :: 0 <= x < sb.size && (x in others || x < sb.bmapstart) ==> d[x] == d0[x]
  {
  }

  /** Two writes in a row are one. */
  lemma SpliceTwice(s: seq<byte>, off: nat, a: seq<byte>, b: seq<byte>)
    requires off <= |s|
    ensures off + |a| <= |Splice(s, off, a)|
    ensures Splice(Splice(s, off, a), off + |a|, b) == Splice(s, off, a + b)
  {
  }

  /** A chunk of at most three blocks' bytes logs at most ten blocks, its inode included. */
  lemma ChunkBound(off: nat, n: nat)
    requires n <= 1536
    ensures LogBound(off, n) + 1 <= 10
  {
  }

  /** The file with inode number inum has become v, and the rest of the disk is as it was. */
  ghost predicate OneFile(sb: Super, d0: Disk, d: Disk, inum: nat, v: Dinode, others: set<nat>)
    requires DiskOk(sb, d0)
  {
    && DiskOk(sb, d) && inum < sb.ninodes
    && FileOk(sb, d, v.addrs, others) && Mapped(Refs(d, v.addrs), v.size) && Synced(d[sb.IBlock(inum)], inum, v)
    && (forall x :: 0 <= x < sb.size && (x in others || x < sb.bmapstart) && x != sb.IBlock(inum) ==> d[x] == d0[x])
    && (forall k :: 0 <= k < NINDIRECT && !(DinodeBase(inum) <= k < DinodeBase(inum) + DINODE_WORDS) ==>
          Word(d[sb.IBlock(inum)], k) == Word(d0[sb.IBlock(inum)], k))
  }

  /** What writei promises about the rest of the disk: also, only blocks of this file are newly marked. */
  ghost predicate WroteOnly(sb: Super, d0: Disk, d: Disk, inum: nat, v: Dinode, others: set<nat>)
    requires DiskOk(sb, d0)
  {
    && OneFile(sb, d0, d, inum, v, others)
    && (forall x :: 0 <= x < sb.size ==> Used(sb, d, x) == (Used(sb, d0, x) || x in Named(d, v.addrs)))
  }
}
