/**
 The block allocator and the inode layer of fs.c, updating blocks and inodes in place.
 */
module FsCode {
  import opened Common
  import opened FsFormat
  import opened FsSpec
  import opened FsBytes
  import opened FsSpace

  /** An entry of the inode cache: how many references there are to it, and whether it has been read from disk. */
  class Inode {
    var inum: nat
    var ref: nat
    var valid: bool
    var typ: nat
    var major: nat
    var minor: nat
    var nlink: nat
    var size: nat
    const addrs: array<nat>

    constructor (inum: nat, typ: nat)
      ensures this.inum == inum && this.typ == typ && size == 0 && ref == 0 && fresh(addrs)
      ensures addrs[..] == seq(NDIRECT + 1, _ => 0)
    {
      this.inum, this.typ, ref, valid := inum, typ, 0, false;
      major, minor, nlink, size := 0, 0, 0, 0;
      addrs := new nat[NDIRECT + 1](_ => 0);
    }

    ghost function Value(): (v: Dinode)
      reads this, addrs
    {
      Dinode(typ, major, minor, nlink, size, addrs[..])
    }
  }

  /** An open file: an inode and an offset. */
  class File {
    const ip: Inode
    var off: nat

    constructor (ip: Inode)
      ensures this.ip == ip && off == 0
    {
      this.ip, this.off := ip, 0;
    }
  }

  /** One transaction: the blocks it logged, and the most it had logged already when it called log_write. */
  datatype Tx = Tx(logged: set<nat>, peak: nat) {
    predicate Paced() { peak <= |logged| <= peak + 1 }
  }

  /** What the driver of a device answers, if there is one. */
  datatype Answer = NoDriver | Answer(r: int, bytes: seq<byte>)

  /**
   The blocks as seen through the buffer cache; `logged` are those passed to log_write since begin_op,
   `peak` the largest size this set had when log_write was called.
   */
  class FileSystem {
    const sb: Super
    var blocks: Disk
    ghost var logged: set<nat>
    ghost var peak: nat

    constructor (sb: Super, blocks: Disk)
      requires DiskOk(sb, blocks)
      ensures this.sb == sb && this.blocks == blocks && logged == {} && peak == 0
    {
      this.sb, this.blocks, this.logged, this.peak := sb, blocks, {}, 0;
    }

    ghost predicate Ok()
      reads this
    {
      DiskOk(sb, blocks)
    }

    /** The fullest the transaction was at a call of log_write: all that is logged now, or all but the block logged last. */
    ghost predicate Paced()
      reads this
    {
      Tx(logged, peak).Paced()
    }

    /** log_write of a modified buffer. */
    method LogWrite(b: nat, data: Block)
      requires b < |blocks|
      modifies this
      ensures blocks == old(blocks)[b := data] && logged == old(logged) + {b}
      ensures peak == Max(old(peak), |old(logged)|) && (old(Paced()) ==> Paced())
      ensures Covers(old(blocks), old(logged), blocks, logged)
    {
      SubsetSize(logged, logged + {b});
      if b in logged { assert logged + {b} == logged; }
      peak := Max(peak, |logged|);
      blocks := blocks[b := data];
      logged := logged + {b};
    }

    /** balloc's marking of block b + bi, and bzero. */
    method Claim(b: nat, bi: nat)
      requires Ok() && b % 4096 == 0 && bi < BPB && b + bi < sb.size && !BlockBit(blocks[sb.BBlock(b)], bi)
      modifies this
      ensures Ok() && Alloced(sb, old(blocks), blocks, b + bi)
      ensures logged == old(logged) + {sb.BBlock(b + bi), b + bi}
      ensures Covers(old(blocks), old(logged), blocks, logged) && (old(Paced()) ==> Paced())
    {
      hide Used, Alloced;
      UsedInGroup(sb, blocks, b, bi);
      LogWrite(sb.BBlock(b), SetBlockBit(blocks[sb.BBlock(b)], bi));
      ghost var marked := blocks;
      LogWrite(b + bi, ZeroBlock());
      Marked(sb, old(blocks), marked, blocks, b + bi);
    }

    /** balloc's inner loop: the first clear bit of the bitmap block for b, or where the bits end. */
    method FirstClear(b: nat) returns (bi: nat)
      requires Ok() && b % 4096 == 0 && b < sb.size && UsedBelow(sb, blocks, b)
      ensures bi <= BPB && UsedBelow(sb, blocks, b + bi)
      ensures bi == BPB || b + bi >= sb.size || !BlockBit(blocks[sb.BBlock(b)], bi)
    {
      hide Used, BlockBit, UsedBelow;
      var bp := blocks[sb.BBlock(b)];
      bi := 0;
      while bi < BPB && b + bi < sb.size
        invariant 0 <= bi <= BPB && UsedBelow(sb, blocks, b + bi)
      {
        UsedInGroup(sb, blocks, b, bi);
        if !BlockBit(bp, bi) { return; }
        BelowNext(sb, blocks, b + bi);
        bi := bi + 1;
      }
    }

    /** balloc: the lowest free block, marked and zeroed; not ok is the panic for a full disk. */
    method Balloc() returns (ok: bool, r: nat)
      requires Ok()
      modifies this
      ensures Ok()
      ensures ok ==> Alloced(sb, old(blocks), blocks, r) && logged == old(logged) + {sb.BBlock(r), r}
      ensures ok ==> forall x :: 0 <= x < r ==> Used(sb, old(blocks), x)
      ensures !ok ==> blocks == old(blocks) && logged == old(logged)
      ensures !ok ==> forall x :: 0 <= x < sb.size ==> Used(sb, blocks, x)
      ensures old(Space(sb, blocks)) == Space(sb, blocks) + One(ok) && (ok <==> old(Space(sb, blocks)) > 0)
      ensures Covers(old(blocks), old(logged), blocks, logged) && (old(Paced()) ==> Paced())
    {
      hide Used, BlockBit, Alloced, Space, Covers, UsedBelow, Paced;
      CoversSelf(blocks, logged);
      NoneBelow(sb, blocks);
      var b := 0;
      while b < sb.size
        invariant b % 4096 == 0 && unchanged(this) && UsedBelow(sb, blocks, b)
      {
        var bi := FirstClear(b);
        if bi < BPB && b + bi < sb.size {
          BelowAt(sb, blocks, b + bi);
          Claim(b, bi);
          SpaceAlloced(sb, old(blocks), blocks, b + bi);
          return true, b + bi;
        }
        if bi < BPB { AllBelow(sb, blocks, b + bi, b + BPB); }
        b := b + BPB;
      }
      BelowAt(sb, blocks, b);
      SpaceNone(sb, blocks);
      return false, 0;
    }

    /** bfree: clear the bit; not ok is the panic for freeing a free block. */
    method Bfree(b: nat) returns (ok: bool)
      requires Ok() && b < sb.size
      modifies this
      ensures ok == Used(sb, old(blocks), b)
      ensures ok ==> |blocks| == sb.size && logged == old(logged) + {sb.BBlock(b)}
      ensures ok ==> forall x :: 0 <= x < sb.size ==> Used(sb, blocks, x) == (x != b && Used(sb, old(blocks), x))
      ensures ok ==> forall x :: 0 <= x < sb.size && !sb.IsBitmap(x) ==> blocks[x] == old(blocks)[x]
      ensures sb.IsData(b) ==> Ok()
      ensures !ok ==> blocks == old(blocks) && logged == old(logged)
      ensures Covers(old(blocks), old(logged), blocks, logged) && (old(Paced()) ==> Paced())
    {
      var bp := blocks[sb.BBlock(b)];
      if !BlockBit(bp, b % 4096) {
        return false;
      }
      LogWrite(sb.BBlock(b), ClearBlockBit(bp, b % 4096));
      forall x | 0 <= x < sb.size ensures Used(sb, blocks, x) == (x != b && Used(sb, old(blocks), x)) {
        UsedAfterFree(sb, old(blocks), blocks, b, x);
      }
      return true;
    }

    /** bmap: the block holding part bn of the file, allocated if there is none; not ok is a panic. */
    method Bmap(ip: Inode, bn: nat, ghost others: set<nat>) returns (ok: bool, addr: nat)
      requires Ok() && FileOk(sb, blocks, ip.addrs[..], others)
      modifies this, ip.addrs
      ensures Ok()
      ensures !ok ==> bn >= MAXFILE || forall x :: 0 <= x < sb.size ==> Used(sb, blocks, x)
      ensures ok ==> BmapDone(sb, old(blocks), old(ip.addrs[..]), blocks, ip.addrs[..], bn, addr, others)
      ensures ok ==> logged <= old(logged) + {addr, sb.BBlock(addr)} + IndirectBlocks(sb, ip.addrs[..])
      ensures bn < MAXFILE && Refs(old(blocks), old(ip.addrs[..]))[bn] != 0 ==>
                && ok && addr == Refs(old(blocks), old(ip.addrs[..]))[bn]
                && blocks == old(blocks) && logged == old(logged) && ip.addrs[..] == old(ip.addrs[..])
      ensures ok ==> Took(sb, old(blocks), old(ip.addrs[..]), blocks, ip.addrs[..], bn)
      ensures bn < MAXFILE && !ok ==> old(Space(sb, blocks)) < PartNeed(Refs(old(blocks), old(ip.addrs[..])), old(ip.addrs[NDIRECT]), bn)
      ensures Covers(old(blocks), old(logged), blocks, logged) && (old(Paced()) ==> Paced())
    {
      hide Used, Mine, Unique, OthersUsed, Alloced, BmapDone, Paced, Space;
      ghost var addrs := ip.addrs[..];
      if bn < MAXFILE && Refs(blocks, addrs)[bn] != 0 { PresentDone(sb, blocks, addrs, bn, others); }
      if bn < NDIRECT {
        addr := ip.addrs[bn];
        assert Refs(blocks, addrs)[bn] == addr;
        if addr == 0 {
          ok, addr := Balloc();
          if !ok { return; }
          DirectDone(sb, old(blocks), addrs, blocks, bn, addr, others);
          ip.addrs[bn] := addr;
          assert ip.addrs[..] == addrs[bn := addr];
        }
        return true, addr;
      }
      if bn - NDIRECT < NINDIRECT {
        ok, addr := BmapIndirect(ip, bn - NDIRECT, others);
        return;
      }
      return false, 0;
    }

    /** The half of bmap that goes through the indirect block, for its entry k. */
    method BmapIndirect(ip: Inode, k: nat, ghost others: set<nat>) returns (ok: bool, addr: nat)
      requires Ok() && FileOk(sb, blocks, ip.addrs[..], others) && k < NINDIRECT
      modifies this, ip.addrs
      ensures Ok()
      ensures !ok ==> forall x :: 0 <= x < sb.size ==> Used(sb, blocks, x)
      ensures ok ==> BmapDone(sb, old(blocks), old(ip.addrs[..]), blocks, ip.addrs[..], NDIRECT + k, addr, others)
      ensures ok ==> logged <= old(logged) + {addr, sb.BBlock(addr)} + IndirectBlocks(sb, ip.addrs[..])
      ensures Refs(old(blocks), old(ip.addrs[..]))[NDIRECT + k] != 0 ==>
                && ok && addr == Refs(old(blocks), old(ip.addrs[..]))[NDIRECT + k]
                && blocks == old(blocks) && logged == old(logged) && ip.addrs[..] == old(ip.addrs[..])
      ensures ok ==> Took(sb, old(blocks), old(ip.addrs[..]), blocks, ip.addrs[..], NDIRECT + k)
      ensures !ok ==> old(Space(sb, blocks)) < PartNeed(Refs(old(blocks), old(ip.addrs[..])), old(ip.addrs[NDIRECT]), NDIRECT + k)
      ensures Covers(old(blocks), old(logged), blocks, logged) && (old(Paced()) ==> Paced())
    {
      hide Used, Mine, Unique, OthersUsed, Alloced, BmapDone, Paced, Space, Covers;
      ghost var addrs, l0 := ip.addrs[..], logged;
      var ind := ip.addrs[NDIRECT];
      if ind == 0 {
        ok, ind := Balloc();
        if !ok { return false, 0; }
        AllocIndirect(sb, old(blocks), blocks, ind, addrs, others);
        ip.addrs[NDIRECT] := ind;
        assert ip.addrs[..] == addrs[NDIRECT := ind];
        ghost var d, l := blocks, logged;
        ok, addr := BmapEntry(ip, k, others);
        CoversThen(old(blocks), l0, d, l, blocks, logged);
        if ok { IndirectDone(sb, old(blocks), addrs, d, ind, blocks, NDIRECT + k, addr, others); }
      } else {
        ok, addr := BmapEntry(ip, k, others);
      }
    }

    /** bmap through an indirect block that is there. */
    method BmapEntry(ip: Inode, k: nat, ghost others: set<nat>) returns (ok: bool, addr: nat)
      requires Ok() && FileOk(sb, blocks, ip.addrs[..], others) && k < NINDIRECT && ip.addrs[NDIRECT] != 0
      modifies this
      ensures Ok()
      ensures !ok ==> forall x :: 0 <= x < sb.size ==> Used(sb, blocks, x)
      ensures ok ==> BmapDone(sb, old(blocks), old(ip.addrs[..]), blocks, ip.addrs[..], NDIRECT + k, addr, others)
      ensures ok ==> logged <= old(logged) + {addr, sb.BBlock(addr)} + IndirectBlocks(sb, ip.addrs[..])
      ensures Refs(old(blocks), old(ip.addrs[..]))[NDIRECT + k] != 0 ==>
                && ok && addr == Refs(old(blocks), old(ip.addrs[..]))[NDIRECT + k]
                && blocks == old(blocks) && logged == old(logged) && ip.addrs[..] == old(ip.addrs[..])
      ensures ok ==> Took(sb, old(blocks), old(ip.addrs[..]), blocks, ip.addrs[..], NDIRECT + k)
      ensures !ok ==> old(Space(sb, blocks)) < PartNeed(Refs(old(blocks), old(ip.addrs[..])), old(ip.addrs[NDIRECT]), NDIRECT + k)
      ensures Covers(old(blocks), old(logged), blocks, logged) && (old(Paced()) ==> Paced())
    {
      hide Used, Mine, Unique, OthersUsed, Alloced, BmapDone, Paced, Space, Covers;
      ghost var d, l0 := blocks, logged;
      var ind := ip.addrs[NDIRECT];
      IndirectData(sb, d, ip.addrs[..], others);
      CoversSelf(blocks, logged);
      addr := Word(blocks[ind], k);
      assert addr == Refs(blocks, ip.addrs[..])[NDIRECT + k];
      if addr == 0 {
        ok, addr := Balloc();
        if !ok { return; }
        ghost var e, l := blocks, logged;
        EntryDone(sb, d, ip.addrs[..], blocks, k, addr, others);
        SpaceWrite(sb, blocks, ind, SetWord(blocks[ind], k, addr));
        LogWrite(ind, SetWord(blocks[ind], k, addr));
        CoversThen(d, l0, e, l, blocks, logged);
      } else {
        PresentDone(sb, blocks, ip.addrs[..], NDIRECT + k, others);
      }
      return true, addr;
    }

    ghost predicate InodeOk(ip: Inode)
      reads this, ip, ip.addrs
    {
      sb.Layout() && ip.inum < sb.ninodes && |blocks| == sb.size
      && ip.typ < 0x1_0000 && ip.major < 0x1_0000 && ip.minor < 0x1_0000 && ip.nlink < 0x1_0000
    }

    ghost predicate OnDisk(ip: Inode)
      requires InodeOk(ip)
      reads this, ip, ip.addrs
    {
      Synced(blocks[sb.IBlock(ip.inum)], ip.inum, ip.Value())
    }

    /** iupdate: copy the inode into its place in the inode block, which keeps the other inodes there. */
    method Iupdate(ip: Inode)
      requires InodeOk(ip) && ip.Value().Small()
      modifies this
      ensures InodeOk(ip) && OnDisk(ip)
      ensures logged == old(logged) + {sb.IBlock(ip.inum)} && peak == Max(old(peak), |old(logged)|) && (old(Paced()) ==> Paced())
      ensures blocks == old(blocks)[sb.IBlock(ip.inum) := blocks[sb.IBlock(ip.inum)]] && Covers(old(blocks), old(logged), blocks, logged)
      ensures forall k :: 0 <= k < NINDIRECT && !(DinodeBase(ip.inum) <= k < DinodeBase(ip.inum) + DINODE_WORDS) ==>
                Word(blocks[sb.IBlock(ip.inum)], k) == Word(old(blocks)[sb.IBlock(ip.inum)], k)
    {
      hide Word, SetWord;
      var w := DinodeBase(ip.inum);
      var first := blocks[sb.IBlock(ip.inum)];
      var bp := SetWord(first, w, ip.typ + 0x1_0000 * ip.major);
      bp := SetWord(bp, w + 1, ip.minor + 0x1_0000 * ip.nlink);
      bp := SetWord(bp, w + 2, ip.size);
      ghost var words := ip.Value().Words();
      var j := 0;
      while j < NDIRECT + 1
        invariant 0 <= j <= NDIRECT + 1
        invariant forall k :: 0 <= k < 3 + j ==> Word(bp, w + k) == words[k]
        invariant forall k :: 0 <= k < NINDIRECT && !(w <= k < w + DINODE_WORDS) ==> Word(bp, k) == Word(first, k)
      {
        assert ip.addrs[j] == ip.Value().addrs[j] == words[3 + j];
        bp := SetWord(bp, w + 3 + j, ip.addrs[j]);
        j := j + 1;
      }
      LogWrite(sb.IBlock(ip.inum), bp);
    }

    /** bfree of block b, which the file whose freeing began at disk d0 still holds. */
    method FreeHeld(b: nat, ghost d0: Disk, ghost l0: set<nat>, ghost freed: set<nat>) returns (ok: bool)
      requires DiskOk(sb, d0) && Ok() && Freeing(sb, d0, l0, blocks, logged, freed)
      requires sb.IsData(b) && Used(sb, d0, b) && b !in freed
      modifies this
      ensures ok && Ok() && Freeing(sb, d0, l0, blocks, logged, freed + {b})
      ensures old(Paced()) ==> Paced()
    {
      hide Used, Freed, MapsOf, Covers;
      StillUsed(sb, d0, blocks, freed, b);
      ghost var d, l := blocks, logged;
      ok := Bfree(b);
      FreedOne(sb, d0, d, blocks, freed, b);
      MapsOfNext(sb, freed, b);
      CoversThen(d0, l0, d, l, blocks, logged);
      assert l0 + MapsOf(sb, freed) + {sb.BBlock(b)} == l0 + MapsOf(sb, freed + {b});
    }

    /** bfree of the n-th block of the file. */
    method FreeNext(b: nat, ghost d0: Disk, ghost l0: set<nat>, ghost refs: seq<nat>, ghost n: nat)
      requires DiskOk(sb, d0) && Ok() && |refs| == MAXFILE && HeldRefs(sb, d0, refs) && n < MAXFILE && refs[n] == b != 0
      requires Freeing(sb, d0, l0, blocks, logged, FirstRefs(refs, n))
      modifies this
      ensures Ok() && Freeing(sb, d0, l0, blocks, logged, FirstRefs(refs, n + 1))
      ensures old(Paced()) ==> Paced()
    {
      hide Used, FirstRefs, Freeing, HeldRefs, Paced;
      HeldNext(sb, d0, refs, n);
      var ok := FreeHeld(b, d0, l0, FirstRefs(refs, n));
    }

    /** The first loop of itrunc: the direct blocks. */
    method FreeDirect(ip: Inode, ghost d0: Disk, ghost l0: set<nat>, ghost refs: seq<nat>) returns (ok: bool)
      requires Ok() && blocks == d0 && logged == l0 && |refs| == MAXFILE && HeldRefs(sb, d0, refs) && ip.addrs.Length == NDIRECT + 1
      requires forall k :: 0 <= k < NDIRECT ==> refs[k] == ip.addrs[k]
      modifies this, ip.addrs
      ensures ok && Ok() && Freeing(sb, d0, l0, blocks, logged, FirstRefs(refs, NDIRECT))
      ensures forall k :: 0 <= k < NDIRECT ==> ip.addrs[k] == 0
      ensures ip.addrs[NDIRECT] == old(ip.addrs[NDIRECT])
      ensures old(Paced()) ==> Paced()
    {
      hide Used, FirstRefs, Freeing, HeldRefs, Paced;
      NoneFreeing(sb, d0, l0, refs);
      var i := 0;
      while i < NDIRECT
        invariant 0 <= i <= NDIRECT
        invariant Ok() && Freeing(sb, d0, l0, blocks, logged, FirstRefs(refs, i))
        invariant forall k :: 0 <= k < NDIRECT + 1 ==> ip.addrs[k] == if k < i then 0 else old(ip.addrs[k])
        invariant old(Paced()) ==> Paced()
      {
        if ip.addrs[i] != 0 {
          FreeNext(ip.addrs[i], d0, l0, refs, i);
          ip.addrs[i] := 0;
        } else {
          HeldNext(sb, d0, refs, i);
        }
        i := i + 1;
      }
      return true;
    }

    /** The second loop of itrunc: the blocks named in the indirect block a. */
    method FreeEntries(a: Block, ghost d0: Disk, ghost l0: set<nat>, ghost refs: seq<nat>) returns (ok: bool)
      requires DiskOk(sb, d0) && Ok() && |refs| == MAXFILE && HeldRefs(sb, d0, refs)
      requires Freeing(sb, d0, l0, blocks, logged, FirstRefs(refs, NDIRECT))
      requires forall k :: 0 <= k < NINDIRECT ==> refs[NDIRECT + k] == Word(a, k)
      modifies this
      ensures ok && Ok() && Freeing(sb, d0, l0, blocks, logged, FirstRefs(refs, MAXFILE))
      ensures old(Paced()) ==> Paced()
    {
      hide Used, FirstRefs, Freeing, HeldRefs, Word, Paced;
      var j := 0;
      while j < NINDIRECT
        invariant 0 <= j <= NINDIRECT
        invariant Ok() && Freeing(sb, d0, l0, blocks, logged, FirstRefs(refs, NDIRECT + j))
        invariant old(Paced()) ==> Paced()
      {
        if Word(a, j) != 0 {
          FreeNext(Word(a, j), d0, l0, refs, NDIRECT + j);
        } else {
          HeldNext(sb, d0, refs, NDIRECT + j);
        }
        j := j + 1;
      }
      return true;
    }

    /** The second half of itrunc's freeing: what the indirect block names, and the indirect block. */
    method FreeIndirect(ip: Inode, ghost d0: Disk, ghost l0: set<nat>, ghost refs: seq<nat>) returns (ok: bool)
      requires DiskOk(sb, d0) && Ok() && |refs| == MAXFILE && HeldRefs(sb, d0, refs) && ip.addrs.Length == NDIRECT + 1
      requires Freeing(sb, d0, l0, blocks, logged, FirstRefs(refs, NDIRECT)) && sb.IsData(ip.addrs[NDIRECT]) && Used(sb, d0, ip.addrs[NDIRECT])
      requires forall k :: 0 <= k < NINDIRECT ==> refs[NDIRECT + k] == Word(d0[ip.addrs[NDIRECT]], k)
      requires ip.addrs[NDIRECT] !in FirstRefs(refs, MAXFILE)
      modifies this, ip.addrs
      ensures ok && Ok() && Freeing(sb, d0, l0, blocks, logged, FirstRefs(refs, MAXFILE) + {old(ip.addrs[NDIRECT])})
      ensures ip.addrs[NDIRECT] == 0 && forall k :: 0 <= k < NDIRECT ==> ip.addrs[k] == old(ip.addrs[k])
      ensures old(Paced()) ==> Paced()
    {
      hide Used, Freed, MapsOf, Covers, FirstRefs, Word, Paced, HeldRefs;
      var ind := ip.addrs[NDIRECT];
      FreedKeeps(sb, d0, blocks, FirstRefs(refs, NDIRECT), ind);
      ok := FreeEntries(blocks[ind], d0, l0, refs);
      ok := FreeHeld(ind, d0, l0, FirstRefs(refs, MAXFILE));
      ip.addrs[NDIRECT] := 0;
    }

    /** The freeing half of itrunc. */
    method FreeAll(ip: Inode, ghost others: set<nat>) returns (ok: bool)
      requires Ok() && InodeOk(ip) && FileOk(sb, blocks, ip.addrs[..], others)
      modifies this, ip.addrs
      ensures ok && Ok() && ip.addrs[..] == seq(NDIRECT + 1, _ => 0)
      ensures Freeing(sb, old(blocks), old(logged), blocks, logged, old(Named(blocks, ip.addrs[..])))
      ensures old(Paced()) ==> Paced()
    {
      hide Used, FileOk, Refs, Mine, Freeing, FirstRefs, Named, Word, Paced, HeldRefs, Unique;
      FileBlocks(sb, blocks, ip.addrs[..], others);
      ghost var d0, a0, l0, refs := blocks, ip.addrs[..], logged, Refs(blocks, ip.addrs[..]);
      NamedIsRefs(d0, a0);
      ok := FreeDirect(ip, d0, l0, refs);
      if ip.addrs[NDIRECT] != 0 {
        ok := FreeIndirect(ip, d0, l0, refs);
      }
      assert ip.addrs[..] == seq(NDIRECT + 1, _ => 0);
    }

    /** itrunc: frees exactly the blocks the file names, and never one that is already free. */
    method Itrunc(ip: Inode, ghost others: set<nat>) returns (ok: bool)
      requires Ok() && InodeOk(ip) && FileOk(sb, blocks, ip.addrs[..], others)
      modifies this, ip`size, ip.addrs
      ensures ok && Ok() && InodeOk(ip) && OnDisk(ip)
      ensures ip.size == 0 && ip.addrs[..] == seq(NDIRECT + 1, _ => 0)
      ensures Truncated(sb, old(blocks), blocks, old(Named(blocks, ip.addrs[..])), sb.IBlock(ip.inum))
      ensures forall k :: 0 <= k < NINDIRECT && !(DinodeBase(ip.inum) <= k < DinodeBase(ip.inum) + DINODE_WORDS) ==>
                Word(blocks[sb.IBlock(ip.inum)], k) == Word(old(blocks)[sb.IBlock(ip.inum)], k)
      ensures FileOk(sb, blocks, ip.addrs[..], others)
      ensures logged == old(logged) + old(TruncLogs(sb, blocks, ip.addrs[..], ip.inum))
      ensures Covers(old(blocks), old(logged), blocks, logged)
      ensures old(Paced()) ==> peak == |old(logged) + MapsOf(sb, old(Named(blocks, ip.addrs[..])))|
      ensures Space(sb, blocks) == old(Space(sb, blocks)) + |old(Named(blocks, ip.addrs[..]))|
    {
      ghost var d0, a0, l0 := blocks, ip.addrs[..], logged;
      ok := FreeAll(ip, others);
      hide *;
      TruncInode(ip, d0, a0, l0, others);
    }

    /** The end of itrunc: the inode is written as an empty file's. */
    method TruncInode(ip: Inode, ghost d0: Disk, ghost a0: seq<nat>, ghost l0: set<nat>, ghost others: set<nat>)
      requires DiskOk(sb, d0) && FileOk(sb, d0, a0, others) && Ok() && InodeOk(ip) && ip.addrs[..] == seq(NDIRECT + 1, _ => 0)
      requires Freeing(sb, d0, l0, blocks, logged, Named(d0, a0))
      modifies this, ip`size
      ensures Ok() && InodeOk(ip) && OnDisk(ip) && ip.size == 0
      ensures Truncated(sb, d0, blocks, Named(d0, a0), sb.IBlock(ip.inum)) && FileOk(sb, blocks, ip.addrs[..], others)
      ensures forall k :: 0 <= k < NINDIRECT && !(DinodeBase(ip.inum) <= k < DinodeBase(ip.inum) + DINODE_WORDS) ==>
                Word(blocks[sb.IBlock(ip.inum)], k) == Word(d0[sb.IBlock(ip.inum)], k)
      ensures logged == old(logged) + {sb.IBlock(ip.inum)} && Covers(d0, l0, blocks, logged)
      ensures old(Paced()) ==> peak == |old(logged)|
      ensures Space(sb, blocks) == Space(sb, d0) + |Named(d0, a0)|
    {
      hide Used, Freed, Named, Word, MapsOf, Covers, Synced, OnDisk, Space, Truncated, Refs, Mine, Unique;
      ip.size := 0;
      ghost var d, l := blocks, logged;
      FreedAt(sb, d0, d, Named(d0, a0), sb.IBlock(ip.inum));
      Iupdate(ip);
      CoversThen(d0, l0, d, l, blocks, logged);
      TruncDone(sb, d0, a0, d, ip.addrs[..], sb.IBlock(ip.inum), blocks[sb.IBlock(ip.inum)], others);
      TruncSpace(sb, d0, a0, blocks, sb.IBlock(ip.inum), others);
    }

    /** A file at rest: its blocks owned and mapped, its inode on disk equal to the one in memory. */
    ghost predicate FileValid(ip: Inode, others: set<nat>)
      reads this, ip, ip.addrs
    {
      && Ok() && InodeOk(ip) && FileOk(sb, blocks, ip.addrs[..], others)
      && Mapped(Refs(blocks, ip.addrs[..]), ip.size)
      && OnDisk(ip)
    }

    /** The bytes of the file. */
    ghost function Data(ip: Inode, others: set<nat>): (s: seq<byte>)
      requires FileValid(ip, others)
      reads this, ip, ip.addrs
    {
      RefsInRange(sb, blocks, ip.addrs[..], others);
      Contents(blocks, Refs(blocks, ip.addrs[..]), ip.size)
    }

    /** readi: a slice of the file's bytes, or what a device's driver answers. It changes nothing: no block is ever allocated by a read. */
    method Readi(ip: Inode, off: nat, n: nat, driver: Answer, ghost others: set<nat>) returns (r: int, dst: seq<byte>)
      requires FileValid(ip, others) && off < UINT && n < UINT
      modifies this, ip.addrs
      ensures blocks == old(blocks) && logged == old(logged) && ip.addrs[..] == old(ip.addrs[..])
      ensures FileValid(ip, others) && Data(ip, others) == old(Data(ip, others))
      ensures ip.typ == T_DEV ==> (r, dst) == if ip.major >= NDEV || driver.NoDriver? then (-1, []) else (driver.r, driver.bytes)
      ensures ip.typ != T_DEV ==> r == if off > ip.size || off + n >= UINT then -1 else |dst|
      ensures ip.typ != T_DEV && r >= 0 ==> off <= ip.size && dst == Data(ip, others)[off..if off + n > ip.size then ip.size else off + n]
    {
      if ip.typ == T_DEV {
        if ip.major >= NDEV || driver.NoDriver? { return -1, []; }
        return driver.r, driver.bytes;
      }
      if off > ip.size || Wraps(off, n) {
        return -1, [];
      }
      var count := if off + n > ip.size then ip.size - off else n;
      RefsInRange(sb, blocks, ip.addrs[..], others);
      hide Used, Refs, FileOk, Synced, DiskOk;
      dst := CopyOut(ip, off, count, others);
      return count, dst;
    }

    /** bmap of a mapped block only looks it up. */
    method Lookup(ip: Inode, bn: nat, ghost refs: seq<nat>, ghost others: set<nat>) returns (addr: nat)
      requires Ok() && FileOk(sb, blocks, ip.addrs[..], others) && refs == Refs(blocks, ip.addrs[..])
      requires bn < MAXFILE && refs[bn] != 0
      modifies this, ip.addrs
      ensures blocks == old(blocks) && logged == old(logged) && ip.addrs[..] == old(ip.addrs[..])
      ensures addr == refs[bn]
    {
      hide BmapDone, Refs;
      var ok;
      ok, addr := Bmap(ip, bn, others);
    }

    /** readi's loop. */
    method CopyOut(ip: Inode, off: nat, count: nat, ghost others: set<nat>) returns (dst: seq<byte>)
      requires Ok() && FileOk(sb, blocks, ip.addrs[..], others) && off + count <= ip.size
      requires Mapped(Refs(blocks, ip.addrs[..]), ip.size) && InRange(blocks, Refs(blocks, ip.addrs[..]))
      modifies this, ip.addrs
      ensures blocks == old(blocks) && logged == old(logged) && ip.addrs[..] == old(ip.addrs[..])
      ensures dst == Contents(blocks, Refs(blocks, ip.addrs[..]), ip.size)[off..off + count]
    {
      ghost var refs := Refs(blocks, ip.addrs[..]);
      ghost var bytes := Contents(blocks, refs, ip.size);
      hide Used, Refs, FileOk, BmapDone, Contents, IndirectBlocks, DiskOk;
      dst := [];
      var tot, o := 0, off;
      while tot < count
        invariant 0 <= tot <= count && o == off + tot
        invariant blocks == old(blocks) && logged == old(logged) && ip.addrs[..] == old(ip.addrs[..])
        invariant dst == bytes[off..o]
      {
        var addr := Lookup(ip, o / 512, refs, others);
        var m := Min(count - tot, 512 - o % 512);
        dst := dst + blocks[addr][o % 512..o % 512 + m];
        ReadRound(blocks, refs, ip.size, off, o, m);
        tot, o := tot + m, o + m;
      }
    }

    /** What holds between two rounds of writei's loop, with `tot` bytes written since the file was (d0, a0). */
    ghost predicate Writing(ip: Inode, d0: Disk, a0: seq<nat>, off: nat, src: seq<byte>, tot: nat, others: set<nat>)
      requires DiskOk(sb, d0) && FileOk(sb, d0, a0, others) && InRange(d0, Refs(d0, a0))
      reads this, ip, ip.addrs
    {
      && Ok() && FileOk(sb, blocks, ip.addrs[..], others)
      && Grown(sb, d0, a0, blocks, ip.addrs[..], others)
      && InRange(blocks, Refs(blocks, ip.addrs[..]))
      && Written(d0, Refs(d0, a0), ip.size, off, src, tot, blocks, Refs(blocks, ip.addrs[..]))
    }

    /** One round of writei's loop: m bytes into the block at `addr`, with the bitmap block in `bits` if bmap allocated it. */
    method WriteSome(ip: Inode, src: seq<byte>, off: nat, tot: nat, ghost d0: Disk, ghost a0: seq<nat>, ghost others: set<nat>)
      returns (ok: bool, m: nat, ghost addr: nat, ghost bits: set<nat>)
      requires DiskOk(sb, d0) && FileOk(sb, d0, a0, others) && InRange(d0, Refs(d0, a0))
      requires Writing(ip, d0, a0, off, src, tot, others)
      requires tot < |src| && off <= ip.size && Mapped(Refs(d0, a0), ip.size)
      modifies this, ip.addrs
      ensures Ok()
      ensures !ok ==> forall x :: 0 <= x < sb.size ==> Used(sb, blocks, x)
      ensures ok ==> 0 < m <= |src| - tot && InBlock(off + tot, m) && Writing(ip, d0, a0, off, src, tot + m, others)
      ensures ok && tot + m < |src| ==> Aligned(off + (tot + m))
      ensures ok && off + tot < ip.size ==> ip.addrs[..] == old(ip.addrs[..])
      ensures |bits| <= if off + tot < ip.size || (tot == 0 && !Aligned(off)) then 0 else 1
      ensures ok ==> logged <= old(logged) + {addr} + bits + IndirectBlocks(sb, ip.addrs[..])
      ensures ok ==> IndirectBlocks(sb, old(ip.addrs[..])) <= IndirectBlocks(sb, ip.addrs[..])
      ensures ok ==> Took(sb, old(blocks), old(ip.addrs[..]), blocks, ip.addrs[..], (off + tot) / 512)
      ensures ok ==> Refs(blocks, ip.addrs[..]) == Refs(old(blocks), old(ip.addrs[..]))[(off + tot) / 512 := addr]
      ensures (off + tot) / 512 < MAXFILE && (ok ==> addr != 0)
      ensures !ok ==> old(Space(sb, blocks)) < PartNeed(Refs(old(blocks), old(ip.addrs[..])), old(ip.addrs[NDIRECT]), (off + tot) / 512)
      ensures Covers(old(blocks), old(logged), blocks, logged) && (old(Paced()) ==> Paced())
    {
      hide Used, Refs, Mine, Unique, OthersUsed, BmapDone, Grown, Written, Mapped, Paced, IndirectBlocks, InRange, Covers, Space, PartNeed;
      ghost var d, a := blocks, ip.addrs[..];
      assert off + |src| <= MAXBYTES by { WrittenRoom(d0, Refs(d0, a0), ip.size, off, src, tot, d, Refs(d, a)); }
      MappedBelow(sb, d0, a0, d, a, ip.size, off, tot, others);
      var o, b := off + tot, 0;
      ok, b := Bmap(ip, o / 512, others);
      addr, bits := b, if Refs(d, a)[o / 512] == 0 then {sb.BBlock(b)} else {};
      m := Min(|src| - tot, 512 - o % 512);
      if !ok { return; }
      ghost var e, l := blocks, logged;
      FillBlock(ip, b, src, off, tot, m, d0, a0, d, a, others);
      CoversThen(d, old(logged), e, l, blocks, logged);
    }

    /** The bytes of one round of writei's loop go into block b, which bmap has just given for the file (d, a). */
    method FillBlock(ip: Inode, b: nat, src: seq<byte>, off: nat, tot: nat, m: nat,
                     ghost d0: Disk, ghost a0: seq<nat>, ghost d: Disk, ghost a: seq<nat>, ghost others: set<nat>)
      requires DiskOk(sb, d0) && FileOk(sb, d0, a0, others) && InRange(d0, Refs(d0, a0)) && ip.size <= MAXBYTES
      requires DiskOk(sb, d) && FileOk(sb, d, a, others) && InRange(d, Refs(d, a)) && Grown(sb, d0, a0, d, a, others)
      requires Written(d0, Refs(d0, a0), ip.size, off, src, tot, d, Refs(d, a))
      requires BmapDone(sb, d, a, blocks, ip.addrs[..], (off + tot) / 512, b, others)
      requires Refs(d, a)[(off + tot) / 512] != 0 ==> b == Refs(d, a)[(off + tot) / 512]
      requires tot + m <= |src| && 0 < m <= 512 - (off + tot) % 512
      modifies this
      ensures Ok() && Writing(ip, d0, a0, off, src, tot + m, others) && IndirectBlocks(sb, a) <= IndirectBlocks(sb, ip.addrs[..])
      ensures logged == old(logged) + {b} && Covers(old(blocks), old(logged), blocks, logged) && (old(Paced()) ==> Paced())
      ensures b != 0 && Refs(blocks, ip.addrs[..]) == Refs(d, a)[(off + tot) / 512 := b] && Space(sb, blocks) == Space(sb, old(blocks))
    {
      hide Used, Refs, Mine, Unique, OthersUsed, BmapDone, Grown, Written, Paced, IndirectBlocks, InRange, Covers, Space;
      ghost var e, o := blocks, off + tot;
      DoneInRange(sb, d, a, e, ip.addrs[..], o / 512, b, others);
      var bp := blocks[b];
      var buf := bp[..(off + tot) % 512] + src[tot..tot + m] + bp[(off + tot) % 512 + m..];
      DoneRefs(sb, d, a, e, ip.addrs[..], o / 512, b, buf, others);
      LogWrite(b, buf);
      RoundDone(sb, d0, a0, ip.size, off, src, tot, m, d, a, e, ip.addrs[..], b, buf, others);
    }

    /** writei's loop. */
    method CopyIn(ip: Inode, src: seq<byte>, off: nat, ghost others: set<nat>) returns (ok: bool)
      requires Ok() && FileOk(sb, blocks, ip.addrs[..], others) && off <= ip.size
      requires Mapped(Refs(blocks, ip.addrs[..]), ip.size) && InRange(blocks, Refs(blocks, ip.addrs[..]))
      requires off + |src| <= MAXBYTES
      modifies this, ip.addrs
      ensures Ok()
      ensures !ok ==> forall x :: 0 <= x < sb.size ==> Used(sb, blocks, x)
      ensures ok ==> Writing(ip, old(blocks), old(ip.addrs[..]), off, src, |src|, others)
      ensures ok && off + |src| <= ip.size ==> ip.addrs[..] == old(ip.addrs[..])
      ensures ok ==> |logged| <= |old(logged)| + LogBound(off, |src|)
      ensures ok <==> old(Space(sb, blocks)) >= old(WriteNeed(Refs(blocks, ip.addrs[..]), ip.addrs[NDIRECT], off, |src|))
      ensures ok ==> Spent(sb, old(blocks), old(ip.addrs[..]), blocks, ip.addrs[..], off, |src|)
      ensures Covers(old(blocks), old(logged), blocks, logged) && (old(Paced()) ==> Paced())
    {
      hide LogBound, Covers, Paced, Used, Space, RangeNeed, Mine, Unique, OthersUsed, Grown, Written, Mapped, InRange, Aligned, Surplus;
      ghost var d0, a0, l0 := blocks, ip.addrs[..], logged;
      assert Copying(ip, d0, a0, l0, off, src, 0, {}, {}, others) by {
        GrownStart(sb, d0, a0, others);
        WrittenStart(d0, Refs(d0, a0), ip.size, off, src);
        CoversSelf(d0, l0);
        SurplusStart(sb, d0, a0, off / 512, EndPart(off, |src|));
      }
      hide Copying, WriteNeed;
      var tot := 0;
      ghost var data: set<nat>, bitmap: set<nat> := {}, {};
      while tot < |src|
        invariant 0 <= tot <= |src|
        invariant Copying(ip, d0, a0, l0, off, src, tot, data, bitmap, others) && (old(Paced()) ==> Paced())
      {
        var m;
        ok, m, data, bitmap := CopyRound(ip, d0, a0, l0, src, off, tot, data, bitmap, others);
        if !ok { return; }
        tot := tot + m;
      }
      Copied(ip, d0, a0, l0, off, src, data, bitmap, others);
      return true;
    }

    /** How far writei's loop has come since the file was (d0, a0) and l0 was logged. */
    ghost predicate Copying(ip: Inode, d0: Disk, a0: seq<nat>, l0: set<nat>, off: nat, src: seq<byte>, tot: nat,
                            data: set<nat>, bitmap: set<nat>, others: set<nat>)
      requires DiskOk(sb, d0) && FileOk(sb, d0, a0, others) && InRange(d0, Refs(d0, a0)) && off + |src| <= MAXBYTES
      reads this, ip, ip.addrs
    {
      && Writing(ip, d0, a0, off, src, tot, others)
      && (off + tot <= ip.size ==> ip.addrs[..] == a0)
      && (0 < tot < |src| ==> Aligned(off + tot))
      && Counted(logged, l0, data, bitmap, IndirectBlocks(sb, ip.addrs[..]), off, tot)
      && Covers(d0, l0, blocks, logged)
      && Surplus(sb, d0, a0, off / 512, blocks, ip.addrs[..], NextPart(off, |src|, tot), EndPart(off, |src|))
    }

    /** One round of writei's loop, with what it adds to the blocks logged and takes from the free ones. */
    method CopyRound(ip: Inode, ghost d0: Disk, ghost a0: seq<nat>, ghost l0: set<nat>, src: seq<byte>, off: nat, tot: nat,
                     ghost data0: set<nat>, ghost bitmap0: set<nat>, ghost others: set<nat>)
      returns (ok: bool, m: nat, ghost data: set<nat>, ghost bitmap: set<nat>)
      requires DiskOk(sb, d0) && FileOk(sb, d0, a0, others) && InRange(d0, Refs(d0, a0)) && off + |src| <= MAXBYTES
      requires Copying(ip, d0, a0, l0, off, src, tot, data0, bitmap0, others)
      requires tot < |src| && off <= ip.size && Mapped(Refs(d0, a0), ip.size)
      modifies this, ip.addrs
      ensures Ok() && Covers(d0, l0, blocks, logged) && (old(Paced()) ==> Paced())
      ensures !ok ==> forall x :: 0 <= x < sb.size ==> Used(sb, blocks, x)
      ensures !ok ==> Space(sb, d0) < WriteNeed(Refs(d0, a0), a0[NDIRECT], off, |src|)
      ensures ok ==> 0 < m <= |src| - tot && Copying(ip, d0, a0, l0, off, src, tot + m, data, bitmap, others)
    {
      hide LogBound, Covers, Paced, Used, Refs, Mine, Unique, OthersUsed, Grown, Written, Mapped, InRange, Aligned, InBlock,
        Surplus, Took, Space, PartNeed, RangeNeed, EndPart, NextPart, Writing, Counted, IndirectBlocks, Touched;
      WritingOk(ip, d0, a0, off, src, tot, others);
      PartBelow(off, |src|, tot);
      ghost var d, l, a, ind := blocks, logged, ip.addrs[..], IndirectBlocks(sb, ip.addrs[..]);
      ghost var addr: nat, bits: set<nat>;
      ok, m, addr, bits := WriteSome(ip, src, off, tot, d0, a0, others);
      data, bitmap := data0 + {addr}, bitmap0 + bits;
      CoversThen(d0, l0, d, l, blocks, logged);
      if !ok {
        SurplusShort(sb, d0, a0, off / 512, d, a, NextPart(off, |src|, tot), EndPart(off, |src|));
        return;
      }
      WritingOk(ip, d0, a0, off, src, tot + m, others);
      RoundParts(off, |src|, tot, m);
      SurplusNext(sb, d0, a0, off / 512, d, a, (off + tot) / 512, EndPart(off, |src|), blocks, ip.addrs[..], addr);
      CountedRound(l, l0, data0, bitmap0, ind, off, tot, m, logged, addr, bits, IndirectBlocks(sb, ip.addrs[..]));
    }

    lemma WritingOk(ip: Inode, d0: Disk, a0: seq<nat>, off: nat, src: seq<byte>, tot: nat, others: set<nat>)
      requires DiskOk(sb, d0) && FileOk(sb, d0, a0, others) && InRange(d0, Refs(d0, a0))
      requires Writing(ip, d0, a0, off, src, tot, others)
      ensures Ok() && FileOk(sb, blocks, ip.addrs[..], others)
    {
    }

    /** The end of writei's loop. */
    lemma Copied(ip: Inode, d0: Disk, a0: seq<nat>, l0: set<nat>, off: nat, src: seq<byte>, data: set<nat>, bitmap: set<nat>, others: set<nat>)
      requires DiskOk(sb, d0) && FileOk(sb, d0, a0, others) && InRange(d0, Refs(d0, a0)) && off + |src| <= MAXBYTES
      requires Copying(ip, d0, a0, l0, off, src, |src|, data, bitmap, others)
      ensures Ok() && Writing(ip, d0, a0, off, src, |src|, others) && (off + |src| <= ip.size ==> ip.addrs[..] == a0)
      ensures |logged| <= |l0| + LogBound(off, |src|) && Covers(d0, l0, blocks, logged)
      ensures Spent(sb, d0, a0, blocks, ip.addrs[..], off, |src|)
    {
      hide LogBound, Covers, Spent, EndPart, Used, Mine, Unique, OthersUsed, Grown, Written, Mapped, InRange, Aligned, Space, RangeNeed, Counted, IndirectBlocks, Surplus;
      SurplusEnd(sb, d0, a0, blocks, ip.addrs[..], off, |src|);
      TwoIndirect(sb, ip.addrs[..]);
      CountedBound(logged, l0, data, bitmap, IndirectBlocks(sb, ip.addrs[..]), off, |src|);
    }

    /** The range check of writei. */
    predicate Writable(ip: Inode, off: nat, n: nat)
      reads ip
    {
      off <= ip.size && off + n <= MAXBYTES
    }

    /**
     writei: the file's bytes become a splice of the old ones. The inode in memory and the one on
     disk agree again on return, whether or not blocks were allocated.
     */
    method Writei(ip: Inode, src: seq<byte>, off: nat, driver: Answer, ghost others: set<nat>) returns (ok: bool, r: int)
      requires FileValid(ip, others) && off < UINT && |src| < UINT
      modifies this, ip`size, ip.addrs
      ensures !ok ==> |blocks| == sb.size && sb.Layout() && forall x :: 0 <= x < sb.size ==> Used(sb, blocks, x)
      ensures ok ==> FileValid(ip, others) && ip.typ == old(ip.typ)
      ensures ip.typ == T_DEV ==> ok && r == if ip.major >= NDEV || driver.NoDriver? then -1 else driver.r
      ensures ok && ip.typ != T_DEV ==> r == if old(Writable(ip, off, |src|)) then |src| else -1
      ensures ok && (r == -1 || ip.typ == T_DEV) ==> unchanged(this) && unchanged(ip) && ip.addrs[..] == old(ip.addrs[..])
      ensures ok && ip.typ != T_DEV && r >= 0 ==> Data(ip, others) == Splice(old(Data(ip, others)), off, src)
      ensures ok ==> WroteOnly(sb, old(blocks), blocks, ip.inum, ip.Value(), others)
      ensures ok ==> |logged| <= |old(logged)| + LogBound(off, |src|) + 1
      ensures ok && old(Paced()) ==> Paced() && peak <= |old(logged)| + LogBound(off, |src|)
      ensures ok <==> ip.typ == T_DEV || !old(Writable(ip, off, |src|)) || old(Space(sb, blocks)) >= old(WriteNeed(Refs(blocks, ip.addrs[..]), ip.addrs[NDIRECT], off, |src|))
      ensures ok && ip.typ != T_DEV && r >= 0 ==> Spent(sb, old(blocks), old(ip.addrs[..]), blocks, ip.addrs[..], off, |src|)
      ensures Covers(old(blocks), old(logged), blocks, logged)
    {
      hide LogBound, Used, Space, WriteNeed, Mine, Unique, OthersUsed, Grown, Mapped, Synced, Word, Named, Contents, Splice;
      assert WroteOnly(sb, blocks, blocks, ip.inum, ip.Value(), others) by {
        GrownStart(sb, blocks, ip.addrs[..], others);
        GrownFacts(sb, blocks, ip.addrs[..], blocks, ip.addrs[..], others);
      }
      hide WroteOnly, FileOk, Refs, DiskOk, OnDisk;
      if ip.typ == T_DEV {
        if ip.major >= NDEV || driver.NoDriver? { return true, -1; }
        return true, driver.r;
      }
      if off > ip.size || Wraps(off, |src|) {
        return true, -1;
      }
      if off + |src| > MAXBYTES {
        return true, -1;
      }
      ok := Store(ip, src, off, others);
      return ok, |src|;
    }

    /** writei of a range the file can hold: its bytes, and the size if they go past it. */
    method Store(ip: Inode, src: seq<byte>, off: nat, ghost others: set<nat>) returns (ok: bool)
      requires FileValid(ip, others) && Writable(ip, off, |src|)
      modifies this, ip`size, ip.addrs
      ensures !ok ==> |blocks| == sb.size && sb.Layout() && forall x :: 0 <= x < sb.size ==> Used(sb, blocks, x)
      ensures ok ==> FileValid(ip, others) && Data(ip, others) == Splice(old(Data(ip, others)), off, src)
      ensures ok ==> WroteOnly(sb, old(blocks), blocks, ip.inum, ip.Value(), others)
      ensures ok ==> |logged| <= |old(logged)| + LogBound(off, |src|) + 1
      ensures ok && old(Paced()) ==> Paced() && peak <= |old(logged)| + LogBound(off, |src|)
      ensures ok <==> old(Space(sb, blocks)) >= old(WriteNeed(Refs(blocks, ip.addrs[..]), ip.addrs[NDIRECT], off, |src|))
      ensures ok ==> Spent(sb, old(blocks), old(ip.addrs[..]), blocks, ip.addrs[..], off, |src|)
      ensures Covers(old(blocks), old(logged), blocks, logged)
    {
      hide LogBound, Used, Space, WriteNeed, Mine, Unique, OthersUsed, Grown, Written, Mapped, Synced, Word, Named, Contents, Covers;
      ghost var d0, a0, l0 := blocks, ip.addrs[..], logged;
      RefsInRange(sb, d0, a0, others);
      ok := CopyIn(ip, src, off, others);
      if !ok { return; }
      ghost var d, l := blocks, logged;
      GrownFacts(sb, d0, a0, d, ip.addrs[..], others);
      WrittenIsSplice(d0, Refs(d0, a0), ip.size, off, src, d, Refs(d, ip.addrs[..]));
      if |src| > 0 && off + |src| > ip.size {
        ip.size := off + |src|;
        AddrsAreWords(sb, d, ip.addrs[..], others);
        Iupdate(ip);
        CoversThen(d0, l0, d, l, blocks, logged);
        InodeWrite(sb, d, ip.addrs[..], sb.IBlock(ip.inum), blocks[sb.IBlock(ip.inum)], ip.size, others);
        SpaceSame(sb, d, blocks);
      }
    }

    /** begin_op: a new transaction has logged nothing. */
    ghost method BeginOp()
      modifies this`logged, this`peak
      ensures logged == {} && peak == 0 && Paced()
    {
      logged, peak := {}, 0;
    }

    /**
     filewrite on an inode: chunks of at most three blocks' bytes, each in a transaction of its
     own. `txs` collects the transactions: none logs more than MAXOPBLOCKS blocks, and none calls
     log_write with that many logged already, so by LogPanic no call panics in a log larger than LOGSIZE.
     */
    method FileWrite(f: File, addr: seq<byte>, ghost others: set<nat>) returns (ok: bool, r: int, ghost txs: seq<Tx>, ghost i: nat)
      requires FileValid(f.ip, others) && f.ip.typ != T_DEV && f.off < UINT && |addr| < 0x8000_0000
      modifies this, f`off, f.ip`size, f.ip.addrs
      ensures forall t :: t in txs ==> InBudget(t)
      ensures !ok ==> |blocks| == sb.size && sb.Layout() && forall x :: 0 <= x < sb.size ==> Used(sb, blocks, x)
      ensures ok <==> old(Space(sb, blocks)) >= old(FileNeed(Refs(blocks, f.ip.addrs[..]), f.ip.addrs[NDIRECT], f.off, f.ip.size, |addr|))
      ensures ok ==> i == Fits(old(f.off), old(f.ip.size), |addr|) && r == if i == |addr| then |addr| else -1
      ensures ok ==> Ended(f, addr, old(f.off), old(Data(f.ip, others)), old(blocks), i, txs, others)
    {
      hide Used, Refs, FileOk, Synced, DiskOk, Contents, InBudget, Space, FileNeed, Fits, Under, Mapped, OnDisk, Ended, FileValid, InodeOk, Ok, Data;
      FileShape(f.ip, others);
      ghost var bytes, off, d0, a0 := Data(f.ip, others), f.off, blocks, f.ip.addrs[..];
      NoneUnder(f, addr, others);
      var max := ((MAXOPBLOCKS - 1 - 1 - 2) / 2) * 512;
      var k := 0;
      i, txs, ok := 0, [], true;
      while k < |addr|
        invariant 0 <= k == i <= |addr| && ok
        invariant Under(f, addr, off, bytes, d0, a0, k, txs, others)
      {
        var n1 := |addr| - k;
        if n1 > max { n1 := max; }
        ghost var t;
        ok, r, t := ChunkRound(f, addr, off, bytes, d0, a0, k, n1, txs, others);
        if !ok { return; }
        txs := txs + [t];
        if r < 0 {
          r := -1;
          return;
        }
        k := k + r;
        i := k;
      }
      AllUnder(f, addr, off, bytes, d0, a0, txs, others);
      r := k;
    }

    /** k of the bytes of addr have been written at off, since the file was (d0, a0) with these bytes. */
    ghost predicate Under(f: File, addr: seq<byte>, off: nat, bytes: seq<byte>, d0: Disk, a0: seq<nat>, k: nat, txs: seq<Tx>, others: set<nat>)
      reads this, f, f.ip, f.ip.addrs
    {
      && FileValid(f.ip, others) && f.ip.typ != T_DEV && f.off == off + k && k <= |addr| && |bytes| <= MAXBYTES
      && (k == 0 ==> Data(f.ip, others) == bytes)
      && (k > 0 ==> off <= |bytes| && off + k <= f.ip.size && Data(f.ip, others) == Splice(bytes, off, addr[..k]))
      && (forall t :: t in txs ==> InBudget(t)) && Chunks(|txs|, k, |addr|) && ChangesLogged(d0, blocks, txs)
      && sb.Layout() && |d0| == |blocks| == sb.size && |a0| == f.ip.addrs.Length == NDIRECT + 1
      && a0[NDIRECT] < |d0| && f.ip.addrs[NDIRECT] < |blocks|
      && (off <= |bytes| ==> off + k <= MAXBYTES && Spent(sb, d0, a0, blocks, f.ip.addrs[..], off, k))
    }

    /**
     What filewrite leaves: the first k bytes spliced in at off, which advanced by as much; one transaction
     for each chunk, and one for a chunk the file could not take; and every change logged in one of them.
     */
    ghost predicate Ended(f: File, addr: seq<byte>, off: nat, bytes: seq<byte>, d0: Disk, k: nat, txs: seq<Tx>, others: set<nat>)
      reads this, f, f.ip, f.ip.addrs
    {
      && FileValid(f.ip, others) && k <= |addr| && f.off == off + k
      && (k == 0 ==> Data(f.ip, others) == bytes)
      && (k > 0 ==> off <= |bytes| && Data(f.ip, others) == Splice(bytes, off, addr[..k]))
      && |txs| == (k + 1535) / 1536 + One(k < |addr|) && ChangesLogged(d0, blocks, txs)
      && (k < |addr| ==> !Writable(f.ip, f.off, Min(|addr| - k, 1536)))
    }

    lemma FileShape(ip: Inode, others: set<nat>)
      requires FileValid(ip, others)
      ensures sb.Layout() && |blocks| == sb.size && ip.addrs.Length == NDIRECT + 1 && ip.addrs[NDIRECT] < |blocks|
      ensures ip.size <= MAXBYTES && |Data(ip, others)| == ip.size
    {
    }

    lemma NoneUnder(f: File, addr: seq<byte>, others: set<nat>)
      requires FileValid(f.ip, others) && f.ip.typ != T_DEV
      ensures Under(f, addr, f.off, Data(f.ip, others), blocks, f.ip.addrs[..], 0, [], others)
    {
      FileShape(f.ip, others);
      hide Used, Refs, FileOk, Synced, DiskOk, Contents, InBudget, Space, Mapped, OnDisk, Spent;
      ChunksStart(|addr|);
      NoChanges(blocks);
      if f.off <= f.ip.size { SpentNothing(sb, blocks, f.ip.addrs[..], f.off); }
    }

    lemma AllUnder(f: File, addr: seq<byte>, off: nat, bytes: seq<byte>, d0: Disk, a0: seq<nat>, txs: seq<Tx>, others: set<nat>)
      requires Under(f, addr, off, bytes, d0, a0, |addr|, txs, others)
      ensures |a0| == NDIRECT + 1 && sb.Layout() && |d0| == sb.size && a0[NDIRECT] < |d0| && |bytes| <= MAXBYTES
      ensures Ended(f, addr, off, bytes, d0, |addr|, txs, others) && |addr| == Fits(off, |bytes|, |addr|)
      ensures Space(sb, d0) >= FileNeed(Refs(d0, a0), a0[NDIRECT], off, |bytes|, |addr|) && forall t :: t in txs ==> InBudget(t)
    {
      hide Used, Refs, FileOk, Synced, Mapped, DiskOk, Splice, Contents, ChangesLogged, InBudget, Chunks, Spent, Space, WriteNeed, Fits;
      ChunksNext(|txs|, |addr|, |addr|);
      FitsAll(off, |bytes|, |addr|, |addr|);
      SpentEnough(sb, d0, a0, blocks, f.ip.addrs[..], off, |bytes|, |addr|, |addr|);
    }

    /** One round of filewrite's loop. */
    method ChunkRound(f: File, addr: seq<byte>, ghost off: nat, ghost bytes: seq<byte>, ghost d0: Disk, ghost a0: seq<nat>,
                      k: nat, n: nat, ghost txs: seq<Tx>, ghost others: set<nat>)
      returns (ok: bool, r: int, ghost t: Tx)
      requires Under(f, addr, off, bytes, d0, a0, k, txs, others) && off < UINT && k < |addr| && n == Min(|addr| - k, 1536)
      modifies this, f`off, f.ip`size, f.ip.addrs
      ensures !ok ==> |blocks| == sb.size && sb.Layout() && forall x :: 0 <= x < sb.size ==> Used(sb, blocks, x)
      ensures !ok ==> Space(sb, d0) < FileNeed(Refs(d0, a0), a0[NDIRECT], off, |bytes|, |addr|) && forall t :: t in txs ==> InBudget(t)
      ensures ok && r >= 0 ==> r == n && Under(f, addr, off, bytes, d0, a0, k + n, txs + [t], others)
      ensures ok && r < 0 ==> Ended(f, addr, off, bytes, d0, k, txs + [t], others) && k == Fits(off, |bytes|, |addr|)
      ensures ok && r < 0 ==> Space(sb, d0) >= FileNeed(Refs(d0, a0), a0[NDIRECT], off, |bytes|, |addr|) && forall s :: s in txs + [t] ==> InBudget(s)
    {
      hide Used, Refs, FileOk, Synced, Mapped, DiskOk, Splice, Contents, Covers, ChangesLogged, InBudget, Chunks, Spent, Space, WriteNeed, Fits;
      ghost var before, d, a := Data(f.ip, others), blocks, f.ip.addrs[..];
      assert |before| == f.ip.size;
      ok, r, t := WriteChunk(f, addr[k..k + n], others);
      ChunksNext(|txs|, k, |addr|);
      if !ok {
        SpentShort(sb, d0, a0, d, a, off, k, n);
        FitsMore(off, |bytes|, |addr|, k, n);
        NeedGrows(Refs(d0, a0), a0[NDIRECT], off, k + n, Fits(off, |bytes|, |addr|));
        return;
      }
      OneTxMore(d0, d, blocks, txs, t);
      if r < 0 {
        FitsAll(off, |bytes|, |addr|, k);
        SpentEnough(sb, d0, a0, blocks, f.ip.addrs[..], off, |bytes|, |addr|, k);
        return;
      }
      ChunkJoined(bytes, off, addr, k, n, before, Data(f.ip, others));
      FileShape(f.ip, others);
      SpentJoin(sb, d0, a0, d, a, blocks, f.ip.addrs[..], off, k, n);
    }

    /** One chunk of filewrite, begin_op to end_op. */
    method WriteChunk(f: File, src: seq<byte>, ghost others: set<nat>) returns (ok: bool, r: int, ghost t: Tx)
      requires FileValid(f.ip, others) && f.ip.typ != T_DEV && f.off < UINT && 0 < |src| <= 1536
      modifies this, f`off, f.ip`size, f.ip.addrs
      ensures !ok ==> |blocks| == sb.size && sb.Layout() && forall x :: 0 <= x < sb.size ==> Used(sb, blocks, x)
      ensures ok ==> FileValid(f.ip, others) && InBudget(t) && Covers(old(blocks), {}, blocks, t.logged)
      ensures ok <==> !old(Writable(f.ip, f.off, |src|)) ||
                      old(Space(sb, blocks)) >= old(WriteNeed(Refs(blocks, f.ip.addrs[..]), f.ip.addrs[NDIRECT], f.off, |src|))
      ensures ok && old(Writable(f.ip, f.off, |src|)) ==> Spent(sb, old(blocks), old(f.ip.addrs[..]), blocks, f.ip.addrs[..], old(f.off), |src|)
      ensures ok && !old(Writable(f.ip, f.off, |src|)) ==>
                && r == -1 && f.off == old(f.off) && f.ip.size == old(f.ip.size) && Data(f.ip, others) == old(Data(f.ip, others))
                && blocks == old(blocks) && f.ip.addrs[..] == old(f.ip.addrs[..])
      ensures ok && old(Writable(f.ip, f.off, |src|)) ==>
                && r == |src| && f.off == old(f.off) + r <= MAXBYTES && old(f.off) <= old(f.ip.size)
                && Data(f.ip, others) == Splice(old(Data(f.ip, others)), old(f.off), src)
    {
      hide Used, Refs, FileOk, Synced, Mapped, DiskOk, Splice, Contents, Named, Word, LogBound, WroteOnly, Covers, Space, WriteNeed, Spent;
      BeginOp();
      ok, r := Writei(f.ip, src, f.off, NoDriver, others);
      t := Tx(logged, peak);
      if !ok { return; }
      ChunkBound(f.off, |src|);
      if r > 0 { f.off := f.off + r; }
    }
  }

  const T_DEV: nat := 3
  const NDEV: nat := 10
  const MAXOPBLOCKS: nat := 10

  /** The unsigned comparison off + n < off. */
  predicate Wraps(off: nat, n: nat)
    requires off < UINT && n < UINT
    ensures Wraps(off, n) == (off + n >= UINT)
  {
    (off + n) % UINT < off
  }

  /** What differs between two disks was logged in between. */
  ghost predicate Covers(d0: Disk, l0: set<nat>, d: Disk, l: set<nat>) {
    l0 <= l && |d| == |d0| && forall x :: 0 <= x < |d0| && x !in l ==> d[x] == d0[x]
  }

  lemma CoversSelf(d: Disk, l: set<nat>)
    ensures Covers(d, l, d, l)
  {
  }

  lemma CoversThen(d0: Disk, l0: set<nat>, d: Disk, l: set<nat>, e: Disk, m: set<nat>)
    requires Covers(d0, l0, d, l) && Covers(d, l, e, m)
    ensures Covers(d0, l0, e, m)
  {
    forall x | 0 <= x < |d0| && x !in m ensures e[x] == d0[x] { assert x !in l && d[x] == d0[x]; }
  }

  /** A transaction that kept to its share of the log, and never called log_write with the share used up. */
  ghost predicate InBudget(t: Tx) {
    t.Paced() && |t.logged| <= MAXOPBLOCKS && t.peak < MAXOPBLOCKS
  }

  /** How many of n bytes filewrite can put at off: all, or the whole chunks below the largest size. */
  function Fits(off: nat, size: nat, n: nat): (k: nat)
    ensures k <= n
  {
    if off > size then 0 else if off + n <= MAXBYTES then n else Min((MAXBYTES - Min(off, MAXBYTES)) / 1536 * 1536, n)
  }

  /** The free blocks filewrite needs. */
  function FileNeed(r: seq<nat>, ind: nat, off: nat, size: nat, n: nat): nat
    requires |r| == MAXFILE && size <= MAXBYTES
  {
    if off > size then 0 else WriteNeed(r, ind, off, Fits(off, size, n))
  }

  lemma SpentEnough(sb: Super, d0: Disk, a0: seq<nat>, d: Disk, a: seq<nat>, off: nat, size: nat, n: nat, k: nat)
    requires sb.Layout() && |d0| == |d| == sb.size && |a0| == |a| == NDIRECT + 1 && a0[NDIRECT] < |d0| && a[NDIRECT] < |d| && size <= MAXBYTES
    requires off <= size ==> off + k <= MAXBYTES && Spent(sb, d0, a0, d, a, off, k) && k == Fits(off, size, n)
    ensures Space(sb, d0) >= FileNeed(Refs(d0, a0), a0[NDIRECT], off, size, n)
  {
    hide Refs, Space, WriteNeed, FilledIn, Fits;
  }

  lemma FitsMore(off: nat, size: nat, n: nat, k: nat, m: nat)
    requires off <= size <= MAXBYTES && k < n && k % 1536 == 0 && m == Min(n - k, 1536) && off + k + m <= MAXBYTES
    ensures k + m <= Fits(off, size, n) && off + Fits(off, size, n) <= MAXBYTES
  {
  }

  lemma FitsAll(off: nat, size: nat, n: nat, k: nat)
    requires size <= MAXBYTES && k <= n && (k < n ==> k % 1536 == 0) && (k > 0 ==> off <= size && off + k <= MAXBYTES)
    requires k < n ==> off > size || off + k + Min(n - k, 1536) > MAXBYTES
    ensures k == Fits(off, size, n)
  {
  }

  /** k of n bytes, in chunks of 1536, make so many transactions. */
  predicate Chunks(count: nat, k: nat, n: nat) {
    count == (k + 1535) / 1536 && (k < n ==> k % 1536 == 0)
  }

  lemma ChunksStart(n: nat)
    ensures Chunks(0, 0, n)
  {
  }

  lemma ChunksNext(count: nat, k: nat, n: nat)
    requires Chunks(count, k, n) && k <= n
    ensures count == (k + 1535) / 1536 && (k < n ==> k % 1536 == 0 && Chunks(count + 1, k + Min(n - k, 1536), n))
  {
  }

  /** Every block that differs was logged in one of the transactions. */
  ghost predicate ChangesLogged(d0: Disk, d: Disk, txs: seq<Tx>) {
    |d| == |d0| && forall x :: 0 <= x < |d0| && d[x] != d0[x] ==> InSome(txs, x)
  }

  predicate InSome(txs: seq<Tx>, x: nat) {
    exists k :: 0 <= k < |txs| && x in txs[k].logged
  }

  lemma NoChanges(d: Disk)
    ensures ChangesLogged(d, d, [])
  {
  }

  lemma OneTxMore(d0: Disk, d: Disk, e: Disk, txs: seq<Tx>, t: Tx)
    requires ChangesLogged(d0, d, txs) && Covers(d, {}, e, t.logged)
    ensures ChangesLogged(d0, e, txs + [t])
  {
    var all := txs + [t];
    forall x | 0 <= x < |d0| && e[x] != d0[x] ensures InSome(all, x) {
      if x in t.logged {
        assert x in all[|txs|].logged;
      } else {
        assert InSome(txs, x);
        var k :| 0 <= k < |txs| && x in txs[k].logged;
        assert x in all[k].logged;
      }
    }
  }

  /** The blocks below n are marked used. */
  ghost predicate UsedBelow(sb: Super, d: Disk, n: nat)
    requires sb.Layout() && |d| == sb.size
  {
    forall x :: 0 <= x < n && x < sb.size ==> Used(sb, d, x)
  }

  lemma NoneBelow(sb: Super, d: Disk)
    requires sb.Layout() && |d| == sb.size
    ensures UsedBelow(sb, d, 0)
  {
  }

  lemma BelowAt(sb: Super, d: Disk, n: nat)
    requires sb.Layout() && |d| == sb.size && UsedBelow(sb, d, n)
    ensures forall x :: 0 <= x < n && x < sb.size ==> Used(sb, d, x)
  {
  }

  lemma BelowNext(sb: Super, d: Disk, n: nat)
    requires sb.Layout() && |d| == sb.size && UsedBelow(sb, d, n) && n < sb.size && Used(sb, d, n)
    ensures UsedBelow(sb, d, n + 1)
  {
    hide Used;
  }

  lemma AllBelow(sb: Super, d: Disk, n: nat, m: nat)
    requires sb.Layout() && |d| == sb.size && UsedBelow(sb, d, n) && sb.size <= n
    ensures UsedBelow(sb, d, m)
  {
    hide Used;
  }

  /** The bitmap blocks with the marks of the blocks xs. */
  ghost function MapsOf(sb: Super, xs: set<nat>): set<nat> {
    set x | x in xs :: sb.BBlock(x)
  }

  lemma MapsOfNext(sb: Super, xs: set<nat>, b: nat)
    ensures MapsOf(sb, xs + {b}) == MapsOf(sb, xs) + {sb.BBlock(b)}
  {
  }

  /** The number of bitmap blocks over the data region. */
  function MapGroups(sb: Super): nat {
    if sb.datastart < sb.size then (sb.size - 1) / 4096 - sb.datastart / 4096 + 1 else 0
  }

  lemma MapsOfData(sb: Super, xs: set<nat>)
    requires forall x :: x in xs ==> sb.IsData(x)
    ensures |MapsOf(sb, xs)| <= MapGroups(sb)
  {
    var r: set<nat> := Range(sb.bmapstart + sb.datastart / 4096, MapGroups(sb));
    forall b | b in MapsOf(sb, xs) ensures b in r {
      var x :| x in xs && b == sb.BBlock(x);
    }
    SubsetSize(MapsOf(sb, xs), r);
  }

  /** n data blocks, each under another bitmap block. */
  function Spread(sb: Super, n: nat): (xs: seq<nat>)
    requires n <= MapGroups(sb)
    ensures |xs| == n && forall i :: 0 <= i < n ==> sb.IsData(xs[i]) && xs[i] / 4096 == sb.datastart / 4096 + i
  {
    seq(n, i requires 0 <= i < n => SpreadAt(sb, i))
  }

  function SpreadAt(sb: Super, i: nat): (x: nat)
    requires i < MapGroups(sb)
    ensures sb.IsData(x) && x / 4096 == sb.datastart / 4096 + i
  {
    Max((sb.datastart / 4096 + i) * 4096, sb.datastart)
  }

  /** A disk with every block marked used, and an inode whose direct slots name the blocks xs. */
  ghost function FullDisk(sb: Super): Disk {
    var full: Block := seq(512, _ => 255);
    seq(sb.size, _ => full)
  }

  function DirectSlots(xs: seq<nat>): seq<nat>
    requires |xs| <= NDIRECT
  {
    xs + seq(NDIRECT + 1 - |xs|, _ => 0)
  }

  lemma AllMarked(sb: Super, x: nat)
    requires sb.Layout() && x < sb.size
    ensures Used(sb, FullDisk(sb), x)
  {
    hide Bit;
    FullByte(x % 4096 % 8);
  }

  lemma FullByte(i: nat)
    requires i < 8
    ensures Bit(255, i)
  {
    assert Bit(255, 0) && Bit(255, 1) && Bit(255, 2) && Bit(255, 3) && Bit(255, 4) && Bit(255, 5) && Bit(255, 6) && Bit(255, 7);
  }

  /** That inode is a file. */
  lemma SpreadFile(sb: Super, n: nat)
    requires sb.Layout() && n <= MapGroups(sb) && n <= NDIRECT
    ensures DiskOk(sb, FullDisk(sb)) && FileOk(sb, FullDisk(sb), DirectSlots(Spread(sb, n)), {})
    ensures |MapsOf(sb, Named(FullDisk(sb), DirectSlots(Spread(sb, n))))| >= n
  {
    hide Used;
    var d, xs := FullDisk(sb), Spread(sb, n);
    forall x | 0 <= x < sb.size ensures Used(sb, d, x) { AllMarked(sb, x); }
    var addrs := DirectSlots(xs);
    forall k | 0 <= k < MAXFILE ensures Refs(d, addrs)[k] == if k < n then xs[k] else 0 { }
    SpreadMaps(sb, n, Named(d, addrs));
  }

  lemma SpreadMaps(sb: Super, n: nat, xs: set<nat>)
    requires n <= MapGroups(sb) && forall i :: 0 <= i < n ==> Spread(sb, n)[i] in xs
    ensures |MapsOf(sb, xs)| >= n
  {
    var r: set<nat> := Range(sb.bmapstart + sb.datastart / 4096, n);
    forall b | b in r ensures b in MapsOf(sb, xs) {
      var x := Spread(sb, n)[b - sb.bmapstart - sb.datastart / 4096];
      assert x in xs && sb.BBlock(x) == b;
    }
    SubsetSize(r, MapsOf(sb, xs));
  }

  lemma NamedData(sb: Super, d: Disk, addrs: seq<nat>, others: set<nat>)
    requires DiskOk(sb, d) && FileOk(sb, d, addrs, others)
    ensures forall x :: x in Named(d, addrs) ==> sb.IsData(x)
  {
    hide Used;
  }

  /** The blocks that truncating the file logs: the bitmap blocks of the blocks it names, and the inode's. */
  ghost function TruncLogs(sb: Super, d: Disk, addrs: seq<nat>, inum: nat): set<nat>
    requires |addrs| == NDIRECT + 1 && addrs[NDIRECT] < |d|
  {
    MapsOf(sb, Named(d, addrs)) + {sb.IBlock(inum)}
  }

  lemma TruncLogsSize(sb: Super, d: Disk, addrs: seq<nat>, inum: nat)
    requires sb.Layout() && inum < sb.ninodes && |addrs| == NDIRECT + 1 && addrs[NDIRECT] < |d|
    ensures |TruncLogs(sb, d, addrs, inum)| == |MapsOf(sb, Named(d, addrs))| + 1
  {
    hide Named;
    assert sb.IBlock(inum) !in MapsOf(sb, Named(d, addrs));
  }

  /** Truncation is within one operation's share for all files exactly where nine bitmap blocks or fewer cover the data region. */
  lemma TruncBudget(sb: Super, inum: nat)
    requires sb.Layout() && inum < sb.ninodes
    ensures MapGroups(sb) <= MAXOPBLOCKS - 1 <==>
            forall d: Disk, addrs: seq<nat>, others: set<nat> :: DiskOk(sb, d) && FileOk(sb, d, addrs, others) ==>
              |TruncLogs(sb, d, addrs, inum)| <= MAXOPBLOCKS
  {
    hide DiskOk, MapsOf, Named, TruncLogs;
    if MapGroups(sb) <= MAXOPBLOCKS - 1 {
      forall d: Disk, addrs: seq<nat>, others: set<nat> | DiskOk(sb, d) && FileOk(sb, d, addrs, others)
        ensures |TruncLogs(sb, d, addrs, inum)| <= MAXOPBLOCKS
      {
        NamedData(sb, d, addrs, others);
        MapsOfData(sb, Named(d, addrs));
        TruncLogsSize(sb, d, addrs, inum);
      }
    } else {
      var d, addrs := FullDisk(sb), DirectSlots(Spread(sb, MAXOPBLOCKS));
      SpreadFile(sb, MAXOPBLOCKS);
      TruncLogsSize(sb, d, addrs, inum);
    }
  }

  /** itrunc under way: the blocks freed so far, and their bitmap blocks logged. */
  ghost predicate Freeing(sb: Super, d0: Disk, l0: set<nat>, d: Disk, l: set<nat>, freed: set<nat>)
    requires DiskOk(sb, d0)
  {
    Freed(sb, d0, d, freed) && Covers(d0, l0, d, l) && l == l0 + MapsOf(sb, freed)
  }

  lemma NoneFreeing(sb: Super, d: Disk, l: set<nat>, r: seq<nat>)
    requires DiskOk(sb, d)
    ensures Freeing(sb, d, l, d, l, FirstRefs(r, 0))
  {
    NoneFreed(sb, d, r);
    assert MapsOf(sb, FirstRefs(r, 0)) == {};
  }

  lemma ChunkJoined(bytes: seq<byte>, off: nat, addr: seq<byte>, k: nat, n: nat, before: seq<byte>, after: seq<byte>)
    requires off <= |bytes| && k + n <= |addr|
    requires before == if k == 0 then bytes else Splice(bytes, off, addr[..k])
    requires off + k <= |before| && after == Splice(before, off + k, addr[k..k + n])
    ensures after == Splice(bytes, off, addr[..k + n])
  {
    assert addr[..k] + addr[k..k + n] == addr[..k + n];
    if k == 0 {
      assert addr[..n] == addr[0..n];
    } else {
      SpliceTwice(bytes, off, addr[..k], addr[k..k + n]);
    }
  }

  lemma DoneRefs(sb: Super, d: Disk, addrs: seq<nat>, e: Disk, after: seq<nat>, bn: nat, b: nat, data: Block, others: set<nat>)
    requires DiskOk(sb, d) && FileOk(sb, d, addrs, others) && BmapDone(sb, d, addrs, e, after, bn, b, others)
    ensures 0 < b < |e| && Refs(e[b := data], after) == Refs(d, addrs)[bn := b] && Space(sb, e[b := data]) == Space(sb, e)
  {
    hide Used, Space;
    RefsWrite(sb, e, after, bn, data, others);
    SpaceWrite(sb, e, b, data);
  }

  lemma Marked(sb: Super, d: Disk, e: Disk, f: Disk, b: nat)
    requires DiskOk(sb, d) && b < sb.size && !Used(sb, d, b)
    requires e == d[sb.BBlock(b) := SetBlockBit(d[sb.BBlock(b)], b % 4096)]
    requires f == e[b := ZeroBlock()]
    ensures DiskOk(sb, f) && Alloced(sb, d, f, b)
  {
    forall x | 0 <= x < sb.size ensures Used(sb, e, x) == (x == b || Used(sb, d, x)) {
      UsedAfterMark(sb, d, e, b, x);
    }
    DataWriteKeepsUsed(sb, e, b, ZeroBlock());
  }
}
