/**
 Runs of file operations against plain byte sequences, and all files of a disk side by side.
 */
module FsMany {
  import opened Common
  import opened FsFormat
  import opened FsSpec
  import opened FsBytes
  import opened FsSpace
  import opened FsCode

  // ----- one file, any run of operations -----

  datatype FileOp = Write(off: nat, src: seq<byte>) | Read(off: nat, n: nat)

  /** What a call returns: a count or -1, and the bytes a read delivered. */
  datatype Outcome = Outcome(r: int, bytes: seq<byte>)

  predicate UintArgs(op: FileOp) {
    match op
    case Write(off, src) => off < UINT && |src| < UINT
    case Read(off, n) => off < UINT && n < UINT
  }

  /** A file as a plain byte sequence: what an operation makes of it. */
  function PlainNext(s: seq<byte>, op: FileOp): seq<byte> {
    match op
    case Write(off, src) => if off <= |s| && off + |src| <= MAXBYTES then Splice(s, off, src) else s
    case Read(_, _) => s
  }

  function PlainOutcome(s: seq<byte>, op: FileOp): Outcome {
    match op
    case Write(off, src) => Outcome(if off <= |s| && off + |src| <= MAXBYTES then |src| else -1, [])
    case Read(off, n) =>
      if off > |s| || off + n >= UINT then Outcome(-1, [])
      else var b := s[off..if off + n > |s| then |s| else off + n]; Outcome(|b|, b)
  }

  function PlainRun(s: seq<byte>, ops: seq<FileOp>): (r: (seq<byte>, seq<Outcome>))
    ensures |r.1| == |ops|
  {
    if ops == [] then (s, [])
    else
      var (s', outs) := PlainRun(s, ops[..|ops| - 1]);
      (PlainNext(s', ops[|ops| - 1]), outs + [PlainOutcome(s', ops[|ops| - 1])])
  }

  /** The map of a file after its parts i up to j got blocks, whatever their numbers. */
  function Fill(r: seq<nat>, i: nat, j: nat): (s: seq<nat>)
    ensures |s| == |r|
  {
    seq(|r|, p requires 0 <= p < |r| => if i <= p < j && r[p] == 0 then 1 else r[p])
  }

  predicate Taken(size: nat, op: FileOp) {
    op.Write? && op.off <= size && op.off + |op.src| <= MAXBYTES
  }

  /** The free blocks the operations need in turn, on a file of this size and map. */
  function RunNeed(r: seq<nat>, ind: nat, size: nat, ops: seq<FileOp>): nat
    requires |r| == MAXFILE && size <= MAXBYTES
    decreases |ops|
  {
    if ops == [] then 0
    else if !Taken(size, ops[0]) then RunNeed(r, ind, size, ops[1..])
    else
      var off, n := ops[0].off, |ops[0].src|;
      var j := EndPart(off, n);
      WriteNeed(r, ind, off, n) + RunNeed(Fill(r, off / 512, j), if off / 512 < j && j > NDIRECT then 1 else ind, Max(size, off + n), ops[1..])
  }

  /** Only which parts have blocks matters. */
  lemma {:induction false} RunNeedSame(r: seq<nat>, ind: nat, s: seq<nat>, ind': nat, size: nat, ops: seq<FileOp>)
    requires |r| == |s| == MAXFILE && size <= MAXBYTES && (ind == 0 <==> ind' == 0)
    requires forall p :: 0 <= p < MAXFILE ==> (r[p] == 0 <==> s[p] == 0)
    ensures RunNeed(r, ind, size, ops) == RunNeed(s, ind', size, ops)
    decreases |ops|
  {
    if ops != [] {
      if Taken(size, ops[0]) {
        var off, n := ops[0].off, |ops[0].src|;
        var j := EndPart(off, n);
        HolesKept(r, s, off / 512, j);
        var i, i' := if off / 512 < j && j > NDIRECT then 1 else ind, if off / 512 < j && j > NDIRECT then 1 else ind';
        RunNeedSame(Fill(r, off / 512, j), i, Fill(s, off / 512, j), i', Max(size, off + n), ops[1..]);
      } else {
        RunNeedSame(r, ind, s, ind', size, ops[1..]);
      }
    }
  }

  lemma RunNeedWrite(r: seq<nat>, ind: nat, s: seq<nat>, ind': nat, size: nat, ops: seq<FileOp>)
    requires |r| == MAXFILE && size <= MAXBYTES && ops != [] && Taken(size, ops[0])
    requires FilledIn(r, ind, s, ind', ops[0].off / 512, EndPart(ops[0].off, |ops[0].src|))
    ensures RunNeed(r, ind, size, ops) ==
            WriteNeed(r, ind, ops[0].off, |ops[0].src|) + RunNeed(s, ind', Max(size, ops[0].off + |ops[0].src|), ops[1..])
  {
    var off, n := ops[0].off, |ops[0].src|;
    var j := EndPart(off, n);
    hide WriteNeed, EndPart;
    RunNeedSame(Fill(r, off / 512, j), if off / 512 < j && j > NDIRECT then 1 else ind, s, ind', Max(size, off + n), ops[1..]);
  }

  /** A file at a point of a run: its disk, slots and size. */
  datatype Point = Point(d: Disk, a: seq<nat>, size: nat) {
    ghost predicate Ok(sb: Super) {
      sb.Layout() && |d| == sb.size && |a| == NDIRECT + 1 && a[NDIRECT] < |d| && size <= MAXBYTES
    }

    ghost function Lacks(sb: Super, ops: seq<FileOp>): nat
      requires Ok(sb)
    {
      RunNeed(Refs(d, a), a[NDIRECT], size, ops)
    }
  }

  /** The blocks that the operations `left` need at q and those that are free differ as for all of them at p. */
  ghost predicate Level(sb: Super, p: Point, ops: seq<FileOp>, q: Point, left: seq<FileOp>) {
    p.Ok(sb) && q.Ok(sb) && Space(sb, q.d) + p.Lacks(sb, ops) == Space(sb, p.d) + q.Lacks(sb, left)
  }

  lemma LevelWrite(sb: Super, p: Point, ops: seq<FileOp>, q: Point, left: seq<FileOp>, q': Point)
    requires Level(sb, p, ops, q, left) && q'.Ok(sb) && left != [] && Taken(q.size, left[0])
    requires Spent(sb, q.d, q.a, q'.d, q'.a, left[0].off, |left[0].src|) && q'.size == Max(q.size, left[0].off + |left[0].src|)
    ensures Level(sb, p, ops, q', left[1..])
  {
    hide Refs, Space, RunNeed, WriteNeed, FilledIn;
    RunNeedWrite(Refs(q.d, q.a), q.a[NDIRECT], Refs(q'.d, q'.a), q'.a[NDIRECT], q.size, left);
  }

  lemma LevelSkip(sb: Super, p: Point, ops: seq<FileOp>, q: Point, left: seq<FileOp>)
    requires Level(sb, p, ops, q, left) && left != [] && !Taken(q.size, left[0])
    ensures Level(sb, p, ops, q, left[1..])
  {
    hide Refs, Space;
  }

  lemma LevelShort(sb: Super, p: Point, ops: seq<FileOp>, q: Point, left: seq<FileOp>)
    requires Level(sb, p, ops, q, left) && left != [] && Taken(q.size, left[0])
    requires Space(sb, q.d) < WriteNeed(Refs(q.d, q.a), q.a[NDIRECT], left[0].off, |left[0].src|)
    ensures Space(sb, p.d) < p.Lacks(sb, ops)
  {
    hide Refs, Space, WriteNeed;
  }

  /**
   Any sequence of writei and readi calls behaves as writes and reads on a plain byte sequence,
   across direct and indirect blocks, exactly when the disk has the blocks they lack.
   */
  method Replay(fs: FileSystem, ip: Inode, ops: seq<FileOp>, ghost others: set<nat>) returns (ok: bool, outs: seq<Outcome>)
    requires fs.FileValid(ip, others) && ip.typ != T_DEV
    requires forall k :: 0 <= k < |ops| ==> UintArgs(ops[k])
    modifies fs, ip`size, ip.addrs
    ensures ok <==> old(Space(fs.sb, fs.blocks)) >= old(RunNeed(Refs(fs.blocks, ip.addrs[..]), ip.addrs[NDIRECT], ip.size, ops))
    ensures ok ==> fs.FileValid(ip, others)
    ensures !ok ==> |fs.blocks| == fs.sb.size && fs.sb.Layout() && forall x :: 0 <= x < fs.sb.size ==> Used(fs.sb, fs.blocks, x)
    ensures ok ==> (fs.Data(ip, others), outs) == PlainRun(old(fs.Data(ip, others)), ops)
  {
    hide Used, Refs, FileOk, Synced, Mapped, DiskOk, Contents, Named, Word, LogBound, Space, RunNeed, FileSystem.FileValid, FileSystem.Data, PlainRun;
    ghost var bytes, p := fs.Data(ip, others), Point(fs.blocks, ip.addrs[..], ip.size);
    fs.FileShape(ip, others);
    ok, outs := true, [];
    PlainNone(bytes);
    assert ops[..0] == [] && ops[0..] == ops;
    assert Level(fs.sb, p, ops, p, ops);
    hide Level;
    var k := 0;
    while k < |ops|
      invariant 0 <= k <= |ops| && ok
      invariant fs.FileValid(ip, others) && ip.typ != T_DEV
      invariant (fs.Data(ip, others), outs) == PlainRun(bytes, ops[..k])
      invariant Level(fs.sb, p, ops, Point(fs.blocks, ip.addrs[..], ip.size), ops[k..])
    {
      var o;
      ok, o := Step(fs, ip, ops, k, bytes, p, outs, others);
      if !ok { return; }
      outs := outs + [o];
      k := k + 1;
    }
    assert ops[..k] == ops && ops[k..] == [];
    LevelEnd(fs.sb, p, ops, Point(fs.blocks, ip.addrs[..], ip.size));
  }

  lemma PlainNone(s: seq<byte>)
    ensures PlainRun(s, []) == (s, [])
  {
  }

  lemma PlainStep(s: seq<byte>, ops: seq<FileOp>, k: nat, now: seq<byte>, outs: seq<Outcome>)
    requires k < |ops| && (now, outs) == PlainRun(s, ops[..k])
    ensures PlainRun(s, ops[..k + 1]) == (PlainNext(now, ops[k]), outs + [PlainOutcome(now, ops[k])])
  {
    assert ops[..k + 1][..k] == ops[..k];
  }

  lemma LevelEnd(sb: Super, p: Point, ops: seq<FileOp>, q: Point)
    requires Level(sb, p, ops, q, [])
    ensures p.Ok(sb) && Space(sb, p.d) >= p.Lacks(sb, ops)
  {
    hide Refs, Space;
  }

  /** One operation of a run. */
  method Step(fs: FileSystem, ip: Inode, ops: seq<FileOp>, k: nat, ghost bytes: seq<byte>, ghost p: Point, ghost outs: seq<Outcome>, ghost others: set<nat>)
    returns (ok: bool, o: Outcome)
    requires fs.FileValid(ip, others) && ip.typ != T_DEV && k < |ops| && UintArgs(ops[k])
    requires (fs.Data(ip, others), outs) == PlainRun(bytes, ops[..k])
    requires Level(fs.sb, p, ops, Point(fs.blocks, ip.addrs[..], ip.size), ops[k..])
    modifies fs, ip`size, ip.addrs
    ensures !ok ==> |fs.blocks| == fs.sb.size && fs.sb.Layout() && forall x :: 0 <= x < fs.sb.size ==> Used(fs.sb, fs.blocks, x)
    ensures !ok ==> p.Ok(fs.sb) && Space(fs.sb, p.d) < p.Lacks(fs.sb, ops)
    ensures ok ==> fs.FileValid(ip, others) && ip.typ != T_DEV && (fs.Data(ip, others), outs + [o]) == PlainRun(bytes, ops[..k + 1])
    ensures ok ==> Level(fs.sb, p, ops, Point(fs.blocks, ip.addrs[..], ip.size), ops[k + 1..])
  {
    hide Used, Refs, FileOk, Synced, Mapped, DiskOk, Contents, Named, Word, LogBound, Space, FileSystem.FileValid,
      PlainRun, WriteNeed, Spent, Splice, Covers, WroteOnly, RunNeed, FileSystem.Paced;
    ghost var left, q := ops[k..], Point(fs.blocks, ip.addrs[..], ip.size);
    assert left[0] == ops[k] && left[1..] == ops[k + 1..];
    fs.FileShape(ip, others);
    PlainStep(bytes, ops, k, fs.Data(ip, others), outs);
    match ops[k] {
      case Write(off, src) =>
        var r;
        ok, r := fs.Writei(ip, src, off, NoDriver, others);
        o := Outcome(r, []);
        if !ok {
          LevelShort(fs.sb, p, ops, q, left);
          return;
        }
        fs.FileShape(ip, others);
        if Taken(q.size, left[0]) {
          LevelWrite(fs.sb, p, ops, q, left, Point(fs.blocks, ip.addrs[..], ip.size));
        } else {
          LevelSkip(fs.sb, p, ops, q, left);
        }
      case Read(off, n) =>
        var r, dst := fs.Readi(ip, off, n, NoDriver, others);
        ok, o := true, Outcome(r, if r >= 0 then dst else []);
        LevelSkip(fs.sb, p, ops, q, left);
    }
  }

  /** A new inode, with no blocks, is a file at rest. */
  lemma EmptyFile(sb: Super, d: Disk, others: set<nat>)
    requires DiskOk(sb, d) && OthersUsed(sb, d, others)
    ensures var zero := seq(NDIRECT + 1, _ => 0);
            FileOk(sb, d, zero, others) && Mapped(Refs(d, zero), 0) && Named(d, zero) == {}
  {
  }

  // ----- all files -----

  /** The blocks named by the files of the table other than i. */
  ghost function OthersOf(d: Disk, table: map<nat, Dinode>, i: nat): (s: set<nat>)
    requires forall j :: j in table ==> |table[j].addrs| == NDIRECT + 1 && table[j].addrs[NDIRECT] < |d|
  {
    set j, x | j in table && j != i && x in Named(d, table[j].addrs) :: x
  }

  ghost predicate Shaped(d: Disk, table: map<nat, Dinode>) {
    forall j :: j in table ==> |table[j].addrs| == NDIRECT + 1 && table[j].addrs[NDIRECT] < |d|
  }

  /** Every inode of the table is on disk, and no block is named by two of them or twice by one. */
  ghost predicate AllFiles(sb: Super, d: Disk, table: map<nat, Dinode>) {
    && DiskOk(sb, d) && Shaped(d, table)
    && forall i :: i in table ==>
         && i < sb.ninodes
         && FileOk(sb, d, table[i].addrs, OthersOf(d, table, i))
         && Mapped(Refs(d, table[i].addrs), table[i].size)
         && Synced(d[sb.IBlock(i)], i, table[i])
  }

  /** A file none of whose blocks changed is the same file. */
  lemma SameBlocksSameFile(sb: Super, d0: Disk, d: Disk, v: Dinode, others0: set<nat>, others: set<nat>)
    requires DiskOk(sb, d0) && FileOk(sb, d0, v.addrs, others0) && Mapped(Refs(d0, v.addrs), v.size)
    requires DiskOk(sb, d) && OthersUsed(sb, d, others)
    requires forall x :: x in Named(d0, v.addrs) ==> x < sb.size && d[x] == d0[x] && Used(sb, d, x) && x !in others
    ensures FileOk(sb, d, v.addrs, others) && Refs(d, v.addrs) == Refs(d0, v.addrs)
    ensures Named(d, v.addrs) == Named(d0, v.addrs)
    ensures InRange(d0, Refs(d0, v.addrs)) && InRange(d, Refs(d, v.addrs))
    ensures Contents(d, Refs(d, v.addrs), v.size) == Contents(d0, Refs(d0, v.addrs), v.size)
  {
    var r := Refs(d0, v.addrs);
    FileBlocks(sb, d0, v.addrs, others0);
    assert Refs(d, v.addrs) == r by {
      if v.addrs[NDIRECT] != 0 { assert v.addrs[NDIRECT] in Named(d0, v.addrs); }
    }
    forall k | 0 <= k < MAXFILE && r[k] != 0 ensures r[k] in Named(d0, v.addrs) && Mine(sb, d, r[k], others) {
    }
    RefsInRange(sb, d0, v.addrs, others0);
    forall i | 0 <= i < v.size ensures ByteAt(d, r, i) == ByteAt(d0, r, i) {
      assert i / 512 * 512 < v.size;
      assert r[i / 512] in Named(d0, v.addrs);
    }
  }

  lemma OtherInodeKept(sb: Super, d0: Disk, d: Disk, inum: nat, v: Dinode, others: set<nat>, j: nat, w: Dinode)
    requires DiskOk(sb, d0) && OneFile(sb, d0, d, inum, v, others)
    requires j < sb.ninodes && j != inum && Synced(d0[sb.IBlock(j)], j, w)
    ensures Synced(d[sb.IBlock(j)], j, w)
  {
    hide Word, Used, FileOk;
    if sb.IBlock(j) == sb.IBlock(inum) {
      assert j / IPB == inum / IPB && j % IPB != inum % IPB;
      forall k | 0 <= k < DINODE_WORDS ensures Word(d[sb.IBlock(j)], DinodeBase(j) + k) == w.Words()[k] {
        assert !(DinodeBase(inum) <= DinodeBase(j) + k < DinodeBase(inum) + DINODE_WORDS);
      }
    }
  }

  lemma NamedIsMine(sb: Super, d: Disk, addrs: seq<nat>, others: set<nat>, x: nat)
    requires DiskOk(sb, d) && FileOk(sb, d, addrs, others) && x in Named(d, addrs)
    ensures Mine(sb, d, x, others)
  {
    hide Used;
  }

  lemma OtherNotNamed(sb: Super, d: Disk, addrs: seq<nat>, others: set<nat>, x: nat)
    requires DiskOk(sb, d) && FileOk(sb, d, addrs, others) && x in others
    ensures x !in Named(d, addrs)
  {
    hide Used;
  }

  ghost predicate Wrote(sb: Super, d0: Disk, table: map<nat, Dinode>, inum: nat, d: Disk, v: Dinode) {
    && AllFiles(sb, d0, table) && inum in table
    && OneFile(sb, d0, d, inum, v, OthersOf(d0, table, inum))
  }

  /** A block of another file is untouched, still used, and not taken by the written file. */
  lemma OtherBlockKept(sb: Super, d0: Disk, table: map<nat, Dinode>, inum: nat, d: Disk, v: Dinode, j: nat, x: nat)
    requires Wrote(sb, d0, table, inum, d, v) && j in table && j != inum && x in Named(d0, table[j].addrs)
    ensures x < sb.size && d[x] == d0[x] && Used(sb, d, x) && x !in Named(d, v.addrs)
  {
    hide Used, Word, Refs, Named, Synced;
    NamedIsMine(sb, d0, table[j].addrs, OthersOf(d0, table, j), x);
    assert x in OthersOf(d0, table, inum) && OthersUsed(sb, d, OthersOf(d0, table, inum));
    if x in Named(d, v.addrs) {
      NamedIsMine(sb, d, v.addrs, OthersOf(d0, table, inum), x);
    }
  }

  lemma OtherNamed(sb: Super, d0: Disk, table: map<nat, Dinode>, inum: nat, d: Disk, v: Dinode, j: nat)
    requires Wrote(sb, d0, table, inum, d, v) && j in table && j != inum
    ensures Named(d, table[j].addrs) == Named(d0, table[j].addrs)
  {
    hide Used, Word, Synced;
    var a := table[j].addrs;
    if a[NDIRECT] != 0 {
      OtherBlockKept(sb, d0, table, inum, d, v, j, a[NDIRECT]);
    }
    assert Refs(d, a) == Refs(d0, a);
  }

  /** The other files, seen from file j, still own used blocks, and none of j's. */
  lemma OthersOfKept(sb: Super, d0: Disk, table: map<nat, Dinode>, inum: nat, d: Disk, v: Dinode, j: nat, x: nat)
    requires Wrote(sb, d0, table, inum, d, v) && j in table && j != inum && Shaped(d, table[inum := v])
    requires x in OthersOf(d, table[inum := v], j)
    ensures sb.IsData(x) && Used(sb, d, x) && x !in Named(d0, table[j].addrs)
  {
    hide Used, Word, Refs, Named, Synced;
    var table' := table[inum := v];
    var k :| k in table' && k != j && x in Named(d, table'[k].addrs);
    if k == inum {
      NamedIsMine(sb, d, v.addrs, OthersOf(d0, table, inum), x);
      if x in Named(d0, table[j].addrs) { OtherBlockKept(sb, d0, table, inum, d, v, j, x); }
    } else {
      OtherNamed(sb, d0, table, inum, d, v, k);
      NamedIsMine(sb, d0, table[k].addrs, OthersOf(d0, table, k), x);
      OtherBlockKept(sb, d0, table, inum, d, v, k, x);
      assert x in OthersOf(d0, table, j);
      OtherNotNamed(sb, d0, table[j].addrs, OthersOf(d0, table, j), x);
    }
  }

  ghost predicate SameFile(d0: Disk, d: Disk, v: Dinode)
    requires |v.addrs| == NDIRECT + 1 && v.addrs[NDIRECT] < |d0| && v.addrs[NDIRECT] < |d|
  {
    && v.size <= MAXBYTES && InRange(d0, Refs(d0, v.addrs)) && InRange(d, Refs(d, v.addrs))
    && Contents(d, Refs(d, v.addrs), v.size) == Contents(d0, Refs(d0, v.addrs), v.size)
  }

  lemma OtherFileKept(sb: Super, d0: Disk, table: map<nat, Dinode>, inum: nat, d: Disk, v: Dinode, j: nat)
    requires Wrote(sb, d0, table, inum, d, v) && j in table && j != inum && Shaped(d, table[inum := v])
    ensures FileOk(sb, d, table[j].addrs, OthersOf(d, table[inum := v], j))
    ensures Mapped(Refs(d, table[j].addrs), table[j].size) && Synced(d[sb.IBlock(j)], j, table[j])
    ensures SameFile(d0, d, table[j])
  {
    hide Used, Word, Refs, Named, Synced, Contents;
    var others := OthersOf(d, table[inum := v], j);
    forall x | x in Named(d0, table[j].addrs) ensures x < sb.size && d[x] == d0[x] && Used(sb, d, x) && x !in others {
      OtherBlockKept(sb, d0, table, inum, d, v, j, x);
      if x in others { OthersOfKept(sb, d0, table, inum, d, v, j, x); }
    }
    forall x | x in others ensures sb.IsData(x) && Used(sb, d, x) {
      OthersOfKept(sb, d0, table, inum, d, v, j, x);
    }
    SameBlocksSameFile(sb, d0, d, table[j], OthersOf(d0, table, j), others);
    OtherInodeKept(sb, d0, d, inum, v, OthersOf(d0, table, inum), j, table[j]);
  }

  /**
   A change of one file, by writei or itrunc, keeps the whole disk in order: every block stays named
   exactly once and marked used, and every other file keeps its inode, its blocks and its bytes.
   */
  lemma WriteKeepsAllFiles(sb: Super, d0: Disk, table: map<nat, Dinode>, inum: nat, d: Disk, v: Dinode)
    requires AllFiles(sb, d0, table) && inum in table
    requires OneFile(sb, d0, d, inum, v, OthersOf(d0, table, inum))
    ensures AllFiles(sb, d, table[inum := v])
    ensures forall j :: j in table && j != inum ==> SameFile(d0, d, table[j])
  {
    var table' := table[inum := v];
    assert Shaped(d, table') by { hide Used, Word, Refs, Named, Synced; }
    hide Used, Word, Refs, Named, Synced, SameFile, Contents;
    forall j | j in table && j != inum
      ensures FileOk(sb, d, table[j].addrs, OthersOf(d, table', j))
      ensures Mapped(Refs(d, table[j].addrs), table[j].size) && Synced(d[sb.IBlock(j)], j, table[j])
      ensures SameFile(d0, d, table[j])
      ensures Named(d, table[j].addrs) == Named(d0, table[j].addrs)
    {
      OtherNamed(sb, d0, table, inum, d, v, j);
      OtherFileKept(sb, d0, table, inum, d, v, j);
    }
    SameOthers(d0, table, inum, d, v);
  }

  lemma SameOthers(d0: Disk, table: map<nat, Dinode>, inum: nat, d: Disk, v: Dinode)
    requires |d| == |d0| && Shaped(d0, table) && Shaped(d, table[inum := v])
    requires forall j :: j in table && j != inum ==> Named(d, table[j].addrs) == Named(d0, table[j].addrs)
    ensures OthersOf(d, table[inum := v], inum) == OthersOf(d0, table, inum)
  {
    hide Named;
    var table' := table[inum := v];
    forall x ensures x in OthersOf(d, table', inum) <==> x in OthersOf(d0, table, inum) {
      if x in OthersOf(d, table', inum) {
        var j :| j in table' && j != inum && x in Named(d, table'[j].addrs);
        assert x in Named(d0, table[j].addrs);
      }
      if x in OthersOf(d0, table, inum) {
        var j :| j in table && j != inum && x in Named(d0, table[j].addrs);
        assert x in Named(d, table'[j].addrs);
      }
    }
  }
}
