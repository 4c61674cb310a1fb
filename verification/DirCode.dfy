/** Directories as the bytes of a file: dirlookup and dirlink of fs.c over readi and writei. */
module DirCode {
  import opened Common
  import opened FsFormat
  import opened FsSpec
  import opened FsBytes
  import opened FsSpace
  import opened FsCode
  import opened Names

  const T_DIR := 1

  /** An entry the disk can hold. */
  ghost predicate Storable(e: Dirent) {
    e.inum < 0x1_0000 && |e.name| == 14 && forall i :: 0 <= i < 14 ==> e.name[i] as int < 256
  }

  /** struct dirent: a two-byte inode number and a name field of DIRSIZ characters. */
  function DirentBytes(e: Dirent): (r: seq<byte>)
    requires Storable(e)
    ensures |r| == 16 && LittleEndian(r[0], r[1], 0, 0) == e.inum && forall i :: 0 <= i < 14 ==> r[2 + i] == e.name[i] as int
  {
    [e.inum % 256, e.inum / 256] + seq(14, i requires 0 <= i < 14 => e.name[i] as byte)
  }

  function DirentAt(data: seq<byte>, off: nat): Dirent
    requires off + 16 <= |data|
  {
    var low: int, high: int := data[off], data[off + 1];
    Dirent(low + 256 * high, seq(14, i requires 0 <= i < 14 => data[off + 2 + i] as char))
  }

  /** The directory a file's bytes are. */
  function Entries(data: seq<byte>): (es: seq<Dirent>)
    ensures |es| == |data| / 16
  {
    seq(|data| / 16, k requires 0 <= k < |data| / 16 => DirentAt(data, 16 * k))
  }

  lemma DirentRoundTrip(e: Dirent)
    requires Storable(e)
    ensures DirentAt(DirentBytes(e), 0) == e
  {
    var r := DirentAt(DirentBytes(e), 0);
    forall i | 0 <= i < 14 ensures r.name[i] == e.name[i] {
      assert DirentBytes(e)[2 + i] == e.name[i] as int;
    }
  }

  /** An entry is what the sixteen bytes at its place say. */
  lemma DirentSlice(data: seq<byte>, off: nat)
    requires off + 16 <= |data|
    ensures DirentAt(data[off..off + 16], 0) == DirentAt(data, off)
  {
    var s := data[off..off + 16];
    var a, b := DirentAt(s, 0), DirentAt(data, off);
    forall i | 0 <= i < 14 ensures a.name[i] == b.name[i] {
      assert s[2 + i] == data[off + 2 + i];
    }
  }

  /** Of a splice, the new bytes and any that lie to one side. */
  lemma SpliceSlice(data: seq<byte>, off: nat, src: seq<byte>, at: nat)
    requires off <= |data| && at + |src| <= |Splice(data, off, src)|
    ensures at == off ==> Splice(data, off, src)[at..at + |src|] == src
    ensures at + |src| <= off || off + |src| <= at ==>
              at + |src| <= |data| && Splice(data, off, src)[at..at + |src|] == data[at..at + |src|]
  {
  }

  /** Writing an entry's bytes at slot k replaces that entry, or appends it, and no other. */
  lemma SpliceEntry(data: seq<byte>, k: nat, e: Dirent)
    requires |data| % 16 == 0 && 16 * k <= |data|
    requires Storable(e)
    ensures Entries(Splice(data, 16 * k, DirentBytes(e))) == Placed(Entries(data), k, e)
  {
    var now, src := Splice(data, 16 * k, DirentBytes(e)), DirentBytes(e);
    hide DirentBytes, DirentAt, Splice, Storable;
    assert |now| == if k < |data| / 16 then |data| else |data| + 16;
    forall j | 0 <= j < |now| / 16
      ensures Entries(now)[j] == Placed(Entries(data), k, e)[j]
    {
      DirentSlice(now, 16 * j);
      SpliceSlice(data, 16 * k, src, 16 * j);
      if j == k {
        assert src == src[0..16];
        DirentRoundTrip(e);
      } else {
        DirentSlice(data, 16 * j);
      }
    }
  }

  lemma NewStorable(name: string, inum: nat)
    requires NameOk(name) && inum < 0x1_0000
    ensures Storable(Dirent(inum, Field(name)))
  {
    assert forall i :: 0 <= i < |Cut(name)| ==> Cut(name)[i] in name;
  }

  lemma EntryAt(data: seq<byte>, k: nat)
    requires 16 * k + 16 <= |data|
    ensures Entries(data)[k] == DirentAt(data, 16 * k)
  {
  }

  /** One entry, read by readi; none where the file ends within it. */
  method ReadEntry(fs: FileSystem, dp: Inode, off: nat, ghost others: set<nat>) returns (ok: bool, e: Dirent)
    requires fs.FileValid(dp, others) && dp.typ == T_DIR && off < dp.size
    modifies fs, dp.addrs
    ensures fs.blocks == old(fs.blocks) && fs.logged == old(fs.logged) && dp.addrs[..] == old(dp.addrs[..])
    ensures fs.FileValid(dp, others) && fs.Data(dp, others) == old(fs.Data(dp, others))
    ensures ok <==> off + 16 <= dp.size
    ensures ok ==> |fs.Data(dp, others)| == dp.size && e == DirentAt(fs.Data(dp, others), off)
  {
    hide Used, Refs, FileOk, Synced, DiskOk, Contents;
    var r, dst := fs.Readi(dp, off, 16, NoDriver, others);
    if r != 16 { return false, Dirent(0, ""); }
    DirentSlice(fs.Data(dp, others), off);
    return true, DirentAt(dst, 0);
  }

  /**
   dirlookup: what the directory's entries say of the name, and where. It panics on a file that is
   not a directory, and on one that ends within an entry unless the name comes before that.
   */
  method Dirlookup(fs: FileSystem, dp: Inode, name: string, ghost others: set<nat>) returns (ok: bool, r: Option, off: nat)
    requires fs.FileValid(dp, others)
    modifies fs, dp.addrs
    ensures fs.blocks == old(fs.blocks) && fs.logged == old(fs.logged) && dp.addrs[..] == old(dp.addrs[..])
    ensures fs.FileValid(dp, others) && fs.Data(dp, others) == old(fs.Data(dp, others))
    ensures ok <==> dp.typ == T_DIR && (dp.size % 16 == 0 || Lookup(Entries(fs.Data(dp, others)), name).Some?)
    ensures ok ==> r == Lookup(Entries(fs.Data(dp, others)), name)
    ensures ok && r.Some? ==> off + 16 <= dp.size == |fs.Data(dp, others)| && off % 16 == 0
    ensures ok && r.Some? ==> Hit(DirentAt(fs.Data(dp, others), off), name) && DirentAt(fs.Data(dp, others), off).inum == r.value
  {
    hide Used, Refs, FileOk, Synced, DiskOk, Contents, Lookup, SameName, Entries, DirentAt;
    if dp.typ != T_DIR { return false, None, 0; }
    ghost var es := Entries(fs.Data(dp, others));
    off := 0;
    ghost var k := 0;
    while off < dp.size
      invariant off == 16 * k && k <= |es|
      invariant fs.blocks == old(fs.blocks) && fs.logged == old(fs.logged) && dp.addrs[..] == old(dp.addrs[..])
      invariant fs.FileValid(dp, others) && fs.Data(dp, others) == old(fs.Data(dp, others))
      invariant |es| == dp.size / 16 && forall j :: 0 <= j < k ==> !Hit(es[j], name)
    {
      var whole, e := ReadEntry(fs, dp, off, others);
      LookupAt(es, name, k);
      if !whole { return false, None, 0; }
      EntryAt(fs.Data(dp, others), k);
      if e.inum != 0 {
        var equal := NameCmp(name, e.name);
        if equal { return true, Some(e.inum), off; }
      }
      off, k := off + 16, k + 1;
    }
    LookupAt(es, name, k);
    return true, None, 0;
  }

  /** dirlink's search for the first slot it can use. */
  method FreeSlot(fs: FileSystem, dp: Inode, ghost others: set<nat>) returns (off: nat)
    requires fs.FileValid(dp, others) && dp.typ == T_DIR && dp.size % 16 == 0
    modifies fs, dp.addrs
    ensures fs.blocks == old(fs.blocks) && fs.logged == old(fs.logged) && dp.addrs[..] == old(dp.addrs[..])
    ensures fs.FileValid(dp, others) && fs.Data(dp, others) == old(fs.Data(dp, others))
    ensures off % 16 == 0 && off <= dp.size && FirstEmpty(Entries(fs.Data(dp, others)), off / 16)
  {
    hide Used, Refs, FileOk, Synced, DiskOk, Contents, Entries, DirentAt;
    ghost var es := Entries(fs.Data(dp, others));
    off := 0;
    ghost var k := 0;
    while off < dp.size
      invariant off == 16 * k && k <= |es|
      invariant fs.blocks == old(fs.blocks) && fs.logged == old(fs.logged) && dp.addrs[..] == old(dp.addrs[..])
      invariant fs.FileValid(dp, others) && fs.Data(dp, others) == old(fs.Data(dp, others))
      invariant |es| == dp.size / 16 && forall j :: 0 <= j < k ==> es[j].inum != 0
    {
      var _, e := ReadEntry(fs, dp, off, others);
      EntryAt(fs.Data(dp, others), k);
      if e.inum == 0 { return; }
      off, k := off + 16, k + 1;
    }
  }

  datatype LinkEnd = Linked | Exists | Panicked

  /** What dirlink makes of a directory: the name stands for the inode, every other name for what it did, and none is there twice. */
  ghost predicate Added(was: seq<Dirent>, now: seq<Dirent>, name: string, inum: nat) {
    && (exists k :: FirstEmpty(was, k) && now == Placed(was, k, Dirent(inum, Field(name))))
    && DirOk(now)
    && forall n :: NameOk(n) ==> Lookup(now, n) == if inum != 0 && Cut(n) == Cut(name) then Some(inum) else Lookup(was, n)
  }

  lemma LookupNone(es: seq<Dirent>, name: string, i: nat)
    requires Lookup(es, name).None? && i < |es|
    ensures !Hit(es[i], name)
  {
    if i > 0 { LookupNone(es[1..], name, i - 1); }
  }

  lemma AddedEntry(es: seq<Dirent>, k: nat, name: string, inum: nat)
    requires FirstEmpty(es, k) && DirOk(es) && NameOk(name) && Lookup(es, name).None?
    ensures Added(es, Placed(es, k, Dirent(inum, Field(name))), name, inum)
  {
    hide Hit, Lookup, DirOk, Field, Cut, NameOk, SameName;
    forall i | 0 <= i < |es| ensures !Hit(es[i], name) { LookupNone(es, name, i); }
    Names.Linked(es, Placed(es, k, Dirent(inum, Field(name))), k, name, inum);
  }

  lemma AddedBytes(data: seq<byte>, off: nat, name: string, inum: nat)
    requires |data| % 16 == 0 && off % 16 == 0 && off <= |data| && FirstEmpty(Entries(data), off / 16)
    requires DirOk(Entries(data)) && NameOk(name) && inum < 0x1_0000 && Lookup(Entries(data), name).None?
    ensures Storable(Dirent(inum, Field(name)))
    ensures Added(Entries(data), Entries(Splice(data, off, DirentBytes(Dirent(inum, Field(name))))), name, inum)
  {
    hide Added, Entries, Storable, Splice, DirentBytes, DirentAt, Hit, Lookup, DirOk, Field, Cut, NameOk, SameName, Placed;
    NewStorable(name, inum);
    SpliceEntry(data, off / 16, Dirent(inum, Field(name)));
    AddedEntry(Entries(data), off / 16, name, inum);
  }

  predicate AllTaken(es: seq<Dirent>) {
    forall i :: 0 <= i < |es| ==> es[i].inum != 0
  }

  /** Every slot is taken, and the directory cannot grow: it has the largest size, or the disk lacks the blocks. */
  ghost predicate Stuck(sb: Super, d: Disk, addrs: seq<nat>, data: seq<byte>)
    requires sb.Layout() && |d| == sb.size && |addrs| == NDIRECT + 1 && addrs[NDIRECT] < |d|
  {
    && AllTaken(Entries(data))
    && (|data| + 16 > MAXBYTES || Space(sb, d) < WriteNeed(Refs(d, addrs), addrs[NDIRECT], |data|, 16))
  }

  lemma SlotRoom(sb: Super, d: Disk, addrs: seq<nat>, data: seq<byte>, off: nat)
    requires sb.Layout() && |d| == sb.size && |addrs| == NDIRECT + 1 && addrs[NDIRECT] < |d| && Mapped(Refs(d, addrs), |data|)
    requires |data| % 16 == 0 && off % 16 == 0 && off <= |data| && FirstEmpty(Entries(data), off / 16)
    ensures Stuck(sb, d, addrs, data) <==>
            off + 16 > MAXBYTES || Space(sb, d) < WriteNeed(Refs(d, addrs), addrs[NDIRECT], off, 16)
  {
    hide Entries, Space, WriteNeed, Refs;
    if off < |data| {
      assert Entries(data)[off / 16].inum == 0;
      NothingNeeded(d, addrs, |data|, off, 16);
    }
  }

  /**
   dirlink. The inode number is cut to the entry's two bytes, so a multiple of 0x10000 leaves the slot
   empty. A name that is there is refused. It panics where dirlookup does, and when there is no slot
   and no room for another.
   */
  method Dirlink(fs: FileSystem, dp: Inode, name: string, inum: nat, ghost others: set<nat>) returns (r: LinkEnd)
    requires fs.FileValid(dp, others) && NameOk(name) && DirOk(Entries(fs.Data(dp, others)))
    modifies fs, dp`size, dp.addrs
    ensures r == Exists <==> dp.typ == T_DIR && Lookup(old(Entries(fs.Data(dp, others))), name).Some?
    ensures r == Exists ==> fs.blocks == old(fs.blocks) && fs.FileValid(dp, others) && fs.Data(dp, others) == old(fs.Data(dp, others))
    ensures r == Panicked <==>
            dp.typ != T_DIR || (Lookup(old(Entries(fs.Data(dp, others))), name).None? &&
              (old(dp.size) % 16 != 0 || Stuck(fs.sb, old(fs.blocks), old(dp.addrs[..]), old(fs.Data(dp, others)))))
    ensures r == Linked ==> fs.FileValid(dp, others) && dp.size % 16 == 0
    ensures r == Linked ==> Added(old(Entries(fs.Data(dp, others))), Entries(fs.Data(dp, others)), name, inum % 0x1_0000)
    ensures r == Linked ==> WroteOnly(fs.sb, old(fs.blocks), fs.blocks, dp.inum, dp.Value(), others)
  {
    ghost var data, addrs := fs.Data(dp, others), dp.addrs[..];
    assert |addrs| == NDIRECT + 1 && addrs[NDIRECT] < |fs.blocks|;
    hide Used, Refs, FileOk, Synced, DiskOk, Contents, Added, WroteOnly, Storable, DirentBytes, DirentAt, Entries, Lookup, DirOk, Field, NameOk,
      FirstEmpty, Splice, Stuck, Space, WriteNeed, Mapped, Covers, LogBound;
    var ok, there, _ := Dirlookup(fs, dp, name, others);
    if !ok { return Panicked; }
    if there.Some? { return Exists; }
    var off := FreeSlot(fs, dp, others);
    AddedBytes(data, off, name, inum % 0x1_0000);
    SlotRoom(fs.sb, fs.blocks, addrs, data, off);
    var wrote, n := fs.Writei(dp, DirentBytes(Dirent(inum % 0x1_0000, Field(name))), off, NoDriver, others);
    if !wrote || n != 16 { return Panicked; }
    return Linked;
  }
}
