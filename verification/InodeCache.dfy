/** The inode cache of fs.c, and path names walked through it over the directories on disk. */
module InodeCache {
  import opened Common
  import opened FsFormat
  import opened FsSpec
  import opened FsBytes
  import opened FsCode
  import opened FsSpace
  import opened FsMany
  import opened Names
  import DirCode

  // ----- entries and references, as values -----

  datatype Slot = Slot(inum: nat, ref: nat, valid: bool, value: Dinode)

  predicate InUse(view: seq<Slot>, n: nat) {
    exists i :: 0 <= i < |view| && view[i].ref > 0 && view[i].inum == n
  }

  /** An inode with references has one entry, and the entry counts them. */
  ghost predicate Exact(view: seq<Slot>, handles: multiset<nat>) {
    && (forall i, j :: 0 <= i < |view| && 0 <= j < |view| && i != j && view[i].ref > 0 && view[j].ref > 0 ==> view[i].inum != view[j].inum)
    && (forall i :: 0 <= i < |view| && view[i].ref > 0 ==> view[i].ref == handles[view[i].inum])
    && (forall n :: n in handles ==> InUse(view, n))
  }

  /** Once read, an entry is what the disk has, and its inode is not free. */
  ghost predicate Right(s: Slot, table: map<nat, Dinode>) {
    s.ref > 0 ==> s.inum in table && (s.valid ==> s.value == table[s.inum] && s.value.typ != 0)
  }

  ghost predicate Loaded(view: seq<Slot>, table: map<nat, Dinode>) {
    forall i :: 0 <= i < |view| ==> Right(view[i], table)
  }

  lemma InUseKept(view: seq<Slot>, k: nat, s: Slot, n: nat)
    requires k < |view| && InUse(view, n) && (view[k].ref > 0 && view[k].inum == n ==> s.ref > 0 && s.inum == n)
    ensures InUse(view[k := s], n)
  {
    var i :| 0 <= i < |view| && view[i].ref > 0 && view[i].inum == n;
    assert view[k := s][i].ref > 0 && view[k := s][i].inum == n;
  }

  /** Another reference to an entry in use. */
  lemma OneMoreRef(view: seq<Slot>, handles: multiset<nat>, k: nat, s: Slot)
    requires Exact(view, handles) && k < |view| && view[k].ref > 0 && s.inum == view[k].inum && s.ref == view[k].ref + 1
    ensures Exact(view[k := s], handles + multiset{s.inum})
  {
    forall n | n in handles + multiset{s.inum} ensures InUse(view[k := s], n) {
      if n == s.inum { assert view[k := s][k].inum == n; } else { InUseKept(view, k, s, n); }
    }
  }

  /** The first reference to an inode that had no entry. */
  lemma FirstRef(view: seq<Slot>, handles: multiset<nat>, k: nat, s: Slot)
    requires Exact(view, handles) && k < |view| && view[k].ref == 0 && s.ref == 1 && !InUse(view, s.inum)
    ensures Exact(view[k := s], handles + multiset{s.inum})
  {
    assert s.inum !in handles;
    forall n | n in handles + multiset{s.inum} ensures InUse(view[k := s], n) {
      if n == s.inum { assert view[k := s][k].inum == n; } else { InUseKept(view, k, s, n); }
    }
  }

  /** A reference is dropped. */
  lemma OneRefLess(view: seq<Slot>, handles: multiset<nat>, k: nat, s: Slot)
    requires Exact(view, handles) && k < |view| && view[k].ref > 0 && s.inum == view[k].inum && s.ref == view[k].ref - 1
    ensures Exact(view[k := s], handles - multiset{s.inum})
  {
    var now := handles - multiset{s.inum};
    forall n | n in now ensures InUse(view[k := s], n) {
      if n == s.inum { assert view[k := s][k].inum == n; } else { InUseKept(view, k, s, n); }
    }
  }

  /** An entry changes in what it says of its inode, not in the references. */
  lemma SameRefs(view: seq<Slot>, handles: multiset<nat>, k: nat, s: Slot)
    requires Exact(view, handles) && k < |view| && s.inum == view[k].inum && s.ref == view[k].ref
    ensures Exact(view[k := s], handles)
  {
    forall n | n in handles ensures InUse(view[k := s], n) { InUseKept(view, k, s, n); }
  }

  lemma LoadedAt(view: seq<Slot>, table: map<nat, Dinode>, k: nat)
    requires Loaded(view, table) && k < |view|
    ensures Right(view[k], table)
  {
  }

  lemma StillLoaded(view: seq<Slot>, table: map<nat, Dinode>, k: nat, s: Slot)
    requires Loaded(view, table) && k < |view| && Right(s, table)
    ensures Loaded(view[k := s], table)
  {
  }

  /** The inode with the only reference to it is freed: no other entry is for it. */
  lemma FreedLoaded(view: seq<Slot>, handles: multiset<nat>, table: map<nat, Dinode>, k: nat, s: Slot, v: Dinode)
    requires Loaded(view, table) && Exact(view, handles) && k < |view| && view[k].ref > 0 && s.ref == 0
    ensures Loaded(view[k := s], table[view[k].inum := v])
  {
    var now, after := view[k := s], table[view[k].inum := v];
    forall i | 0 <= i < |now| ensures Right(now[i], after) {
      if i != k { assert Right(view[i], table); }
    }
  }

  // ----- the cache -----

  /** ilock's reading of the inode from its place in the inode block. */
  method ReadInode(fs: FileSystem, ip: Inode, ghost v: Dinode)
    requires fs.sb.Layout() && ip.inum < fs.sb.ninodes && |fs.blocks| == fs.sb.size && ip.addrs.Length == NDIRECT + 1
    requires Synced(fs.blocks[fs.sb.IBlock(ip.inum)], ip.inum, v)
    modifies ip`typ, ip`major, ip`minor, ip`nlink, ip`size, ip.addrs
    ensures ip.Value() == v
  {
    hide Word;
    var w := DinodeBase(ip.inum);
    var bp := fs.blocks[fs.sb.IBlock(ip.inum)];
    assert Word(bp, w + 0) == v.Words()[0] && Word(bp, w + 1) == v.Words()[1] && Word(bp, w + 2) == v.Words()[2];
    ip.typ, ip.major := Word(bp, w) % 0x1_0000, Word(bp, w) / 0x1_0000;
    ip.minor, ip.nlink := Word(bp, w + 1) % 0x1_0000, Word(bp, w + 1) / 0x1_0000;
    ip.size := Word(bp, w + 2);
    var j := 0;
    while j < NDIRECT + 1
      invariant 0 <= j <= NDIRECT + 1 && forall i :: 0 <= i < j ==> ip.addrs[i] == v.addrs[i]
      invariant ip.typ == v.typ && ip.major == v.major && ip.minor == v.minor && ip.nlink == v.nlink && ip.size == v.size
    {
      assert Word(bp, w + (3 + j)) == v.Words()[3 + j] == v.addrs[j];
      ip.addrs[j] := Word(bp, w + 3 + j);
      j := j + 1;
    }
    assert ip.addrs[..] == v.addrs;
  }

  lemma FileAt(sb: Super, d: Disk, table: map<nat, Dinode>, i: nat)
    requires AllFiles(sb, d, table) && i in table
    ensures sb.Layout() && i < sb.ninodes && |d| == sb.size && Synced(d[sb.IBlock(i)], i, table[i])
  {
  }

  class Cache {
    const fs: FileSystem
    const inodes: seq<Inode>
    ghost var table: map<nat, Dinode>
    ghost var handles: multiset<nat>

    ghost predicate Shape() {
      forall i, j :: 0 <= i < |inodes| && 0 <= j < |inodes| && i != j ==> inodes[i] != inodes[j] && inodes[i].addrs != inodes[j].addrs
    }

    ghost function SlotAt(i: nat): Slot
      requires i < |inodes|
      reads inodes[i], inodes[i].addrs
    {
      Slot(inodes[i].inum, inodes[i].ref, inodes[i].valid, inodes[i].Value())
    }

    ghost function View(): (view: seq<Slot>)
      reads inodes, set ip | ip in inodes :: ip.addrs
      ensures |view| == |inodes|
    {
      seq(|inodes|, i requires 0 <= i < |inodes| reads inodes, set ip | ip in inodes :: ip.addrs => SlotAt(i))
    }

    ghost predicate Valid()
      reads this, fs, inodes, set ip | ip in inodes :: ip.addrs
    {
      && Shape() && (forall i :: 0 <= i < |inodes| ==> inodes[i].addrs.Length == NDIRECT + 1)
      && AllFiles(fs.sb, fs.blocks, table)
      && Exact(View(), handles) && Loaded(View(), table)
    }

    /** The cache as the kernel starts with it: no entry is in use. */
    constructor (fs: FileSystem, inodes: seq<Inode>, ghost table: map<nat, Dinode>)
      requires AllFiles(fs.sb, fs.blocks, table)
      requires forall i, j :: 0 <= i < |inodes| && 0 <= j < |inodes| && i != j ==> inodes[i] != inodes[j] && inodes[i].addrs != inodes[j].addrs
      requires forall i :: 0 <= i < |inodes| ==> inodes[i].ref == 0 && inodes[i].addrs.Length == NDIRECT + 1
      ensures this.fs == fs && this.inodes == inodes && this.table == table && handles == multiset{} && Valid()
    {
      this.fs, this.inodes, this.table, handles := fs, inodes, table, multiset{};
    }

    /** iget: the entry of the inode, or a new one; it panics exactly when there is neither. */
    method Iget(inum: nat) returns (ok: bool, k: nat)
      requires Valid() && inum in table
      modifies this`handles, inodes
      ensures Valid()
      ensures ok <==> InUse(old(View()), inum) || exists i :: 0 <= i < |inodes| && old(View())[i].ref == 0
      ensures !ok ==> handles == old(handles) && View() == old(View())
      ensures ok ==> k < |inodes| && inodes[k].inum == inum && handles == old(handles) + multiset{inum}
      ensures ok ==> View()[k].ref == old(View())[k].ref + 1
      ensures ok ==> View() == old(View())[k := View()[k]]
      ensures ok && old(View())[k].ref > 0 ==> View()[k] == old(View())[k].(ref := old(View())[k].ref + 1)
    {
      hide AllFiles, Exact, Loaded;
      ghost var view := View();
      var empty: int := -1;
      k := 0;
      while k < |inodes|
        invariant 0 <= k <= |inodes| && View() == view && Valid() && handles == old(handles)
        invariant forall i :: 0 <= i < k ==> !(view[i].ref > 0 && view[i].inum == inum)
        invariant -1 <= empty < k && (empty >= 0 ==> view[empty].ref == 0)
        invariant empty < 0 ==> forall i :: 0 <= i < k ==> view[i].ref > 0
      {
        if inodes[k].ref > 0 && inodes[k].inum == inum {
          ghost var s := view[k].(ref := view[k].ref + 1);
          LoadedAt(view, table, k);
          OneMoreRef(view, handles, k, s);
          StillLoaded(view, table, k, s);
          inodes[k].ref := inodes[k].ref + 1;
          handles := handles + multiset{inum};
          assert View() == view[k := s];
          return true, k;
        }
        if empty < 0 && inodes[k].ref == 0 { empty := k; }
        k := k + 1;
      }
      if empty < 0 { return false, 0; }
      k := empty;
      ghost var s := view[k].(inum := inum, ref := 1, valid := false);
      FirstRef(view, handles, k, s);
      StillLoaded(view, table, k, s);
      inodes[k].inum := inum;
      inodes[k].ref := 1;
      inodes[k].valid := false;
      handles := handles + multiset{inum};
      assert View() == view[k := s];
      return true, k;
    }

    /** idup */
    method Idup(k: nat)
      requires Valid() && k < |inodes| && inodes[k].ref > 0
      modifies this`handles, inodes[k]
      ensures Valid() && handles == old(handles) + multiset{inodes[k].inum}
      ensures View() == old(View())[k := old(View())[k].(ref := old(View())[k].ref + 1)]
    {
      hide AllFiles, Exact, Loaded;
      ghost var view := View();
      ghost var s := view[k].(ref := view[k].ref + 1);
      LoadedAt(view, table, k);
      OneMoreRef(view, handles, k, s);
      StillLoaded(view, table, k, s);
      inodes[k].ref := inodes[k].ref + 1;
      handles := handles + multiset{inodes[k].inum};
      assert View() == view[k := s];
    }

    /** ilock: afterwards the entry is what the disk has. It panics exactly on a free inode. */
    method Ilock(k: nat) returns (ok: bool)
      requires Valid() && k < |inodes| && inodes[k].ref > 0
      modifies inodes[k], inodes[k].addrs
      ensures inodes[k].inum == old(inodes[k].inum) && inodes[k].inum in table
      ensures inodes[k].valid && inodes[k].Value() == table[inodes[k].inum]
      ensures View() == old(View())[k := old(View())[k].(valid := true, value := table[inodes[k].inum])]
      ensures ok <==> table[inodes[k].inum].typ != 0
      ensures ok ==> Valid()
    {
      hide AllFiles, Exact, Loaded;
      ghost var view := View();
      LoadedAt(view, table, k);
      ghost var s := view[k].(valid := true, value := table[view[k].inum]);
      ok := true;
      if !inodes[k].valid {
        FileAt(fs.sb, fs.blocks, table, inodes[k].inum);
        ReadInode(fs, inodes[k], table[inodes[k].inum]);
        inodes[k].valid := true;
        ok := inodes[k].typ != 0;
      }
      assert View() == view[k := s];
      if ok {
        SameRefs(view, handles, k, s);
        StillLoaded(view, table, k, s);
      }
    }

    /** The file of an entry that has been read. */
    lemma LockedFile(k: nat)
      requires Valid() && k < |inodes| && inodes[k].inum in table && inodes[k].Value() == table[inodes[k].inum]
      ensures Shaped(fs.blocks, table)
      ensures fs.FileValid(inodes[k], OthersOf(fs.blocks, table, inodes[k].inum))
      ensures fs.Data(inodes[k], OthersOf(fs.blocks, table, inodes[k].inum)) == FileBytes(fs.sb, fs.blocks, table, inodes[k].inum)
    {
      hide Used, Word, FileOk, Exact, Loaded, Named, Contents;
    }

    /**
     iput: one reference less. When it was the last one to an inode without links, the inode and its
     blocks are freed, and every other file stays as it is.
     */
    method Iput(k: nat)
      requires Valid() && k < |inodes| && inodes[k].ref > 0
      modifies this, fs, inodes[k], inodes[k].addrs
      ensures Valid() && handles == old(handles) - multiset{old(inodes[k].inum)}
      ensures old(inodes[k].valid && inodes[k].nlink == 0 && inodes[k].ref == 1) ==>
                && old(inodes[k].inum) in old(table)
                && table == old(table)[old(inodes[k].inum) := Emptied(old(table)[old(inodes[k].inum)])]
                && (forall j :: j in table && j != old(inodes[k].inum) ==> SameFile(old(fs.blocks), fs.blocks, table[j]))
                && GivenBack(fs.sb, old(fs.blocks), fs.blocks, old(table)[old(inodes[k].inum)])
      ensures !old(inodes[k].valid && inodes[k].nlink == 0 && inodes[k].ref == 1) ==> fs.blocks == old(fs.blocks) && table == old(table)
      ensures Covers(old(fs.blocks), old(fs.logged), fs.blocks, fs.logged)
      ensures View() == old(View())[k := View()[k]] && View()[k].ref == old(View())[k].ref - 1 && View()[k].inum == old(View())[k].inum
      ensures old(inodes[k].valid && TreeOk(fs.sb, fs.blocks, table, View())) ==> TreeOk(fs.sb, fs.blocks, table, View())
    {
      hide AllFiles, Exact, Loaded, SameFile, Covers, View, Shape, GivenBack, TreeOk;
      CoversSelf(fs.blocks, fs.logged);
      ViewAt(k);
      ghost var view, d0, t0, n := View(), fs.blocks, table, inodes[k].inum;
      LoadedAt(view, t0, k);
      if inodes[k].valid && inodes[k].nlink == 0 && inodes[k].ref == 1 {
        Evict(k);
        assert forall j :: j in t0 && j != n ==> j in table && table[j] == t0[j];
        if TreeOk(fs.sb, d0, t0, view) { EvictedTree(fs.sb, d0, t0, view, fs.blocks, n, k, View()); }
      } else {
        ghost var valid := inodes[k].valid;
        Release(k);
        if valid && TreeOk(fs.sb, d0, t0, view) {
          forall i ensures Known(t0, view, i) <==> Known(t0, View(), i) { ReleasedKnown(view, k, View(), t0, i); }
          SameKnown(fs.sb, d0, t0, view, View());
        }
      }
    }

    /** iput of an entry whose inode stays. */
    method Release(k: nat)
      requires Valid() && k < |inodes| && inodes[k].ref > 0
      modifies this`handles, inodes[k]
      ensures Valid() && handles == old(handles) - multiset{old(inodes[k].inum)}
      ensures View() == old(View())[k := View()[k]] && View()[k].ref == old(View())[k].ref - 1 && View()[k].inum == old(View())[k].inum
    {
      hide AllFiles, Exact, Loaded;
      ghost var view := View();
      ghost var s := view[k].(ref := view[k].ref - 1);
      LoadedAt(view, table, k);
      inodes[k].ref := inodes[k].ref - 1;
      assert View() == view[k := s];
      OneRefLess(view, handles, k, s);
      StillLoaded(view, table, k, s);
      handles := handles - multiset{inodes[k].inum};
    }

    /** iput of the last reference to an inode without links. */
    method Evict(k: nat)
      requires Valid() && k < |inodes| && inodes[k].ref == 1 && inodes[k].valid
      modifies this, fs, inodes[k], inodes[k].addrs
      ensures Valid() && handles == old(handles) - multiset{old(inodes[k].inum)} && old(inodes[k].inum) in old(table)
      ensures table == old(table)[old(inodes[k].inum) := Emptied(old(table)[old(inodes[k].inum)])]
      ensures forall j :: j in table && j != old(inodes[k].inum) ==> SameFile(old(fs.blocks), fs.blocks, table[j])
      ensures GivenBack(fs.sb, old(fs.blocks), fs.blocks, old(table)[old(inodes[k].inum)])
      ensures View() == old(View())[k := View()[k]] && View()[k].ref == old(View())[k].ref - 1 && View()[k].inum == old(View())[k].inum
      ensures Covers(old(fs.blocks), old(fs.logged), fs.blocks, fs.logged)
    {
      hide AllFiles, Exact, Loaded, SameFile, Covers, GivenBack;
      ghost var view, n, t0 := View(), inodes[k].inum, table;
      LoadedAt(view, table, k);
      FileAt(fs.sb, fs.blocks, table, n);
      Discard(fs, inodes[k], t0);
      table := t0[n := Emptied(t0[n])];
      inodes[k].valid := false;
      inodes[k].ref := 0;
      ghost var s := SlotAt(k);
      assert View() == view[k := s];
      FreedLoaded(view, handles, t0, k, s, table[n]);
      OneRefLess(view, handles, k, s);
      handles := handles - multiset{n};
    }

    /** A walk holds entry k: one reference more than the entries v0 and the references h0 it started from. */
    ghost predicate Walking(k: nat, v0: seq<Slot>, h0: multiset<nat>)
      reads this, fs, inodes, set ip | ip in inodes :: ip.addrs
    {
      && Valid() && k < |inodes| == |v0| && inodes[k].ref > 0
      && Extra(v0, View(), k) && Stays(v0, View(), table, k) && handles == With(h0, inodes[k].inum)
    }

    /** The start of a walk, at the root or at the directory of entry cwd. */
    method Start(root: bool, cwd: nat) returns (ok: bool, k: nat)
      requires Valid() && Reachable(table, ROOTINO) && cwd < |inodes| && inodes[cwd].ref > 0
      modifies this`handles, inodes
      ensures !ok ==> Valid() && Crowded(old(View()))
      ensures ok ==> Walking(k, old(View()), old(handles)) && inodes[k].inum == if root then ROOTINO else old(inodes[cwd].inum)
    {
      hide AllFiles, Exact, Loaded, View, Shape;
      ViewAt(cwd);
      LoadedAt(View(), table, cwd);
      if root {
        ok, k := Iget(ROOTINO);
        if ok { ViewAt(k); }
      } else {
        Idup(cwd);
        ViewAt(cwd);
        ok, k := true, cwd;
      }
    }

    /** ilock during a walk. */
    method Visit(k: nat, ghost v0: seq<Slot>, ghost h0: multiset<nat>) returns (ok: bool)
      requires Walking(k, v0, h0)
      modifies inodes[k], inodes[k].addrs
      ensures inodes[k].inum == old(inodes[k].inum) && inodes[k].inum in table && inodes[k].Value() == table[inodes[k].inum]
      ensures ok <==> table[inodes[k].inum].typ != 0
      ensures ok ==> Walking(k, v0, h0)
    {
      hide AllFiles, Exact, Loaded, View, Extra, Shape;
      ghost var view := View();
      ViewAt(k);
      ok := Ilock(k);
      if ok {
        ViewAt(k);
        ExtraSame(v0, view, k, View());
      }
    }

    /** iput at the end of a walk. */
    method Leave(k: nat, ghost v0: seq<Slot>, ghost h0: multiset<nat>)
      requires Walking(k, v0, h0)
      modifies this, fs, inodes[k], inodes[k].addrs
      ensures Valid() && fs.blocks == old(fs.blocks) && table == old(table) && Back(v0, View()) && handles == h0
    {
      hide AllFiles, Exact, Loaded, View, Extra, Back, With, Shape;
      ghost var view, n := View(), inodes[k].inum;
      ExtraAt(v0, view, k);
      NotLast(k, v0);
      Iput(k);
      Dropped(v0, view, k, View());
      WithLess(h0, n);
    }

    /**
     namex: for namei the fold of lookup over the components of the path, for nameiparent the fold over all
     but the last, which must end in a directory, with the last component's name. One reference is taken
     on the inode returned and none on any other, the disk is not written, and no inode is freed. It panics
     in iget for want of an entry, and never with two free, and in ilock exactly when the path meets a
     free inode.
     */
    method Namex(path: string, cwd: nat, parent: bool) returns (end: WalkEnd, k: nat, name: string, ghost start: nat)
      requires Valid() && TreeOk(fs.sb, fs.blocks, table, View()) && cwd < |inodes| && inodes[cwd].ref > 0
      modifies this, fs, inodes, set ip | ip in inodes :: ip.addrs
      ensures start == if path != "" && path[0] == '/' then ROOTINO else old(inodes[cwd].inum)
      ensures fs.blocks == old(fs.blocks) && table == old(table) && AllFiles(fs.sb, fs.blocks, table)
      ensures end == NoEntry ==> Valid() && Crowded(old(View()))
      ensures end == NoType ==> Meets(table, TreeOf(fs.sb, fs.blocks, table), start, Split(path))
      ensures end == Found || end == Missing ==> Valid() && !Meets(table, TreeOf(fs.sb, fs.blocks, table), start, Split(path))
      ensures end == Found ==>
                k < |inodes| && Goal(TreeOf(fs.sb, fs.blocks, table), start, Split(path), parent) == Some(inodes[k].inum)
      ensures end == Missing ==> Goal(TreeOf(fs.sb, fs.blocks, table), start, Split(path), parent) == None
      ensures path != "" && Slashes(path) && !parent ==> end == NoEntry || (end == Found && inodes[k].inum == ROOTINO)
      ensures end == Found ==> Walking(k, old(View()), old(handles))
      ensures end == Missing ==> Back(old(View()), View()) && handles == old(handles)
      ensures parent && end == Found ==> Split(path) != [] && name == Cut(LastOf(Split(path)))
      ensures Reachable(table, start) ==> end != NoType
      ensures end == Found || end == Missing ==> TreeOk(fs.sb, fs.blocks, table, View())
    {
      hide Goal, Split, AllFiles, TreeOk, TreeOf, View, Extra, Back, Stays, Crowded, With, Exact, Loaded, Shape, Meets, Valid, Walking, Arrived, Slashes;
      ValidFiles();
      ghost var v0, h0, d0, t0 := View(), handles, fs.blocks, table;
      RootReachable(fs.sb, d0, t0, v0);
      start := if path != "" && path[0] == '/' then ROOTINO else inodes[cwd].inum;
      name := "";
      var ok;
      ok, k := Start(path != "" && path[0] == '/', cwd);
      if !ok {
        end := NoEntry;
        return;
      }
      WalkingValid(k, v0, h0);
      end, k, name := WalkOn(k, path, parent, start, v0, h0);
      WhereArrived(end, k, name, path, parent, start, v0, h0);
      ReachableNeverMeets(fs.sb, d0, t0, v0, start, Split(path));
      if Slashes(path) {
        SlashesOnly(TreeOf(fs.sb, d0, t0), start, path);
        if path != "" { SlashesStart(path); }
      }
    }

    /** How a walk from `start` over the components of the path ended, with v0 and h0 the entries and references before it. */
    ghost predicate Arrived(end: WalkEnd, k: nat, name: string, path: string, parent: bool, start: nat, v0: seq<Slot>, h0: multiset<nat>)
      reads this, fs, inodes, set ip | ip in inodes :: ip.addrs
    {
      && AllFiles(fs.sb, fs.blocks, table)
      && (end == NoEntry ==> Valid() && Crowded(v0))
      && (end == NoType ==> Meets(table, TreeOf(fs.sb, fs.blocks, table), start, Split(path)))
      && (end == Found || end == Missing ==>
            Valid() && TreeOk(fs.sb, fs.blocks, table, View()) && !Meets(table, TreeOf(fs.sb, fs.blocks, table), start, Split(path)))
      && (end == Found ==> Walking(k, v0, h0))
      && (end == Found ==> k < |inodes| && Goal(TreeOf(fs.sb, fs.blocks, table), start, Split(path), parent) == Some(inodes[k].inum))
      && (end == Missing ==> Back(v0, View()) && handles == h0 && Goal(TreeOf(fs.sb, fs.blocks, table), start, Split(path), parent) == None)
      && (parent && end == Found ==> Split(path) != [] && name == Cut(LastOf(Split(path))))
    }

    lemma WhereArrived(end: WalkEnd, k: nat, name: string, path: string, parent: bool, start: nat, v0: seq<Slot>, h0: multiset<nat>)
      requires Arrived(end, k, name, path, parent, start, v0, h0)
      ensures AllFiles(fs.sb, fs.blocks, table)
      ensures end == NoEntry ==> Valid() && Crowded(v0)
      ensures end == NoType ==> Meets(table, TreeOf(fs.sb, fs.blocks, table), start, Split(path))
      ensures end == Found || end == Missing ==>
                Valid() && TreeOk(fs.sb, fs.blocks, table, View()) && !Meets(table, TreeOf(fs.sb, fs.blocks, table), start, Split(path))
      ensures end == Found ==> Walking(k, v0, h0)
      ensures end == Found ==> k < |inodes| && Goal(TreeOf(fs.sb, fs.blocks, table), start, Split(path), parent) == Some(inodes[k].inum)
      ensures end == Missing ==> Back(v0, View()) && handles == h0 && Goal(TreeOf(fs.sb, fs.blocks, table), start, Split(path), parent) == None
      ensures parent && end == Found ==> Split(path) != [] && name == Cut(LastOf(Split(path)))
    {
      hide Goal, Split, AllFiles, TreeOk, TreeOf, View, Back, Crowded, Meets, Valid, Walking;
    }

    /** namex's loop. */
    method WalkOn(at: nat, path: string, parent: bool, ghost start: nat, ghost v0: seq<Slot>, ghost h0: multiset<nat>)
      returns (end: WalkEnd, k: nat, name: string)
      requires AllFiles(fs.sb, fs.blocks, table) && TreeOk(fs.sb, fs.blocks, table, v0)
      requires Walking(at, v0, h0) && at < |inodes| && inodes[at].inum == start
      modifies this, fs, inodes, set ip | ip in inodes :: ip.addrs
      ensures fs.blocks == old(fs.blocks) && table == old(table) && Arrived(end, k, name, path, parent, start, v0, h0)
    {
      hide Goal, Split, Lookup, Hit, Cut, LastOf, AllFiles, TreeOk, TreeOf, View, Extra, Back, Stays, Crowded, With, Exact, Loaded, Shape, Meets, Valid, Walking;
      ghost var tree, d0, t0 := TreeOf(fs.sb, fs.blocks, table), fs.blocks, table;
      k, name := at, "";
      ghost var names, left := Split(path), Split(path);
      ghost var goal, meets := Goal(tree, start, names, parent), Meets(t0, tree, start, names);
      var more, rest, elem := Skipelem(path);
      while more
        invariant k < |inodes| && Walking(k, v0, h0) && fs.blocks == d0 && table == t0
        invariant Goal(tree, inodes[k].inum, left, parent) == goal && Meets(t0, tree, inodes[k].inum, left) == meets
        invariant more <==> left != []
        invariant more ==> names != [] && LastOf(left) == LastOf(names)
        invariant more ==> elem == Cut(left[0]) && Split(rest) == left[1..] && (rest == "" <==> Split(rest) == [])
        decreases |left|
      {
        LastOfTail(left);
        name := elem;
        var going;
        going, end, k := Round(k, name, parent, rest == "", left, v0, h0);
        if going || end == Found { WalkingValid(k, v0, h0); }
        if !going {
          Settled(d0, v0, h0, end, k);
          return;
        }
        left := left[1..];
        more, rest, elem := Skipelem(rest);
      }
      WalkingValid(k, v0, h0);
      NoneLeft(tree, inodes[k].inum, parent);
      MeetsNone(t0, tree, inodes[k].inum);
      end := Found;
      if parent {
        Leave(k, v0, h0);
        end := Missing;
      }
      Settled(d0, v0, h0, end, k);
    }

    /** The tree is in order for whoever goes on after a walk. */
    lemma Settled(d0: Disk, v0: seq<Slot>, h0: multiset<nat>, end: WalkEnd, k: nat)
      requires fs.blocks == d0 && AllFiles(fs.sb, d0, table) && TreeOk(fs.sb, d0, table, v0)
      requires end == Found ==> Walking(k, v0, h0)
      requires end == Missing ==> Back(v0, View())
      ensures end == Found || end == Missing ==> TreeOk(fs.sb, d0, table, View())
    {
      hide AllFiles, TreeOk, Exact, Loaded, Extra, Back, View;
      if end == Found {
        WalkingKnown(k, v0, h0);
        ViewAt(k);
        forall i ensures Known(table, v0, i) <==> Known(table, View(), i) { ExtraKnown(v0, View(), k, table, i); }
        SameKnown(fs.sb, d0, table, v0, View());
      }
      if end == Missing {
        forall i ensures Known(table, v0, i) <==> Known(table, View(), i) { BackKnown(v0, View(), table, i); }
        SameKnown(fs.sb, d0, table, v0, View());
      }
    }

    /** One round of namex's loop, with the components `left` ahead. */
    method Round(k: nat, name: string, parent: bool, last: bool, ghost left: seq<string>, ghost v0: seq<Slot>, ghost h0: multiset<nat>)
      returns (going: bool, end: WalkEnd, next: nat)
      requires Walking(k, v0, h0) && TreeOk(fs.sb, fs.blocks, table, v0)
      requires left != [] && name == Cut(left[0]) && (last <==> |left| == 1)
      modifies this, fs, inodes, inodes[k].addrs
      ensures fs.blocks == old(fs.blocks) && table == old(table) && AllFiles(fs.sb, fs.blocks, table)
      ensures going ==> Walking(next, v0, h0) && Onward(inodes[next].inum, old(inodes[k].inum), left, parent)
      ensures !going && end == NoEntry ==> Valid() && Crowded(v0)
      ensures !going && end != NoEntry ==> (end == NoType <==> Meets(table, TreeOf(fs.sb, fs.blocks, table), old(inodes[k].inum), left))
      ensures !going && (end == Found || end == Missing) ==>
                Result(end, next) == Goal(TreeOf(fs.sb, fs.blocks, table), old(inodes[k].inum), left, parent)
      ensures !going && end == Found ==> parent && last && Walking(next, v0, h0)
      ensures !going && end == Missing ==> Valid() && Back(v0, View()) && handles == h0
    {
      hide Goal, Lookup, Cut, AllFiles, TreeOk, TreeOf, Entries, View, Extra, Back, Stays, Crowded, With, Exact, Loaded, Shape, Meets;
      ghost var n, tree := inodes[k].inum, TreeOf(fs.sb, fs.blocks, table);
      GoalStep(tree, n, left, parent);
      MeetsStep(table, tree, n, left);
      var ok := Visit(k, v0, h0);
      if !ok { return false, NoType, k; }
      NodeIs(fs.sb, fs.blocks, table, n);
      if inodes[k].typ != DirCode.T_DIR {
        Leave(k, v0, h0);
        return false, Missing, k;
      }
      if parent && last {
        return false, Found, k;
      }
      var some;
      ok, some, next := Descend(k, name, v0, h0);
      if !ok { return false, NoEntry, next; }
      if !some { return false, Missing, next; }
      if last { assert left[1..] == []; }
      MeetsNone(table, tree, inodes[next].inum);
      return true, Missing, next;
    }

    /** From inode n on, the rest of the path leads where from i the whole of it does. */
    ghost predicate Onward(n: nat, i: nat, left: seq<string>, parent: bool)
      requires left != [] && AllFiles(fs.sb, fs.blocks, table)
      reads this, fs
    {
      var tree := TreeOf(fs.sb, fs.blocks, table);
      && Goal(tree, n, left[1..], parent) == Goal(tree, i, left, parent)
      && Meets(table, tree, n, left[1..]) == Meets(table, tree, i, left)
    }

    /** What a walk returned. */
    ghost function Result(end: WalkEnd, k: nat): Option
      reads inodes
    {
      if end == Found && k < |inodes| then Some(inodes[k].inum) else None
    }

    /**
     One step down a path, from the directory of entry k: the reference moves to the inode its entry
     `name` is for, or is dropped. v0 and h0 are the entries and references without it.
     */
    method Descend(k: nat, name: string, ghost v0: seq<Slot>, ghost h0: multiset<nat>) returns (ok: bool, some: bool, next: nat)
      requires Walking(k, v0, h0) && TreeOk(fs.sb, fs.blocks, table, v0) && inodes[k].inum in table
      requires inodes[k].Value() == table[inodes[k].inum] && inodes[k].typ == DirCode.T_DIR
      modifies this, fs, inodes, inodes[k].addrs
      ensures Valid() && fs.blocks == old(fs.blocks) && table == old(table)
      ensures !ok ==> Crowded(v0)
      ensures ok ==> (some <==> Lookup(Entries(fs.sb, fs.blocks, table, old(inodes[k].inum)), name).Some?)
      ensures ok && !some ==> Back(v0, View()) && handles == h0
      ensures ok && some ==> Walking(next, v0, h0)
      ensures ok && some ==> Lookup(Entries(fs.sb, fs.blocks, table, old(inodes[k].inum)), name) == Some(inodes[next].inum)
    {
      hide AllFiles, Exact, Loaded, TreeOk, Lookup, Entries, With, Extra, Stays, Back, Crowded, View, Shape;
      WalkingKnown(k, v0, h0);
      var r := Find(k, name, v0);
      some := r.Some?;
      if !some {
        Leave(k, v0, h0);
        return true, false, 0;
      }
      ok, next := Move(k, r.value, v0, h0);
    }

    /** iget of the inode a walk goes on to, and iput of the one it leaves. */
    method Move(k: nat, target: nat, ghost v0: seq<Slot>, ghost h0: multiset<nat>) returns (ok: bool, next: nat)
      requires Walking(k, v0, h0) && Known(table, v0, target)
      modifies this, fs, inodes, inodes[k].addrs
      ensures Valid() && fs.blocks == old(fs.blocks) && table == old(table)
      ensures !ok ==> Crowded(v0)
      ensures ok ==> Walking(next, v0, h0) && inodes[next].inum == target
    {
      hide AllFiles, Exact, Loaded, With, Extra, Crowded, View, Covers, SameFile, Shape;
      ghost var view, n := View(), inodes[k].inum;
      ExtraAt(v0, view, k);
      ViewAt(k);
      ok, next := Iget(target);
      if !ok {
        NoneFree(v0, view, k);
        return;
      }
      ghost var mid := View();
      ViewAt(next);
      ViewAt(k);
      assert inodes[k].inum == n;
      NotLast(k, v0);
      Iput(k);
      Moved(v0, view, k, mid, next, View());
      ViewAt(next);
      WithMoved(h0, n, target);
      MovedStays(v0, View(), handles, table, next);
    }

    /** dirlookup in the directory of entry k: the inode number, without the reference. */
    method Find(k: nat, name: string, ghost v0: seq<Slot>) returns (r: Option)
      requires Valid() && TreeOk(fs.sb, fs.blocks, table, v0) && k < |inodes| && Known(table, v0, inodes[k].inum)
      requires inodes[k].Value() == table[inodes[k].inum] && inodes[k].typ == DirCode.T_DIR
      modifies fs, inodes[k].addrs
      ensures Valid() && fs.blocks == old(fs.blocks) && View() == old(View())
      ensures r == Lookup(Entries(fs.sb, fs.blocks, table, inodes[k].inum), name) && (r.Some? ==> Known(table, v0, r.value))
    {
      hide AllFiles, Exact, Loaded, TreeOk, Lookup, DirCode.Entries, DirCode.DirentAt, FileBytes;
      ghost var view, n := View(), inodes[k].inum;
      LockedFile(k);
      DirAt(fs.sb, fs.blocks, table, v0, n);
      var whole, off;
      whole, r, off := DirCode.Dirlookup(fs, inodes[k], name, OthersOf(fs.blocks, table, n));
      assert View() == view;
      if r.Some? { EntryKnown(fs.sb, fs.blocks, table, v0, n, off); }
    }

    lemma ViewAt(k: nat)
      requires k < |inodes|
      ensures View()[k] == SlotAt(k)
    {
    }

    lemma ValidFiles()
      requires Valid()
      ensures AllFiles(fs.sb, fs.blocks, table)
    {
    }

    lemma WalkingValid(k: nat, v0: seq<Slot>, h0: multiset<nat>)
      requires Walking(k, v0, h0)
      ensures Valid() && k < |inodes|
    {
    }

    lemma WalkingKnown(k: nat, v0: seq<Slot>, h0: multiset<nat>)
      requires Walking(k, v0, h0)
      ensures Known(table, v0, inodes[k].inum)
    {
      hide AllFiles, Exact, Loaded;
      ViewAt(k);
    }

    lemma NotLast(k: nat, v0: seq<Slot>)
      requires Valid() && k < |inodes| == |v0| && Stays(v0, View(), table, k) && View()[k].ref > v0[k].ref
      ensures !(inodes[k].valid && inodes[k].nlink == 0 && inodes[k].ref == 1)
    {
      hide AllFiles, Exact;
      LoadedAt(View(), table, k);
    }
  }

  /** A freed inode: no type and no blocks. */
  function Emptied(v: Dinode): Dinode {
    Dinode(0, v.major, v.minor, v.nlink, 0, seq(NDIRECT + 1, _ => 0))
  }

  /** As many blocks are free as before, and those the file v named. */
  ghost predicate GivenBack(sb: Super, d0: Disk, d: Disk, v: Dinode) {
    && sb.Layout() && |d0| == |d| == sb.size && |v.addrs| == NDIRECT + 1 && v.addrs[NDIRECT] < |d0|
    && Space(sb, d) == Space(sb, d0) + |Named(d0, v.addrs)|
  }

  /** The bytes of file i. */
  ghost function FileBytes(sb: Super, d: Disk, table: map<nat, Dinode>, i: nat): seq<byte>
    requires AllFiles(sb, d, table) && i in table
  {
    RefsInRange(sb, d, table[i].addrs, OthersOf(d, table, i));
    Contents(d, Refs(d, table[i].addrs), table[i].size)
  }

  /** iput's freeing of an inode nobody can reach: its blocks, and its type on disk. */
  method Discard(fs: FileSystem, ip: Inode, ghost table: map<nat, Dinode>)
    requires AllFiles(fs.sb, fs.blocks, table) && ip.inum in table && ip.Value() == table[ip.inum] && ip.addrs.Length == NDIRECT + 1
    modifies fs, ip`typ, ip`size, ip.addrs
    ensures AllFiles(fs.sb, fs.blocks, table[ip.inum := Emptied(table[ip.inum])])
    ensures forall j :: j in table && j != ip.inum ==> SameFile(old(fs.blocks), fs.blocks, table[j])
    ensures GivenBack(fs.sb, old(fs.blocks), fs.blocks, table[ip.inum])
    ensures Covers(old(fs.blocks), old(fs.logged), fs.blocks, fs.logged)
  {
    hide Used, Word, Refs, Mine, Unique, Named, Contents, SameFile, Covers, Space, MapsOf;
    ghost var d0, n, others := fs.blocks, ip.inum, OthersOf(fs.blocks, table, ip.inum);
    ghost var named := Named(d0, table[n].addrs);
    assert fs.InodeOk(ip);
    var ok := fs.Itrunc(ip, others);
    ghost var d, l := fs.blocks, fs.logged;
    ip.typ := 0;
    ghost var v := Emptied(table[n]);
    assert ip.Value() == v && v.Small();
    fs.Iupdate(ip);
    CoversThen(d0, old(fs.logged), d, l, fs.blocks, fs.logged);
    DiscardDone(fs.sb, d0, d, fs.blocks, n, v, named, others);
    WriteKeepsAllFiles(fs.sb, d0, table, n, fs.blocks, v);
  }

  lemma DiscardDone(sb: Super, d0: Disk, d: Disk, e: Disk, n: nat, v: Dinode, named: set<nat>, others: set<nat>)
    requires DiskOk(sb, d0) && n < sb.ninodes && Truncated(sb, d0, d, named, sb.IBlock(n)) && OthersUsed(sb, d, others)
    requires v.addrs == seq(NDIRECT + 1, _ => 0) && v.size == 0
    requires |e| == |d| && e == d[sb.IBlock(n) := e[sb.IBlock(n)]] && Synced(e[sb.IBlock(n)], n, v)
    requires forall k :: 0 <= k < NINDIRECT && !(DinodeBase(n) <= k < DinodeBase(n) + DINODE_WORDS) ==>
               Word(d[sb.IBlock(n)], k) == Word(d0[sb.IBlock(n)], k)
    requires forall k :: 0 <= k < NINDIRECT && !(DinodeBase(n) <= k < DinodeBase(n) + DINODE_WORDS) ==>
               Word(e[sb.IBlock(n)], k) == Word(d[sb.IBlock(n)], k)
    ensures OneFile(sb, d0, e, n, v, others) && Space(sb, e) == Space(sb, d)
  {
    hide Used, Word, Space;
    PlainWriteKeepsUsed(sb, d, sb.IBlock(n), e[sb.IBlock(n)]);
    SpaceSame(sb, d, e);
    BitmapIsMeta(sb);
    EmptyFile(sb, e, others);
  }

  // ----- the walk -----

  /** The entries of directory i. */
  ghost function Entries(sb: Super, d: Disk, table: map<nat, Dinode>, i: nat): seq<Dirent>
    requires AllFiles(sb, d, table) && i in table
  {
    DirCode.Entries(FileBytes(sb, d, table, i))
  }

  /** The tree of directories on disk. */
  ghost function TreeOf(sb: Super, d: Disk, table: map<nat, Dinode>): map<nat, Node>
    requires AllFiles(sb, d, table)
  {
    map i | i in table :: if table[i].typ == DirCode.T_DIR then Dir(Entries(sb, d, table, i)) else Other
  }

  /** An inode that a path from the root can lead to. */
  predicate Reachable(table: map<nat, Dinode>, i: nat) {
    i in table && table[i].typ != 0 && table[i].nlink > 0
  }

  /** An inode that any directory in use can name: one with links, one removed but in use, or a free one. */
  predicate Known(table: map<nat, Dinode>, view: seq<Slot>, i: nat) {
    i in table && (table[i].typ == 0 || table[i].nlink > 0 || InUse(view, i))
  }

  /**
   The root is there. Directories are whole entries. Those with links name inodes with links; those that
   were removed while someone held them may also name inodes removed since, in use or free.
   */
  ghost predicate TreeOk(sb: Super, d: Disk, table: map<nat, Dinode>, view: seq<Slot>)
    requires AllFiles(sb, d, table)
  {
    && Reachable(table, ROOTINO)
    && forall i :: Known(table, view, i) && table[i].typ == DirCode.T_DIR ==> DirFine(sb, d, table, view, i)
  }

  ghost predicate DirFine(sb: Super, d: Disk, table: map<nat, Dinode>, view: seq<Slot>, i: nat)
    requires AllFiles(sb, d, table) && i in table
  {
    && table[i].size % 16 == 0
    && forall e :: e in Entries(sb, d, table, i) && e.inum != 0 ==>
         Known(table, view, e.inum) && (table[i].nlink > 0 ==> Reachable(table, e.inum))
  }

  lemma RootReachable(sb: Super, d: Disk, table: map<nat, Dinode>, view: seq<Slot>)
    requires AllFiles(sb, d, table) && TreeOk(sb, d, table, view)
    ensures Reachable(table, ROOTINO)
  {
  }

  lemma DirAt(sb: Super, d: Disk, table: map<nat, Dinode>, view: seq<Slot>, i: nat)
    requires AllFiles(sb, d, table) && TreeOk(sb, d, table, view) && Known(table, view, i) && table[i].typ == DirCode.T_DIR
    ensures DirFine(sb, d, table, view, i)
  {
  }

  // ----- what keeps the tree in order -----

  lemma SameKnown(sb: Super, d: Disk, table: map<nat, Dinode>, v0: seq<Slot>, v: seq<Slot>)
    requires AllFiles(sb, d, table) && TreeOk(sb, d, table, v0)
    requires forall i :: Known(table, v0, i) <==> Known(table, v, i)
    ensures TreeOk(sb, d, table, v)
  {
    hide AllFiles, Entries, Known;
    forall i | Known(table, v, i) && i in table && table[i].typ == DirCode.T_DIR ensures DirFine(sb, d, table, v, i) {
      assert Known(table, v0, i) && DirFine(sb, d, table, v0, i);
    }
    KnownIn(table, v);
  }

  lemma KnownIn(table: map<nat, Dinode>, v: seq<Slot>)
    ensures forall i :: Known(table, v, i) ==> i in table
  {
  }

  /** One more reference, to an inode that is known. */
  lemma ExtraKnown(v0: seq<Slot>, v: seq<Slot>, k: nat, table: map<nat, Dinode>, i: nat)
    requires Extra(v0, v, k) && k < |v| && Known(table, v0, v[k].inum)
    ensures Known(table, v0, i) <==> Known(table, v, i)
  {
    if InUse(v0, i) {
      var j :| 0 <= j < |v0| && v0[j].ref > 0 && v0[j].inum == i;
      assert v[j].ref > 0 && v[j].inum == i;
    }
    if InUse(v, i) && i != v[k].inum {
      var j :| 0 <= j < |v| && v[j].ref > 0 && v[j].inum == i;
      assert v0[j].ref > 0 && v0[j].inum == i;
    }
  }

  lemma BackKnown(v0: seq<Slot>, v: seq<Slot>, table: map<nat, Dinode>, i: nat)
    requires Back(v0, v)
    ensures Known(table, v0, i) <==> Known(table, v, i)
  {
    if InUse(v0, i) {
      var j :| 0 <= j < |v0| && v0[j].ref > 0 && v0[j].inum == i;
      assert v[j].ref > 0 && v[j].inum == i;
    }
    if InUse(v, i) {
      var j :| 0 <= j < |v| && v[j].ref > 0 && v[j].inum == i;
      assert v0[j].ref > 0 && v0[j].inum == i;
    }
  }

  /** One reference less to an inode that has been read and is not to be freed. */
  lemma ReleasedKnown(v0: seq<Slot>, k: nat, v: seq<Slot>, table: map<nat, Dinode>, i: nat)
    requires k < |v0| == |v| && v == v0[k := v[k]] && v0[k].ref > 0 && v[k].ref == v0[k].ref - 1 && v[k].inum == v0[k].inum
    requires Right(v0[k], table) && v0[k].valid && (v0[k].value.nlink > 0 || v0[k].ref > 1)
    ensures Known(table, v0, i) <==> Known(table, v, i)
  {
    if InUse(v0, i) {
      var j :| 0 <= j < |v0| && v0[j].ref > 0 && v0[j].inum == i;
      assert j != k ==> v[j] == v0[j];
    }
    if InUse(v, i) {
      var j :| 0 <= j < |v| && v[j].ref > 0 && v[j].inum == i;
      assert j != k ==> v0[j] == v[j];
    }
  }

  /** An unlinked inode nobody else holds is freed: what named it was removed too. */
  lemma EvictedTree(sb: Super, d0: Disk, t0: map<nat, Dinode>, v0: seq<Slot>, d: Disk, n: nat, k: nat, v: seq<Slot>)
    requires AllFiles(sb, d0, t0) && TreeOk(sb, d0, t0, v0) && n in t0 && t0[n].nlink == 0
    requires AllFiles(sb, d, t0[n := Emptied(t0[n])])
    requires forall j :: j in t0 && j != n ==> SameFile(d0, d, t0[j])
    requires k < |v0| == |v| && v == v0[k := v[k]] && v0[k].inum == n && v[k].ref == 0
    ensures TreeOk(sb, d, t0[n := Emptied(t0[n])], v)
  {
    hide AllFiles, SameFile, DirFine;
    var t := t0[n := Emptied(t0[n])];
    forall i | Known(t, v, i) && t[i].typ == DirCode.T_DIR ensures DirFine(sb, d, t, v, i) {
      EvictedKnown(t0, v0, n, k, v, i);
      EvictedDir(sb, d0, t0, v0, d, n, k, v, i);
    }
  }

  lemma EvictedDir(sb: Super, d0: Disk, t0: map<nat, Dinode>, v0: seq<Slot>, d: Disk, n: nat, k: nat, v: seq<Slot>, i: nat)
    requires AllFiles(sb, d0, t0) && n in t0 && t0[n].nlink == 0 && i in t0 && i != n && DirFine(sb, d0, t0, v0, i)
    requires AllFiles(sb, d, t0[n := Emptied(t0[n])]) && SameFile(d0, d, t0[i])
    requires k < |v0| == |v| && v == v0[k := v[k]] && v0[k].inum == n && v[k].ref == 0
    ensures DirFine(sb, d, t0[n := Emptied(t0[n])], v, i)
  {
    hide AllFiles, SameFile, Entries, Known;
    var t := t0[n := Emptied(t0[n])];
    EvictedEntries(sb, d0, t0, d, n, i);
    forall e | e in Entries(sb, d, t, i) && e.inum != 0
      ensures Known(t, v, e.inum) && (t[i].nlink > 0 ==> Reachable(t, e.inum))
    {
      EvictedKnown(t0, v0, n, k, v, e.inum);
    }
  }

  lemma EvictedKnown(t0: map<nat, Dinode>, v0: seq<Slot>, n: nat, k: nat, v: seq<Slot>, i: nat)
    requires n in t0 && k < |v0| == |v| && v == v0[k := v[k]] && v0[k].inum == n && v[k].ref == 0
    ensures i == n ==> Known(t0[n := Emptied(t0[n])], v, i)
    ensures i != n ==> (Known(t0[n := Emptied(t0[n])], v, i) <==> Known(t0, v0, i))
  {
    if InUse(v0, i) && i != n {
      var j :| 0 <= j < |v0| && v0[j].ref > 0 && v0[j].inum == i;
      assert v[j] == v0[j];
    }
    if InUse(v, i) {
      var j :| 0 <= j < |v| && v[j].ref > 0 && v[j].inum == i;
      assert j != k && v0[j] == v[j];
    }
  }

  lemma EvictedEntries(sb: Super, d0: Disk, t0: map<nat, Dinode>, d: Disk, n: nat, i: nat)
    requires AllFiles(sb, d0, t0) && n in t0 && i in t0 && i != n
    requires AllFiles(sb, d, t0[n := Emptied(t0[n])]) && SameFile(d0, d, t0[i])
    ensures Entries(sb, d, t0[n := Emptied(t0[n])], i) == Entries(sb, d0, t0, i)
  {
    hide AllFiles, DirCode.Entries, Contents;
  }

  // ----- the walk that meets a free inode -----

  /** From an inode with links, no path meets a free inode. */
  lemma {:induction false} ReachableNeverMeets(sb: Super, d: Disk, table: map<nat, Dinode>, view: seq<Slot>, i: nat, names: seq<string>)
    requires AllFiles(sb, d, table) && TreeOk(sb, d, table, view)
    ensures Reachable(table, i) ==> !Meets(table, TreeOf(sb, d, table), i, names)
    decreases |names|
  {
    hide AllFiles, Lookup, Entries, TreeOf;
    if Reachable(table, i) && names != [] {
      NodeIs(sb, d, table, i);
      if table[i].typ == DirCode.T_DIR {
        assert Known(table, view, i) && DirFine(sb, d, table, view, i);
        var es := Entries(sb, d, table, i);
        LookupIn(es, Cut(names[0]));
        var next := Lookup(es, Cut(names[0]));
        if next.Some? {
          var e :| e in es && e.inum == next.value != 0;
          ReachableNeverMeets(sb, d, table, view, next.value, names[1..]);
        }
      }
    }
  }

  /** A removed directory whose parent has been freed since: every path on through ".." meets it. */
  lemma RemovedParent(sb: Super, d: Disk, table: map<nat, Dinode>, i: nat, n: nat, names: seq<string>)
    requires AllFiles(sb, d, table) && i in table && table[i].typ == DirCode.T_DIR && n in table && table[n].typ == 0
    requires Lookup(Entries(sb, d, table, i), "..") == Some(n) && |names| >= 2 && names[0] == ".."
    ensures Meets(table, TreeOf(sb, d, table), i, names)
  {
    hide AllFiles, Lookup, Entries, TreeOf;
    NodeIs(sb, d, table, i);
    assert Cut(names[0]) == "..";
    assert Meets(table, TreeOf(sb, d, table), n, names[1..]);
  }

  /**
   Entry a is the last reference to a removed directory, and entry b is held on another one whose ".." is
   the inode of a. Once a is let go, opening "../x" from b panics, in ilock if the cache had an empty entry.
   */
  method ParentGone(c: Cache, a: nat, b: nat) returns (end: WalkEnd)
    requires c.Valid() && TreeOk(c.fs.sb, c.fs.blocks, c.table, c.View()) && a < |c.inodes| && b < |c.inodes|
    requires c.inodes[a].valid && c.inodes[a].nlink == 0 && c.inodes[a].ref == 1 && c.inodes[b].ref > 0 && a != b
    requires c.inodes[b].inum in c.table && c.table[c.inodes[b].inum].typ == DirCode.T_DIR
    requires Lookup(Entries(c.fs.sb, c.fs.blocks, c.table, c.inodes[b].inum), "..") == Some(c.inodes[a].inum)
    modifies c, c.fs, c.inodes, set ip | ip in c.inodes :: ip.addrs
    ensures end == NoType || (end == NoEntry && forall e :: 0 <= e < |old(c.View())| ==> old(c.View())[e].ref > 0)
    ensures old(c.inodes[a].inum) in old(c.table) && c.table == old(c.table)[old(c.inodes[a].inum) := Emptied(old(c.table)[old(c.inodes[a].inum)])]
  {
    hide AllFiles, Exact, Loaded, SameFile, Covers, GivenBack, TreeOk, TreeOf, Entries, Lookup, Meets, Goal, Split, Cache.View, Cache.Shape, Back, Extra, Stays, Crowded, Emptied;
    ghost var d0, t0, v0, n, m := c.fs.blocks, c.table, c.View(), c.inodes[a].inum, c.inodes[b].inum;
    c.ViewAt(a);
    c.ViewAt(b);
    OneEntry(c.View(), c.handles, a, b);
    c.Iput(a);
    c.ViewAt(b);
    assert c.table[m] == t0[m];
    EvictedEntries(c.fs.sb, d0, t0, c.fs.blocks, n, m);
    EmptiedType(t0[n]);
    UpThenX();
    RemovedParent(c.fs.sb, c.fs.blocks, c.table, m, n, Split("../x"));
    var k, name;
    ghost var v, start := c.View(), 0;
    end, k, name, start := c.Namex("../x", b, false);
    if Crowded(v) { CrowdedBefore(v0, v, a); }
  }

  lemma CrowdedBefore(v0: seq<Slot>, v: seq<Slot>, a: nat)
    requires a < |v0| == |v| && v == v0[a := v[a]] && v0[a].ref > 0 && v[a].ref == 0 && Crowded(v)
    ensures forall e :: 0 <= e < |v0| ==> v0[e].ref > 0
  {
    forall e | 0 <= e < |v0| ensures v0[e].ref > 0 {
      if e != a { assert v[e] == v0[e]; }
    }
  }

  lemma OneEntry(view: seq<Slot>, handles: multiset<nat>, a: nat, b: nat)
    requires Exact(view, handles) && a < |view| && b < |view| && a != b && view[a].ref > 0 && view[b].ref > 0
    ensures view[a].inum != view[b].inum
  {
  }

  lemma EmptiedType(v: Dinode)
    ensures Emptied(v).typ == 0
  {
  }

  lemma UpThenX()
    ensures Split("../x") == ["..", "x"]
  {
    var names := ["..", "x"];
    assert Join(names[1..]) == "/x" + Join([]) == "/x";
    assert Join(names) == "/../x";
    SplitJoin(names);
    SplitSkips("/../x");
    assert "/../x"[1..] == "../x" && SkipSlashes("/../x") == SkipSlashes("../x") == "../x";
  }

  datatype WalkEnd = Found | Missing | NoEntry | NoType

  /** One of the inodes that the walk locks on its way is free. */
  ghost predicate Meets(table: map<nat, Dinode>, tree: map<nat, Node>, ip: nat, names: seq<string>)
    decreases |names|
  {
    names != [] &&
    ((ip in table && table[ip].typ == 0) ||
     match NodeAt(tree, ip)
     case Other => false
     case Dir(es) =>
       var next := Lookup(es, Cut(names[0]));
       next.Some? && Meets(table, tree, next.value, names[1..]))
  }

  lemma MeetsNone(table: map<nat, Dinode>, tree: map<nat, Node>, ip: nat)
    ensures !Meets(table, tree, ip, [])
  {
  }

  lemma MeetsStep(table: map<nat, Dinode>, tree: map<nat, Node>, ip: nat, names: seq<string>)
    requires names != []
    ensures ip in table && table[ip].typ == 0 ==> Meets(table, tree, ip, names)
    ensures ip in table && table[ip].typ != 0 ==>
              Meets(table, tree, ip, names) ==
              match NodeAt(tree, ip)
              case Other => false
              case Dir(es) =>
                var next := Lookup(es, Cut(names[0]));
                next.Some? && |names| > 1 && Meets(table, tree, next.value, names[1..])
  {
  }

  lemma NodeIs(sb: Super, d: Disk, table: map<nat, Dinode>, i: nat)
    requires AllFiles(sb, d, table) && i in table
    ensures NodeAt(TreeOf(sb, d, table), i) == if table[i].typ == DirCode.T_DIR then Dir(Entries(sb, d, table, i)) else Other
  {
    hide AllFiles, FileBytes, DirCode.Entries;
  }

  lemma EntryKnown(sb: Super, d: Disk, table: map<nat, Dinode>, view: seq<Slot>, i: nat, off: nat)
    requires AllFiles(sb, d, table) && i in table && DirFine(sb, d, table, view, i)
    requires off % 16 == 0 && off + 16 <= |FileBytes(sb, d, table, i)|
    ensures DirCode.DirentAt(FileBytes(sb, d, table, i), off).inum != 0 ==>
              Known(table, view, DirCode.DirentAt(FileBytes(sb, d, table, i), off).inum)
  {
    hide AllFiles, FileBytes, DirCode.Entries, DirCode.DirentAt, Known;
    DirCode.EntryAt(FileBytes(sb, d, table, i), off / 16);
    assert Entries(sb, d, table, i)[off / 16] in Entries(sb, d, table, i);
  }

  /** The references in refs and one more, on inode i. */
  function With(refs: multiset<nat>, i: nat): multiset<nat> {
    refs + multiset{i}
  }

  lemma WithLess(h: multiset<nat>, n: nat)
    ensures With(h, n) - multiset{n} == h
  {
  }

  lemma WithMoved(h: multiset<nat>, n: nat, m: nat)
    ensures With(h, n) + multiset{m} - multiset{n} == With(h, m)
  {
  }

  /** Entry k has one reference more than it had. */
  predicate Extra(v0: seq<Slot>, v: seq<Slot>, k: nat) {
    |v| == |v0| && forall i :: 0 <= i < |v| ==> v[i].ref == v0[i].ref + One(i == k) && (v0[i].ref > 0 ==> v[i].inum == v0[i].inum)
  }

  predicate Back(v0: seq<Slot>, v: seq<Slot>) {
    |v| == |v0| && forall i :: 0 <= i < |v| ==> v[i].ref == v0[i].ref && (v0[i].ref > 0 ==> v[i].inum == v0[i].inum)
  }

  lemma ExtraAt(v0: seq<Slot>, v: seq<Slot>, k: nat)
    requires Extra(v0, v, k) && k < |v|
    ensures |v| == |v0| && v[k].ref == v0[k].ref + 1
  {
  }

  lemma ExtraSame(v0: seq<Slot>, v: seq<Slot>, k: nat, v1: seq<Slot>)
    requires Extra(v0, v, k) && k < |v| == |v1| && v1 == v[k := v1[k]] && v1[k].ref == v[k].ref && v1[k].inum == v[k].inum
    ensures Extra(v0, v1, k)
  {
    assert forall i :: 0 <= i < |v| && i != k ==> v1[i] == v[i];
  }

  lemma Dropped(v0: seq<Slot>, v: seq<Slot>, k: nat, v1: seq<Slot>)
    requires Extra(v0, v, k) && k < |v| == |v1| && v1 == v[k := v1[k]] && v1[k].ref == v[k].ref - 1 && v1[k].inum == v[k].inum
    ensures Back(v0, v1)
  {
    assert forall i :: 0 <= i < |v| && i != k ==> v1[i] == v[i];
  }

  /** The extra reference moves from entry k to entry n, which may be the same. */
  lemma Moved(v0: seq<Slot>, v: seq<Slot>, k: nat, v1: seq<Slot>, n: nat, v2: seq<Slot>)
    requires Extra(v0, v, k) && k < |v| == |v1| == |v2| == |v0| && n < |v|
    requires v1 == v[n := v1[n]] && v1[n].ref == v[n].ref + 1 && (v[n].ref > 0 ==> v1[n].inum == v[n].inum)
    requires v2 == v1[k := v2[k]] && v2[k].ref == v1[k].ref - 1 && v2[k].inum == v1[k].inum
    ensures Extra(v0, v2, n) && v2[n].inum == v1[n].inum
  {
    forall i | 0 <= i < |v2| ensures v2[i].ref == v0[i].ref + One(i == n) && (v0[i].ref > 0 ==> v2[i].inum == v0[i].inum) {
      assert v[i].ref == v0[i].ref + One(i == k);
      assert i != n ==> v1[i] == v[i];
      assert i != k ==> v2[i] == v1[i];
    }
  }

  lemma NoneFree(v0: seq<Slot>, v: seq<Slot>, k: nat)
    requires Extra(v0, v, k) && forall i :: 0 <= i < |v| ==> v[i].ref > 0
    ensures Crowded(v0)
  {
    forall i, j | 0 <= i < |v0| && 0 <= j < |v0| && i != j ensures v0[i].ref > 0 || v0[j].ref > 0 {
      assert v[i].ref == v0[i].ref + One(i == k) && v[j].ref == v0[j].ref + One(j == k);
    }
  }

  /** Dropping the extra reference to entry k does not free its inode: it is free, has a link, or someone else has it. */
  predicate Stays(v0: seq<Slot>, v: seq<Slot>, table: map<nat, Dinode>, k: nat)
    requires |v| == |v0|
  {
    k < |v| && v[k].inum in table && (table[v[k].inum].typ == 0 || table[v[k].inum].nlink > 0 || v0[k].ref > 0)
  }

  /** An inode that was in use keeps its entry, so a walk that comes to it is not its only holder. */
  lemma MovedStays(v0: seq<Slot>, v: seq<Slot>, handles: multiset<nat>, table: map<nat, Dinode>, n: nat)
    requires |v| == |v0| && n < |v| && Extra(v0, v, n) && Exact(v, handles) && Known(table, v0, v[n].inum)
    ensures Stays(v0, v, table, n)
  {
    if InUse(v0, v[n].inum) {
      var j :| 0 <= j < |v0| && v0[j].ref > 0 && v0[j].inum == v[n].inum;
      assert v[j].ref == v0[j].ref + One(j == n) && v[j].inum == v[n].inum && v[n].ref == v0[n].ref + 1;
    }
  }

  /** At most one entry is free. */
  predicate Crowded(v: seq<Slot>) {
    forall i, j :: 0 <= i < |v| && 0 <= j < |v| && i != j ==> v[i].ref > 0 || v[j].ref > 0
  }
}
