/** How many free blocks a write needs, counted against the free map. */
module FsSpace {
  import opened Common
  import opened FsFormat
  import opened FsSpec
  import opened FsBytes

  ghost function FreeBlocks(sb: Super, d: Disk): set<nat>
    requires sb.Layout() && |d| == sb.size
  {
    set x | 0 <= x < sb.size && !Used(sb, d, x)
  }

  /** The number of blocks marked free. */
  ghost function Space(sb: Super, d: Disk): nat
    requires sb.Layout() && |d| == sb.size
  {
    |FreeBlocks(sb, d)|
  }

  lemma SpaceSame(sb: Super, d: Disk, e: Disk)
    requires sb.Layout() && |d| == |e| == sb.size && forall x :: 0 <= x < sb.size ==> Used(sb, e, x) == Used(sb, d, x)
    ensures Space(sb, e) == Space(sb, d)
  {
    hide Used;
    assert FreeBlocks(sb, e) == FreeBlocks(sb, d);
  }

  lemma SpaceAlloced(sb: Super, d: Disk, e: Disk, b: nat)
    requires DiskOk(sb, d) && Alloced(sb, d, e, b)
    ensures Space(sb, e) == Space(sb, d) - 1
  {
    hide Used;
    assert FreeBlocks(sb, d) == FreeBlocks(sb, e) + {b} && b !in FreeBlocks(sb, e);
  }

  lemma SpaceFreed(sb: Super, d: Disk, e: Disk, xs: set<nat>)
    requires sb.Layout() && |d| == |e| == sb.size && forall x :: x in xs ==> x < sb.size && Used(sb, d, x)
    requires forall x :: 0 <= x < sb.size ==> Used(sb, e, x) == (Used(sb, d, x) && x !in xs)
    ensures Space(sb, e) == Space(sb, d) + |xs|
  {
    hide Used;
    assert FreeBlocks(sb, e) == FreeBlocks(sb, d) + xs && FreeBlocks(sb, d) !! xs;
  }

  /** Truncation gives back every block the file named. */
  lemma TruncSpace(sb: Super, d: Disk, addrs: seq<nat>, e: Disk, b: nat, others: set<nat>)
    requires DiskOk(sb, d) && FileOk(sb, d, addrs, others) && Truncated(sb, d, e, Named(d, addrs), b)
    ensures DiskOk(sb, e) && Space(sb, e) == Space(sb, d) + |Named(d, addrs)|
  {
    hide Used, Refs;
    forall x | x in Named(d, addrs) ensures Mine(sb, d, x, others) {}
    SpaceFreed(sb, d, e, Named(d, addrs));
  }

  lemma SpaceNone(sb: Super, d: Disk)
    requires sb.Layout() && |d| == sb.size && forall x :: 0 <= x < sb.size ==> Used(sb, d, x)
    ensures Space(sb, d) == 0
  {
    hide Used;
    assert FreeBlocks(sb, d) == {};
  }

  // ----- what a file lacks -----

  /** The blocks bmap allocates to map part bn of a file: its block, and the indirect block on the way. */
  function PartNeed(r: seq<nat>, ind: nat, bn: nat): nat
    requires bn < |r|
  {
    One(r[bn] == 0) + One(bn >= NDIRECT && ind == 0)
  }

  /** The parts i up to j that have no block. */
  function Holes(r: seq<nat>, i: nat, j: nat): nat
    requires j <= |r|
    decreases j - i
  {
    if i >= j then 0 else One(r[i] == 0) + Holes(r, i + 1, j)
  }

  /** The blocks a file needs so that parts i up to j are mapped. */
  function RangeNeed(r: seq<nat>, ind: nat, i: nat, j: nat): nat
    requires j <= |r|
  {
    Holes(r, i, j) + One(i < j && j > NDIRECT && ind == 0)
  }

  /** The blocks it takes to write n bytes at off. */
  function WriteNeed(r: seq<nat>, ind: nat, off: nat, n: nat): nat
    requires |r| == MAXFILE && off + n <= MAXBYTES
  {
    RangeNeed(r, ind, off / 512, EndPart(off, n))
  }

  /** The part after the last one that n bytes at off reach into. */
  function EndPart(off: nat, n: nat): nat {
    if n == 0 then off / 512 else (off + n - 1) / 512 + 1
  }

  /** The part that comes next with tot of the bytes written. */
  function NextPart(off: nat, n: nat, tot: nat): nat {
    if tot < n then (off + tot) / 512 else EndPart(off, n)
  }

  lemma {:induction false} HolesKept(r: seq<nat>, s: seq<nat>, i: nat, j: nat)
    requires |r| == |s| && j <= |r| && forall k :: i <= k < j ==> (r[k] == 0 <==> s[k] == 0)
    ensures Holes(r, i, j) == Holes(s, i, j)
    decreases j - i
  {
    if i < j { HolesKept(r, s, i + 1, j); }
  }

  lemma {:induction false} HolesSplit(r: seq<nat>, i: nat, k: nat, j: nat)
    requires i <= k <= j <= |r|
    ensures Holes(r, i, j) == Holes(r, i, k) + Holes(r, k, j)
    decreases k - i
  {
    if i < k { HolesSplit(r, i + 1, k, j); }
  }

  lemma {:induction false} NoHoles(r: seq<nat>, i: nat, j: nat)
    requires j <= |r| && forall k :: i <= k < j ==> r[k] != 0
    ensures Holes(r, i, j) == 0
    decreases j - i
  {
    if i < j { NoHoles(r, i + 1, j); }
  }

  /** From the map (r0, ind0) to (r, ind) the parts i up to j have got their blocks, and no other has. */
  ghost predicate FilledIn(r0: seq<nat>, ind0: nat, r: seq<nat>, ind: nat, i: nat, j: nat) {
    && |r| == |r0|
    && (forall p :: 0 <= p < |r| ==> (r[p] == 0 <==> r0[p] == 0 && !(i <= p < j)))
    && (ind == 0 <==> ind0 == 0 && !(i < j && j > NDIRECT))
  }

  lemma FilledNext(r0: seq<nat>, ind0: nat, r: seq<nat>, ind: nat, i: nat, j: nat, addr: nat, ind': nat)
    requires FilledIn(r0, ind0, r, ind, i, j) && i <= j < |r| && addr != 0 && (ind' == 0 <==> ind == 0 && j < NDIRECT)
    ensures FilledIn(r0, ind0, r[j := addr], ind', i, j + 1)
  {
  }

  lemma EndParts(off: nat, k: nat, n: nat)
    requires n > 0
    ensures off / 512 <= EndPart(off, k) <= EndPart(off, k + n) == EndPart(off + k, n)
    ensures off / 512 < EndPart(off, k + n) && (off + k) / 512 < EndPart(off + k, n)
    ensures if k == 0 then (off + k) / 512 == EndPart(off, k) else EndPart(off, k) - 1 <= (off + k) / 512 <= EndPart(off, k)
    ensures k > 0 ==> off / 512 <= (off + k) / 512 && off / 512 < EndPart(off, k)
    ensures off + k + n <= MAXBYTES ==> EndPart(off, k + n) <= MAXFILE
  {
  }

  /** Two adjacent writes, the second on what the first left, need what one write of both does. */
  lemma NeedJoin(r0: seq<nat>, ind0: nat, r: seq<nat>, ind: nat, off: nat, k: nat, n: nat)
    requires |r0| == MAXFILE && off + k + n <= MAXBYTES && n > 0 && FilledIn(r0, ind0, r, ind, off / 512, EndPart(off, k))
    ensures WriteNeed(r0, ind0, off, k + n) == WriteNeed(r0, ind0, off, k) + WriteNeed(r, ind, off + k, n)
  {
    var i, j, s, e := off / 512, EndPart(off, k), (off + k) / 512, EndPart(off, k + n);
    EndParts(off, k, n);
    hide EndPart;
    HolesSplit(r0, i, j, e);
    HolesSplit(r, s, j, e);
    HolesKept(r0, r, j, e);
    NoHoles(r, s, j);
  }

  lemma FilledJoin(r0: seq<nat>, ind0: nat, r: seq<nat>, ind: nat, r': seq<nat>, ind': nat, off: nat, k: nat, n: nat)
    requires n > 0 && FilledIn(r0, ind0, r, ind, off / 512, EndPart(off, k))
    requires FilledIn(r, ind, r', ind', (off + k) / 512, EndPart(off + k, n))
    ensures FilledIn(r0, ind0, r', ind', off / 512, EndPart(off, k + n))
  {
    EndParts(off, k, n);
    hide EndPart;
  }

  lemma NeedGrows(r: seq<nat>, ind: nat, off: nat, a: nat, b: nat)
    requires |r| == MAXFILE && a <= b && off + b <= MAXBYTES
    ensures WriteNeed(r, ind, off, a) <= WriteNeed(r, ind, off, b)
  {
    if a < b {
      EndParts(off, a, b - a);
      HolesSplit(r, off / 512, EndPart(off, a), EndPart(off, b));
    }
  }

  /** Mapping one part leaves the need of the parts after it. */
  lemma NeedNext(r: seq<nat>, ind: nat, i: nat, j: nat, addr: nat, ind': nat)
    requires i < j <= |r| && (ind' == 0 <==> ind == 0 && i < NDIRECT)
    ensures RangeNeed(r, ind, i, j) == PartNeed(r, ind, i) + RangeNeed(r[i := addr], ind', i + 1, j)
  {
    HolesKept(r, r[i := addr], i + 1, j);
  }

  // ----- what bmap and the write loop take -----

  /** From (d, addrs) to (e, after) exactly the blocks that part bn lacked were taken. */
  ghost predicate Took(sb: Super, d: Disk, addrs: seq<nat>, e: Disk, after: seq<nat>, bn: nat)
    requires sb.Layout() && |d| == |e| == sb.size && |addrs| == |after| == NDIRECT + 1 && addrs[NDIRECT] < |d| && bn < MAXFILE
  {
    && Space(sb, e) + PartNeed(Refs(d, addrs), addrs[NDIRECT], bn) == Space(sb, d)
    && (after[NDIRECT] == 0 <==> addrs[NDIRECT] == 0 && bn < NDIRECT)
  }

  /** Writing a data block marks nothing. */
  lemma SpaceWrite(sb: Super, d: Disk, b: nat, data: Block)
    requires DiskOk(sb, d) && sb.IsData(b)
    ensures Space(sb, d[b := data]) == Space(sb, d)
  {
    DataWriteKeepsUsed(sb, d, b, data);
    SpaceSame(sb, d, d[b := data]);
  }

  lemma IndirectData(sb: Super, d: Disk, addrs: seq<nat>, others: set<nat>)
    requires DiskOk(sb, d) && FileOk(sb, d, addrs, others) && addrs[NDIRECT] != 0
    ensures sb.IsData(addrs[NDIRECT])
  {
  }

  /** Nor does it remap the file the block belongs to. */
  lemma RefsWrite(sb: Super, d: Disk, addrs: seq<nat>, bn: nat, data: Block, others: set<nat>)
    requires DiskOk(sb, d) && FileOk(sb, d, addrs, others) && bn < MAXFILE && Refs(d, addrs)[bn] != 0
    ensures Refs(d, addrs)[bn] < |d| && sb.IsData(Refs(d, addrs)[bn])
    ensures Refs(d[Refs(d, addrs)[bn] := data], addrs) == Refs(d, addrs)
  {
    hide Used, Word;
    assert Mine(sb, d, Refs(d, addrs)[bn], others);
  }

  /** The rest of a write starts at part i: what it needs and what is free differ as they did at the start. */
  ghost predicate Surplus(sb: Super, d0: Disk, a0: seq<nat>, i0: nat, d: Disk, addrs: seq<nat>, i: nat, j: nat)
    requires sb.Layout() && |d0| == |d| == sb.size && |a0| == |addrs| == NDIRECT + 1
    requires a0[NDIRECT] < |d0| && addrs[NDIRECT] < |d| && j <= MAXFILE
  {
    && Space(sb, d) + RangeNeed(Refs(d0, a0), a0[NDIRECT], i0, j) == Space(sb, d0) + RangeNeed(Refs(d, addrs), addrs[NDIRECT], i, j)
    && i0 <= i && FilledIn(Refs(d0, a0), a0[NDIRECT], Refs(d, addrs), addrs[NDIRECT], i0, i)
  }

  /** Writing n bytes at off made the file (d, addrs) of (d0, a0): the range has its blocks, and they were free. */
  ghost predicate Spent(sb: Super, d0: Disk, a0: seq<nat>, d: Disk, addrs: seq<nat>, off: nat, n: nat)
    requires sb.Layout() && |d0| == |d| == sb.size && |a0| == |addrs| == NDIRECT + 1
    requires a0[NDIRECT] < |d0| && addrs[NDIRECT] < |d| && off + n <= MAXBYTES
  {
    && Space(sb, d) + WriteNeed(Refs(d0, a0), a0[NDIRECT], off, n) == Space(sb, d0)
    && FilledIn(Refs(d0, a0), a0[NDIRECT], Refs(d, addrs), addrs[NDIRECT], off / 512, EndPart(off, n))
  }

  lemma SpentNothing(sb: Super, d: Disk, addrs: seq<nat>, off: nat)
    requires sb.Layout() && |d| == sb.size && |addrs| == NDIRECT + 1 && addrs[NDIRECT] < |d| && off <= MAXBYTES
    ensures Spent(sb, d, addrs, d, addrs, off, 0)
  {
  }

  lemma SpentJoin(sb: Super, d0: Disk, a0: seq<nat>, d: Disk, a: seq<nat>, e: Disk, b: seq<nat>, off: nat, k: nat, n: nat)
    requires sb.Layout() && |d0| == |d| == |e| == sb.size && |a0| == |a| == |b| == NDIRECT + 1 && n > 0
    requires a0[NDIRECT] < |d0| && a[NDIRECT] < |d| && b[NDIRECT] < |e| && off + k + n <= MAXBYTES
    requires Spent(sb, d0, a0, d, a, off, k) && Spent(sb, d, a, e, b, off + k, n)
    ensures Spent(sb, d0, a0, e, b, off, k + n)
  {
    hide Refs, Space, WriteNeed, FilledIn;
    NeedJoin(Refs(d0, a0), a0[NDIRECT], Refs(d, a), a[NDIRECT], off, k, n);
    FilledJoin(Refs(d0, a0), a0[NDIRECT], Refs(d, a), a[NDIRECT], Refs(e, b), b[NDIRECT], off, k, n);
  }

  /** Too little is left for n bytes more: there was too little for all of them. */
  lemma SpentShort(sb: Super, d0: Disk, a0: seq<nat>, d: Disk, a: seq<nat>, off: nat, k: nat, n: nat)
    requires sb.Layout() && |d0| == |d| == sb.size && |a0| == |a| == NDIRECT + 1 && n > 0
    requires a0[NDIRECT] < |d0| && a[NDIRECT] < |d| && off + k + n <= MAXBYTES && Spent(sb, d0, a0, d, a, off, k)
    requires Space(sb, d) < WriteNeed(Refs(d, a), a[NDIRECT], off + k, n)
    ensures Space(sb, d0) < WriteNeed(Refs(d0, a0), a0[NDIRECT], off, k + n)
  {
    hide Refs, Space, WriteNeed, FilledIn;
    NeedJoin(Refs(d0, a0), a0[NDIRECT], Refs(d, a), a[NDIRECT], off, k, n);
  }

  lemma SurplusStart(sb: Super, d: Disk, addrs: seq<nat>, i: nat, j: nat)
    requires sb.Layout() && |d| == sb.size && |addrs| == NDIRECT + 1 && addrs[NDIRECT] < |d| && j <= MAXFILE
    ensures Surplus(sb, d, addrs, i, d, addrs, i, j)
  {
  }

  lemma SurplusNext(sb: Super, d0: Disk, a0: seq<nat>, i0: nat, d: Disk, addrs: seq<nat>, i: nat, j: nat, e: Disk, after: seq<nat>, addr: nat)
    requires sb.Layout() && |d0| == |d| == |e| == sb.size && |a0| == |addrs| == |after| == NDIRECT + 1
    requires a0[NDIRECT] < |d0| && addrs[NDIRECT] < |d| && after[NDIRECT] < |e| && i < j <= MAXFILE
    requires Surplus(sb, d0, a0, i0, d, addrs, i, j) && Took(sb, d, addrs, e, after, i) && Refs(e, after) == Refs(d, addrs)[i := addr] && addr != 0
    ensures Surplus(sb, d0, a0, i0, e, after, i + 1, j)
  {
    hide Refs, Space, RangeNeed, PartNeed, FilledIn;
    FilledNext(Refs(d0, a0), a0[NDIRECT], Refs(d, addrs), addrs[NDIRECT], i0, i, addr, after[NDIRECT]);
    NeedNext(Refs(d, addrs), addrs[NDIRECT], i, j, addr, after[NDIRECT]);
  }

  lemma SurplusShort(sb: Super, d0: Disk, a0: seq<nat>, i0: nat, d: Disk, addrs: seq<nat>, i: nat, j: nat)
    requires sb.Layout() && |d0| == |d| == sb.size && |a0| == |addrs| == NDIRECT + 1
    requires a0[NDIRECT] < |d0| && addrs[NDIRECT] < |d| && i < j <= MAXFILE
    requires Surplus(sb, d0, a0, i0, d, addrs, i, j) && Space(sb, d) < PartNeed(Refs(d, addrs), addrs[NDIRECT], i)
    ensures Space(sb, d0) < RangeNeed(Refs(d0, a0), a0[NDIRECT], i0, j)
  {
    hide Refs, Space, RangeNeed, PartNeed;
    var ind := if addrs[NDIRECT] == 0 && i < NDIRECT then 0 else 1;
    NeedNext(Refs(d, addrs), addrs[NDIRECT], i, j, 0, ind);
  }

  lemma SurplusEnd(sb: Super, d0: Disk, a0: seq<nat>, d: Disk, addrs: seq<nat>, off: nat, n: nat)
    requires sb.Layout() && |d0| == |d| == sb.size && |a0| == |addrs| == NDIRECT + 1
    requires a0[NDIRECT] < |d0| && addrs[NDIRECT] < |d| && off + n <= MAXBYTES
    requires Surplus(sb, d0, a0, off / 512, d, addrs, EndPart(off, n), EndPart(off, n))
    ensures Spent(sb, d0, a0, d, addrs, off, n)
  {
    hide Refs, Space, FilledIn;
  }

  lemma PartBelow(off: nat, n: nat, tot: nat)
    requires tot < n && off + n <= MAXBYTES
    ensures NextPart(off, n, tot) == (off + tot) / 512 < EndPart(off, n) <= MAXFILE
  {
  }

  lemma RoundParts(off: nat, n: nat, tot: nat, m: nat)
    requires tot < n && 0 < m <= n - tot && InBlock(off + tot, m) && (tot + m < n ==> Aligned(off + (tot + m)))
    ensures NextPart(off, n, tot) == (off + tot) / 512 < EndPart(off, n) && NextPart(off, n, tot + m) == (off + tot) / 512 + 1
  {
  }

  /** Bytes below the size are in blocks the file has. */
  lemma NothingNeeded(d: Disk, addrs: seq<nat>, size: nat, off: nat, n: nat)
    requires |addrs| == NDIRECT + 1 && addrs[NDIRECT] < |d| && Mapped(Refs(d, addrs), size) && off + n <= size
    ensures WriteNeed(Refs(d, addrs), addrs[NDIRECT], off, n) == 0
  {
    if n > 0 {
      var r, i, j := Refs(d, addrs), off / 512, EndPart(off, n);
      assert forall k :: i <= k < j ==> k * 512 < size && r[k] != 0;
      NoHoles(r, i, j);
      assert r[j - 1] != 0 && (j > NDIRECT ==> addrs[NDIRECT] != 0);
    }
  }
}
