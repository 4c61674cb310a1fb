/**
 The circular free list of the K&R allocator: its shape, the blocks around it, and what
 inserting and taking a block does to them. Addresses count headers.
 */
module KrSpec {

  /** A block header: the next free block and this block's size in headers. */
  datatype Header = Header(ptr: int, size: nat)

  type Mem = map<int, Header>

  /** A run of memory. */
  datatype Seg = Seg(addr: int, size: nat) {
    function End(): int { addr + size }
    predicate Holds(x: int) { addr <= x < addr + size }
  }

  predicate Disjoint(a: Seg, b: Seg) {
    a.End() <= b.addr || b.End() <= a.addr
  }

  function Next(i: nat, k: nat): (j: nat)
    requires i < k
    ensures j < k
  {
    if i + 1 < k then i + 1 else 0
  }

  /** The free blocks in address order after the empty block `base`; no two of them touch. */
  ghost predicate Sorted(F: seq<Seg>, base: int) {
    && 1 <= |F| && F[0] == Seg(base, 0)
    && (forall i :: 1 <= i < |F| ==> 1 <= F[i].size)
    && (forall i, j :: 0 <= i < j < |F| ==> F[i].End() < F[j].addr)
  }

  /** The headers link the free blocks into a ring, with one wrap, and hold their sizes. */
  ghost predicate Linked(mem: Mem, F: seq<Seg>) {
    forall i :: 0 <= i < |F| ==> LinkAt(mem, F, i)
  }

  ghost predicate LinkAt(mem: Mem, F: seq<Seg>, i: nat)
    requires i < |F|
  {
    F[i].addr in mem && mem[F[i].addr] == Header(F[Next(i, |F|)].addr, F[i].size)
  }

  /** The live blocks are above base, hold their sizes, and overlap neither each other nor a free block. */
  ghost predicate LiveOk(mem: Mem, F: seq<Seg>, base: int, live: map<int, nat>) {
    && (forall a :: a in live ==> base < a && 1 <= live[a] && a in mem && mem[a].size == live[a])
    && (forall a, b :: a in live && b in live && a != b ==> Disjoint(Seg(a, live[a]), Seg(b, live[b])))
    && (forall a, i :: a in live && 0 <= i < |F| ==> Disjoint(Seg(a, live[a]), F[i]))
  }

  ghost predicate InFree(F: seq<Seg>, x: int) {
    exists i :: 0 <= i < |F| && F[i].Holds(x)
  }

  ghost predicate InLive(live: map<int, nat>, x: int) {
    exists a :: a in live && Seg(a, live[a]).Holds(x)
  }

  /** Free and live blocks together are exactly the memory obtained from sbrk. */
  ghost predicate Tiles(F: seq<Seg>, live: map<int, nat>, owned: set<int>) {
    forall x :: x in owned <==> InFree(F, x) || InLive(live, x)
  }

  // ----- replacing part of the list by one block -----

  /** F with the blocks a..b replaced by g. */
  function Put(F: seq<Seg>, a: nat, b: nat, g: Seg): seq<Seg>
    requires a <= b <= |F|
  {
    F[..a] + [g] + F[b..]
  }

  lemma PutSorted(F: seq<Seg>, base: int, a: nat, b: nat, g: Seg)
    requires Sorted(F, base) && 1 <= a <= b <= |F| && 1 <= g.size
    requires F[a - 1].End() < g.addr && (b < |F| ==> g.End() < F[b].addr)
    ensures Sorted(Put(F, a, b, g), base)
  {
    var Q := Put(F, a, b, g);
    forall i, j | 0 <= i < j < |Q| ensures Q[i].End() < Q[j].addr { PutOrder(F, base, a, b, g, i, j); }
  }

  lemma PutOrder(F: seq<Seg>, base: int, a: nat, b: nat, g: Seg, i: nat, j: nat)
    requires Sorted(F, base) && 1 <= a <= b <= |F| && 1 <= g.size && i < j < a + 1 + |F| - b
    requires F[a - 1].End() < g.addr && (b < |F| ==> g.End() < F[b].addr)
    ensures Put(F, a, b, g)[i].End() < Put(F, a, b, g)[j].addr
  {
    var x := if i < a then F[i] else if i == a then g else F[b + i - a - 1];
    var y := if j < a then F[j] else if j == a then g else F[b + j - a - 1];
    assert Put(F, a, b, g)[i] == x && Put(F, a, b, g)[j] == y;
    if i < a { assert F[i].End() <= F[a - 1].End(); }
    if j > a { assert F[b].addr <= y.addr; }
  }

  lemma PutLinked(mem: Mem, F: seq<Seg>, base: int, mem': Mem, a: nat, b: nat, g: Seg)
    requires Sorted(F, base) && Linked(mem, F) && 1 <= a <= b <= |F|
    requires forall i :: 0 <= i < |F| && (i < a - 1 || b <= i) ==> SameAt(mem, mem', F[i].addr)
    requires F[a - 1].addr in mem' && mem'[F[a - 1].addr] == Header(g.addr, F[a - 1].size)
    requires g.addr in mem' && mem'[g.addr] == Header(if b < |F| then F[b].addr else base, g.size)
    ensures Linked(mem', Put(F, a, b, g))
  {
    var Q := Put(F, a, b, g);
    forall i | 0 <= i < |Q| ensures LinkAt(mem', Q, i) {
      if i < a - 1 {
        assert LinkAt(mem, F, i) && SameAt(mem, mem', F[i].addr);
        assert Q[i] == F[i] && Q[i + 1] == F[i + 1];
      } else if i > a {
        var j := b + i - a - 1;
        assert LinkAt(mem, F, j) && SameAt(mem, mem', F[j].addr);
        assert Q[i] == F[j];
        if i + 1 < |Q| { assert Q[i + 1] == F[j + 1]; }
      }
    }
  }

  predicate SameAt(mem: Mem, mem': Mem, a: int) {
    a in mem && a in mem' && mem'[a] == mem[a]
  }

  /** The memory in the new list: what was outside a..b, and g. */
  lemma PutHolds(F: seq<Seg>, a: nat, b: nat, g: Seg, x: int)
    requires a <= b <= |F|
    ensures InFree(Put(F, a, b, g), x) <==> InFree(F[..a], x) || g.Holds(x) || InFree(F[b..], x)
  {
    var Q := Put(F, a, b, g);
    if InFree(Q, x) {
      var i :| 0 <= i < |Q| && Q[i].Holds(x);
      if i < a { assert F[..a][i].Holds(x); } else if i > a { assert F[b..][i - a - 1].Holds(x); }
    }
    if InFree(F[..a], x) {
      var i :| 0 <= i < a && F[..a][i].Holds(x);
      assert Q[i].Holds(x);
    }
    if InFree(F[b..], x) {
      var i :| 0 <= i < |F| - b && F[b..][i].Holds(x);
      assert Q[a + 1 + i].Holds(x);
    }
    if g.Holds(x) { assert Q[a].Holds(x); }
  }

  lemma SplitHolds(F: seq<Seg>, a: nat, x: int)
    requires a <= |F|
    ensures InFree(F, x) <==> InFree(F[..a], x) || InFree(F[a..], x)
  {
    if InFree(F, x) {
      var i :| 0 <= i < |F| && F[i].Holds(x);
      if i < a { assert F[..a][i].Holds(x); } else { assert F[a..][i - a].Holds(x); }
    }
    if InFree(F[a..], x) {
      var i :| 0 <= i < |F| - a && F[a..][i].Holds(x);
      assert F[a + i].Holds(x);
    }
  }

  lemma HeadHolds(F: seq<Seg>, a: nat, x: int)
    requires a < |F|
    ensures InFree(F[a..], x) <==> F[a].Holds(x) || InFree(F[a + 1..], x)
  {
    if InFree(F[a..], x) {
      var i :| 0 <= i < |F| - a && F[a..][i].Holds(x);
      if i > 0 { assert F[a + 1..][i - 1].Holds(x); }
    }
    if F[a].Holds(x) { assert F[a..][0].Holds(x); }
    if InFree(F[a + 1..], x) {
      var i :| 0 <= i < |F| - a - 1 && F[a + 1..][i].Holds(x);
      assert F[a..][i + 1].Holds(x);
    }
  }

  // ----- free -----

  /** The place of a block in the list: above F[t], below F[t + 1]. */
  ghost predicate Place(F: seq<Seg>, g: Seg, t: nat) {
    && t < |F| && F[t].addr < g.addr && F[t].End() <= g.addr
    && (t + 1 < |F| ==> g.End() <= F[t + 1].addr)
  }

  predicate TouchesBelow(F: seq<Seg>, g: Seg, t: nat)
    requires t < |F|
  {
    F[t].End() == g.addr
  }

  predicate TouchesAbove(F: seq<Seg>, g: Seg, t: nat)
    requires t < |F|
  {
    t + 1 < |F| && g.End() == F[t + 1].addr
  }

  /** g joined with the free blocks it touches. */
  function Joined(F: seq<Seg>, g: Seg, t: nat): Seg
    requires t < |F|
  {
    var up := if TouchesAbove(F, g, t) then Seg(g.addr, g.size + F[t + 1].size) else g;
    if TouchesBelow(F, g, t) then Seg(F[t].addr, F[t].size + up.size) else up
  }

  function FreeFrom(F: seq<Seg>, g: Seg, t: nat): nat
    requires t < |F|
  {
    if TouchesBelow(F, g, t) then t else t + 1
  }

  function FreeTo(F: seq<Seg>, g: Seg, t: nat): (b: nat)
    requires t < |F|
    ensures b <= |F|
  {
    if TouchesAbove(F, g, t) then t + 2 else t + 1
  }

  /** The list after g was freed. */
  function Freed(F: seq<Seg>, g: Seg, t: nat): seq<Seg>
    requires t < |F|
  {
    Put(F, FreeFrom(F, g, t), FreeTo(F, g, t), Joined(F, g, t))
  }

  lemma FreedSorted(F: seq<Seg>, base: int, g: Seg, t: nat)
    requires Sorted(F, base) && Place(F, g, t) && 1 <= g.size && base < g.addr
    ensures 1 <= FreeFrom(F, g, t) && Sorted(Freed(F, g, t), base)
  {
    PutSorted(F, base, FreeFrom(F, g, t), FreeTo(F, g, t), Joined(F, g, t));
  }

  lemma FreedHolds(F: seq<Seg>, g: Seg, t: nat, x: int)
    requires t < |F| && Place(F, g, t)
    ensures InFree(Freed(F, g, t), x) <==> InFree(F, x) || g.Holds(x)
  {
    var a, b := FreeFrom(F, g, t), FreeTo(F, g, t);
    PutHolds(F, a, b, Joined(F, g, t), x);
    SplitHolds(F, a, x);
    if a < b {
      HeadHolds(F, a, x);
      if a + 1 < b { HeadHolds(F, a + 1, x); }
    }
  }

  /** The headers after free(bp) with p the block below: the two joins, in the order the code makes them. */
  function JoinAbove(mem: Mem, p: int, bp: int): Mem
    requires p in mem && bp in mem && (bp + mem[bp].size == mem[p].ptr ==> mem[p].ptr in mem)
  {
    if bp + mem[bp].size == mem[p].ptr then
      mem[bp := Header(mem[mem[p].ptr].ptr, mem[bp].size + mem[mem[p].ptr].size)]
    else mem[bp := Header(mem[p].ptr, mem[bp].size)]
  }

  function JoinBelow(mem: Mem, p: int, bp: int): Mem
    requires p in mem && bp in mem
  {
    if p + mem[p].size == bp then mem[p := Header(mem[bp].ptr, mem[p].size + mem[bp].size)]
    else mem[p := Header(bp, mem[p].size)]
  }

  /** The headers outside the joined stretch keep their contents. */
  lemma FreedSame(mem: Mem, F: seq<Seg>, base: int, g: Seg, t: nat, i: nat)
    requires Sorted(F, base) && Linked(mem, F) && Place(F, g, t) && base < g.addr && 1 <= g.size
    requires g.addr in mem && mem[g.addr].size == g.size && i < |F| && (i < FreeFrom(F, g, t) - 1 || FreeTo(F, g, t) <= i)
    requires F[t].addr in mem && (g.addr + mem[g.addr].size == mem[F[t].addr].ptr ==> mem[F[t].addr].ptr in mem)
    ensures SameAt(mem, JoinBelow(JoinAbove(mem, F[t].addr, g.addr), F[t].addr, g.addr), F[i].addr)
  {
    assert LinkAt(mem, F, i);
    if i < t { assert F[i].End() < F[t].addr; } else { assert F[t].End() < F[i].addr; }
  }

  lemma FreedLinked(mem: Mem, F: seq<Seg>, base: int, g: Seg, t: nat)
    requires Sorted(F, base) && Linked(mem, F) && Place(F, g, t) && base < g.addr && 1 <= g.size
    requires g.addr in mem && mem[g.addr].size == g.size
    ensures F[t].addr in mem && (g.addr + mem[g.addr].size == mem[F[t].addr].ptr ==> mem[F[t].addr].ptr in mem)
    ensures Linked(JoinBelow(JoinAbove(mem, F[t].addr, g.addr), F[t].addr, g.addr), Freed(F, g, t))
  {
    assert LinkAt(mem, F, t);
    if t + 1 < |F| { assert LinkAt(mem, F, t + 1); }
    var m := JoinBelow(JoinAbove(mem, F[t].addr, g.addr), F[t].addr, g.addr);
    var a, b, h := FreeFrom(F, g, t), FreeTo(F, g, t), Joined(F, g, t);
    FreedSorted(F, base, g, t);
    forall i | 0 <= i < |F| && (i < a - 1 || b <= i) ensures SameAt(mem, m, F[i].addr) { FreedSame(mem, F, base, g, t, i); }
    if TouchesBelow(F, g, t) { assert LinkAt(mem, F, t - 1) && F[t - 1].End() < F[t].addr; }
    PutLinked(mem, F, base, m, a, b, h);
  }

  /** The joined block overlaps no live block that g and the free blocks did not overlap. */
  lemma FreedLive(mem: Mem, F: seq<Seg>, base: int, g: Seg, t: nat, live: map<int, nat>, m: Mem)
    requires Sorted(F, base) && Linked(mem, F) && Place(F, g, t) && base < g.addr
    requires LiveOk(mem, F, base, live) && g.addr in live && live[g.addr] == g.size
    requires forall a :: a in live && a != g.addr && a != F[t].addr ==> a in m && m[a].size == mem[a].size
    ensures LiveOk(m, Freed(F, g, t), base, live - {g.addr})
  {
    var Q := Freed(F, g, t);
    var rest := live - {g.addr};
    forall a | a in rest ensures a != F[t].addr {
      assert Disjoint(Seg(a, live[a]), F[t]);
      if t > 0 { assert 1 <= F[t].size; }
    }
    var lo, hi := FreeFrom(F, g, t), FreeTo(F, g, t);
    forall a, i | a in rest && 0 <= i < |Q| ensures Disjoint(Seg(a, rest[a]), Q[i]) {
      assert Disjoint(Seg(a, live[a]), g) && Disjoint(Seg(a, live[a]), F[t]);
      if t + 1 < |F| { assert Disjoint(Seg(a, live[a]), F[t + 1]); }
      if i < lo { assert Q[i] == F[i]; }
      else if i > lo { assert Q[i] == F[hi + i - lo - 1]; }
      else { JoinedDisjoint(F, base, g, t, Seg(a, live[a])); }
    }
  }

  lemma JoinedDisjoint(F: seq<Seg>, base: int, g: Seg, t: nat, b: Seg)
    requires Sorted(F, base) && Place(F, g, t) && 1 <= g.size && 1 <= b.size
    requires Disjoint(b, g) && Disjoint(b, F[t]) && (t + 1 < |F| ==> Disjoint(b, F[t + 1]))
    requires base < b.addr
    ensures Disjoint(b, Joined(F, g, t))
  {
  }

  lemma FreedTiles(F: seq<Seg>, g: Seg, t: nat, live: map<int, nat>, owned: set<int>)
    requires Place(F, g, t) && Tiles(F, live, owned) && g.addr in live && live[g.addr] == g.size
    ensures Tiles(Freed(F, g, t), live - {g.addr}, owned)
  {
    forall x ensures x in owned <==> InFree(Freed(F, g, t), x) || InLive(live - {g.addr}, x) {
      FreedHolds(F, g, t, x);
      LiveWithout(live, g.addr, x);
    }
  }

  lemma LiveWithout(live: map<int, nat>, a: int, x: int)
    requires a in live
    ensures InLive(live, x) <==> Seg(a, live[a]).Holds(x) || InLive(live - {a}, x)
  {
    if InLive(live, x) && !Seg(a, live[a]).Holds(x) {
      var b :| b in live && Seg(b, live[b]).Holds(x);
      assert b in live - {a};
    }
    if InLive(live - {a}, x) {
      var b :| b in live - {a} && Seg(b, (live - {a})[b]).Holds(x);
      assert b in live;
    }
  }

  // ----- the place of a block, and walking to it -----

  ghost function PlaceOf(F: seq<Seg>, a: int): (t: nat)
    requires F != [] && F[0].addr < a
    ensures t < |F| && F[t].addr < a
    ensures (forall i, j :: 0 <= i < j < |F| ==> F[i].addr < F[j].addr) && t + 1 < |F| ==> a <= F[t + 1].addr
  {
    if F[|F| - 1].addr < a then |F| - 1
    else
      assert |F| > 1;
      PlaceOf(F[..|F| - 1], a)
  }

  lemma PlaceOfLive(mem: Mem, F: seq<Seg>, base: int, live: map<int, nat>, a: int)
    requires Sorted(F, base) && LiveOk(mem, F, base, live) && a in live
    ensures Place(F, Seg(a, live[a]), PlaceOf(F, a))
    ensures forall i :: 0 <= i < |F| ==> F[i].addr != a
  {
    assert forall i, j :: 0 <= i < j < |F| ==> F[i].addr < F[j].addr;
    var t := PlaceOf(F, a);
    forall i | 0 <= i < |F| ensures F[i].addr != a {
      assert Disjoint(Seg(a, live[a]), F[i]);
    }
    assert Disjoint(Seg(a, live[a]), F[t]);
    if t + 1 < |F| { assert Disjoint(Seg(a, live[a]), F[t + 1]); }
  }

  /** Links to follow from i to t on a ring of k blocks. */
  function Dist(i: nat, t: nat, k: nat): nat
    requires i < k && t < k
  {
    if i <= t then t - i else k - i + t
  }

  // ----- malloc: taking -----

  lemma SplitSorted(F: seq<Seg>, base: int, i: nat, n: nat)
    requires Sorted(F, base) && 1 <= i < |F| && n < F[i].size
    ensures Sorted(F[i := Seg(F[i].addr, F[i].size - n)], base)
  {
  }

  lemma SplitLive(mem: Mem, F: seq<Seg>, base: int, live: map<int, nat>, i: nat, n: nat, m: Mem)
    requires Sorted(F, base) && Linked(mem, F) && LiveOk(mem, F, base, live) && 1 <= i < |F| && 1 <= n < F[i].size
    requires var p := F[i].End() - n;
             p in m && m[p].size == n && forall a :: a in live ==> a in m && m[a].size == mem[a].size
    ensures var p := F[i].End() - n;
            p !in live && LiveOk(m, F[i := Seg(F[i].addr, F[i].size - n)], base, live[p := n])
  {
    var p := F[i].End() - n;
    var Q := F[i := Seg(F[i].addr, F[i].size - n)];
    assert forall a :: a in live ==> Disjoint(Seg(a, live[a]), F[i]);
    forall j | 0 <= j < |Q| ensures Disjoint(Seg(p, n), Q[j]) {
      if j < i { assert F[j].End() < F[i].addr; } else if j > i { assert F[i].End() < F[j].addr; }
    }
    forall a, j | a in live && 0 <= j < |Q| ensures Disjoint(Seg(a, live[a]), Q[j]) {
      assert Disjoint(Seg(a, live[a]), F[j]);
    }
    assert F[0].End() < F[i].addr;
  }

  lemma SplitTiles(F: seq<Seg>, live: map<int, nat>, owned: set<int>, i: nat, n: nat)
    requires Tiles(F, live, owned) && i < |F| && n < F[i].size && F[i].End() - n !in live
    ensures Tiles(F[i := Seg(F[i].addr, F[i].size - n)], live[F[i].End() - n := n], owned)
  {
    var p, g := F[i].End() - n, Seg(F[i].addr, F[i].size - n);
    var live' := live[p := n];
    assert F[i := g] == Put(F, i, i + 1, g);
    assert live' - {p} == live;
    forall x ensures x in owned <==> InFree(F[i := g], x) || InLive(live', x) {
      PutHolds(F, i, i + 1, g, x);
      SplitHolds(F, i, x);
      HeadHolds(F, i, x);
      LiveWithout(live', p, x);
    }
  }

  /** The list without block i. */
  function Without(F: seq<Seg>, i: nat): (Q: seq<Seg>)
    requires i < |F|
    ensures |Q| == |F| - 1
  {
    F[..i] + F[i + 1..]
  }

  lemma WithoutSorted(F: seq<Seg>, base: int, i: nat)
    requires Sorted(F, base) && 1 <= i < |F|
    ensures Sorted(Without(F, i), base)
  {
    var Q := Without(F, i);
    forall j, l | 0 <= j < l < |Q| ensures Q[j].End() < Q[l].addr {
      assert Q[j] == F[if j < i then j else j + 1] && Q[l] == F[if l < i then l else l + 1];
    }
  }

  lemma WithoutLinked(mem: Mem, F: seq<Seg>, base: int, i: nat)
    requires Sorted(F, base) && Linked(mem, F) && 1 <= i < |F|
    ensures F[i - 1].addr in mem && F[i].addr in mem
    ensures Linked(mem[F[i - 1].addr := Header(mem[F[i].addr].ptr, mem[F[i - 1].addr].size)], Without(F, i))
  {
    assert LinkAt(mem, F, i) && LinkAt(mem, F, i - 1);
    var m := mem[F[i - 1].addr := Header(mem[F[i].addr].ptr, mem[F[i - 1].addr].size)];
    hide LinkAt, Without;
    forall j | 0 <= j < |Without(F, i)| ensures LinkAt(m, Without(F, i), j) {
      if j == i - 1 { WithoutLinkHere(mem, F, m, i); } else { WithoutLinkAt(mem, F, base, m, i, j); }
    }
  }

  lemma WithoutLinkHere(mem: Mem, F: seq<Seg>, m: Mem, i: nat)
    requires 1 <= i < |F| && LinkAt(mem, F, i) && LinkAt(mem, F, i - 1)
    requires m == mem[F[i - 1].addr := Header(mem[F[i].addr].ptr, mem[F[i - 1].addr].size)]
    ensures LinkAt(m, Without(F, i), i - 1)
  {
  }

  lemma WithoutLinkAt(mem: Mem, F: seq<Seg>, base: int, m: Mem, i: nat, j: nat)
    requires Sorted(F, base) && Linked(mem, F) && 1 <= i < |F| && j < |F| - 1 && j != i - 1
    requires F[i - 1].addr in m && m == mem[F[i - 1].addr := m[F[i - 1].addr]]
    ensures LinkAt(m, Without(F, i), j)
  {
    var l := if j < i then j else j + 1;
    assert LinkAt(mem, F, l);
    if j < i { assert F[j].End() < F[i - 1].addr; } else { assert F[i - 1].End() < F[l].addr; }
  }

  lemma WithoutLive(mem: Mem, F: seq<Seg>, base: int, live: map<int, nat>, i: nat, m: Mem)
    requires Sorted(F, base) && Linked(mem, F) && LiveOk(mem, F, base, live) && 1 <= i < |F|
    requires F[i].addr in m && m[F[i].addr].size == F[i].size && forall a :: a in live ==> a in m && m[a].size == mem[a].size
    ensures F[i].addr !in live && LiveOk(m, Without(F, i), base, live[F[i].addr := F[i].size])
  {
    var Q := Without(F, i);
    assert forall a :: a in live ==> Disjoint(Seg(a, live[a]), F[i]);
    forall j | 0 <= j < |Q| ensures Disjoint(F[i], Q[j]) && forall a :: a in live ==> Disjoint(Seg(a, live[a]), Q[j]) {
      var l := if j < i then j else j + 1;
      assert Q[j] == F[l];
      if l < i { assert F[l].End() < F[i].addr; } else { assert F[i].End() < F[l].addr; }
    }
    assert F[0].End() < F[i].addr;
  }

  lemma WithoutTiles(F: seq<Seg>, live: map<int, nat>, owned: set<int>, i: nat)
    requires Tiles(F, live, owned) && i < |F| && F[i].addr !in live
    ensures Tiles(Without(F, i), live[F[i].addr := F[i].size], owned)
  {
    var live' := live[F[i].addr := F[i].size];
    var Q := Without(F, i);
    assert live' - {F[i].addr} == live;
    forall x ensures x in owned <==> InFree(Q, x) || InLive(live', x) {
      SplitHolds(F, i, x);
      HeadHolds(F, i, x);
      SplitHolds(Q, i, x);
      assert Q[..i] == F[..i] && Q[i..] == F[i + 1..];
      LiveWithout(live', F[i].addr, x);
    }
  }
}
