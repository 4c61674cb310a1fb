/**
 malloc and free of umalloc.c: a circular list of headers, rewritten in place.
 */
module KrCode {
  import opened Common
  import opened KrSpec

  /** Request size in headers, with the unsigned 32-bit sum of the source. */
  function Units(nbytes: nat): (n: nat)
    requires nbytes < 0x1_0000_0000
    ensures 1 <= n <= 0x2000_0000
  {
    (nbytes + 8 - 1) % 0x1_0000_0000 / 8 + 1
  }

  /** The int that morecore passes to sbrk for nu headers. */
  function SbrkArg(nu: nat): int {
    var bytes := nu * 8 % 0x1_0000_0000;
    if bytes < 0x8000_0000 then bytes else bytes - 0x1_0000_0000
  }

  function CoreUnits(nu: nat): (n: nat)
    ensures n >= nu && n >= 4096 && (n == nu || n == 4096)
  {
    if nu < 4096 then 4096 else nu
  }

  /** A block of Units(nbytes) headers holds nbytes after its own header exactly when the sum did not wrap, and then none smaller does. */
  lemma UnitsHoldRequest(nbytes: nat)
    requires nbytes < 0x1_0000_0000
    ensures (Units(nbytes) - 1) * 8 >= nbytes <==> nbytes + 7 < 0x1_0000_0000
    ensures nbytes + 7 < 0x1_0000_0000 && Units(nbytes) > 1 ==> (Units(nbytes) - 2) * 8 < nbytes
  {
  }

  /** The largest request gets a block with no room at all. */
  lemma UnitsWrap()
    ensures Units(0xFFFF_FFFF) == 1
  {
  }

  /** sbrk is asked for what morecore records exactly when the byte count is a positive int. */
  lemma SbrkAskedInFull(nu: nat)
    requires 1 <= nu <= 0x2000_0000
    ensures SbrkArg(CoreUnits(nu)) == CoreUnits(nu) * 8 <==> CoreUnits(nu) * 8 < 0x8000_0000
  {
  }

  /** free stops its walk at the block below bp and nowhere else. */
  lemma StopsAtPlace(mem: Mem, F: seq<Seg>, base: int, g: Seg, i: nat, t: nat)
    requires Sorted(F, base) && Linked(mem, F) && Place(F, g, t) && base < g.addr && i < |F|
    requires forall j :: 0 <= j < |F| ==> F[j].addr != g.addr
    ensures F[i].addr in mem && mem[F[i].addr].ptr == F[Next(i, |F|)].addr
    ensures var p, q := F[i].addr, mem[F[i].addr].ptr;
            (g.addr > p && g.addr < q) || (p >= q && (g.addr > p || g.addr < q)) <==> i == t
  {
    assert LinkAt(mem, F, i);
    assert forall j, l :: 0 <= j < l < |F| ==> F[j].addr < F[l].addr;
  }

  class Allocator {
    const base: int
    var mem: Mem
    var freep: int

    /** The free list, the blocks handed out, the memory sbrk gave, and the first address above it. */
    ghost var F: seq<Seg>
    ghost var live: map<int, nat>
    ghost var owned: set<int>
    ghost var brk: int

    ghost predicate Valid()
      reads this
    {
      && 0 < base < brk && base in mem
      && (forall x :: x in owned ==> base < x < brk)
      && if freep == 0 then live == map[] && owned == {}
         else Sorted(F, base) && Linked(mem, F) && LiveOk(mem, F, base, live) && Tiles(F, live, owned)
              && exists i :: 0 <= i < |F| && F[i].addr == freep
    }

    constructor (base: int)
      requires 0 < base
      ensures Valid() && freep == 0 && live == map[] && owned == {} && this.base == base && brk == base + 1
    {
      this.base := base;
      mem := map[base := Header(0, 0)];
      freep, F, live, owned, brk := 0, [], map[], {}, base + 1;
    }

    /** The search loop of free: from freep round the ring to the block below bp. */
    method FindPlace(bp: int, ghost g: Seg, ghost t: nat) returns (p: int)
      requires Sorted(F, base) && Linked(mem, F) && exists i :: 0 <= i < |F| && F[i].addr == freep
      requires t < |F| && Place(F, g, t) && base < g.addr == bp && forall j :: 0 <= j < |F| ==> F[j].addr != g.addr
      ensures p == F[t].addr
    {
      hide Sorted, Linked, Place;
      p := freep;
      ghost var i :| 0 <= i < |F| && F[i].addr == freep;
      StopsAtPlace(mem, F, base, g, i, t);
      while !(bp > p && bp < mem[p].ptr)
        invariant 0 <= i < |F| && p == F[i].addr && p in mem && mem[p].ptr == F[Next(i, |F|)].addr
        invariant (bp > p && bp < mem[p].ptr) || (p >= mem[p].ptr && (bp > p || bp < mem[p].ptr)) <==> i == t
        decreases Dist(i, t, |F|)
      {
        if p >= mem[p].ptr && (bp > p || bp < mem[p].ptr) { break; }
        p := mem[p].ptr;
        i := Next(i, |F|);
        StopsAtPlace(mem, F, base, g, i, t);
      }
    }

    /** The two joins of free, or the links where there is nothing to join. */
    method Join(p: int, bp: int)
      requires p in mem && bp in mem && p != bp && (bp + mem[bp].size == mem[p].ptr ==> mem[p].ptr in mem)
      modifies this`mem
      ensures mem == JoinBelow(JoinAbove(old(mem), p, bp), p, bp)
      ensures forall a :: a in old(mem) ==> a in mem
    {
      JoinInOrder(mem, p, bp);
      hide JoinAbove, JoinBelow;
      if bp + mem[bp].size == mem[p].ptr {
        mem := mem[bp := Header(mem[mem[p].ptr].ptr, mem[bp].size + mem[mem[p].ptr].size)];
      } else {
        mem := mem[bp := Header(mem[p].ptr, mem[bp].size)];
      }
      if p + mem[p].size == bp {
        mem := mem[p := Header(mem[bp].ptr, mem[p].size + mem[bp].size)];
      } else {
        mem := mem[p := Header(bp, mem[p].size)];
      }
    }

    /** free: the block goes back into its place, joined with the free blocks it touches. */
    method Free(bp: int)
      requires Valid() && bp in live
      modifies this
      ensures Valid() && freep != 0
      ensures live == old(live) - {bp} && owned == old(owned) && brk == old(brk)
      ensures FreedAt(old(F), Seg(bp, old(live)[bp]), F, freep)
    {
      hide Sorted, Linked, LiveOk, Tiles, Freed, Place, JoinAbove, JoinBelow;
      ghost var g := Seg(bp, live[bp]);
      ghost var t := FreeStep(mem, F, base, live, owned, bp);
      var p := FindPlace(bp, g, t);
      Join(p, bp);
      freep := p;
      F, live := Freed(F, g, t), live - {bp};
    }

    /** morecore: at least 4096 headers from sbrk, which fails (-1) or grants memory above all earlier. */
    method Morecore(nu: nat, grant: int) returns (p: int)
      requires Valid() && freep != 0 && 1 <= nu && CoreUnits(nu) * 8 < 0x8000_0000 && (grant == -1 || brk <= grant)
      modifies this
      ensures Valid() && freep != 0 && live == old(live)
      ensures grant == -1 ==> p == 0 && owned == old(owned) && brk == old(brk) && F == old(F) && mem == old(mem) && freep == old(freep)
      ensures grant != -1 ==> p == freep && owned == old(owned) + Range(grant, CoreUnits(nu)) && brk == grant + CoreUnits(nu)
      ensures grant != -1 ==> HasRoom(F, nu)
    {
      hide Sorted, Linked, LiveOk, Tiles, Freed, Range, CoreUnits;
      if grant == -1 {
        return 0;
      }
      var hp := grant;
      var n := CoreUnits(nu);
      GrantStep(mem, F, base, live, owned, brk, hp, n);
      mem := mem[hp := Header(if hp in mem then mem[hp].ptr else 0, n)];
      live, owned, brk := live[hp := n], owned + Range(hp, n), hp + n;
      ghost var F0 := F;
      Free(hp);
      FreedHasRoom(F0, Seg(hp, n), F, freep, nu);
      return freep;
    }

    /** Take nunits headers off block p, the i-th of the list, whose predecessor is prevp. */
    method Take(p: int, prevp: int, nunits: nat, ghost i: nat) returns (r: int)
      requires Valid() && freep != 0 && 1 <= i < |F| && F[i].addr == p && F[i - 1].addr == prevp && 1 <= nunits <= F[i].size
      modifies this
      ensures Valid() && freep != 0 && owned == old(owned) && brk == old(brk)
      ensures r - 1 !in old(live) && live == old(live)[r - 1 := nunits] && r != 0
      ensures Seg(p, old(F)[i].size).Holds(r - 1) && r - 1 + nunits == old(F)[i].End()
    {
      hide Sorted, Linked, LiveOk, Tiles;
      TakeStep(mem, F, base, live, owned, i, nunits);
      var q := p;
      if mem[q].size == nunits {
        mem := mem[prevp := Header(mem[q].ptr, mem[prevp].size)];
        F, live := Without(F, i), live[q := nunits];
      } else {
        mem := mem[q := Header(mem[q].ptr, mem[q].size - nunits)];
        q := q + mem[q].size;
        mem := mem[q := Header(if q in mem then mem[q].ptr else 0, nunits)];
        F, live := F[i := Seg(F[i].addr, F[i].size - nunits)], live[q := nunits];
      }
      freep := prevp;
      return q + 1;
    }

    /**
     malloc: first fit from freep round the ring, one morecore if nothing fits, null only if
     that fails. The block is new, exactly Units(nbytes) long, and part of the tiling.
     */
    method Malloc(nbytes: nat, grant: int) returns (r: int, ghost calls: nat)
      requires Valid() && nbytes < 0x1_0000_0000 && (grant == -1 || brk <= grant)
      requires CoreUnits(Units(nbytes)) * 8 < 0x8000_0000
      modifies this
      ensures Valid() && calls <= 1
      ensures r == 0 <==> calls == 1 && grant == -1
      ensures r == 0 ==> live == old(live) && owned == old(owned)
      ensures r != 0 ==> r - 1 !in old(live) && live == old(live)[r - 1 := Units(nbytes)]
      ensures owned == if calls == 1 && grant != -1 then old(owned) + Range(grant, CoreUnits(Units(nbytes))) else old(owned)
      ensures calls == 0 <==> old(freep) != 0 && HasRoom(old(F), Units(nbytes))
      ensures calls == 0 ==> FirstFit(old(F), old(freep), Units(nbytes), r - 1 + Units(nbytes))
    {
      hide Sorted, Linked, LiveOk, Tiles, Range, Units, CoreUnits, Passed, HasRoom, FirstFit, Dist;
      var nunits := Units(nbytes);
      calls := 0;
      var prevp := freep;
      if prevp == 0 {
        Fresh(mem, base);
        mem := mem[base := Header(base, 0)];
        freep, prevp := base, base;
        F := [Seg(base, 0)];
      }
      ghost var j := IndexOf(mem, F, base, freep);
      ghost var f := j;
      ghost var i := Next(j, |F|);
      var p := mem[prevp].ptr;
      while true
        invariant Valid() && freep != 0 && calls <= 1 && live == old(live)
        invariant 0 <= f < |F| && F[f].addr == freep && 0 <= j < |F| && F[j].addr == prevp && i == Next(j, |F|) && F[i].addr == p
        invariant Passed(F, f, i, nunits)
        invariant calls == 1 ==> grant != -1 && HasRoom(F, nunits)
        invariant owned == if calls == 1 then old(owned) + Range(grant, CoreUnits(nunits)) else old(owned)
        invariant calls == 0 ==> brk == old(brk) && if old(freep) != 0 then F == old(F) && freep == old(freep) else F == [Seg(base, 0)]
        invariant calls == 1 && old(freep) != 0 ==> !HasRoom(old(F), nunits)
        decreases 1 - calls, Dist(i, f, |F|)
      {
        Links(mem, F, base, i);
        if mem[p].size >= nunits {
          Fitting(F, f, i, nunits);
          r := Take(p, prevp, nunits, i);
          return;
        }
        if p == freep {
          AllPassed(F, base, f, i, nunits);
          p := Morecore(nunits, grant);
          calls := calls + 1;
          if p == 0 { return 0, calls; }
          f := IndexOf(mem, F, base, freep);
          j, prevp := f, p;
          i := Next(j, |F|);
        } else {
          PassedNext(F, base, f, i, nunits);
          j, prevp := i, p;
          i := Next(i, |F|);
        }
        p := mem[p].ptr;
      }
    }
  }

  /** Everything free does to the list and to the headers, for the live block bp. */
  lemma FreeStep(mem: Mem, F: seq<Seg>, base: int, live: map<int, nat>, owned: set<int>, bp: int) returns (t: nat)
    requires Sorted(F, base) && Linked(mem, F) && LiveOk(mem, F, base, live) && Tiles(F, live, owned) && bp in live
    ensures var g := Seg(bp, live[bp]);
            && t < |F| && Place(F, g, t) && base < bp && bp in mem && F[t].addr in mem && mem[bp].size == live[bp]
            && bp != F[t].addr && (bp + mem[bp].size == mem[F[t].addr].ptr ==> mem[F[t].addr].ptr in mem)
            && (forall j :: 0 <= j < |F| ==> F[j].addr != bp)
            && Sorted(Freed(F, g, t), base)
            && Linked(JoinBelow(JoinAbove(mem, F[t].addr, bp), F[t].addr, bp), Freed(F, g, t))
            && LiveOk(JoinBelow(JoinAbove(mem, F[t].addr, bp), F[t].addr, bp), Freed(F, g, t), base, live - {bp})
            && Tiles(Freed(F, g, t), live - {bp}, owned)
            && t < |Freed(F, g, t)| && Freed(F, g, t)[t].addr == F[t].addr && base <= F[t].addr
  {
    t := PlaceOf(F, bp);
    var g := Seg(bp, live[bp]);
    PlaceOfLive(mem, F, base, live, bp);
    FreedLinked(mem, F, base, g, t);
    FreedSorted(F, base, g, t);
    FreedTiles(F, g, t, live, owned);
    FreedLive(mem, F, base, g, t, live, JoinBelow(JoinAbove(mem, F[t].addr, bp), F[t].addr, bp));
    FreedHead(F, base, g, t);
    if t > 0 { assert F[0].End() < F[t].addr; }
  }

  /** The four assignments of free are the two joins. */
  lemma JoinInOrder(mem: Mem, p: int, bp: int)
    requires p in mem && bp in mem && p != bp && (bp + mem[bp].size == mem[p].ptr ==> mem[p].ptr in mem)
    ensures JoinAbove(mem, p, bp) ==
            if bp + mem[bp].size == mem[p].ptr then mem[bp := Header(mem[mem[p].ptr].ptr, mem[bp].size + mem[mem[p].ptr].size)]
            else mem[bp := Header(mem[p].ptr, mem[bp].size)]
    ensures var m := JoinAbove(mem, p, bp);
            JoinBelow(m, p, bp) ==
            if p + m[p].size == bp then m[p := Header(m[bp].ptr, m[p].size + m[bp].size)] else m[p := Header(bp, m[p].size)]
  {
  }

  ghost predicate HasRoom(F: seq<Seg>, n: nat) {
    exists i :: 0 <= i < |F| && F[i].size >= n
  }

  lemma FreedHasRoom(F: seq<Seg>, g: Seg, F': seq<Seg>, freep: int, n: nat)
    requires FreedAt(F, g, F', freep) && n <= g.size
    ensures HasRoom(F', n)
  {
    var t :| 0 <= t < |F| && F' == Freed(F, g, t) && freep == F[t].addr;
    assert F'[FreeFrom(F, g, t)] == Joined(F, g, t);
  }

  /** The state after the very first call: a ring of base alone. */
  lemma Fresh(mem: Mem, base: int)
    ensures var m := mem[base := Header(base, 0)];
            Sorted([Seg(base, 0)], base) && Linked(m, [Seg(base, 0)]) && LiveOk(m, [Seg(base, 0)], base, map[]) && Tiles([Seg(base, 0)], map[], {})
  {
  }

  lemma IndexOf(mem: Mem, F: seq<Seg>, base: int, a: int) returns (i: nat)
    requires Sorted(F, base) && Linked(mem, F) && exists i :: 0 <= i < |F| && F[i].addr == a
    ensures i < |F| && F[i].addr == a && a in mem && mem[a].ptr == F[Next(i, |F|)].addr && Passed(F, i, Next(i, |F|), 0) && F != []
    ensures forall n: nat :: Passed(F, i, Next(i, |F|), n)
  {
    i :| 0 <= i < |F| && F[i].addr == a;
    assert LinkAt(mem, F, i);
  }

  lemma Links(mem: Mem, F: seq<Seg>, base: int, i: nat)
    requires Sorted(F, base) && Linked(mem, F) && i < |F|
    ensures F[i].addr in mem && mem[F[i].addr] == Header(F[Next(i, |F|)].addr, F[i].size)
    ensures F[i].size > 0 ==> i > 0
    ensures forall k :: 0 <= k < |F| && F[k].addr == F[i].addr ==> k == i
  {
    assert LinkAt(mem, F, i);
    assert forall j, l :: 0 <= j < l < |F| ==> F[j].addr < F[l].addr;
  }

  /** Every block between freep and the i-th, in the order of the walk, is too small. */
  ghost predicate Passed(F: seq<Seg>, f: nat, i: nat, n: nat)
    requires f < |F| && i < |F|
  {
    forall m :: 0 <= m < |F| && Dist(m, f, |F|) > Dist(i, f, |F|) ==> F[m].size < n
  }

  /** e is the end of the first block after freep, round the ring to freep itself, with room for n. */
  ghost predicate FirstFit(F: seq<Seg>, freep: int, n: nat, e: int) {
    exists f, i :: 0 <= f < |F| && 0 <= i < |F| && F[f].addr == freep && F[i].size >= n && Passed(F, f, i, n) && e == F[i].End()
  }

  lemma Fitting(F: seq<Seg>, f: nat, i: nat, n: nat)
    requires f < |F| && i < |F| && F[i].size >= n && Passed(F, f, i, n)
    ensures HasRoom(F, n) && FirstFit(F, F[f].addr, n, F[i].End())
  {
  }

  lemma PassedNext(F: seq<Seg>, base: int, f: nat, i: nat, n: nat)
    requires f < |F| && i < |F| && Passed(F, f, i, n) && F[i].size < n && i != f
    ensures Passed(F, f, Next(i, |F|), n) && Dist(Next(i, |F|), f, |F|) < Dist(i, f, |F|)
  {
  }

  lemma AllPassed(F: seq<Seg>, base: int, f: nat, i: nat, n: nat)
    requires f < |F| && i == f && Passed(F, f, i, n) && F[i].size < n
    ensures !HasRoom(F, n)
  {
    forall m | 0 <= m < |F| ensures F[m].size < n {
      if m != f { assert Dist(m, f, |F|) > 0; }
    }
  }

  /** Memory granted above everything, as one live block. */
  lemma GrantStep(mem: Mem, F: seq<Seg>, base: int, live: map<int, nat>, owned: set<int>, brk: int, hp: int, n: nat)
    requires Sorted(F, base) && Linked(mem, F) && LiveOk(mem, F, base, live) && Tiles(F, live, owned)
    requires base < brk <= hp && 1 <= n && forall x :: x in owned ==> base < x < brk
    ensures var m := mem[hp := Header(if hp in mem then mem[hp].ptr else 0, n)];
            && hp !in live && live[hp := n] - {hp} == live
            && Linked(m, F) && LiveOk(m, F, base, live[hp := n]) && Tiles(F, live[hp := n], owned + Range(hp, n))
            && forall x :: x in owned + Range(hp, n) ==> base < x < hp + n
  {
    var m := mem[hp := Header(if hp in mem then mem[hp].ptr else 0, n)];
    hide Sorted, Linked, LiveOk, Tiles, Range;
    BelowBrk(mem, F, base, live, owned, brk);
    PutBack(live, hp, n);
    GrantLinked(mem, F, hp, m[hp]);
    GrantLive(mem, F, base, live, hp, m[hp]);
    GrantTiles(F, live, owned, hp, n);
    RangeBound(hp, n);
  }

  lemma RangeBound(a: int, n: nat)
    ensures forall x :: x in Range(a, n) ==> a <= x < a + n
  {
  }

  lemma PutBack(live: map<int, nat>, a: int, n: nat)
    requires a !in live
    ensures live[a := n] - {a} == live
  {
  }

  lemma GrantLinked(mem: Mem, F: seq<Seg>, hp: int, h: Header)
    requires Linked(mem, F) && forall i :: 0 <= i < |F| ==> F[i].addr < hp
    ensures Linked(mem[hp := h], F)
  {
    var m := mem[hp := h];
    forall i | 0 <= i < |F| ensures LinkAt(m, F, i) { assert LinkAt(mem, F, i); }
  }

  lemma GrantLive(mem: Mem, F: seq<Seg>, base: int, live: map<int, nat>, hp: int, h: Header)
    requires LiveOk(mem, F, base, live) && base < hp && 1 <= h.size
    requires (forall i :: 0 <= i < |F| ==> F[i].End() <= hp) && forall a :: a in live ==> a + live[a] <= hp
    ensures LiveOk(mem[hp := h], F, base, live[hp := h.size])
  {
  }

  lemma GrantTiles(F: seq<Seg>, live: map<int, nat>, owned: set<int>, hp: int, n: nat)
    requires Tiles(F, live, owned) && hp !in live
    ensures Tiles(F, live[hp := n], owned + Range(hp, n))
  {
    assert live[hp := n] - {hp} == live;
    forall x ensures x in owned + Range(hp, n) <==> InFree(F, x) || InLive(live[hp := n], x) {
      LiveWithout(live[hp := n], hp, x);
    }
  }

  lemma BelowBrk(mem: Mem, F: seq<Seg>, base: int, live: map<int, nat>, owned: set<int>, brk: int)
    requires Sorted(F, base) && LiveOk(mem, F, base, live) && Tiles(F, live, owned)
    requires base < brk && forall x :: x in owned ==> base < x < brk
    ensures forall i :: 0 <= i < |F| ==> F[i].End() <= brk && F[i].addr < brk
    ensures forall a :: a in live ==> a < a + live[a] <= brk
  {
    forall i | 0 <= i < |F| ensures F[i].End() <= brk && F[i].addr < brk {
      assert i > 0 ==> 1 <= F[i].size;
      if F[i].size > 0 {
        assert F[i].Holds(F[i].End() - 1);
        assert InFree(F, F[i].End() - 1);
      }
    }
    forall a | a in live ensures a < a + live[a] <= brk {
      assert Seg(a, live[a]).Holds(a + live[a] - 1);
      assert InLive(live, a + live[a] - 1);
    }
  }

  /** Both ways malloc takes a block. */
  lemma TakeStep(mem: Mem, F: seq<Seg>, base: int, live: map<int, nat>, owned: set<int>, i: nat, n: nat)
    requires Sorted(F, base) && Linked(mem, F) && LiveOk(mem, F, base, live) && Tiles(F, live, owned)
    requires 1 <= i < |F| && 1 <= n <= F[i].size && base in mem && 0 < base
    ensures F[i].addr in mem && mem[F[i].addr].size == F[i].size && F[i - 1].addr in mem && 0 < F[i].addr && 0 < F[i - 1].addr
    ensures n == F[i].size ==>
              var m := mem[F[i - 1].addr := Header(mem[F[i].addr].ptr, mem[F[i - 1].addr].size)];
              && F[i].addr !in live && Sorted(Without(F, i), base) && Linked(m, Without(F, i))
              && LiveOk(m, Without(F, i), base, live[F[i].addr := n]) && Tiles(Without(F, i), live[F[i].addr := n], owned)
              && Without(F, i)[i - 1].addr == F[i - 1].addr && base in m
    ensures n < F[i].size ==>
              var q, Q := F[i].End() - n, F[i := Seg(F[i].addr, F[i].size - n)];
              var m0 := mem[F[i].addr := Header(mem[F[i].addr].ptr, mem[F[i].addr].size - n)];
              var m := m0[q := Header(if q in m0 then m0[q].ptr else 0, n)];
              && q !in live && Sorted(Q, base) && Linked(m, Q) && LiveOk(m, Q, base, live[q := n]) && Tiles(Q, live[q := n], owned)
              && base in m && Q[i - 1].addr == F[i - 1].addr
  {
    assert LinkAt(mem, F, i) && LinkAt(mem, F, i - 1);
    assert F[0].End() < F[i].addr && F[0].addr <= F[i - 1].addr by { if i > 1 { assert F[0].End() < F[i - 1].addr; } }
    if n == F[i].size {
      TakeWhole(mem, F, base, live, owned, i);
    } else {
      TakePart(mem, F, base, live, owned, i, n);
    }
  }

  lemma NotLive(mem: Mem, F: seq<Seg>, base: int, live: map<int, nat>, i: nat)
    requires Sorted(F, base) && LiveOk(mem, F, base, live) && i < |F|
    ensures F[i].addr !in live
  {
    assert F[i].addr in live ==> Disjoint(Seg(F[i].addr, live[F[i].addr]), F[i]);
  }

  lemma TakeWhole(mem: Mem, F: seq<Seg>, base: int, live: map<int, nat>, owned: set<int>, i: nat)
    requires Sorted(F, base) && Linked(mem, F) && LiveOk(mem, F, base, live) && Tiles(F, live, owned) && 1 <= i < |F|
    requires F[i].addr in mem && F[i - 1].addr in mem
    ensures var m := mem[F[i - 1].addr := Header(mem[F[i].addr].ptr, mem[F[i - 1].addr].size)];
            && F[i].addr !in live && Sorted(Without(F, i), base) && Linked(m, Without(F, i))
            && LiveOk(m, Without(F, i), base, live[F[i].addr := F[i].size]) && Tiles(Without(F, i), live[F[i].addr := F[i].size], owned)
  {
    var m := mem[F[i - 1].addr := Header(mem[F[i].addr].ptr, mem[F[i - 1].addr].size)];
    assert LinkAt(mem, F, i);
    NotLive(mem, F, base, live, i - 1);
    WithoutSorted(F, base, i);
    WithoutLinked(mem, F, base, i);
    assert F[i - 1].End() < F[i].addr;
    WithoutLive(mem, F, base, live, i, m);
    WithoutTiles(F, live, owned, i);
  }

  lemma TakePart(mem: Mem, F: seq<Seg>, base: int, live: map<int, nat>, owned: set<int>, i: nat, n: nat)
    requires Sorted(F, base) && Linked(mem, F) && LiveOk(mem, F, base, live) && Tiles(F, live, owned)
    requires 1 <= i < |F| && 1 <= n < F[i].size && F[i].addr in mem && mem[F[i].addr].size == F[i].size
    ensures var q, Q := F[i].End() - n, F[i := Seg(F[i].addr, F[i].size - n)];
            var m0 := mem[F[i].addr := Header(mem[F[i].addr].ptr, mem[F[i].addr].size - n)];
            var m := m0[q := Header(if q in m0 then m0[q].ptr else 0, n)];
            q !in live && Sorted(Q, base) && Linked(m, Q) && LiveOk(m, Q, base, live[q := n]) && Tiles(Q, live[q := n], owned)
  {
    var q, Q := F[i].End() - n, F[i := Seg(F[i].addr, F[i].size - n)];
    var m0 := mem[F[i].addr := Header(mem[F[i].addr].ptr, mem[F[i].addr].size - n)];
    var m := m0[q := Header(if q in m0 then m0[q].ptr else 0, n)];
    forall a | a in live ensures a != F[i].addr && a != q {
      assert Disjoint(Seg(a, live[a]), F[i]);
    }
    SplitSorted(F, base, i, n);
    SplitLinked(mem, F, base, i, n);
    hide Sorted, Linked;
    SplitLive(mem, F, base, live, i, n, m);
    SplitTiles(F, live, owned, i, n);
  }

  lemma SplitLinked(mem: Mem, F: seq<Seg>, base: int, i: nat, n: nat)
    requires Sorted(F, base) && Linked(mem, F) && 1 <= i < |F| && 1 <= n < F[i].size
    requires F[i].addr in mem && mem[F[i].addr].size == F[i].size
    ensures var q, Q := F[i].End() - n, F[i := Seg(F[i].addr, F[i].size - n)];
            var m0 := mem[F[i].addr := Header(mem[F[i].addr].ptr, mem[F[i].addr].size - n)];
            Linked(m0[q := Header(if q in m0 then m0[q].ptr else 0, n)], Q)
  {
    var q, Q := F[i].End() - n, F[i := Seg(F[i].addr, F[i].size - n)];
    var m0 := mem[F[i].addr := Header(mem[F[i].addr].ptr, mem[F[i].addr].size - n)];
    var m := m0[q := Header(if q in m0 then m0[q].ptr else 0, n)];
    forall j | 0 <= j < |Q| ensures LinkAt(m, Q, j) {
      assert LinkAt(mem, F, j);
      if j < i { assert F[j].End() < F[i].addr; } else if i < j { assert F[i].End() < F[j].addr; }
      assert Q[Next(j, |Q|)].addr == F[Next(j, |F|)].addr;
    }
  }

  /** F' is F after freeing g, and freep the block below it. */
  ghost predicate FreedAt(F: seq<Seg>, g: Seg, F': seq<Seg>, freep: int) {
    exists t :: 0 <= t < |F| && F' == Freed(F, g, t) && freep == F[t].addr
  }

  /** free leaves freep on the joined block, or on the one right below it. */
  lemma FreedHead(F: seq<Seg>, base: int, g: Seg, t: nat)
    requires Sorted(F, base) && Place(F, g, t)
    ensures t < |Freed(F, g, t)| && Freed(F, g, t)[t].addr == F[t].addr
  {
  }
}
