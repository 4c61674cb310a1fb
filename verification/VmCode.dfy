/** kalloc.c and vm.c as they run, over the machine's page frames. Addresses are 32-bit; a page is 4096 bytes and a table spans 4 MB. */
module VmCode {
  import opened Common
  import opened VmSpec
  import opened VmSteps
  import opened VmFrames

  /** Short: it gave up for want of a frame. Panic: it met a page it must not meet. */
  datatype VmEnd = Done | Short | Panic

  class Machine {
    const lo: nat
    const hi: nat
    var free: seq<nat>
    var mem: map<nat, Page>
    ghost var led: Ledger

    ghost predicate Valid()
      reads this
    {
      PoolOk(free, mem, led, lo, hi) && Inv(mem, led)
    }

    /** freerange: every frame between the kernel's end and the top of memory is put on the free list. */
    constructor (first: nat, last: nat)
      requires 0 < first <= last
      ensures Valid() && led == map[] && lo == first && hi == last
    {
      lo, hi, free, mem, led := first, last, [], map[], map[];
      new;
      var p := first;
      while p < last
        invariant first <= p <= last && PoolOk(free, mem, led, first, p) && led == map[]
      {
        assert forall i :: 0 <= i < |free| ==> free[i] in free && free[i] != p;
        mem := mem[p := Junk];
        free := [p] + free;
        p := p + 1;
      }
    }

    method KAlloc() returns (ok: bool, f: nat)
      requires PoolOk(free, mem, led, lo, hi)
      modifies this`free, this`led
      ensures PoolOk(free, mem, led, lo, hi)
      ensures ok <==> old(free) != []
      ensures !ok ==> free == old(free) && led == old(led)
      ensures ok ==> f == old(free)[0] && free == old(free)[1..] && f !in old(led) && f in mem && led == old(led)[f := Held]
    {
      if free == [] { return false, 0; }
      f := free[0];
      assert forall g :: g in free <==> g == f || g in free[1..];
      free := free[1..];
      led := led[f := Held];
      return true, f;
    }

    /** kfree; not ok is the panic for a frame outside the machine's. */
    method KFree(f: nat) returns (ok: bool)
      requires PoolOk(free, mem, led, lo, hi) && f !in free
      modifies this`free, this`mem, this`led
      ensures PoolOk(free, mem, led, lo, hi)
      ensures ok <==> f in old(led)
      ensures !ok ==> free == old(free) && mem == old(mem) && led == old(led)
      ensures ok ==> free == [f] + old(free) && mem == old(mem)[f := Junk] && led == old(led) - {f}
    {
      ok := lo <= f < hi;
      if !ok { return; }
      mem := mem[f := Junk];
      free := [f] + free;
      led := led - {f};
    }

    /** walkpgdir: the table and index of va's entry, made if asked for and there is a frame for it. */
    method WalkPgdir(d: nat, va: nat, alloc: bool) returns (ok: bool, t: nat, k: nat)
      requires Valid() && IsDir(led, d) && va < 0x1_0000_0000
      modifies this
      ensures Valid() && k == va / 4096 % 1024
      ensures ok ==> t in led && led[t] == AsTab(d, va / 4096 / 1024)
      ensures ok <==> Present(old(Pde(mem, d, va / 4096 / 1024))) || (alloc && old(free) != [])
      ensures !ok || Present(old(Pde(mem, d, va / 4096 / 1024))) ==> mem == old(mem) && led == old(led) && free == old(free)
      ensures ok && !Present(old(Pde(mem, d, va / 4096 / 1024))) ==> Pde(mem, d, va / 4096 / 1024) == Entry(t, 7)
      ensures Outside(old(mem), old(led), mem, led, d, 0, 0)
      ensures ok ==> Tabled(old(mem), mem, d, va / 4096 / 1024, va / 4096 / 1024 + 1)
      ensures ok ==> |free| + Missing(old(mem), d, va / 4096 / 1024, va / 4096 / 1024 + 1) == |old(free)|
    {
      hide Inv, Outside, At, PoolOk, Tabled, Missing;
      var i := va / 4194304;
      k := va / 4096 % 1024;
      assert i == va / 4096 / 1024 && i < 1024;
      DirFacts(mem, led, d, i);
      var pde := mem[d].pdes[i];
      if Present(pde) {
        FoundTab(mem, d, i);
        return true, pde.frame, k;
      }
      if !alloc { return false, 0, k; }
      ok, t := KAlloc();
      if !ok { return; }
      TabStep(mem, old(led), d, i, t);
      MadeTab(mem, d, i, t);
      mem := mem[t := Tab(Zeroes())];
      mem := mem[d := Dir(mem[d].pdes[i := Entry(t, 7)])];
      PoolSame(free, old(mem), led, mem, led[t := AsTab(d, i)], lo, hi);
      led := led[t := AsTab(d, i)];
      assert led == old(led)[t := AsTab(d, i)];
    }

    /** One round of mappages. */
    method MapOne(d: nat, a: nat, f: nat, flags: nat) returns (end: VmEnd)
      requires Valid() && IsDir(led, d) && a < 0x1_0000_0000 && flags % 2 == 1
      requires a / 4096 < 524288 ==> Holds(mem, led, f)
      modifies this
      ensures Valid() && IsDir(led, d)
      ensures end == Panic <==> Present(old(At(mem, d, a / 4096)))
      ensures end != Done ==> free == old(free) && mem == old(mem) && led == old(led)
      ensures end == Short ==> free == [] && !Present(Pde(mem, d, a / 4096 / 1024))
      ensures end == Done ==> At(mem, d, a / 4096) == Entry(f, flags)
      ensures end == Done ==> Tabled(old(mem), mem, d, a / 4096 / 1024, a / 4096 / 1024 + 1)
      ensures end == Done ==> |free| + Missing(old(mem), d, a / 4096 / 1024, a / 4096 / 1024 + 1) == |old(free)|
      ensures end == Done && a / 4096 >= 524288 ==> Outside(old(mem), old(led), mem, led, d, a / 4096, a / 4096 + 1)
      ensures end == Done && a / 4096 < 524288 ==>
                Outside(old(mem), old(led) - {f}, mem, led, d, a / 4096, a / 4096 + 1) && f in mem && mem[f] == old(mem[f])
    {
      hide Inv, Outside, At, PoolOk, Tabled, Missing;
      ghost var n, e := a / 4096, Entry(f, flags);
      if Present(At(mem, d, n)) { MappedHasTab(mem, d, n); }
      var ok, t, k := WalkPgdir(d, a, true);
      if !ok { return Short; }
      UnchangedAt(old(mem), old(led), mem, led, d, 0, 0, n);
      TabFacts(mem, led, t, k, n);
      if Present(mem[t].ptes[k]) { return Panic; }
      TabledPte(old(mem), mem, led, t, k, e, d, n / 1024, n / 1024 + 1);
      ghost var l1 := led;
      if n < 524288 {
        UserMapped(old(mem), old(led), mem, led, t, k, f, flags, d, n);
        led := led[f := AsPage(d, n)];
      } else {
        KernelMapped(old(mem), old(led), mem, led, t, k, e, d, n);
      }
      PoolSame(free, mem, l1, WithPte(mem, t, k, e), led, lo, hi);
      mem := mem[t := Tab(mem[t].ptes[k := Entry(f, flags)])];
      return Done;
    }

    /**
     mappages: consecutive pages onto consecutive frames. It stops short for want of a table's frame, and
     panics at a page that is mapped already. A user page takes over a frame its caller holds.
     */
    method MapPages(d: nat, va: nat, size: nat, pa: nat, perm: nat) returns (end: VmEnd)
      requires Valid() && IsDir(led, d) && size > 0 && va + size <= 0x1_0000_0000
      requires va / 4096 < 524288 ==> (va + size - 1) / 4096 == va / 4096 && Holds(mem, led, pa / 4096)
      modifies this
      ensures Valid() && IsDir(led, d)
      ensures end == Short <==> |old(free)| < MapNeed(old(mem), d, va / 4096, (va + size - 1) / 4096)
      ensures end != Short ==>
                (end == Panic <==> exists n :: va / 4096 <= n <= (va + size - 1) / 4096 && Present(old(At(mem, d, n))))
      ensures end == Done ==> forall n :: va / 4096 <= n <= (va + size - 1) / 4096 ==>
                                            At(mem, d, n) == Entry(pa / 4096 + n - va / 4096, WithP(perm))
      ensures end == Done && va / 4096 >= 524288 ==>
                Outside(old(mem), old(led), mem, led, d, va / 4096, (va + size - 1) / 4096 + 1)
      ensures end == Done && va / 4096 < 524288 ==>
                Outside(old(mem), old(led) - {pa / 4096}, mem, led, d, va / 4096, va / 4096 + 1) &&
                pa / 4096 in mem && mem[pa / 4096] == old(mem[pa / 4096])
      ensures end == Short ==> free == []
      ensures end != Done ==> Outside(old(mem), old(led), mem, led, d, va / 4096, (va + size - 1) / 4096)
      ensures end == Done ==> |free| + Missing(old(mem), d, va / 4096 / 1024, (va + size - 1) / 4096 / 1024 + 1) == |old(free)|
      ensures end == Done ==> Tabled(old(mem), mem, d, va / 4096 / 1024, (va + size - 1) / 4096 / 1024 + 1)
    {
      hide Inv, Outside, At, PoolOk, Tabled, Missing, Holds, MapNeed;
      var a := va / 4096 * 4096;
      var last := (va + size - 1) % 0x1_0000_0000 / 4096 * 4096;
      end := MapFrom(d, a, last, pa / 4096 * 4096, perm, va / 4096, (va + size - 1) / 4096, pa / 4096);
    }

    /** mappages' loop, from page `first` to page `stop`. */
    method MapFrom(d: nat, va: nat, last: nat, pa: nat, perm: nat, ghost first: nat, ghost stop: nat, ghost base: nat) returns (end: VmEnd)
      requires Valid() && IsDir(led, d) && va == first * 4096 && last == stop * 4096 && pa == base * 4096 && first <= stop < 1048576
      requires first < 524288 ==> first == stop && Holds(mem, led, base)
      modifies this
      ensures Valid() && IsDir(led, d)
      ensures end == Short <==> |old(free)| < MapNeed(old(mem), d, first, stop)
      ensures end != Short ==> (end == Panic <==> exists n :: first <= n <= stop && Present(old(At(mem, d, n))))
      ensures end == Done ==> forall n :: first <= n <= stop ==> At(mem, d, n) == Entry(base + n - first, WithP(perm))
      ensures end == Done && first >= 524288 ==> Outside(old(mem), old(led), mem, led, d, first, stop + 1)
      ensures end == Done && first < 524288 ==>
                Outside(old(mem), old(led) - {base}, mem, led, d, first, first + 1) && base in mem && mem[base] == old(mem[base])
      ensures end == Short ==> free == []
      ensures end != Done ==> Outside(old(mem), old(led), mem, led, d, first, stop)
      ensures end == Done ==> |free| + Missing(old(mem), d, first / 1024, stop / 1024 + 1) == |old(free)|
      ensures end == Done ==> Tabled(old(mem), mem, d, first / 1024, stop / 1024 + 1)
    {
      hide Inv, Outside, At, PoolOk, Made, Pde, Tabled, Missing, Holds, FirstMapped;
      ghost var n, q := first, FirstMapped(mem, d, first, stop + 1);
      var a, pa := va, pa;
      SameOutside(mem, led, d);
      OutsideWiden(mem, led, mem, led, d, 0, 0, first, first);
      NoneMade(mem, |free|, d, first);
      while true
        invariant a == n * 4096 && first <= n <= stop && n <= q && pa == (base + n - first) * 4096
        invariant Valid() && IsDir(led, d) && Outside(old(mem), old(led), mem, led, d, first, n)
        invariant forall p :: first <= p < n ==> At(mem, d, p) == Entry(base + p - first, WithP(perm))
        invariant first < 524288 ==> n == first == stop && mem == old(mem) && led == old(led)
        invariant Made(old(mem), |old(free)|, mem, |free|, d, first, n)
        decreases last - a
      {
        ghost var m0, l0, f0 := mem, led, |free|;
        UnchangedAt(old(mem), old(led), mem, led, d, first, n, n);
        end := MapOne(d, a, pa / 4096, WithP(perm));
        if end != Done {
          OutsideWiden(old(mem), old(led), mem, led, d, first, n, first, stop);
          if end == Short {
            MadeShort(old(mem), |old(free)|, mem, d, first, n, Min(q, stop));
          } else {
            MadeStop(old(mem), |old(free)|, mem, |free|, d, first, n);
          }
          return;
        }
        MadeNext(old(mem), |old(free)|, m0, f0, mem, |free|, d, first, n);
        if first >= 524288 {
          OneMore(old(mem), old(led), m0, l0, mem, led, d, first, n);
        }
        if a == last {
          MadeAll(old(mem), |old(free)|, mem, |free|, d, first, stop);
          return Done;
        }
        a := a + 4096;
        pa := pa + 4096;
        n := n + 1;
      }
    }

    /**
     deallocuvm: skipping 4 MB where there is no table, it frees exactly the frames that going page by
     page would, in the same order, and unmaps exactly those pages.
     */
    method DeallocUvm(d: nat, oldsz: nat, newsz: nat) returns (r: nat)
      requires Valid() && IsDir(led, d) && oldsz <= KERNBASE && newsz < 0x1_0000_0000
      modifies this
      ensures Valid() && IsDir(led, d) && r == (if newsz < oldsz then newsz else oldsz)
      ensures newsz >= oldsz ==> mem == old(mem) && led == old(led) && free == old(free)
      ensures newsz < oldsz ==>
                Outside(old(mem), old(led), mem, led, d, (newsz + 4095) / 4096, (oldsz + 4095) / 4096) &&
                free == Pushed(old(mem), d, (newsz + 4095) / 4096, (oldsz + 4095) / 4096) + old(free)
      ensures forall n :: (newsz + 4095) / 4096 <= n < (oldsz + 4095) / 4096 ==> At(mem, d, n) == Cleared(old(At(mem, d, n)))
      ensures PagesFreed(old(led), led, d)
    {
      hide Inv, Outside, At, PoolOk, Swept, PgAddr, PgRoundUp, Pushed, PagesFreed, Cleared, Pde;
      SweptNone(mem, led, free, d, 0);
      SweptAll(mem, led, free, mem, led, free, d, 0, 0);
      if newsz >= oldsz { return oldsz; }
      var a := PgRoundUp(newsz);
      RoundsUp(newsz);
      ghost var first, end, n := (newsz + 4095) / 4096, (oldsz + 4095) / 4096, (newsz + 4095) / 4096;
      SweptNone(mem, led, free, d, first);
      while a < oldsz
        invariant a == n * 4096 && first <= n <= 524288
        invariant Valid() && IsDir(led, d)
        invariant Swept(old(mem), old(led), old(free), mem, led, free, d, first, if n < end then n else end)
        decreases oldsz - a
      {
        var ok, t, k := WalkPgdir(d, a, false);
        if !ok {
          ghost var next := (n / 1024 + 1) * 1024;
          SkipsTo(n);
          SweptSkip(old(mem), old(led), old(free), mem, led, free, d, first, n, if next < end then next else end);
          a := (PgAddr(a / 4194304 + 1) + 0x1_0000_0000 - 4096) % 0x1_0000_0000;
          n := next - 1;
        } else {
          ghost var m0, l0, f0 := mem, led, free;
          UnmapOne(d, t, k, n);
          SweptOne(old(mem), old(led), old(free), m0, l0, f0, mem, led, free, d, first, n);
        }
        a := (a + 4096) % 0x1_0000_0000;
        n := n + 1;
      }
      SweptAll(old(mem), old(led), old(free), mem, led, free, d, first, end);
      return newsz;
    }

    /** One round of deallocuvm, at an entry that exists. */
    method UnmapOne(d: nat, t: nat, k: nat, ghost n: nat)
      requires Valid() && t in led && led[t] == AsTab(d, n / 1024) && k == n % 1024 && n < 524288
      modifies this
      ensures Valid() && IsDir(led, d)
      ensures Outside(old(mem), old(led), mem, led, d, n, n + 1) && At(mem, d, n) == Cleared(old(At(mem, d, n)))
      ensures free == FrameOf(old(At(mem, d, n))) + old(free) && PagesFreed(old(led), led, d)
    {
      hide Inv, Outside, At, PoolOk;
      TabFacts(mem, led, t, k, n);
      NothingDone(mem, led, d, n);
      OutsideWiden(mem, led, mem, led, d, n, n, n, n + 1);
      var pte := mem[t].ptes[k];
      if Present(pte) {
        UnmapStep(mem, led, t, k);
        PageFrame(mem, led, d, n);
        NotZero(free, mem, led, lo, hi, pte.frame);
        assert pte.frame != 0;
        InUse(free, mem, led, lo, hi, pte.frame);
        var _ := KFree(pte.frame);
        PoolSame(free, mem, led, mem[t := Tab(mem[t].ptes[k := NOTHING])], led, lo, hi);
        mem := mem[t := Tab(mem[t].ptes[k := NOTHING])];
        assert mem == WithPte(old(mem), t, k, NOTHING)[pte.frame := Junk];
      }
    }

    /** kalloc, and the page filled: a frame in the caller's hands. */
    method Fetch(page: Page) returns (ok: bool, f: nat)
      requires Valid()
      modifies this
      ensures Valid()
      ensures !ok ==> free == old(free) == [] && mem == old(mem) && led == old(led)
      ensures ok ==> |free| + 1 == |old(free)|
      ensures ok ==> f !in old(led) && f in old(mem) && mem == old(mem)[f := page] && led == old(led)[f := Held]
    {
      hide Inv, PoolOk;
      ok, f := KAlloc();
      if !ok { return; }
      Took(mem, old(led), f, page);
      PoolSame(free, mem, led, mem[f := page], led, lo, hi);
      mem := mem[f := page];
    }

    /** kfree of a frame in the caller's hands. */
    method GiveBack(f: nat)
      requires Valid() && f in led && led[f].Held?
      modifies this
      ensures Valid() && mem == old(mem)[f := Junk] && led == old(led) - {f}
    {
      HeldFree(mem, led, mem[f := Junk], led - {f});
      var _ := KFree(f);
    }

    /**
     allocuvm: on success the pages between the sizes are mapped, writable and zero; on failure none
     of them is. Nothing else changes, and no frame is lost either way. It panics where a page is mapped already.
     */
    method AllocUvm(d: nat, oldsz: nat, newsz: nat) returns (end: VmEnd, r: nat)
      requires Valid() && IsDir(led, d) && oldsz < 0x1_0000_0000 && newsz < 0x1_0000_0000
      modifies this
      ensures Valid() && IsDir(led, d)
      ensures newsz >= KERNBASE || newsz < oldsz ==>
                end == Done && r == (if newsz >= KERNBASE then 0 else oldsz) && mem == old(mem) && led == old(led)
      ensures oldsz <= newsz < KERNBASE ==>
                (end == Short <==> |old(free)| < GrowNeed(old(mem), d, (oldsz + 4095) / 4096, (newsz + 4095) / 4096))
      ensures oldsz <= newsz < KERNBASE && end != Short ==>
                (end == Panic <==> exists n :: (oldsz + 4095) / 4096 <= n < (newsz + 4095) / 4096 && Present(old(At(mem, d, n))))
      ensures oldsz <= newsz < KERNBASE && end != Panic ==>
                Outside(old(mem), old(led), mem, led, d, (oldsz + 4095) / 4096, (newsz + 4095) / 4096)
      ensures oldsz <= newsz < KERNBASE && end == Done ==>
                && r == newsz && |free| + Need(old(mem), d, (oldsz + 4095) / 4096, (newsz + 4095) / 4096) == |old(free)|
                && forall n :: (oldsz + 4095) / 4096 <= n < (newsz + 4095) / 4096 ==> FreshPage(mem, d, n)
      ensures end == Short ==>
                r == 0 && forall n :: (oldsz + 4095) / 4096 <= n < (newsz + 4095) / 4096 ==> !Present(At(mem, d, n))
    {
      hide Inv, Outside, At, PoolOk, PgRoundUp, FreshPage, Pushed, PagesFreed, Tabled, Missing, Need, Pde, Blank, FirstMapped, MapNeed;
      if newsz >= KERNBASE { return Done, 0; }
      if newsz < oldsz { return Done, oldsz; }
      var a := PgRoundUp(oldsz);
      RoundsUp(oldsz);
      ghost var first, stop, n := (oldsz + 4095) / 4096, (newsz + 4095) / 4096, (oldsz + 4095) / 4096;
      ghost var q := FirstMapped(mem, d, first, stop);
      NothingDone(mem, led, d, first);
      while a < newsz
        invariant a == n * 4096 && first <= n <= q <= stop
        invariant Valid() && IsDir(led, d) && Outside(old(mem), old(led), mem, led, d, first, n)
        invariant forall p :: first <= p < n ==> FreshPage(mem, d, p)
        invariant |free| + Need(old(mem), d, first, q) == |old(free)| + Need(mem, d, n, q)
        decreases newsz - a
      {
        ghost var m0 := mem;
        UnchangedAt(old(mem), old(led), mem, led, d, first, n, n);
        NeedHere(m0, d, n, q);
        end := GrowOne(d, oldsz, newsz, a, n, old(mem), old(led));
        if end != Done { return end, 0; }
        NeedNext(m0, mem, d, n, q);
        a := a + 4096;
        n := n + 1;
      }
      NeedNothing(mem, d, stop);
      return Done, newsz;
    }

    /** One round of allocuvm, at page n of a space that was (m, l) at the start. */
    method GrowOne(d: nat, oldsz: nat, newsz: nat, a: nat, ghost n: nat, ghost m: map<nat, Page>, ghost l: Ledger) returns (end: VmEnd)
      requires Valid() && IsDir(led, d) && oldsz < newsz < KERNBASE && a == n * 4096
      requires (oldsz + 4095) / 4096 <= n < (newsz + 4095) / 4096 && Outside(m, l, mem, led, d, (oldsz + 4095) / 4096, n)
      modifies this
      ensures Valid() && IsDir(led, d)
      ensures end == Panic <==> |old(free)| >= 1 && Present(old(At(mem, d, n)))
      ensures end == Short <==>
                |old(free)| < 1 + if Present(old(At(mem, d, n))) then 0 else Missing(old(mem), d, n / 1024, n / 1024 + 1)
      ensures end == Short ==> Outside(m, l, mem, led, d, (oldsz + 4095) / 4096, (newsz + 4095) / 4096)
      ensures end == Short ==> forall p :: (oldsz + 4095) / 4096 <= p < (newsz + 4095) / 4096 ==> !Present(At(mem, d, p))
      ensures end == Done ==> Outside(m, l, mem, led, d, (oldsz + 4095) / 4096, n + 1)
      ensures end == Done ==> Tabled(old(mem), mem, d, n / 1024, n / 1024 + 1)
      ensures end == Done ==> |free| + 1 + Missing(old(mem), d, n / 1024, n / 1024 + 1) == |old(free)|
      ensures end == Done && (forall p :: (oldsz + 4095) / 4096 <= p < n ==> FreshPage(old(mem), d, p)) ==>
                forall p :: (oldsz + 4095) / 4096 <= p < n + 1 ==> FreshPage(mem, d, p)
    {
      hide Inv, Outside, At, PoolOk, FreshPage, Pushed, PagesFreed, Tabled, Missing, Pde, Blank, MapNeed;
      ghost var first, stop, m0, l0 := (oldsz + 4095) / 4096, (newsz + 4095) / 4096, mem, led;
      OutsideWiden(m, l, mem, led, d, first, n, first, stop);
      var ok, f := Fetch(Data(Blank()));
      if !ok {
        var _ := DeallocUvm(d, newsz, oldsz);
        OutsideThen(m, l, m0, l0, mem, led, d, first, stop);
        return Short;
      }
      ghost var m1, l1 := mem, led;
      SpareWrite(m0, l0, d, f, Data(Blank()));
      UnchangedAt(m0, l0, m1, l0, d, 0, 0, n);
      SpareTabs(m0, d, f, Data(Blank()), n / 1024, n / 1024 + 1);
      OneNeed(m1, d, n);
      end := MapPages(d, a, 4096, f * 4096, PTE_W + PTE_U);
      if end == Panic { return; }
      if end == Short {
        BackOut(d, oldsz, newsz, f, m0, l0, n);
        OutsideThen(m, l, m0, l0, mem, led, d, first, stop);
        return;
      }
      TabledSpare(m0, f, Data(Blank()), mem, d, n / 1024, n / 1024 + 1);
      OutsideWiden(m0, l0, m1, l0, d, 0, 0, n, n + 1);
      OutsideThen(m0, l0, m1, l0, mem, led, d, n, n + 1);
      OneMore(m, l, m0, l0, mem, led, d, first, n);
      if forall p :: first <= p < n ==> FreshPage(m0, d, p) { FreshKept(m0, l0, mem, led, d, first, n, f); }
    }

    /** allocuvm's way out when a frame is fetched but its page cannot be mapped. */
    method BackOut(d: nat, oldsz: nat, newsz: nat, f: nat, ghost m0: map<nat, Page>, ghost l0: Ledger, ghost n: nat)
      requires Valid() && IsDir(led, d) && oldsz <= newsz < KERNBASE && (oldsz + 4095) / 4096 <= n <= (newsz + 4095) / 4096
      requires Inv(m0, l0) && f in m0 && f !in l0 && IsDir(l0, d)
      requires Outside(m0[f := Data(Blank())], l0[f := Held], mem, led, d, n, n)
      modifies this
      ensures Valid() && IsDir(led, d)
      ensures Outside(m0, l0, mem, led, d, (oldsz + 4095) / 4096, (newsz + 4095) / 4096)
      ensures forall p :: (oldsz + 4095) / 4096 <= p < (newsz + 4095) / 4096 ==> !Present(At(mem, d, p))
    {
      hide Inv, Outside, At, PoolOk, Pushed, PagesFreed, Blank;
      ghost var first, stop, m1, l1 := (oldsz + 4095) / 4096, (newsz + 4095) / 4096, m0[f := Data(Blank())], l0[f := Held];
      ghost var m2, l2 := mem, led;
      OutsideWiden(m1, l1, m2, l2, d, n, n, first, stop);
      var _ := DeallocUvm(d, newsz, oldsz);
      if newsz == oldsz { SameOutside(mem, led, d); OutsideWiden(mem, led, mem, led, d, 0, 0, first, stop); }
      OutsideThen(m1, l1, m2, l2, mem, led, d, first, stop);
      HeldMeanwhile(m0, l0, mem, led, d, f, Data(Blank()), first, stop);
      ghost var m3 := mem;
      GiveBack(f);
      assert forall p :: first <= p < stop ==> At(mem, d, p) == At(m3, d, p);
    }

    /** freevm: every frame of the space is free again, and no other frame is touched. */
    method FreeVm(d: nat)
      requires Valid() && IsDir(led, d)
      modifies this
      ensures Valid() && led == Without(old(led), d)
      ensures forall f :: f in led ==> mem[f] == old(mem)[f]
    {
      hide Inv, At, PoolOk, Pushed, Outside, TabsDropped;
      var _ := DeallocUvm(d, KERNBASE, 0);
      ghost var m1, l1 := mem, led;
      OnlyTabsLeft(old(mem), old(led), m1, l1, d);
      NoneDropped(m1, l1, d);
      var i := 0;
      while i < 1024
        invariant 0 <= i <= 1024
        invariant PoolOk(free, mem, led, lo, hi) && TabsDropped(m1, l1, mem, led, d, i)
      {
        DirFacts(m1, l1, d, i);
        DropFacts(m1, l1, mem, led, d, i);
        ghost var m2, l2 := mem, led;
        var pde := mem[d].pdes[i];
        if Present(pde) {
          InUse(free, mem, led, lo, hi, pde.frame);
          var _ := KFree(pde.frame);
        }
        DropOne(m1, l1, m2, l2, mem, led, d, i);
        i := i + 1;
      }
      AllDropped(m1, l1, mem, led, d);
      DropFacts(m1, l1, mem, led, d, 1024);
      InUse(free, mem, led, lo, hi, d);
      var _ := KFree(d);
      DropDir(m1, l1, d, mem);
    }

    /** One row of the kernel's map, in the space d that is being set up since (m, l). */
    method MapRow(d: nat, data: nat, k: nat, ghost m: map<nat, Page>, ghost l: Ledger) returns (ok: bool)
      requires Valid() && DataOk(data) && k < 4 && IsDir(led, d) && Untouched(m, l, mem, led, d) && RowsMapped(mem, d, data, k)
      requires NoUserTabs(mem, d)
      modifies this
      ensures Valid() && IsDir(led, d) && Untouched(m, l, mem, led, d)
      ensures !ok ==> |old(free)| < KernelNeed(old(mem), d)
      ensures ok ==> RowsMapped(mem, d, data, k + 1) && NoUserTabs(mem, d)
      ensures ok ==> |free| + KernelNeed(old(mem), d) == |old(free)| + KernelNeed(mem, d)
    {
      hide Inv, At, PoolOk, Outside, Untouched, KernelEntry, Tabled, Missing, KernelNeed, NoUserTabs, MapNeed, FirstMapped;
      var row := Kmap(data)[k];
      ghost var m0, l0 := mem, led;
      RowFacts(mem, d, data, k);
      RowTabs(data, k);
      RowWithin(mem, d, row.virt / 4096 / 1024, (Bound(data, k + 1) - 1) / 1024 + 1);
      MapNeedClear(mem, d, row.virt / 4096, Bound(data, k + 1) - 1);
      var end := MapPages(d, row.virt, (row.end + 0x1_0000_0000 - row.start) % 0x1_0000_0000, row.start, row.perm);
      ok := end == Done;
      if !ok {
        Later(m, l, m0, l0, mem, led, d, row.virt / 4096, Bound(data, k + 1) - 1);
        return;
      }
      Later(m, l, m0, l0, mem, led, d, row.virt / 4096, Bound(data, k + 1));
      RowAdded(m0, l0, mem, led, d, data, k);
      RowTabled(m0, mem, d, row.virt / 4096 / 1024, (Bound(data, k + 1) - 1) / 1024 + 1);
    }

    /** setupkvm: a space with the kernel's half mapped and the user's half empty, or nothing taken. */
    method SetupKvm(data: nat) returns (ok: bool, d: nat)
      requires Valid() && DataOk(data)
      modifies this
      ensures Valid()
      ensures ok ==> d !in old(led) && IsDir(led, d) && Untouched(old(mem), old(led), mem, led, d)
      ensures ok ==> forall n :: 0 <= n < 1048576 ==> At(mem, d, n) == KernelEntry(data, n)
      ensures !ok ==> led == old(led) && forall f :: f in led ==> mem[f] == old(mem)[f]
      ensures ok <==> |old(free)| >= 65
      ensures ok ==> |free| + 65 == |old(free)| && NoUserTabs(mem, d)
    {
      hide Inv, At, PoolOk, Outside, Untouched, KernelEntry, Without, Tabled, Missing, KernelNeed, NoUserTabs;
      ok, d := Fetch(Dir(Zeroes()));
      if !ok { return; }
      FreshDir(old(mem), old(led), mem, led, d);
      PoolSame(free, mem, led, mem, led[d := AsDir], lo, hi);
      led := led[d := AsDir];
      NoRows(mem, d, data);
      FreshTabs(mem, d);
      var k := 0;
      while k < 4
        invariant 0 <= k <= 4 && Valid() && IsDir(led, d) && Untouched(old(mem), old(led), mem, led, d)
        invariant RowsMapped(mem, d, data, k)
        invariant |free| + 65 == |old(free)| + KernelNeed(mem, d) && NoUserTabs(mem, d)
      {
        ok := MapRow(d, data, k, old(mem), old(led));
        if !ok {
          BackAsBefore(old(mem), old(led), mem, led, d);
          FreeVm(d);
          return;
        }
        k := k + 1;
      }
      RowsDone(mem, d, data);
      KernelTabs(mem, d, data);
      return true, d;
    }

    /** One round of copyuvm: page n of d, as it was in (m, l), into the new space c; or everything but c's tables as it was. */
    method CopyPage(d: nat, c: nat, i: nat, ghost n: nat, ghost m: map<nat, Page>, ghost l: Ledger) returns (end: VmEnd)
      requires Valid() && IsDir(led, c) && Inv(m, l) && Untouched(m, l, mem, led, c) && c !in l && IsDir(l, d)
      requires i == n * 4096 && n < 524288 && !Present(At(mem, c, n))
      modifies this
      ensures Valid() && IsDir(led, c) && Untouched(m, l, mem, led, c)
      ensures end == Panic <==> !Present(At(m, d, n))
      ensures end != Panic ==> (end == Done <==> |old(free)| >= 1 + Missing(old(mem), c, n / 1024, n / 1024 + 1))
      ensures end == Done ==> |free| + 1 + Missing(old(mem), c, n / 1024, n / 1024 + 1) == |old(free)|
      ensures end == Done ==> Tabled(old(mem), mem, c, n / 1024, n / 1024 + 1)
      ensures end == Done ==> Outside(old(mem), old(led), mem, led, c, n, n + 1) && Copied(m, l, mem, d, c, n)
    {
      hide Inv, At, PoolOk, Outside, Untouched, Without, Tabled, Missing, Kept, Pde, MapNeed, FirstMapped;
      ghost var m0, l0 := mem, led;
      BackAsBefore(m, l, m0, l0, c);
      ParentPage(m, l, m0, l0, c, d, n);
      if Present(At(m0, d, n)) { MappedHasTab(m0, d, n); }
      var found, t, k := WalkPgdir(d, i, false);
      if !found { return Panic; }
      TabFacts(mem, led, t, k, n);
      var pte := mem[t].ptes[k];
      if !Present(pte) { return Panic; }
      var page := mem[pte.frame];
      var ok, f := Fetch(page);
      if !ok { return Short; }
      ghost var m1, l1 := mem, led;
      SpareWrite(m0, l0, c, f, page);
      UnchangedAt(m0, l0, m1, l0, c, 0, 0, n);
      SpareTabs(m0, c, f, page, n / 1024, n / 1024 + 1);
      OneNeed(m1, c, n);
      end := MapPages(c, i, 4096, f * 4096, pte.flags);
      if end != Done {
        HeldMeanwhile(m0, l0, mem, led, c, f, page, n, n);
        GiveBack(f);
        Later(m, l, m0, l0, mem, led, c, n, n);
        return;
      }
      TabledSpare(m0, f, page, mem, c, n / 1024, n / 1024 + 1);
      OutsideWiden(m0, l0, m1, l0, c, 0, 0, n, n + 1);
      OutsideThen(m0, l0, m1, l0, mem, led, c, n, n + 1);
      Later(m, l, m0, l0, mem, led, c, n, n + 1);
    }

    /**
     copyuvm: a new space whose pages below sz hold the same bytes with the same flags in frames of
     their own; or, for want of frames, everything as it was. It panics at a page the parent does not have.
     */
    method CopyUvm(d: nat, sz: nat, data: nat) returns (end: VmEnd, c: nat)
      requires Valid() && IsDir(led, d) && DataOk(data) && sz <= KERNBASE
      modifies this
      ensures Valid()
      ensures end == Short <==> |old(free)| < CopyNeed(FirstAbsent(old(mem), d, 0, (sz + 4095) / 4096))
      ensures end != Short ==> (end == Panic <==> exists n :: 0 <= n < (sz + 4095) / 4096 && !Present(old(At(mem, d, n))))
      ensures end != Short ==> c !in old(led) && IsDir(led, c) && Untouched(old(mem), old(led), mem, led, c)
      ensures end == Done ==> forall n :: 0 <= n < (sz + 4095) / 4096 ==> Copied(old(mem), old(led), mem, d, c, n)
      ensures end == Done ==> forall n :: (sz + 4095) / 4096 <= n < 1048576 ==> At(mem, c, n) == KernelEntry(data, n)
      ensures end == Short ==> led == old(led) && forall f :: f in led ==> mem[f] == old(mem)[f]
      ensures end == Done ==> |free| + CopyNeed((sz + 4095) / 4096) == |old(free)|
    {
      hide Inv, At, PoolOk, Outside, Untouched, KernelEntry, Without, Copied, Kept, Tabled, Missing, Need, Pde, FirstAbsent;
      ghost var n, q := 0, FirstAbsent(mem, d, 0, (sz + 4095) / 4096);
      var ok;
      ok, c := SetupKvm(data);
      if !ok { return Short, c; }
      NeedFresh(mem, c, q);
      var i := 0;
      while i < sz
        invariant i == n * 4096 && n <= q
        invariant Valid() && IsDir(led, c) && Untouched(old(mem), old(led), mem, led, c)
        invariant forall p :: 0 <= p < n ==> Copied(old(mem), old(led), mem, d, c, p)
        invariant forall p :: n <= p < 1048576 ==> At(mem, c, p) == KernelEntry(data, p)
        invariant |free| + CopyNeed(q) == |old(free)| + Need(mem, c, n, q)
        decreases sz - i
      {
        ghost var m0, l0 := mem, led;
        NeedHere(m0, c, n, q);
        NoKernelBelow(data, n);
        end := CopyPage(d, c, i, n, old(mem), old(led));
        if end == Panic { return; }
        if end == Short {
          BackAsBefore(old(mem), old(led), mem, led, c);
          FreeVm(c);
          return;
        }
        NeedNext(m0, mem, c, n, q);
        OneCopied(old(mem), old(led), m0, l0, mem, led, d, c, n);
        UnchangedAbove(m0, l0, mem, led, c, n);
        i := i + 4096;
        n := n + 1;
      }
      NeedNothing(mem, c, q);
      return Done, c;
    }
  }
}
