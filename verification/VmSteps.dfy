/** The steps of the page-table operations: what each keeps of the invariant and of the spaces it is not about. */
module VmSteps {
  import opened VmSpec

  const KERNBASE := 0x8000_0000
  const PTE_W := 2
  const PTE_U := 4

  function PgRoundUp(sz: nat): nat {
    (sz + 4095) % 0x1_0000_0000 / 4096 * 4096
  }

  /** PGADDR(i, 0, 0) */
  function PgAddr(i: nat): nat {
    i * 4194304 % 0x1_0000_0000
  }

  function FrameOf(e: Entry): seq<nat> {
    if Present(e) then [e.frame] else []
  }

  /** The frames page-by-page freeing of pages lo up to hi would push on the free list, last one first. */
  function Pushed(mem: map<nat, Page>, d: nat, lo: nat, hi: nat): seq<nat>
    decreases hi
  {
    if hi <= lo then []
    else FrameOf(At(mem, d, hi - 1)) + Pushed(mem, d, lo, hi - 1)
  }

  function Cleared(e: Entry): Entry {
    if Present(e) then NOTHING else e
  }

  lemma RoundsUp(sz: nat)
    requires sz <= KERNBASE
    ensures PgRoundUp(sz) == (sz + 4095) / 4096 * 4096
  {
  }

  /** The jump lands one page short of the next 4 MB, and does not wrap. */
  lemma SkipsTo(n: nat)
    requires n < 524288
    ensures (PgAddr(n * 4096 / 4194304 + 1) + 0x1_0000_0000 - 4096) % 0x1_0000_0000 == ((n / 1024 + 1) * 1024 - 1) * 4096
    ensures n < (n / 1024 + 1) * 1024 <= 524288
  {
    assert n * 4096 / 4194304 == n / 1024;
  }

  /** Pages first up to done of space d have been gone through. */
  ghost predicate Swept(m: map<nat, Page>, l: Ledger, f: seq<nat>, m1: map<nat, Page>, l1: Ledger, f1: seq<nat>, d: nat, first: nat, done: nat) {
    Outside(m, l, m1, l1, d, first, done) &&
    (forall p :: first <= p < done ==> At(m1, d, p) == Cleared(At(m, d, p))) &&
    f1 == Pushed(m, d, first, done) + f && PagesFreed(l, l1, d)
  }

  lemma SweptNone(m: map<nat, Page>, l: Ledger, f: seq<nat>, d: nat, first: nat)
    requires Inv(m, l) && IsDir(l, d)
    ensures Swept(m, l, f, m, l, f, d, first, first)
  {
    NothingDone(m, l, d, first);
  }

  lemma SweptSkip(m: map<nat, Page>, l: Ledger, f: seq<nat>, m1: map<nat, Page>, l1: Ledger, f1: seq<nat>, d: nat, first: nat, n: nat, upTo: nat)
    requires Swept(m, l, f, m1, l1, f1, d, first, n) && first <= n <= upTo <= (n / 1024 + 1) * 1024 && upTo <= 524288
    requires !Present(Pde(m1, d, n / 1024))
    ensures Swept(m, l, f, m1, l1, f1, d, first, upTo)
  {
    hide Outside, At, Pushed;
    Skipped(m, l, m1, l1, d, first, n, upTo);
  }

  lemma SweptOne(m: map<nat, Page>, l: Ledger, f: seq<nat>, m0: map<nat, Page>, l0: Ledger, f0: seq<nat>,
                 m1: map<nat, Page>, l1: Ledger, f1: seq<nat>, d: nat, first: nat, n: nat)
    requires Swept(m, l, f, m0, l0, f0, d, first, n) && first <= n < 524288
    requires Outside(m0, l0, m1, l1, d, n, n + 1) && At(m1, d, n) == Cleared(At(m0, d, n))
    requires f1 == FrameOf(At(m0, d, n)) + f0 && PagesFreed(l0, l1, d)
    ensures Swept(m, l, f, m1, l1, f1, d, first, n + 1)
  {
    hide Outside, At, Pushed, FrameOf, PagesFreed, Cleared;
    UnchangedAt(m, l, m0, l0, d, first, n, n);
    OneMore(m, l, m0, l0, m1, l1, d, first, n);
    PushOne(m, d, first, n);
    FreedThen(l, l0, l1, d);
    assert FrameOf(At(m, d, n)) + (Pushed(m, d, first, n) + f) == FrameOf(At(m, d, n)) + Pushed(m, d, first, n) + f;
  }

  lemma FreedThen(l: Ledger, l0: Ledger, l1: Ledger, d: nat)
    requires PagesFreed(l, l0, d) && PagesFreed(l0, l1, d)
    ensures PagesFreed(l, l1, d)
  {
  }

  lemma SweptAll(m: map<nat, Page>, l: Ledger, f: seq<nat>, m1: map<nat, Page>, l1: Ledger, f1: seq<nat>, d: nat, first: nat, end: nat)
    requires Swept(m, l, f, m1, l1, f1, d, first, end)
    ensures Outside(m, l, m1, l1, d, first, end)
    ensures forall p :: first <= p < end ==> At(m1, d, p) == Cleared(At(m, d, p))
    ensures f1 == Pushed(m, d, first, end) + f && PagesFreed(l, l1, d)
  {
  }

  /** Page n is mapped to a zeroed frame, for user code to read and write. */
  predicate FreshPage(mem: map<nat, Page>, d: nat, n: nat) {
    At(mem, d, n).flags == 7 && At(mem, d, n).frame in mem && mem[At(mem, d, n).frame] == Data(Blank())
  }

  lemma FreshKept(m0: map<nat, Page>, l0: Ledger, m1: map<nat, Page>, l1: Ledger, d: nat, first: nat, n: nat, f: nat)
    requires Outside(m0, l0, m1, l1, d, n, n + 1) && n < 524288
    requires At(m1, d, n) == Entry(f, 7) && f in m1 && m1[f] == Data(Blank())
    requires forall p :: first <= p < n ==> FreshPage(m0, d, p)
    ensures forall p :: first <= p < n + 1 ==> FreshPage(m1, d, p)
  {
    hide At;
    forall p | first <= p < n ensures FreshPage(m1, d, p) {
      assert FreshPage(m0, d, p) && Kept(m0, m1, d, p);
    }
  }

  lemma Took(mem: map<nat, Page>, led: Ledger, f: nat, page: Page)
    requires Inv(mem, led) && f in mem && f !in led
    ensures Inv(mem[f := page], led[f := Held])
  {
    assert forall g :: g in led ==> g in mem by { assert forall g :: g in led ==> UseOk(mem, led, g); }
    HeldFree(mem, led, mem[f := page], led[f := Held]);
  }

  /** Writing a frame that has no use changes nothing. */
  lemma SpareWrite(mem: map<nat, Page>, led: Ledger, d: nat, f: nat, page: Page)
    requires Inv(mem, led) && IsDir(led, d) && f in mem && f !in led
    ensures Outside(mem, led, mem[f := page], led, d, 0, 0) && led[f := Held] - {f} == led
  {
    var m1 := mem[f := page];
    assert forall g :: g in led ==> g in mem by { assert forall g :: g in led ==> UseOk(mem, led, g); }
    HeldFree(mem, led, m1, led);
    hide At;
    forall n | 0 <= n < 1048576 ensures Kept(mem, m1, d, n) {
      if n < 524288 { PageFrame(mem, led, d, n); }
    }
  }

  /** A frame was taken, filled, held while space d changed, and given back. */
  lemma HeldMeanwhile(m0: map<nat, Page>, l0: Ledger, m3: map<nat, Page>, l3: Ledger, d: nat, f: nat, page: Page, lo: nat, hi: nat)
    requires Inv(m0, l0) && Inv(m3, l3) && f in m0 && f !in l0 && f != d && IsDir(l0, d)
    requires Outside(m0[f := page], l0[f := Held], m3, l3, d, lo, hi)
    ensures f in l3 && l3[f].Held? && Inv(m3[f := Junk], l3 - {f})
    ensures Outside(m0, l0, m3[f := Junk], l3 - {f}, d, lo, hi)
    ensures forall n :: 0 <= n < 1048576 ==> At(m3[f := Junk], d, n) == At(m3, d, n)
  {
    var m1, l1, m4, l4 := m0[f := page], l0[f := Held], m3[f := Junk], l3 - {f};
    assert SameFrame(m1, l1, m3, l3, f);
    assert forall g :: g in l3 ==> g in m3 by { assert forall g :: g in l3 ==> UseOk(m3, l3, g); }
    HeldFree(m3, l3, m4, l4);
    HeldFree(m3, l3, m3, l4);
    assert forall n :: 0 <= n < 1048576 ==> At(m4, d, n) == At(m3, d, n) by { assert IsDir(l3, d); }
    hide At, Kept, Inv;
    SpareWrite(m0, l0, d, f, page);
    OutsideMinus(m1, l1, m3, l3, d, f, lo, hi);
    SpareWrite(m3, l4, d, f, Junk);
    OutsideWiden(m0, l0, m1, l0, d, 0, 0, lo, hi);
    OutsideWiden(m3, l4, m4, l4, d, 0, 0, lo, hi);
    OutsideThen(m0, l0, m1, l0, m3, l4, d, lo, hi);
    OutsideThen(m0, l0, m3, l4, m4, l4, d, lo, hi);
  }

  // ----- the kernel's half -----

  datatype Row = Row(virt: nat, start: nat, end: nat, perm: nat)

  /** The table of kernel mappings; data is where the kernel's writable memory starts. */
  function Kmap(data: nat): seq<Row>
    requires DataOk(data)
  {
    [Row(0x8000_0000, 0, 0x10_0000, PTE_W), Row(0x8010_0000, 0x10_0000, data - 0x8000_0000, 0),
     Row(data, data - 0x8000_0000, 0xE00_0000, PTE_W), Row(0xFE00_0000, 0xFE00_0000, 0, PTE_W)]
  }

  predicate DataOk(data: nat) {
    data % 4096 == 0 && 0x8010_0000 < data < 0x8E00_0000
  }

  /** Physical memory at 2 GB, its text read-only, and the devices where they are. */
  function KernelEntry(data: nat, n: nat): Entry {
    if 0x8_0000 <= n < 0x8_E000 then Entry(n - 0x8_0000, if 0x8_0100 <= n && n * 4096 < data then 1 else 3)
    else if 0xF_E000 <= n then Entry(n, 3)
    else NOTHING
  }

  /** Bits 1 and 2 of an entry's flags: the page may be written, and user code may touch it. */
  predicate MayWrite(e: Entry) { e.flags / 2 % 2 == 1 }

  predicate ForUser(e: Entry) { e.flags / 4 % 2 == 1 }

  /** The kernel's half is out of reach for user code, its text out of reach for writes; new user pages are open to both. */
  lemma Reach(mem: map<nat, Page>, d: nat, data: nat, n: nat)
    requires DataOk(data)
    ensures !ForUser(KernelEntry(data, n))
    ensures Present(KernelEntry(data, n)) <==> 0x8000_0000 <= n * 4096 < 0x8E00_0000 || 0xFE00_0000 <= n * 4096
    ensures Present(KernelEntry(data, n)) ==> (MayWrite(KernelEntry(data, n)) <==> !(0x8010_0000 <= n * 4096 < data))
    ensures Present(KernelEntry(data, n)) ==> KernelEntry(data, n).frame * 4096 == if n * 4096 < 0x8E00_0000 then n * 4096 - 0x8000_0000 else n * 4096
    ensures FreshPage(mem, d, n) ==> Present(At(mem, d, n)) && MayWrite(At(mem, d, n)) && ForUser(At(mem, d, n))
  {
    hide At;
  }

  /** The page where row k ends, and the pages below it are as they will be. */
  function Bound(data: nat, k: nat): nat {
    if k == 0 then 0x8_0000 else if k == 1 then 0x8_0100 else if k == 2 then data / 4096 else if k == 3 then 0x8_E000 else 0x10_0000
  }

  ghost predicate RowsMapped(mem: map<nat, Page>, d: nat, data: nat, k: nat) {
    forall n :: 0 <= n < 1048576 ==> At(mem, d, n) == if n < Bound(data, k) then KernelEntry(data, n) else NOTHING
  }

  lemma NoRows(mem: map<nat, Page>, d: nat, data: nat)
    requires forall n :: 0 <= n < 1048576 ==> At(mem, d, n) == NOTHING
    ensures RowsMapped(mem, d, data, 0)
  {
    hide At;
  }

  lemma RowFacts(mem: map<nat, Page>, d: nat, data: nat, k: nat)
    requires DataOk(data) && k < 4 && RowsMapped(mem, d, data, k)
    ensures var row := Kmap(data)[k];
            var size := (row.end + 0x1_0000_0000 - row.start) % 0x1_0000_0000;
            size > 0 && row.virt + size <= 0x1_0000_0000 && row.virt / 4096 >= 524288 &&
            (row.virt + size - 1) / 4096 + 1 == Bound(data, k + 1) &&
            forall n :: row.virt / 4096 <= n <= (row.virt + size - 1) / 4096 ==> !Present(At(mem, d, n))
  {
    hide At, KernelEntry;
    var row := Kmap(data)[k];
    assert row.virt / 4096 >= Bound(data, k);
  }

  lemma RowAdded(m0: map<nat, Page>, l0: Ledger, m1: map<nat, Page>, l1: Ledger, d: nat, data: nat, k: nat)
    requires DataOk(data) && k < 4 && RowsMapped(m0, d, data, k)
    requires var row := Kmap(data)[k];
             Outside(m0, l0, m1, l1, d, row.virt / 4096, Bound(data, k + 1)) &&
             forall n :: row.virt / 4096 <= n < Bound(data, k + 1) ==>
                           At(m1, d, n) == Entry(row.start / 4096 + n - row.virt / 4096, WithP(row.perm))
    ensures RowsMapped(m1, d, data, k + 1)
  {
    hide At;
    var row := Kmap(data)[k];
    forall n | 0 <= n < 1048576 ensures At(m1, d, n) == if n < Bound(data, k + 1) then KernelEntry(data, n) else NOTHING {
      if !(row.virt / 4096 <= n < Bound(data, k + 1)) {
        UnchangedAt(m0, l0, m1, l1, d, row.virt / 4096, Bound(data, k + 1), n);
      }
    }
  }

  lemma RowsDone(mem: map<nat, Page>, d: nat, data: nat)
    requires RowsMapped(mem, d, data, 4)
    ensures forall n :: 0 <= n < 1048576 ==> At(mem, d, n) == KernelEntry(data, n)
  {
    hide At, KernelEntry;
  }

  lemma FreshDir(m0: map<nat, Page>, l0: Ledger, m1: map<nat, Page>, l1: Ledger, d: nat)
    requires Inv(m0, l0) && Inv(m1, l1) && d in m0 && d !in l0 && m1 == m0[d := Dir(Zeroes())] && l1 == l0[d := Held]
    ensures Inv(m1, l1[d := AsDir]) && Untouched(m0, l0, m1, l1[d := AsDir], d)
    ensures forall n :: 0 <= n < 1048576 ==> At(m1, d, n) == NOTHING
  {
    hide At;
    NewDir(m1, l1, d, m1, l1[d := AsDir]);
    assert forall f :: f in l0 ==> f in m0 by { assert forall f :: f in l0 ==> UseOk(m0, l0, f); }
  }

  lemma Later(m0: map<nat, Page>, l0: Ledger, m1: map<nat, Page>, l1: Ledger, m2: map<nat, Page>, l2: Ledger, d: nat, lo: nat, hi: nat)
    requires Untouched(m0, l0, m1, l1, d) && Outside(m1, l1, m2, l2, d, lo, hi)
    ensures Untouched(m0, l0, m2, l2, d)
  {
    hide At, Kept;
    forall f | f != d && ((f in l0 && !Of(l0[f], d)) || (f in l2 && !Of(l2[f], d))) ensures SameFrame(m0, l0, m2, l2, f) {
      if f in l0 && !Of(l0[f], d) {
        assert SameFrame(m0, l0, m1, l1, f);
        assert SameFrame(m1, l1, m2, l2, f);
      } else {
        assert SameFrame(m1, l1, m2, l2, f);
        assert SameFrame(m0, l0, m1, l1, f);
      }
    }
  }

  /** Dropping a space that was not there before restores what was. */
  lemma BackAsBefore(m0: map<nat, Page>, l0: Ledger, m1: map<nat, Page>, l1: Ledger, d: nat)
    requires Inv(m0, l0) && d !in l0 && Untouched(m0, l0, m1, l1, d)
    ensures Without(l1, d) == l0
    ensures forall f :: f in l0 ==> f in l1 && f in m0 && f in m1 && m1[f] == m0[f]
  {
    forall f | f in l0 ensures f in Without(l1, d) && l1[f] == l0[f] && f in m0 && f in m1 && m1[f] == m0[f] {
      assert UseOk(m0, l0, f);
      assert SameFrame(m0, l0, m1, l1, f);
    }
    forall f | f in Without(l1, d) ensures f in l0 {
      assert SameFrame(m0, l0, m1, l1, f);
    }
  }

  // ----- the copy of a space -----

  /** Page n of c holds what page n of d held, with the same flags, in a frame that had no use. */
  predicate Copied(m0: map<nat, Page>, l0: Ledger, m1: map<nat, Page>, d: nat, c: nat, n: nat) {
    var from, copy := At(m0, d, n), At(m1, c, n);
    Present(copy) && copy.flags == from.flags && copy.frame !in l0 &&
    copy.frame in m1 && from.frame in m0 && m1[copy.frame] == m0[from.frame]
  }

  /** The parent is as it was, so its page can be found and copied. */
  lemma ParentPage(m: map<nat, Page>, l: Ledger, m0: map<nat, Page>, l0: Ledger, c: nat, d: nat, n: nat)
    requires Inv(m, l) && Inv(m0, l0) && Untouched(m, l, m0, l0, c) && c !in l && IsDir(l, d) && n < 524288
    ensures IsDir(l0, d) && At(m0, d, n) == At(m, d, n)
    ensures Present(At(m, d, n)) ==>
              var f := At(m0, d, n).frame;
              f in m && f in m0 && m0[f] == m[f] && m0[f].Data? && |m0[f].bytes| == 4096
  {
    OthersKept(m, l, m0, l0, c, d, n);
    if Present(At(m, d, n)) { PageFrame(m0, l0, d, n); }
  }

  lemma NoKernelBelow(data: nat, n: nat)
    requires n < 524288
    ensures KernelEntry(data, n) == NOTHING
  {
  }

  lemma OneCopied(m: map<nat, Page>, l: Ledger, m0: map<nat, Page>, l0: Ledger, m1: map<nat, Page>, l1: Ledger, d: nat, c: nat, n: nat)
    requires Outside(m0, l0, m1, l1, c, n, n + 1) && n < 524288 && Copied(m, l, m1, d, c, n)
    requires forall p :: 0 <= p < n ==> Copied(m, l, m0, d, c, p)
    ensures forall p :: 0 <= p < n + 1 ==> Copied(m, l, m1, d, c, p)
  {
    hide At;
    forall p | 0 <= p < n ensures Copied(m, l, m1, d, c, p) {
      assert Copied(m, l, m0, d, c, p) && Kept(m0, m1, c, p);
    }
  }

  lemma UnchangedAbove(m0: map<nat, Page>, l0: Ledger, m1: map<nat, Page>, l1: Ledger, c: nat, n: nat)
    requires Outside(m0, l0, m1, l1, c, n, n + 1)
    ensures forall p :: n + 1 <= p < 1048576 ==> At(m1, c, p) == At(m0, c, p)
  {
    hide At;
    forall p | n + 1 <= p < 1048576 ensures At(m1, c, p) == At(m0, c, p) { UnchangedAt(m0, l0, m1, l1, c, n, n + 1, p); }
  }

  /** With its user pages gone, a space is its directory and tables. */
  lemma OnlyTabsLeft(m0: map<nat, Page>, l0: Ledger, m1: map<nat, Page>, l1: Ledger, d: nat)
    requires Inv(m1, l1) && PagesFreed(l0, l1, d) && IsDir(l0, d) && Outside(m0, l0, m1, l1, d, 0, 524288)
    requires forall n :: 0 <= n < 524288 ==> At(m1, d, n) == Cleared(At(m0, d, n))
    ensures forall f :: f in l1 && Of(l1[f], d) ==> l1[f].AsTab?
    ensures Without(l1, d) == Without(l0, d)
    ensures forall f :: f in Without(l0, d) ==> f in m0 && f in m1 && m1[f] == m0[f]
  {
    hide At;
    forall f | f in l1 && Of(l1[f], d) ensures l1[f].AsTab? {
      assert UseOk(m1, l1, f);
    }
    forall f | f in Without(l0, d) ensures f in m0 && f in m1 && m1[f] == m0[f] {
      assert SameFrame(m0, l0, m1, l1, f);
    }
  }

  predicate TabBelow(u: Use, d: nat, i: nat) {
    u.AsTab? && u.d == d && u.i < i
  }

  /** The tables below index i have been freed, without clearing the entries that name them. */
  ghost predicate TabsDropped(m1: map<nat, Page>, l1: Ledger, m2: map<nat, Page>, l2: Ledger, d: nat, i: nat) {
    IsDir(l2, d) &&
    (forall f :: f in l2 ==> f in l1 && l2[f] == l1[f] && !TabBelow(l1[f], d, i) && f in m1 && f in m2 && m2[f] == m1[f]) &&
    (forall f :: f in l1 && !TabBelow(l1[f], d, i) ==> f in l2)
  }

  lemma NoneDropped(m1: map<nat, Page>, l1: Ledger, d: nat)
    requires Inv(m1, l1) && IsDir(l1, d)
    ensures TabsDropped(m1, l1, m1, l1, d, 0)
  {
    assert forall f :: f in l1 ==> UseOk(m1, l1, f);
  }

  lemma DropFacts(m1: map<nat, Page>, l1: Ledger, m2: map<nat, Page>, l2: Ledger, d: nat, i: nat)
    requires TabsDropped(m1, l1, m2, l2, d, i)
    ensures d in l2 && d in m1 && d in m2 && m2[d] == m1[d]
    ensures forall f :: f in l1 && l1[f] == AsTab(d, i) ==> f in l2
  {
  }

  lemma DropOne(m1: map<nat, Page>, l1: Ledger, m2: map<nat, Page>, l2: Ledger, m3: map<nat, Page>, l3: Ledger, d: nat, i: nat)
    requires Inv(m1, l1) && IsDir(l1, d) && TabsDropped(m1, l1, m2, l2, d, i) && i < 1024
    requires if Present(Pde(m1, d, i)) then m3 == m2[Pde(m1, d, i).frame := Junk] && l3 == l2 - {Pde(m1, d, i).frame}
             else m3 == m2 && l3 == l2
    ensures TabsDropped(m1, l1, m3, l3, d, i + 1)
  {
    hide Pde, At;
    assert TabOk(m1, l1, d, i);
    forall f | f in l1 && l1[f] == AsTab(d, i) ensures Present(Pde(m1, d, i)) && Pde(m1, d, i).frame == f {
      assert UseOk(m1, l1, f);
    }
    forall f | f in l1 ensures TabBelow(l1[f], d, i + 1) <==> TabBelow(l1[f], d, i) || l1[f] == AsTab(d, i) {
    }
    hide TabBelow;
  }

  lemma AllDropped(m1: map<nat, Page>, l1: Ledger, m2: map<nat, Page>, l2: Ledger, d: nat)
    requires Inv(m1, l1) && IsDir(l1, d) && TabsDropped(m1, l1, m2, l2, d, 1024)
    requires forall f :: f in l1 && Of(l1[f], d) ==> l1[f].AsTab?
    ensures l2 - {d} == Without(l1, d)
    ensures forall f :: f in l2 - {d} ==> f in m1 && f in m2 && m2[f] == m1[f]
  {
    hide Pde, At;
    forall f | f in l1 && Of(l1[f], d) ensures f !in l2 {
      assert UseOk(m1, l1, f);
    }
  }

  /** Only pages of space d have left the ledger. */
  ghost predicate PagesFreed(l0: Ledger, l1: Ledger, d: nat) {
    (forall f :: f in l1 ==> f in l0 && l1[f] == l0[f]) &&
    (forall f :: f in l0 && f !in l1 ==> l0[f].AsPage? && l0[f].d == d)
  }

  lemma NotZero(free: seq<nat>, mem: map<nat, Page>, led: Ledger, lo: nat, hi: nat, f: nat)
    requires PoolOk(free, mem, led, lo, hi) && f in led
    ensures f != 0
  {
  }

  lemma NothingDone(mem: map<nat, Page>, led: Ledger, d: nat, first: nat)
    requires Inv(mem, led) && IsDir(led, d)
    ensures Outside(mem, led, mem, led, d, first, first) && Pushed(mem, d, first, first) == []
  {
    SameOutside(mem, led, d);
    OutsideWiden(mem, led, mem, led, d, 0, 0, first, first);
  }

  lemma PushOne(mem: map<nat, Page>, d: nat, first: nat, n: nat)
    requires first <= n
    ensures Pushed(mem, d, first, n + 1) == FrameOf(At(mem, d, n)) + Pushed(mem, d, first, n)
  {
    hide At;
  }

  /** Without a table there is nothing to free up to the next 4 MB. */
  lemma Skipped(m: map<nat, Page>, l: Ledger, m0: map<nat, Page>, l0: Ledger, d: nat, first: nat, n: nat, upTo: nat)
    requires Outside(m, l, m0, l0, d, first, n) && first <= n <= upTo <= (n / 1024 + 1) * 1024 && upTo <= 524288
    requires !Present(Pde(m0, d, n / 1024))
    ensures Outside(m, l, m0, l0, d, first, upTo)
    ensures forall p :: n <= p < upTo ==> At(m0, d, p) == At(m, d, p) == NOTHING
    ensures Pushed(m, d, first, upTo) == Pushed(m, d, first, n)
  {
    hide Outside, Pushed, At;
    forall p | n <= p < upTo ensures At(m0, d, p) == At(m, d, p) == NOTHING {
      NoTable(m0, d, n, p);
      UnchangedAt(m, l, m0, l0, d, first, n, p);
    }
    OutsideWiden(m, l, m0, l0, d, first, n, first, upTo);
    PushNone(m, d, first, n, upTo);
  }

  lemma NoTable(mem: map<nat, Page>, d: nat, n: nat, p: nat)
    requires !Present(Pde(mem, d, n / 1024)) && n <= p < (n / 1024 + 1) * 1024
    ensures At(mem, d, p) == NOTHING
  {
    assert p / 1024 == n / 1024;
  }

  lemma {:induction false} PushNone(mem: map<nat, Page>, d: nat, first: nat, n: nat, upTo: nat)
    requires first <= n <= upTo && forall p :: n <= p < upTo ==> At(mem, d, p) == NOTHING
    ensures Pushed(mem, d, first, upTo) == Pushed(mem, d, first, n)
    decreases upTo
  {
    hide At;
    if n < upTo {
      PushNone(mem, d, first, n, upTo - 1);
      PushOne(mem, d, first, upTo - 1);
    }
  }

  /** f is a page of data in the caller's hands. */
  predicate Holds(mem: map<nat, Page>, led: Ledger, f: nat) {
    f in led && led[f].Held? && f in mem && mem[f].Data? && |mem[f].bytes| == 4096
  }

  lemma DirFacts(mem: map<nat, Page>, led: Ledger, d: nat, i: nat)
    requires Inv(mem, led) && IsDir(led, d) && i < 1024
    ensures d in mem && mem[d].Dir? && |mem[d].pdes| == 1024 && mem[d].pdes[i] == Pde(mem, d, i)
    ensures TabOk(mem, led, d, i) && Outside(mem, led, mem, led, d, 0, 0)
  {
    assert UseOk(mem, led, d);
    SameOutside(mem, led, d);
  }

  lemma TabFacts(mem: map<nat, Page>, led: Ledger, t: nat, k: nat, n: nat)
    requires Inv(mem, led) && t in led && led[t].AsTab? && led[t].i == n / 1024 && k == n % 1024
    ensures t in mem && mem[t].Tab? && |mem[t].ptes| == 1024 && PageNo(led[t], k) == n && IsDir(led, led[t].d)
    ensures At(mem, led[t].d, n) == mem[t].ptes[k]
  {
    assert UseOk(mem, led, t);
  }

  lemma InUse(free: seq<nat>, mem: map<nat, Page>, led: Ledger, lo: nat, hi: nat, f: nat)
    requires PoolOk(free, mem, led, lo, hi) && f in led
    ensures f !in free
  {
  }

  lemma PoolSame(free: seq<nat>, mem: map<nat, Page>, led: Ledger, mem': map<nat, Page>, led': Ledger, lo: nat, hi: nat)
    requires PoolOk(free, mem, led, lo, hi) && mem'.Keys == mem.Keys && led'.Keys == led.Keys
    ensures PoolOk(free, mem', led', lo, hi)
  {
    assert forall f :: f in mem' <==> f in mem.Keys;
    assert forall f :: f in led' <==> f in led.Keys;
    assert forall f :: f in led.Keys <==> f in led'.Keys;
  }

  lemma UnchangedAt(m0: map<nat, Page>, l0: Ledger, m1: map<nat, Page>, l1: Ledger, d: nat, lo: nat, hi: nat, n: nat)
    requires Outside(m0, l0, m1, l1, d, lo, hi) && n < 1048576 && !(lo <= n < hi)
    ensures At(m1, d, n) == At(m0, d, n)
  {
    assert Kept(m0, m1, d, n);
  }

  lemma OutsideMinus(m0: map<nat, Page>, l0: Ledger, m1: map<nat, Page>, l1: Ledger, d: nat, f: nat, lo: nat, hi: nat)
    requires Outside(m0, l0, m1, l1, d, lo, hi) && f != d
    ensures Outside(m0, l0 - {f}, m1, l1 - {f}, d, lo, hi)
  {
    hide At, Kept;
    forall g | g != d && ((g in l0 - {f} && !Of(l0[g], d)) || (g in l1 - {f} && !Of(l1[g], d)))
      ensures SameFrame(m0, l0 - {f}, m1, l1 - {f}, g)
    {
      assert SameFrame(m0, l0, m1, l1, g);
    }
  }

  /** One user page is mapped, after its table was found or made. */
  lemma UserMapped(m: map<nat, Page>, l: Ledger, m1: map<nat, Page>, l1: Ledger, t: nat, k: nat, f: nat, flags: nat, d: nat, n: nat)
    requires Inv(m, l) && Inv(m1, l1) && Holds(m, l, f) && n < 524288 && flags % 2 == 1
    requires Outside(m, l, m1, l1, d, 0, 0)
    requires t in l1 && l1[t] == AsTab(d, n / 1024) && k == n % 1024 && !Present(At(m1, d, n))
    ensures UseOk(m1, l1, t)
    ensures var m2, l2 := WithPte(m1, t, k, Entry(f, flags)), l1[f := AsPage(d, n)];
            Inv(m2, l2) && At(m2, d, n) == Entry(f, flags) && f in l1 && f in m2 && m2[f] == m[f] &&
            Outside(m, l - {f}, m2, l2, d, n, n + 1)
  {
    hide Inv, At, Kept;
    TabFacts(m1, l1, t, k, n);
    assert SameFrame(m, l, m1, l1, f);
    OutsideMinus(m, l, m1, l1, d, f, 0, 0);
    MapStep(m1, l1, t, k, f, flags);
    var m2, l2 := WithPte(m1, t, k, Entry(f, flags)), l1[f := AsPage(d, n)];
    OutsideWiden(m, l - {f}, m1, l1 - {f}, d, 0, 0, n, n + 1);
    OutsideThen(m, l - {f}, m1, l1 - {f}, m2, l2, d, n, n + 1);
  }

  lemma KernelMapped(m: map<nat, Page>, l: Ledger, m1: map<nat, Page>, l1: Ledger, t: nat, k: nat, e: Entry, d: nat, n: nat)
    requires Inv(m1, l1) && 524288 <= n < 1048576 && Outside(m, l, m1, l1, d, 0, 0)
    requires t in l1 && l1[t] == AsTab(d, n / 1024) && k == n % 1024
    ensures UseOk(m1, l1, t)
    ensures var m2 := WithPte(m1, t, k, e);
            Inv(m2, l1) && At(m2, d, n) == e && Outside(m, l, m2, l1, d, n, n + 1)
  {
    hide Inv, At;
    TabFacts(m1, l1, t, k, n);
    KernelStep(m1, l1, t, k, e);
    var m2 := WithPte(m1, t, k, e);
    OutsideWiden(m, l, m1, l1, d, 0, 0, n, n + 1);
    OutsideThen(m, l, m1, l1, m2, l1, d, n, n + 1);
  }

  /** A change of page n after a change of the pages before it. */
  lemma OneMore(m: map<nat, Page>, l: Ledger, m0: map<nat, Page>, l0: Ledger, m1: map<nat, Page>, l1: Ledger, d: nat, first: nat, n: nat)
    requires Outside(m, l, m0, l0, d, first, n) && Outside(m0, l0, m1, l1, d, n, n + 1) && first <= n < 1048576
    ensures Outside(m, l, m1, l1, d, first, n + 1)
    ensures forall p :: first <= p < n ==> At(m1, d, p) == At(m0, d, p)
  {
    hide At;
    forall p | first <= p < n ensures At(m1, d, p) == At(m0, d, p) {
      UnchangedAt(m0, l0, m1, l1, d, n, n + 1, p);
    }
    OutsideWiden(m, l, m0, l0, d, first, n, first, n + 1);
    OutsideWiden(m0, l0, m1, l1, d, n, n + 1, first, n + 1);
    OutsideThen(m, l, m0, l0, m1, l1, d, first, n + 1);
  }

  lemma SameOutside(mem: map<nat, Page>, led: Ledger, d: nat)
    requires Inv(mem, led) && IsDir(led, d)
    ensures Outside(mem, led, mem, led, d, 0, 0)
  {
    hide At;
    forall n | 0 <= n < 1048576 ensures Kept(mem, mem, d, n) {
      if n < 524288 { PageFrame(mem, led, d, n); }
    }
    assert forall g :: g in led ==> g in mem by { assert forall g :: g in led ==> UseOk(mem, led, g); }
  }
}
