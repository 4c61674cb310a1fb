/** How many frames the page-table operations take: pages, and the tables missing on the way to them. */
module VmFrames {
  import opened Common
  import opened VmSpec
  import opened VmSteps

  /** The tables with index i up to j that space d does not have. */
  ghost function Missing(mem: map<nat, Page>, d: nat, i: nat, j: nat): nat
    decreases j - i
  {
    if i >= j then 0 else One(!Present(Pde(mem, d, i))) + Missing(mem, d, i + 1, j)
  }

  /** From m0 to m1 space d gained the tables i up to j that it lacked, and no others came or went. */
  ghost predicate Tabled(m0: map<nat, Page>, m1: map<nat, Page>, d: nat, i: nat, j: nat) {
    forall k :: 0 <= k < 1024 ==> (Present(Pde(m1, d, k)) <==> Present(Pde(m0, d, k)) || i <= k < j)
  }

  lemma NoneTabled(mem: map<nat, Page>, d: nat, i: nat)
    ensures Tabled(mem, mem, d, i, i) && Missing(mem, d, i, i) == 0
  {
  }

  lemma {:induction false} MissingSplit(mem: map<nat, Page>, d: nat, i: nat, k: nat, j: nat)
    requires i <= k <= j
    ensures Missing(mem, d, i, j) == Missing(mem, d, i, k) + Missing(mem, d, k, j)
    decreases k - i
  {
    if i < k { MissingSplit(mem, d, i + 1, k, j); }
  }

  lemma {:induction false} MissingSame(m0: map<nat, Page>, m1: map<nat, Page>, d: nat, i: nat, j: nat)
    requires forall k :: i <= k < j ==> (Present(Pde(m1, d, k)) <==> Present(Pde(m0, d, k)))
    ensures Missing(m1, d, i, j) == Missing(m0, d, i, j)
    decreases j - i
  {
    if i < j { MissingSame(m0, m1, d, i + 1, j); }
  }

  lemma {:induction false} NoneMissing(mem: map<nat, Page>, d: nat, i: nat, j: nat)
    requires forall k :: i <= k < j ==> Present(Pde(mem, d, k))
    ensures Missing(mem, d, i, j) == 0
    decreases j - i
  {
    if i < j { NoneMissing(mem, d, i + 1, j); }
  }

  lemma {:induction false} AllMissing(mem: map<nat, Page>, d: nat, i: nat, j: nat)
    requires i <= j && forall k :: i <= k < j ==> !Present(Pde(mem, d, k))
    ensures Missing(mem, d, i, j) == j - i
    decreases j - i
  {
    if i < j { AllMissing(mem, d, i + 1, j); }
  }

  /** Gaining the tables i up to j lowers what is missing of a larger range by what was missing of those. */
  lemma MissingAfter(m0: map<nat, Page>, m1: map<nat, Page>, d: nat, i: nat, j: nat, lo: nat, hi: nat)
    requires Tabled(m0, m1, d, i, j) && lo <= i <= j <= hi <= 1024
    ensures Missing(m1, d, lo, hi) + Missing(m0, d, i, j) == Missing(m0, d, lo, hi)
  {
    hide Pde;
    MissingSplit(m0, d, lo, i, hi);
    MissingSplit(m0, d, i, j, hi);
    MissingSplit(m1, d, lo, i, hi);
    MissingSplit(m1, d, i, j, hi);
    MissingSame(m0, m1, d, lo, i);
    MissingSame(m0, m1, d, j, hi);
    NoneMissing(m1, d, i, j);
  }

  /** Tables gained outside a range leave it. */
  lemma MissingElsewhere(m0: map<nat, Page>, m1: map<nat, Page>, d: nat, i: nat, j: nat, lo: nat, hi: nat)
    requires Tabled(m0, m1, d, i, j) && (hi <= i || j <= lo) && hi <= 1024
    ensures Missing(m1, d, lo, hi) == Missing(m0, d, lo, hi)
  {
    hide Pde;
    MissingSame(m0, m1, d, lo, hi);
  }

  lemma TabledThen(m0: map<nat, Page>, m1: map<nat, Page>, m2: map<nat, Page>, d: nat, i: nat, j: nat, k: nat)
    requires Tabled(m0, m1, d, i, j) && Tabled(m1, m2, d, k, k + 1) && i <= j && i <= k <= j && (k < j ==> k + 1 == j)
    ensures Tabled(m0, m2, d, i, k + 1)
  {
    hide Pde;
  }

  // ----- how far an operation gets -----

  /** The first page from i up to j that space d maps, or j. */
  ghost function FirstMapped(mem: map<nat, Page>, d: nat, i: nat, j: nat): (q: nat)
    requires i <= j
    ensures i <= q <= j && (q < j ==> Present(At(mem, d, q))) && forall n :: i <= n < q ==> !Present(At(mem, d, n))
    decreases j - i
  {
    if i == j || Present(At(mem, d, i)) then i else FirstMapped(mem, d, i + 1, j)
  }

  /** The first page from i up to j that space d does not map, or j. */
  ghost function FirstAbsent(mem: map<nat, Page>, d: nat, i: nat, j: nat): (q: nat)
    requires i <= j
    ensures i <= q <= j && (q < j ==> !Present(At(mem, d, q))) && forall n :: i <= n < q ==> Present(At(mem, d, n))
    decreases j - i
  {
    if i == j || !Present(At(mem, d, i)) then i else FirstAbsent(mem, d, i + 1, j)
  }

  /** A mapped page has a table. */
  lemma MappedHasTab(mem: map<nat, Page>, d: nat, n: nat)
    requires Present(At(mem, d, n))
    ensures Present(Pde(mem, d, n / 1024)) && Missing(mem, d, n / 1024, n / 1024 + 1) == 0
  {
    FoundTab(mem, d, n / 1024);
  }

  /** The tables mappages needs for pages i to j: those up to the first page that is mapped already. */
  ghost function MapNeed(mem: map<nat, Page>, d: nat, i: nat, j: nat): nat
    requires i <= j
  {
    Missing(mem, d, i / 1024, Min(FirstMapped(mem, d, i, j + 1), j) / 1024 + 1)
  }

  lemma MapNeedClear(mem: map<nat, Page>, d: nat, i: nat, j: nat)
    requires i <= j && forall n :: i <= n <= j ==> !Present(At(mem, d, n))
    ensures FirstMapped(mem, d, i, j + 1) == j + 1 && MapNeed(mem, d, i, j) == Missing(mem, d, i / 1024, j / 1024 + 1)
  {
    hide At;
  }

  /** The frames allocuvm needs for pages i up to j: those up to the first page that is mapped already, and one more there. */
  ghost function GrowNeed(mem: map<nat, Page>, d: nat, i: nat, j: nat): nat
    requires i <= j
  {
    var q := FirstMapped(mem, d, i, j);
    Need(mem, d, i, q) + One(q < j)
  }

  /** The frames for user pages n up to end of space d: the pages, and the tables on the way. */
  ghost function Need(mem: map<nat, Page>, d: nat, n: nat, end: nat): nat {
    if n >= end then 0 else end - n + Missing(mem, d, n / 1024, (end - 1) / 1024 + 1)
  }

  lemma NeedNext(m0: map<nat, Page>, m1: map<nat, Page>, d: nat, n: nat, end: nat)
    requires n < end <= 1048576 && Tabled(m0, m1, d, n / 1024, n / 1024 + 1)
    ensures Need(m0, d, n, end) == 1 + Missing(m0, d, n / 1024, n / 1024 + 1) + Need(m1, d, n + 1, end)
  {
    hide Pde;
    var i, j := n / 1024, (end - 1) / 1024 + 1;
    MissingAfter(m0, m1, d, i, i + 1, i, j);
    if n + 1 < end {
      NoneMissing(m1, d, i, i + 1);
      MissingSplit(m1, d, i, i + 1, j);
      assert (n + 1) / 1024 == i || (n + 1) / 1024 == i + 1;
    } else {
      NoneMissing(m1, d, i, j);
    }
  }

  lemma NeedNothing(mem: map<nat, Page>, d: nat, end: nat)
    ensures Need(mem, d, end, end) == 0
  {
  }

  /** What copying a space of n pages takes: a directory and the kernel's 64 tables, the pages, and the tables for them. */
  function CopyNeed(n: nat): nat {
    65 + n + (n + 1023) / 1024
  }

  // ----- mappages under way -----

  /** Where the tables made for pages first up to n end. */
  function TabEnd(first: nat, n: nat): nat
    requires first <= n
  {
    if n == first then first / 1024 else (n - 1) / 1024 + 1
  }

  /** Pages first up to n have been gone through: their tables are there, and a frame is gone for each that was not. */
  ghost predicate Made(m0: map<nat, Page>, f0: nat, m1: map<nat, Page>, f1: nat, d: nat, first: nat, n: nat)
    requires first <= n
  {
    Tabled(m0, m1, d, first / 1024, TabEnd(first, n)) && f1 + Missing(m0, d, first / 1024, TabEnd(first, n)) == f0
  }

  lemma NoneMade(mem: map<nat, Page>, f: nat, d: nat, first: nat)
    ensures Made(mem, f, mem, f, d, first, first)
  {
    NoneTabled(mem, d, first / 1024);
  }

  lemma TabEnds(first: nat, n: nat)
    requires first <= n
    ensures first / 1024 <= n / 1024 && TabEnd(first, n + 1) == n / 1024 + 1
    ensures n / 1024 == TabEnd(first, n) || n / 1024 + 1 == TabEnd(first, n)
    ensures first / 1024 <= TabEnd(first, n)
  {
  }

  lemma MadeNext(m0: map<nat, Page>, f0: nat, m1: map<nat, Page>, f1: nat, m2: map<nat, Page>, f2: nat, d: nat, first: nat, n: nat)
    requires first <= n < 1048576 && Made(m0, f0, m1, f1, d, first, n)
    requires Tabled(m1, m2, d, n / 1024, n / 1024 + 1) && f2 + Missing(m1, d, n / 1024, n / 1024 + 1) == f1
    ensures Made(m0, f0, m2, f2, d, first, n + 1)
  {
    hide Pde, TabEnd;
    var i, j, k := first / 1024, TabEnd(first, n), n / 1024;
    TabEnds(first, n);
    TabledThen(m0, m1, m2, d, i, j, k);
    if k < j {
      NoneMissing(m1, d, k, k + 1);
    } else {
      MissingElsewhere(m0, m1, d, i, j, k, k + 1);
      MissingSplit(m0, d, i, k, k + 1);
    }
  }

  /** No frame left, and no table: there were too few for the whole range. */
  lemma MadeShort(m0: map<nat, Page>, f0: nat, m1: map<nat, Page>, d: nat, first: nat, n: nat, end: nat)
    requires first <= n <= end < 1048576 && Made(m0, f0, m1, 0, d, first, n) && !Present(Pde(m1, d, n / 1024))
    ensures f0 < Missing(m0, d, first / 1024, end / 1024 + 1)
  {
    hide Pde, TabEnd;
    var i, j, k := first / 1024, TabEnd(first, n), n / 1024;
    TabEnds(first, n);
    assert k == j && !Present(Pde(m0, d, k));
    MissingSplit(m0, d, i, k, end / 1024 + 1);
  }

  /** The next page is mapped: all tables up to its own are there. */
  lemma MadeStop(m0: map<nat, Page>, f0: nat, m1: map<nat, Page>, f1: nat, d: nat, first: nat, n: nat)
    requires first <= n && Made(m0, f0, m1, f1, d, first, n) && Present(At(m0, d, n))
    ensures f1 + Missing(m0, d, first / 1024, n / 1024 + 1) == f0
  {
    MappedHasTab(m0, d, n);
    hide Pde, TabEnd, At;
    TabEnds(first, n);
    MissingSplit(m0, d, first / 1024, n / 1024, n / 1024 + 1);
  }

  lemma MadeAll(m0: map<nat, Page>, f0: nat, m1: map<nat, Page>, f1: nat, d: nat, first: nat, end: nat)
    requires first <= end && Made(m0, f0, m1, f1, d, first, end + 1)
    ensures Tabled(m0, m1, d, first / 1024, end / 1024 + 1) && f1 + Missing(m0, d, first / 1024, end / 1024 + 1) == f0
  {
    hide Pde;
  }

  /** A space without tables in its user half needs one for every 1024 pages. */
  lemma NeedFresh(mem: map<nat, Page>, d: nat, end: nat)
    requires end <= 524288 && forall k :: 0 <= k < 512 ==> !Present(Pde(mem, d, k))
    ensures Need(mem, d, 0, end) == end + (end + 1023) / 1024
  {
    hide Pde;
    if end > 0 {
      AllMissing(mem, d, 0, (end - 1) / 1024 + 1);
    }
  }

  lemma MissingWithin(mem: map<nat, Page>, d: nat, i: nat, j: nat, lo: nat, hi: nat)
    requires lo <= i <= j <= hi
    ensures Missing(mem, d, i, j) <= Missing(mem, d, lo, hi)
  {
    MissingSplit(mem, d, lo, i, hi);
    MissingSplit(mem, d, i, j, hi);
  }

  lemma NeedSome(mem: map<nat, Page>, d: nat, n: nat, end: nat)
    requires n < end
    ensures Need(mem, d, n, end) >= 1 + Missing(mem, d, n / 1024, n / 1024 + 1)
  {
    MissingWithin(mem, d, n / 1024, n / 1024 + 1, n / 1024, (end - 1) / 1024 + 1);
  }

  /** At the next page, short of the last or there. */
  lemma NeedHere(mem: map<nat, Page>, d: nat, n: nat, q: nat)
    requires n <= q
    ensures if n == q then Need(mem, d, n, q) == 0 else Need(mem, d, n, q) >= 1 + Missing(mem, d, n / 1024, n / 1024 + 1)
  {
    if n < q { NeedSome(mem, d, n, q); }
  }

  /** What mapping a single page needs. */
  lemma OneNeed(mem: map<nat, Page>, d: nat, n: nat)
    ensures MapNeed(mem, d, n, n) == if Present(At(mem, d, n)) then 0 else Missing(mem, d, n / 1024, n / 1024 + 1)
  {
    if Present(At(mem, d, n)) { MappedHasTab(mem, d, n); }
  }

  /** Writing a frame that is not the directory leaves the tables. */
  lemma SpareTabs(mem: map<nat, Page>, d: nat, f: nat, page: Page, i: nat, j: nat)
    requires f != d
    ensures Missing(mem[f := page], d, i, j) == Missing(mem, d, i, j)
  {
    MissingSame(mem, mem[f := page], d, i, j);
  }

  lemma TabledSpare(m0: map<nat, Page>, f: nat, page: Page, m1: map<nat, Page>, d: nat, i: nat, j: nat)
    requires f != d && Tabled(m0[f := page], m1, d, i, j)
    ensures Tabled(m0, m1, d, i, j)
  {
    forall k | 0 <= k < 1024 ensures Pde(m0[f := page], d, k) == Pde(m0, d, k) {}
  }

  lemma FoundTab(mem: map<nat, Page>, d: nat, i: nat)
    requires Present(Pde(mem, d, i))
    ensures Tabled(mem, mem, d, i, i + 1) && Missing(mem, d, i, i + 1) == 0
  {
    hide Pde;
  }

  lemma MadeTab(mem: map<nat, Page>, d: nat, i: nat, t: nat)
    requires d in mem && mem[d].Dir? && |mem[d].pdes| == 1024 && i < 1024 && !Present(Pde(mem, d, i))
    ensures Tabled(mem, WithTab(mem, d, i, t), d, i, i + 1) && Missing(mem, d, i, i + 1) == 1
  {
    assert Missing(mem, d, i + 1, i + 1) == 0;
  }

  lemma TabledPte(m0: map<nat, Page>, m1: map<nat, Page>, led: Ledger, t: nat, k: nat, e: Entry, d: nat, i: nat, j: nat)
    requires Tabled(m0, m1, d, i, j) && Inv(m1, led) && t in led && led[t].AsTab? && k < 1024 && IsDir(led, d)
    ensures UseOk(m1, led, t) && Tabled(m0, WithPte(m1, t, k, e), d, i, j)
  {
    PdeWith(m1, led, t, k, e);
    hide Pde;
    var m2 := WithPte(m1, t, k, e);
    forall x | 0 <= x < 1024 ensures Pde(m2, d, x) == Pde(m1, d, x) {}
  }

  // ----- the kernel's half -----

  /** Tables 512 to 567 span 0x80000000 to 0x8E000000, and 1016 to 1023 the devices. */
  ghost function KernelNeed(mem: map<nat, Page>, d: nat): nat {
    Missing(mem, d, 512, 568) + Missing(mem, d, 1016, 1024)
  }

  ghost predicate NoUserTabs(mem: map<nat, Page>, d: nat) {
    forall k :: 0 <= k < 512 ==> !Present(Pde(mem, d, k))
  }

  lemma FreshTabs(mem: map<nat, Page>, d: nat)
    requires d in mem && mem[d] == Dir(Zeroes())
    ensures KernelNeed(mem, d) == 64 && NoUserTabs(mem, d)
  {
    assert forall k :: 0 <= k < 1024 ==> Pde(mem, d, k) == NOTHING;
    hide Pde;
    AllMissing(mem, d, 512, 568);
    AllMissing(mem, d, 1016, 1024);
  }

  /** The tables a row of the kernel's map runs through. */
  lemma RowTabs(data: nat, k: nat)
    requires DataOk(data) && k < 4
    ensures var i, j := Kmap(data)[k].virt / 4096 / 1024, (Bound(data, k + 1) - 1) / 1024 + 1;
            if k < 3 then 512 <= i <= j <= 568 else 1016 <= i <= j <= 1024
  {
  }

  lemma RowTabled(m0: map<nat, Page>, m1: map<nat, Page>, d: nat, i: nat, j: nat)
    requires Tabled(m0, m1, d, i, j) && (512 <= i <= j <= 568 || 1016 <= i <= j <= 1024) && NoUserTabs(m0, d)
    ensures KernelNeed(m1, d) + Missing(m0, d, i, j) == KernelNeed(m0, d) && NoUserTabs(m1, d)
  {
    hide Pde;
    if j <= 568 {
      MissingAfter(m0, m1, d, i, j, 512, 568);
      MissingElsewhere(m0, m1, d, i, j, 1016, 1024);
    } else {
      MissingAfter(m0, m1, d, i, j, 1016, 1024);
      MissingElsewhere(m0, m1, d, i, j, 512, 568);
    }
  }

  lemma RowWithin(mem: map<nat, Page>, d: nat, i: nat, j: nat)
    requires 512 <= i <= j <= 568 || 1016 <= i <= j <= 1024
    ensures Missing(mem, d, i, j) <= KernelNeed(mem, d)
  {
    if j <= 568 { MissingWithin(mem, d, i, j, 512, 568); } else { MissingWithin(mem, d, i, j, 1016, 1024); }
  }

  /** A mapped page has a table. */
  lemma KernelTabs(mem: map<nat, Page>, d: nat, data: nat)
    requires forall n :: 0 <= n < 1048576 ==> At(mem, d, n) == KernelEntry(data, n)
    ensures KernelNeed(mem, d) == 0
  {
    forall k | 512 <= k < 568 || 1016 <= k < 1024 ensures Present(Pde(mem, d, k)) {
      assert At(mem, d, k * 1024) == KernelEntry(data, k * 1024);
    }
    hide Pde, At;
    NoneMissing(mem, d, 512, 568);
    NoneMissing(mem, d, 1016, 1024);
  }
}
