/**
 Page tables over page frames. Every frame of the machine is either free or has exactly one
 use, written in a ledger; the invariant says that the ledger and the page tables agree.
 */
module VmSpec {

  /** A directory or table entry: the frame it names and its low twelve bits. */
  datatype Entry = Entry(frame: nat, flags: nat)

  datatype Page = Junk | Dir(pdes: seq<Entry>) | Tab(ptes: seq<Entry>) | Data(bytes: seq<int>)

  /** What a frame that is not free is for: in a caller's hands, a page directory, its i-th table, or its user page n. */
  datatype Use = Held | AsDir | AsTab(d: nat, i: nat) | AsPage(d: nat, n: nat)

  type Ledger = map<nat, Use>

  const NOTHING := Entry(0, 0)

  function Zeroes(): (r: seq<Entry>)
    ensures |r| == 1024 && forall i :: 0 <= i < 1024 ==> r[i] == NOTHING
  {
    seq(1024, i => NOTHING)
  }

  function Blank(): (r: seq<int>)
    ensures |r| == 4096 && forall i :: 0 <= i < 4096 ==> r[i] == 0
  {
    seq(4096, i => 0)
  }

  predicate Present(e: Entry) { e.flags % 2 == 1 }

  /** perm | PTE_P */
  function WithP(perm: nat): nat { if perm % 2 == 1 then perm else perm + 1 }

  /** Entry i of directory d. */
  function Pde(mem: map<nat, Page>, d: nat, i: nat): Entry {
    if d in mem && mem[d].Dir? && i < |mem[d].pdes| then mem[d].pdes[i] else NOTHING
  }

  function Slot(mem: map<nat, Page>, e: Entry, k: nat): Entry {
    if Present(e) && e.frame in mem && mem[e.frame].Tab? && k < |mem[e.frame].ptes| then mem[e.frame].ptes[k] else NOTHING
  }

  /** What space d maps virtual page n to. */
  function At(mem: map<nat, Page>, d: nat, n: nat): Entry {
    Slot(mem, Pde(mem, d, n / 1024), n % 1024)
  }

  predicate IsDir(led: Ledger, d: nat) {
    d in led && led[d].AsDir?
  }

  /** The use of f is borne out by the page tables. */
  ghost predicate UseOk(mem: map<nat, Page>, led: Ledger, f: nat)
    requires f in led
  {
    f in mem &&
    match led[f]
    case Held => true
    case AsDir => mem[f].Dir? && |mem[f].pdes| == 1024
    case AsTab(d, i) =>
      mem[f].Tab? && |mem[f].ptes| == 1024 && IsDir(led, d) && i < 1024 &&
      Pde(mem, d, i) == Entry(f, 7)
    case AsPage(d, n) =>
      mem[f].Data? && |mem[f].bytes| == 4096 && IsDir(led, d) && n < 524288 &&
      Present(At(mem, d, n)) && At(mem, d, n).frame == f
  }

  predicate TabOk(mem: map<nat, Page>, led: Ledger, d: nat, i: nat) {
    Present(Pde(mem, d, i)) ==> Pde(mem, d, i).frame in led && led[Pde(mem, d, i).frame] == AsTab(d, i)
  }

  predicate PageOk(mem: map<nat, Page>, led: Ledger, d: nat, n: nat) {
    Present(At(mem, d, n)) ==> At(mem, d, n).frame in led && led[At(mem, d, n).frame] == AsPage(d, n)
  }

  ghost predicate Uses(mem: map<nat, Page>, led: Ledger) {
    forall f :: f in led ==> UseOk(mem, led, f)
  }

  ghost predicate Tabs(mem: map<nat, Page>, led: Ledger) {
    forall d, i :: IsDir(led, d) && 0 <= i < 1024 ==> TabOk(mem, led, d, i)
  }

  ghost predicate Pages(mem: map<nat, Page>, led: Ledger) {
    forall d, n :: IsDir(led, d) && 0 <= n < 524288 ==> PageOk(mem, led, d, n)
  }

  ghost predicate Inv(mem: map<nat, Page>, led: Ledger) {
    Uses(mem, led) && Tabs(mem, led) && Pages(mem, led)
  }

  // ----- one entry of a table changes -----

  function WithPte(mem: map<nat, Page>, t: nat, k: nat, e: Entry): map<nat, Page>
    requires t in mem && mem[t].Tab? && k < |mem[t].ptes|
  {
    mem[t := Tab(mem[t].ptes[k := e])]
  }

  /** Writing one entry changes what one space maps at one page. */
  lemma AtWith(mem: map<nat, Page>, led: Ledger, t: nat, k: nat, e: Entry, d: nat, n: nat)
    requires Inv(mem, led) && t in led && led[t].AsTab? && k < 1024 && IsDir(led, d) && n < 1048576
    ensures UseOk(mem, led, t)
    ensures At(WithPte(mem, t, k, e), d, n) == if led[t] == AsTab(d, n / 1024) && n % 1024 == k then e else At(mem, d, n)
  {
    assert UseOk(mem, led, t) && UseOk(mem, led, d);
    assert TabOk(mem, led, d, n / 1024);
  }

  lemma PdeWith(mem: map<nat, Page>, led: Ledger, t: nat, k: nat, e: Entry)
    requires Inv(mem, led) && t in led && led[t].AsTab? && k < 1024
    ensures UseOk(mem, led, t)
    ensures forall d, i :: IsDir(led, d) && 0 <= i < 1024 ==> Pde(WithPte(mem, t, k, e), d, i) == Pde(mem, d, i)
  {
    assert UseOk(mem, led, t);
  }

  lemma WithKeepsTabs(mem: map<nat, Page>, led: Ledger, t: nat, k: nat, e: Entry, led': Ledger)
    requires Inv(mem, led) && t in led && led[t].AsTab? && k < 1024 && UseOk(mem, led, t)
    requires forall f :: f in led && !led[f].Held? && !led[f].AsPage? ==> f in led' && led'[f] == led[f]
    requires forall f :: IsDir(led', f) ==> IsDir(led, f)
    ensures Tabs(WithPte(mem, t, k, e), led')
  {
    PdeWith(mem, led, t, k, e);
    forall d, i | IsDir(led', d) && 0 <= i < 1024 ensures TabOk(WithPte(mem, t, k, e), led', d, i) {
      assert TabOk(mem, led, d, i);
    }
  }

  /** Which page of which space an entry is. */
  function PageNo(u: Use, k: nat): nat
    requires u.AsTab?
  {
    u.i * 1024 + k
  }

  lemma PageNoIs(u: Use, k: nat, n: nat)
    requires u.AsTab? && k < 1024
    ensures u.i == n / 1024 && k == n % 1024 <==> n == PageNo(u, k)
  {
  }

  lemma AtOne(mem: map<nat, Page>, led: Ledger, t: nat, k: nat, e: Entry, d: nat, n: nat)
    requires Inv(mem, led) && t in led && led[t].AsTab? && k < 1024 && IsDir(led, d) && n < 1048576
    ensures UseOk(mem, led, t)
    ensures At(WithPte(mem, t, k, e), d, n) == if d == led[t].d && n == PageNo(led[t], k) then e else At(mem, d, n)
  {
    AtWith(mem, led, t, k, e, d, n);
    PageNoIs(led[t], k, n);
  }

  /** A held frame becomes the page of a user address that had none. */
  lemma MapUser(mem: map<nat, Page>, led: Ledger, t: nat, k: nat, f: nat, flags: nat)
    requires Inv(mem, led) && t in led && led[t].AsTab? && k < 1024 && PageNo(led[t], k) < 524288
    requires !Present(At(mem, led[t].d, PageNo(led[t], k))) && flags % 2 == 1
    requires f in led && led[f].Held? && f in mem && mem[f].Data? && |mem[f].bytes| == 4096
    ensures UseOk(mem, led, t)
    ensures Inv(WithPte(mem, t, k, Entry(f, flags)), led[f := AsPage(led[t].d, PageNo(led[t], k))])
  {
    var e := Entry(f, flags);
    assert UseOk(mem, led, t);
    var mem' := WithPte(mem, t, k, e);
    var led' := led[f := AsPage(led[t].d, PageNo(led[t], k))];
    hide At, Pde, PageNo;
    WithKeepsTabs(mem, led, t, k, e, led');
    PdeWith(mem, led, t, k, e);
    forall d, n | IsDir(led', d) && 0 <= n < 524288 ensures PageOk(mem', led', d, n) {
      AtOne(mem, led, t, k, e, d, n);
      assert PageOk(mem, led, d, n);
    }
    forall g | g in led' ensures UseOk(mem', led', g) {
      UseKept(mem, led, t, k, e, led', g);
    }
  }

  lemma UseKept(mem: map<nat, Page>, led: Ledger, t: nat, k: nat, e: Entry, led': Ledger, g: nat)
    requires Inv(mem, led) && t in led && led[t].AsTab? && k < 1024 && UseOk(mem, led, t)
    requires forall d :: IsDir(led, d) ==> IsDir(led', d)
    requires g in led' && (led'[g] == AsPage(led[t].d, PageNo(led[t], k)) || (g in led && led'[g] == led[g]))
    requires g in led && led[g] == AsPage(led[t].d, PageNo(led[t], k)) ==> Present(e) && e.frame == g
    requires led'[g] == AsPage(led[t].d, PageNo(led[t], k)) ==>
               Present(e) && e.frame == g && g in mem && mem[g].Data? && |mem[g].bytes| == 4096 && PageNo(led[t], k) < 524288
    ensures UseOk(WithPte(mem, t, k, e), led', g)
  {
    hide At, Pde, PageNo, Tabs, Pages;
    PdeWith(mem, led, t, k, e);
    assert UseOk(mem, led, t) && IsDir(led, led[t].d);
    if led'[g] == AsPage(led[t].d, PageNo(led[t], k)) {
      AtOne(mem, led, t, k, e, led[t].d, PageNo(led[t], k));
    } else {
      assert UseOk(mem, led, g);
      if led[g].AsPage? { AtOne(mem, led, t, k, e, led[g].d, led[g].n); }
    }
  }

  /** A page of the kernel half names a frame it does not own. */
  lemma MapKernel(mem: map<nat, Page>, led: Ledger, t: nat, k: nat, e: Entry)
    requires Inv(mem, led) && t in led && led[t].AsTab? && k < 1024 && PageNo(led[t], k) >= 524288
    ensures UseOk(mem, led, t) && Inv(WithPte(mem, t, k, e), led)
  {
    assert UseOk(mem, led, t);
    var mem' := WithPte(mem, t, k, e);
    hide At, Pde, PageNo;
    WithKeepsTabs(mem, led, t, k, e, led);
    forall d, n | IsDir(led, d) && 0 <= n < 524288 ensures PageOk(mem', led, d, n) {
      AtOne(mem, led, t, k, e, d, n);
      assert PageOk(mem, led, d, n);
    }
    forall g | g in led ensures UseOk(mem', led, g) {
      assert UseOk(mem, led, g);
      UseKept(mem, led, t, k, e, led, g);
    }
  }

  /** A user page is unmapped and its frame freed. */
  lemma UnmapUser(mem: map<nat, Page>, led: Ledger, t: nat, k: nat)
    requires Inv(mem, led) && t in led && led[t].AsTab? && k < 1024 && PageNo(led[t], k) < 524288
    requires Present(At(mem, led[t].d, PageNo(led[t], k)))
    ensures UseOk(mem, led, t)
    ensures var f := At(mem, led[t].d, PageNo(led[t], k)).frame;
            f in led && f != t && led[f] == AsPage(led[t].d, PageNo(led[t], k)) && Inv(WithPte(mem, t, k, NOTHING), led - {f})
  {
    assert UseOk(mem, led, t);
    var mem' := WithPte(mem, t, k, NOTHING);
    hide At, Pde, PageNo;
    assert PageOk(mem, led, led[t].d, PageNo(led[t], k));
    var f := At(mem, led[t].d, PageNo(led[t], k)).frame;
    var led' := led - {f};
    WithKeepsTabs(mem, led, t, k, NOTHING, led');
    forall d, n | IsDir(led', d) && 0 <= n < 524288 ensures PageOk(mem', led', d, n) {
      AtOne(mem, led, t, k, NOTHING, d, n);
      assert PageOk(mem, led, d, n);
    }
    forall g | g in led' ensures UseOk(mem', led', g) {
      assert UseOk(mem, led, g);
      UseKept(mem, led, t, k, NOTHING, led', g);
    }
  }

  // ----- whole frames change hands -----

  /** Free and held frames may be taken, dropped and written at will. */
  lemma HeldFree(mem: map<nat, Page>, led: Ledger, mem': map<nat, Page>, led': Ledger)
    requires Inv(mem, led)
    requires forall f :: f in led && !led[f].Held? ==> f in led' && led'[f] == led[f] && f in mem' && mem'[f] == mem[f]
    requires forall f :: f in led' ==> f in mem' && (!led'[f].Held? ==> f in led && led[f] == led'[f])
    ensures Inv(mem', led')
    ensures forall d, n :: IsDir(led, d) && 0 <= n < 1048576 ==> At(mem', d, n) == At(mem, d, n)
  {
    forall d, i | IsDir(led, d) && 0 <= i < 1024 ensures Pde(mem', d, i) == Pde(mem, d, i) && TabOk(mem', led', d, i) {
      assert TabOk(mem, led, d, i);
    }
    forall d, n | IsDir(led, d) && 0 <= n < 1048576 ensures At(mem', d, n) == At(mem, d, n) {
      assert Pde(mem', d, n / 1024) == Pde(mem, d, n / 1024);
      assert TabOk(mem, led, d, n / 1024);
    }
    hide At, Pde;
    forall d, n | IsDir(led, d) && 0 <= n < 524288 ensures PageOk(mem', led', d, n) {
      assert PageOk(mem, led, d, n);
      assert At(mem', d, n) == At(mem, d, n);
      assert Present(At(mem, d, n)) ==> !led[At(mem, d, n).frame].Held?;
    }
    forall f | f in led' ensures UseOk(mem', led', f) {
      if !led'[f].Held? { assert UseOk(mem, led, f); }
    }
  }

  /** A held frame becomes an empty directory. */
  lemma NewDir(mem: map<nat, Page>, led: Ledger, f: nat, mem': map<nat, Page>, led': Ledger)
    requires Inv(mem, led) && f in led && led[f].Held? && f in mem
    requires mem' == mem[f := Dir(Zeroes())] && led' == led[f := AsDir]
    ensures Inv(mem', led')
    ensures forall n :: 0 <= n < 1048576 ==> At(mem', f, n) == NOTHING
    ensures forall i :: 0 <= i < 1024 ==> Pde(mem', f, i) == NOTHING
  {
    assert forall i :: 0 <= i < 1024 ==> Pde(mem', f, i) == NOTHING;
    HeldFree(mem, led, mem', led - {f});
    hide Slot;
    assert forall n :: 0 <= n < 1048576 ==> At(mem', f, n) == NOTHING by {
      forall n | 0 <= n < 1048576 ensures At(mem', f, n) == NOTHING { assert Pde(mem', f, n / 1024) == NOTHING; SlotNothing(mem', n % 1024); }
    }
    hide At, Pde;
    forall d, i | IsDir(led', d) && 0 <= i < 1024 ensures TabOk(mem', led', d, i) {
      assert d != f ==> IsDir(led - {f}, d);
      assert d != f ==> TabOk(mem', led - {f}, d, i);
    }
    forall d, n | IsDir(led', d) && 0 <= n < 524288 ensures PageOk(mem', led', d, n) {
      assert d != f ==> IsDir(led - {f}, d);
      assert d != f ==> PageOk(mem', led - {f}, d, n);
    }
    forall g | g in led' ensures UseOk(mem', led', g) {
      if g != f { assert UseOk(mem', led - {f}, g); }
    }
  }

  lemma SlotNothing(mem: map<nat, Page>, k: nat)
    ensures Slot(mem, NOTHING, k) == NOTHING
  {
  }

  function WithTab(mem: map<nat, Page>, d: nat, i: nat, t: nat): map<nat, Page>
    requires d in mem && mem[d].Dir? && i < |mem[d].pdes|
  {
    mem[t := Tab(Zeroes())][d := Dir(mem[d].pdes[i := Entry(t, 7)])]
  }

  /** A held frame becomes an empty page table, and no page is mapped differently. */
  lemma NewTab(mem: map<nat, Page>, led: Ledger, d: nat, i: nat, t: nat)
    requires Inv(mem, led) && IsDir(led, d) && i < 1024 && !Present(Pde(mem, d, i))
    requires t in led && led[t].Held? && t in mem
    ensures UseOk(mem, led, d)
    ensures Inv(WithTab(mem, d, i, t), led[t := AsTab(d, i)])
    ensures forall e, n :: IsDir(led, e) && 0 <= n < 1048576 ==> At(WithTab(mem, d, i, t), e, n) == At(mem, e, n)
  {
    assert UseOk(mem, led, d);
    var mem', led' := WithTab(mem, d, i, t), led[t := AsTab(d, i)];
    forall e, j | IsDir(led', e) && 0 <= j < 1024
      ensures Pde(mem', e, j) == (if e == d && i == j then Entry(t, 7) else Pde(mem, e, j)) && TabOk(mem', led', e, j)
    {
      assert UseOk(mem, led, e) && TabOk(mem, led, e, j);
    }
    forall e, n | IsDir(led, e) && 0 <= n < 1048576 ensures At(mem', e, n) == At(mem, e, n) {
      NewTabAt(mem, led, d, i, t, e, n);
    }
    hide At, Pde;
    forall e, n | IsDir(led', e) && 0 <= n < 524288 ensures PageOk(mem', led', e, n) {
      assert PageOk(mem, led, e, n);
      assert At(mem', e, n) == At(mem, e, n);
      assert Present(At(mem, e, n)) ==> !led[At(mem, e, n).frame].Held?;
    }
    forall g | g in led' ensures UseOk(mem', led', g) {
      assert UseOk(mem, led, g);
    }
  }

  lemma NewTabAt(mem: map<nat, Page>, led: Ledger, d: nat, i: nat, t: nat, e: nat, n: nat)
    requires Inv(mem, led) && IsDir(led, d) && i < 1024 && !Present(Pde(mem, d, i))
    requires t in led && led[t].Held? && t in mem && IsDir(led, e) && n < 1048576
    ensures UseOk(mem, led, d) && At(WithTab(mem, d, i, t), e, n) == At(mem, e, n)
  {
    assert UseOk(mem, led, d) && UseOk(mem, led, e);
    assert TabOk(mem, led, e, n / 1024);
    var mem' := WithTab(mem, d, i, t);
    if e == d && n / 1024 == i {
      assert Pde(mem', e, i) == Entry(t, 7);
    } else {
      assert Pde(mem', e, n / 1024) == Pde(mem, e, n / 1024);
      var p := Pde(mem, e, n / 1024);
      assert Present(p) ==> UseOk(mem, led, p.frame);
    }
  }

  predicate Of(u: Use, d: nat) {
    (u.AsTab? || u.AsPage?) && u.d == d
  }

  /** The ledger without space d. */
  function Without(led: Ledger, d: nat): Ledger {
    map f | f in led && f != d && !Of(led[f], d) :: led[f]
  }

  /** A space may be dropped as a whole, whatever becomes of its own frames. */
  lemma DropDir(mem: map<nat, Page>, led: Ledger, d: nat, mem': map<nat, Page>)
    requires Inv(mem, led) && IsDir(led, d)
    requires forall f :: f in Without(led, d) ==> f in mem' && mem'[f] == mem[f]
    ensures Inv(mem', Without(led, d))
  {
    var led' := Without(led, d);
    forall e, i | IsDir(led', e) && 0 <= i < 1024 ensures Pde(mem', e, i) == Pde(mem, e, i) && TabOk(mem', led', e, i) {
      assert TabOk(mem, led, e, i);
    }
    forall e, n | IsDir(led', e) && 0 <= n < 1048576 ensures At(mem', e, n) == At(mem, e, n) {
      assert Pde(mem', e, n / 1024) == Pde(mem, e, n / 1024);
      assert TabOk(mem, led, e, n / 1024);
    }
    hide At, Pde;
    forall e, n | IsDir(led', e) && 0 <= n < 524288 ensures PageOk(mem', led', e, n) {
      assert PageOk(mem, led, e, n);
      assert At(mem', e, n) == At(mem, e, n);
    }
    forall f | f in led' ensures UseOk(mem', led', f) {
      assert UseOk(mem, led, f);
    }
  }

  // ----- what an operation on one space leaves alone -----

  predicate SameFrame(m0: map<nat, Page>, l0: Ledger, m1: map<nat, Page>, l1: Ledger, f: nat) {
    f in l0 && f in l1 && l0[f] == l1[f] && f in m0 && f in m1 && m0[f] == m1[f]
  }

  /** Every frame that is used otherwise than by space d is used as before and holds what it held. */
  ghost predicate Untouched(m0: map<nat, Page>, l0: Ledger, m1: map<nat, Page>, l1: Ledger, d: nat) {
    forall f :: f != d && ((f in l0 && !Of(l0[f], d)) || (f in l1 && !Of(l1[f], d))) ==> SameFrame(m0, l0, m1, l1, f)
  }

  /** Page n of d is mapped as before, and a user page holds what it held. */
  predicate Kept(m0: map<nat, Page>, m1: map<nat, Page>, d: nat, n: nat) {
    At(m1, d, n) == At(m0, d, n) &&
    (n < 524288 && Present(At(m0, d, n)) ==>
       At(m0, d, n).frame in m0 && At(m0, d, n).frame in m1 && m0[At(m0, d, n).frame] == m1[At(m0, d, n).frame])
  }

  /** Only pages lo up to hi of space d have changed. */
  ghost predicate Outside(m0: map<nat, Page>, l0: Ledger, m1: map<nat, Page>, l1: Ledger, d: nat, lo: nat, hi: nat) {
    Untouched(m0, l0, m1, l1, d) && IsDir(l0, d) && IsDir(l1, d) &&
    forall n :: 0 <= n < 1048576 && !(lo <= n < hi) ==> Kept(m0, m1, d, n)
  }

  lemma OutsideThen(m0: map<nat, Page>, l0: Ledger, m1: map<nat, Page>, l1: Ledger, m2: map<nat, Page>, l2: Ledger,
                    d: nat, lo: nat, hi: nat)
    requires Outside(m0, l0, m1, l1, d, lo, hi) && Outside(m1, l1, m2, l2, d, lo, hi)
    ensures Outside(m0, l0, m2, l2, d, lo, hi)
  {
    hide At;
    forall n | 0 <= n < 1048576 && !(lo <= n < hi) ensures Kept(m0, m2, d, n) {
      assert Kept(m0, m1, d, n) && Kept(m1, m2, d, n);
    }
    forall f | f != d && ((f in l0 && !Of(l0[f], d)) || (f in l2 && !Of(l2[f], d))) ensures SameFrame(m0, l0, m2, l2, f) {
      if f in l0 && !Of(l0[f], d) {
        assert SameFrame(m0, l0, m1, l1, f);
        assert SameFrame(m1, l1, m2, l2, f);
      } else {
        assert SameFrame(m1, l1, m2, l2, f);
        assert SameFrame(m0, l0, m1, l1, f);
      }
    }
  }

  lemma OutsideWiden(m0: map<nat, Page>, l0: Ledger, m1: map<nat, Page>, l1: Ledger, d: nat, lo: nat, hi: nat, lo': nat, hi': nat)
    requires Outside(m0, l0, m1, l1, d, lo, hi) && (lo >= hi || (lo' <= lo && hi <= hi'))
    ensures Outside(m0, l0, m1, l1, d, lo', hi')
  {
    hide At, Kept;
  }

  /** No other space can tell. */
  lemma OthersKept(m0: map<nat, Page>, l0: Ledger, m1: map<nat, Page>, l1: Ledger, d: nat, e: nat, n: nat)
    requires Inv(m0, l0) && Inv(m1, l1) && Untouched(m0, l0, m1, l1, d)
    requires IsDir(l0, e) && e != d && n < 1048576 && (d in l0 ==> IsDir(l0, d))
    ensures IsDir(l1, e) && Kept(m0, m1, e, n)
  {
    assert SameFrame(m0, l0, m1, l1, e);
    assert TabOk(m0, l0, e, n / 1024);
    var p := Pde(m0, e, n / 1024);
    assert Present(p) ==> SameFrame(m0, l0, m1, l1, p.frame);
    if n < 524288 {
      assert PageOk(m0, l0, e, n);
      assert Present(At(m0, e, n)) ==> SameFrame(m0, l0, m1, l1, At(m0, e, n).frame);
    }
  }

  // ----- the steps, with what they leave alone -----

  ghost predicate PoolOk(free: seq<nat>, mem: map<nat, Page>, led: Ledger, lo: nat, hi: nat) {
    lo > 0 && (forall i, j :: 0 <= i < j < |free| ==> free[i] != free[j]) &&
    (forall f :: f in mem <==> lo <= f < hi) &&
    (forall f :: f in free <==> f in mem && f !in led) &&
    (forall f :: f in led ==> f in mem)
  }

  lemma MapStep(mem: map<nat, Page>, led: Ledger, t: nat, k: nat, f: nat, flags: nat)
    requires Inv(mem, led) && t in led && led[t].AsTab? && k < 1024 && PageNo(led[t], k) < 524288
    requires !Present(At(mem, led[t].d, PageNo(led[t], k))) && flags % 2 == 1
    requires f in led && led[f].Held? && f in mem && mem[f].Data? && |mem[f].bytes| == 4096
    ensures UseOk(mem, led, t)
    ensures var d, n := led[t].d, PageNo(led[t], k);
            var mem', led' := WithPte(mem, t, k, Entry(f, flags)), led[f := AsPage(d, n)];
            Inv(mem', led') && At(mem', d, n) == Entry(f, flags) && mem'[f] == mem[f] &&
            Outside(mem, led - {f}, mem', led', d, n, n + 1)
  {
    hide At, Pde, PageNo;
    var d, n := led[t].d, PageNo(led[t], k);
    MapUser(mem, led, t, k, f, flags);
    var mem', led' := WithPte(mem, t, k, Entry(f, flags)), led[f := AsPage(d, n)];
    AtOne(mem, led, t, k, Entry(f, flags), d, n);
    assert IsDir(led, d);
    forall m | 0 <= m < 1048576 && !(n <= m < n + 1) ensures Kept(mem, mem', d, m) {
      AtOne(mem, led, t, k, Entry(f, flags), d, m);
      if m < 524288 { PageFrame(mem, led, d, m); }
    }
    assert forall g :: g in led ==> g in mem by { assert forall g :: g in led ==> UseOk(mem, led, g); }
  }

  lemma PageFrame(mem: map<nat, Page>, led: Ledger, d: nat, m: nat)
    requires Inv(mem, led) && IsDir(led, d) && m < 524288
    ensures Present(At(mem, d, m)) ==>
              At(mem, d, m).frame in mem && mem[At(mem, d, m).frame].Data? && |mem[At(mem, d, m).frame].bytes| == 4096 &&
              At(mem, d, m).frame in led && led[At(mem, d, m).frame] == AsPage(d, m)
  {
    hide At;
    assert PageOk(mem, led, d, m);
    assert Present(At(mem, d, m)) ==> UseOk(mem, led, At(mem, d, m).frame);
  }

  lemma KernelStep(mem: map<nat, Page>, led: Ledger, t: nat, k: nat, e: Entry)
    requires Inv(mem, led) && t in led && led[t].AsTab? && k < 1024 && PageNo(led[t], k) >= 524288
    ensures UseOk(mem, led, t)
    ensures var d, n := led[t].d, PageNo(led[t], k);
            var mem' := WithPte(mem, t, k, e);
            Inv(mem', led) && At(mem', d, n) == e && Outside(mem, led, mem', led, d, n, n + 1)
  {
    hide At, Pde, PageNo;
    var d, n := led[t].d, PageNo(led[t], k);
    assert UseOk(mem, led, t) && led[t].i < 1024;
    MapKernel(mem, led, t, k, e);
    var mem' := WithPte(mem, t, k, e);
    assert n < 1048576 by { assert n == led[t].i * 1024 + k by { PageNoIs(led[t], k, n); } }
    AtOne(mem, led, t, k, e, d, n);
    forall m | 0 <= m < 1048576 && !(n <= m < n + 1) ensures Kept(mem, mem', d, m) {
      AtOne(mem, led, t, k, e, d, m);
      if m < 524288 { PageFrame(mem, led, d, m); }
    }
    assert forall g :: g in led ==> g in mem by { assert forall g :: g in led ==> UseOk(mem, led, g); }
  }

  lemma UnmapStep(mem: map<nat, Page>, led: Ledger, t: nat, k: nat)
    requires Inv(mem, led) && t in led && led[t].AsTab? && k < 1024 && PageNo(led[t], k) < 524288
    requires Present(At(mem, led[t].d, PageNo(led[t], k)))
    ensures UseOk(mem, led, t)
    ensures var d, n := led[t].d, PageNo(led[t], k);
            var f := At(mem, d, n).frame;
            var mem', led' := WithPte(mem, t, k, NOTHING)[f := Junk], led - {f};
            f in led && f != t && Inv(mem', led') && At(mem', d, n) == NOTHING &&
            Outside(mem, led, mem', led', d, n, n + 1)
  {
    hide At, Pde, PageNo;
    var d, n := led[t].d, PageNo(led[t], k);
    var f := At(mem, d, n).frame;
    assert IsDir(led, d) by { assert UseOk(mem, led, t); }
    UnmapUser(mem, led, t, k);
    var mid, led' := WithPte(mem, t, k, NOTHING), led - {f};
    var mem' := mid[f := Junk];
    assert forall g :: g in led ==> g in mem by { assert forall g :: g in led ==> UseOk(mem, led, g); }
    HeldFree(mid, led', mem', led');
    forall m | 0 <= m < 1048576 ensures At(mem', d, m) == if m == n then NOTHING else At(mem, d, m) {
      AtOne(mem, led, t, k, NOTHING, d, m);
      assert IsDir(led', d);
    }
    forall m | 0 <= m < 1048576 && !(n <= m < n + 1) ensures Kept(mem, mem', d, m) {
      if m < 524288 {
        PageFrame(mem, led, d, m);
        PageFrame(mem, led, d, n);
      }
    }
  }

  lemma TabStep(mem: map<nat, Page>, led: Ledger, d: nat, i: nat, t: nat)
    requires Inv(mem, led) && IsDir(led, d) && i < 1024 && !Present(Pde(mem, d, i))
    requires t in mem && t !in led
    ensures UseOk(mem, led, d)
    ensures var mem', led' := WithTab(mem, d, i, t), led[t := AsTab(d, i)];
            Inv(mem', led') && Outside(mem, led, mem', led', d, 0, 0)
  {
    hide At, Pde;
    assert UseOk(mem, led, d);
    assert forall g :: g in led ==> g in mem by { assert forall g :: g in led ==> UseOk(mem, led, g); }
    HeldFree(mem, led, mem, led[t := Held]);
    assert led[t := Held][t := AsTab(d, i)] == led[t := AsTab(d, i)];
    NewTab(mem, led[t := Held], d, i, t);
    var mem', led' := WithTab(mem, d, i, t), led[t := AsTab(d, i)];
    assert IsDir(led[t := Held], d);
    forall m | 0 <= m < 1048576 ensures Kept(mem, mem', d, m) {
      if m < 524288 { PageFrame(mem, led, d, m); }
    }
  }

  // ----- conservation, in terms of the page tables alone -----

  /** The frames space d has: its directory, its tables and its user pages. */
  ghost function OwnedBy(mem: map<nat, Page>, d: nat): set<nat> {
    {d} +
    (set i | 0 <= i < 1024 && Present(Pde(mem, d, i)) :: Pde(mem, d, i).frame) +
    (set n | 0 <= n < 524288 && Present(At(mem, d, n)) :: At(mem, d, n).frame)
  }

  lemma OwnedIs(mem: map<nat, Page>, led: Ledger, d: nat, f: nat)
    requires Inv(mem, led) && IsDir(led, d)
    ensures f in OwnedBy(mem, d) <==> f in led && (f == d || Of(led[f], d))
  {
    hide At, Pde;
    if f in OwnedBy(mem, d) && f != d {
      if i :| 0 <= i < 1024 && Present(Pde(mem, d, i)) && f == Pde(mem, d, i).frame {
        assert TabOk(mem, led, d, i);
      } else {
        var n :| 0 <= n < 524288 && Present(At(mem, d, n)) && f == At(mem, d, n).frame;
        assert PageOk(mem, led, d, n);
      }
    }
    if f in led && Of(led[f], d) { assert UseOk(mem, led, f); }
  }

  /** Every frame is free, or in a caller's hands, or owned by exactly one space, and never two of these. */
  lemma Partition(free: seq<nat>, mem: map<nat, Page>, led: Ledger, lo: nat, hi: nat, f: nat)
    requires PoolOk(free, mem, led, lo, hi) && Inv(mem, led)
    ensures lo <= f < hi <==> f in free || (f in led && led[f].Held?) || exists d :: IsDir(led, d) && f in OwnedBy(mem, d)
    ensures f in free ==> f !in led
    ensures forall d :: IsDir(led, d) && f in OwnedBy(mem, d) ==> f in led && !led[f].Held?
    ensures forall d, e :: IsDir(led, d) && IsDir(led, e) && f in OwnedBy(mem, d) && f in OwnedBy(mem, e) ==> d == e
  {
    hide OwnedBy;
    forall d | IsDir(led, d) ensures f in OwnedBy(mem, d) <==> f in led && (f == d || Of(led[f], d)) {
      OwnedIs(mem, led, d, f);
    }
    if f in led && !led[f].Held? {
      assert UseOk(mem, led, f);
      var d := if led[f].AsDir? then f else led[f].d;
      assert IsDir(led, d) && f in OwnedBy(mem, d);
    }
  }
}
