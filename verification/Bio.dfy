/**
 The buffer cache as a step machine: any number of callers hold handles from bget to brelse,
 and each step is one critical section or one disk transfer. A caller's changes to a buffer
 count from the log_write or bwrite that follows them while it still holds the buffer's lock.
 */
module Bio {

  type Block = seq<int>

  datatype Buf = Buf(dev: nat, blk: nat, valid: bool, dirty: bool, ref: nat, data: Block)

  /** disk holds every block ever asked about; handles name their buffer; owner is who has a buffer's sleep-lock. */
  datatype State = State(bufs: seq<Buf>, disk: map<(nat, nat), Block>, handles: map<nat, nat>, owner: map<nat, nat>)

  datatype Step =
    | Get(h: nat, dev: nat, blk: nat, i: nat)
    | Lock(h: nat, i: nat)
    | Read(h: nat, i: nat)
    | LogWrite(h: nat, i: nat, dev: nat, blk: nat, data: Block)
    | Write(h: nat, i: nat, dev: nat, blk: nat, data: Block)
    | Unlock(h: nat, i: nat)
    | Put(h: nat, i: nat)

  predicate Caches(b: Buf, dev: nat, blk: nat) {
    b.dev == dev && b.blk == blk
  }

  function OnDisk(disk: map<(nat, nat), Block>, dev: nat, blk: nat): Block {
    if (dev, blk) in disk then disk[(dev, blk)] else []
  }

  predicate Unused(b: Buf) {
    b.ref == 0 && !b.dirty
  }

  /** What bget may return: the buffer that has the block, else one that is neither referenced nor dirty. */
  predicate CanGet(bufs: seq<Buf>, dev: nat, blk: nat, i: nat) {
    i < |bufs| && (Caches(bufs[i], dev, blk) || (Unused(bufs[i]) && forall j :: 0 <= j < |bufs| ==> !Caches(bufs[j], dev, blk)))
  }

  function Got(b: Buf, dev: nat, blk: nat): Buf {
    if Caches(b, dev, blk) then b.(ref := b.ref + 1) else Buf(dev, blk, false, false, 1, b.data)
  }

  predicate Owns(s: State, h: nat, i: nat) {
    i < |s.bufs| && i in s.owner && s.owner[i] == h
  }

  predicate Enabled(s: State, e: Step) {
    match e
    case Get(h, dev, blk, i) => h !in s.handles && CanGet(s.bufs, dev, blk, i)
    case Lock(h, i) => h in s.handles && s.handles[h] == i && i !in s.owner
    case Read(h, i) => Owns(s, h, i) && !s.bufs[i].valid
    case LogWrite(h, i, dev, blk, _) => Owns(s, h, i) && s.bufs[i].valid && Caches(s.bufs[i], dev, blk)
    case Write(h, i, dev, blk, _) => Owns(s, h, i) && s.bufs[i].valid && Caches(s.bufs[i], dev, blk)
    case Unlock(h, i) => Owns(s, h, i)
    case Put(h, i) => h in s.handles && s.handles[h] == i && i < |s.bufs| && s.bufs[i].ref > 0 && !Owns(s, h, i)
  }

  function Do(s: State, e: Step): State
    requires Enabled(s, e)
  {
    match e
    case Get(h, dev, blk, i) => s.(bufs := s.bufs[i := Got(s.bufs[i], dev, blk)], handles := s.handles[h := i])
    case Lock(h, i) => s.(owner := s.owner[i := h])
    case Read(h, i) => s.(bufs := s.bufs[i := s.bufs[i].(valid := true, data := OnDisk(s.disk, s.bufs[i].dev, s.bufs[i].blk))])
    case LogWrite(h, i, _, _, data) => s.(bufs := s.bufs[i := s.bufs[i].(dirty := true, data := data)])
    case Write(h, i, dev, blk, data) =>
      s.(bufs := s.bufs[i := s.bufs[i].(dirty := false, data := data)], disk := s.disk[(dev, blk) := data])
    case Unlock(h, i) => s.(owner := s.owner - {i})
    case Put(h, i) => s.(bufs := s.bufs[i := s.bufs[i].(ref := s.bufs[i].ref - 1)], handles := s.handles - {h})
  }

  predicate Run(s: State, es: seq<Step>)
    decreases |es|, 0
  {
    es == [] || (Run(s, es[..|es| - 1]) && Enabled(After(s, es[..|es| - 1]), es[|es| - 1]))
  }

  function After(s: State, es: seq<Step>): State
    requires Run(s, es)
    decreases |es|, 1
  {
    if es == [] then s else Do(After(s, es[..|es| - 1]), es[|es| - 1])
  }

  /** binit: every buffer says block 0 of device 0. */
  predicate Init(s: State) {
    (forall i :: 0 <= i < |s.bufs| ==> s.bufs[i] == Buf(0, 0, false, false, 0, s.bufs[i].data)) && s.handles == map[] && s.owner == map[]
  }

  /** The plain block map: the value last logged or written, or what the disk held at the start. */
  function Last(es: seq<Step>, disk: map<(nat, nat), Block>, dev: nat, blk: nat): Block {
    if es == [] then OnDisk(disk, dev, blk)
    else
      var e := es[|es| - 1];
      if (e.LogWrite? || e.Write?) && e.dev == dev && e.blk == blk then e.data
      else Last(es[..|es| - 1], disk, dev, blk)
  }

  // ----- the invariant -----

  /** At most one buffer holds a block of a real device. */
  predicate Unique(bufs: seq<Buf>) {
    forall i, j :: 0 <= i < |bufs| && 0 <= j < |bufs| && bufs[i].dev != 0 && Caches(bufs[j], bufs[i].dev, bufs[i].blk) ==> i == j
  }

  predicate Clean(b: Buf, disk: map<(nat, nat), Block>) {
    (b.dirty ==> b.valid) && (b.dev != 0 && b.valid && !b.dirty ==> b.data == OnDisk(disk, b.dev, b.blk))
  }

  ghost function Of(handles: map<nat, nat>, i: nat): set<nat> {
    set h | h in handles && handles[h] == i
  }

  ghost predicate Counted(s: State) {
    (forall i :: 0 <= i < |s.bufs| ==> s.bufs[i].ref == |Of(s.handles, i)|) &&
    (forall h :: h in s.handles ==> s.handles[h] < |s.bufs|) &&
    (forall i :: i in s.owner ==> s.owner[i] in s.handles && s.handles[s.owner[i]] == i)
  }

  ghost predicate Inv(s: State) {
    Unique(s.bufs) && Counted(s) && forall i :: 0 <= i < |s.bufs| ==> Clean(s.bufs[i], s.disk)
  }

  lemma OfAdd(handles: map<nat, nat>, h: nat, i: nat, j: nat)
    requires h !in handles
    ensures Of(handles[h := i], j) == if i == j then Of(handles, j) + {h} else Of(handles, j)
  {
  }

  lemma OfDrop(handles: map<nat, nat>, h: nat, j: nat)
    requires h in handles
    ensures Of(handles - {h}, j) == if handles[h] == j then Of(handles, j) - {h} else Of(handles, j)
  {
  }

  lemma CountGet(s: State, h: nat, i: nat, b: Buf)
    requires Counted(s) && h !in s.handles && i < |s.bufs| && b.ref == s.bufs[i].ref + 1
    ensures Counted(s.(bufs := s.bufs[i := b], handles := s.handles[h := i]))
  {
    hide Of;
    var t := s.(bufs := s.bufs[i := b], handles := s.handles[h := i]);
    forall j | 0 <= j < |s.bufs| ensures t.bufs[j].ref == |Of(t.handles, j)| {
      OfAdd(s.handles, h, i, j);
      NotOf(s.handles, h, j);
    }
  }

  lemma NotOf(handles: map<nat, nat>, h: nat, j: nat)
    ensures h in Of(handles, j) <==> h in handles && handles[h] == j
  {
  }

  lemma CountPut(s: State, h: nat, i: nat, b: Buf)
    requires Counted(s) && h in s.handles && s.handles[h] == i && s.bufs[i].ref > 0 && b.ref == s.bufs[i].ref - 1 && !Owns(s, h, i)
    ensures Counted(s.(bufs := s.bufs[i := b], handles := s.handles - {h}))
  {
    hide Of;
    var t := s.(bufs := s.bufs[i := b], handles := s.handles - {h});
    forall j | 0 <= j < |s.bufs| ensures t.bufs[j].ref == |Of(t.handles, j)| {
      OfDrop(s.handles, h, j);
      NotOf(s.handles, h, j);
    }
  }

  lemma StepCounted(s: State, e: Step)
    requires Inv(s) && Enabled(s, e)
    ensures Counted(Do(s, e))
  {
    hide Of, Unique;
    match e
    case Get(h, dev, blk, i) => CountGet(s, h, i, Got(s.bufs[i], dev, blk));
    case Put(h, i) => CountPut(s, h, i, s.bufs[i].(ref := s.bufs[i].ref - 1));
    case _ =>
  }

  lemma GetUnique(bufs: seq<Buf>, dev: nat, blk: nat, i: nat)
    requires Unique(bufs) && CanGet(bufs, dev, blk, i)
    ensures Unique(bufs[i := Got(bufs[i], dev, blk)])
  {
  }

  lemma StepInv(s: State, e: Step)
    requires Inv(s) && Enabled(s, e)
    ensures Inv(Do(s, e))
  {
    StepCounted(s, e);
    hide Counted;
    if e.Get? { GetUnique(s.bufs, e.dev, e.blk, e.i); }
  }

  lemma {:induction false} RunInv(s: State, es: seq<Step>)
    requires Init(s) && Run(s, es)
    ensures Inv(After(s, es))
    decreases |es|
  {
    if es == [] {
      assert forall i :: 0 <= i < |s.bufs| ==> Of(s.handles, i) == {};
    } else {
      RunInv(s, es[..|es| - 1]);
      StepInv(After(s, es[..|es| - 1]), es[|es| - 1]);
    }
  }

  // ----- the cache refines a plain block map -----

  /** v is the value of a block: in the buffer that has it, if its contents have been read in, else on the disk. */
  predicate Value(s: State, dev: nat, blk: nat, v: Block) {
    (forall i :: 0 <= i < |s.bufs| && Caches(s.bufs[i], dev, blk) && s.bufs[i].valid ==> s.bufs[i].data == v) &&
    ((forall i :: 0 <= i < |s.bufs| ==> !(Caches(s.bufs[i], dev, blk) && s.bufs[i].valid)) ==> OnDisk(s.disk, dev, blk) == v)
  }

  /** Only writing the block itself changes its value; taking a buffer from another block does not. */
  lemma StepValue(s: State, e: Step, dev: nat, blk: nat, v: Block)
    requires Inv(s) && Enabled(s, e) && dev != 0 && Value(s, dev, blk, v)
    ensures Value(Do(s, e), dev, blk, if (e.LogWrite? || e.Write?) && e.dev == dev && e.blk == blk then e.data else v)
  {
    hide Counted;
    match e
    case Get(h, d, k, i) => GetValue(s, e, dev, blk, v);
    case Put(_, i) => SameBlocks(s, Do(s, e), dev, blk, v);
    case Lock(_, _) => SameBlocks(s, Do(s, e), dev, blk, v);
    case Unlock(_, _) => SameBlocks(s, Do(s, e), dev, blk, v);
    case Read(_, i) =>
      var t := Do(s, e);
      assert forall j :: 0 <= j < |s.bufs| && j != i ==> t.bufs[j] == s.bufs[j];
      if Caches(s.bufs[i], dev, blk) {
        assert forall j :: 0 <= j < |s.bufs| ==> !(Caches(s.bufs[j], dev, blk) && s.bufs[j].valid);
        assert t.bufs[i].valid;
      }
    case _ =>
      var t := Do(s, e);
      assert forall j :: 0 <= j < |s.bufs| && j != e.i ==> t.bufs[j] == s.bufs[j];
      if e.dev == dev && e.blk == blk {
        assert Caches(t.bufs[e.i], dev, blk) && t.bufs[e.i].valid;
      } else {
        assert !Caches(s.bufs[e.i], dev, blk);
      }
  }

  lemma SameBlocks(s: State, t: State, dev: nat, blk: nat, v: Block)
    requires Value(s, dev, blk, v) && |t.bufs| == |s.bufs| && t.disk == s.disk
    requires forall i :: 0 <= i < |s.bufs| ==> t.bufs[i] == s.bufs[i].(ref := t.bufs[i].ref)
    ensures Value(t, dev, blk, v)
  {
    assert forall i :: 0 <= i < |s.bufs| ==> (Caches(t.bufs[i], dev, blk) <==> Caches(s.bufs[i], dev, blk));
  }

  lemma GetValue(s: State, e: Step, dev: nat, blk: nat, v: Block)
    requires Inv(s) && e.Get? && Enabled(s, e) && dev != 0 && Value(s, dev, blk, v)
    ensures Value(Do(s, e), dev, blk, v)
  {
    var b, t := s.bufs[e.i], Do(s, e);
    assert Clean(b, s.disk);
    assert forall i :: 0 <= i < |s.bufs| && i != e.i ==> t.bufs[i] == s.bufs[i];
    if Caches(b, dev, blk) && b.valid {
      if Caches(b, e.dev, e.blk) {
        assert Caches(t.bufs[e.i], dev, blk) && t.bufs[e.i].valid;
      } else {
        assert OnDisk(s.disk, dev, blk) == v;
      }
    }
  }

  lemma {:induction false} RunValue(s: State, es: seq<Step>, dev: nat, blk: nat)
    requires Init(s) && Run(s, es) && dev != 0
    ensures Value(After(s, es), dev, blk, Last(es, s.disk, dev, blk))
    decreases |es|
  {
    if es != [] {
      RunInv(s, es[..|es| - 1]);
      RunValue(s, es[..|es| - 1], dev, blk);
      StepValue(After(s, es[..|es| - 1]), es[|es| - 1], dev, blk, Last(es[..|es| - 1], s.disk, dev, blk));
    }
  }

  /** bread: whoever holds a buffer whose contents have been read in sees the value last logged or written. */
  lemma BreadReturnsLast(s: State, es: seq<Step>, h: nat, i: nat)
    requires Init(s) && Run(s, es) && Owns(After(s, es), h, i)
    requires After(s, es).bufs[i].valid && After(s, es).bufs[i].dev != 0
    ensures After(s, es).bufs[i].data == Last(es, s.disk, After(s, es).bufs[i].dev, After(s, es).bufs[i].blk)
  {
    var b := After(s, es).bufs[i];
    RunValue(s, es, b.dev, b.blk);
    assert Caches(b, b.dev, b.blk);
  }

  /** At most one buffer per block of a real device, at any time. */
  lemma OneBufferPerBlock(s: State, es: seq<Step>, i: nat, j: nat)
    requires Init(s) && Run(s, es) && i < |After(s, es).bufs| && j < |After(s, es).bufs|
    requires After(s, es).bufs[i].dev != 0 && Caches(After(s, es).bufs[j], After(s, es).bufs[i].dev, After(s, es).bufs[i].blk)
    ensures i == j
  {
    RunInv(s, es);
  }

  lemma PinnedStep(s: State, e: Step, i: nat)
    requires Inv(s) && Enabled(s, e) && i < |s.bufs| && s.bufs[i].dirty && !(e.Write? && e.i == i)
    ensures i < |Do(s, e).bufs| && Do(s, e).bufs[i].dirty && Caches(Do(s, e).bufs[i], s.bufs[i].dev, s.bufs[i].blk)
  {
  }

  /** A block the log has pinned stays in its buffer, whoever else needs buffers, until it is written to disk. */
  lemma {:induction false} PinnedStays(s: State, es: seq<Step>, fs: seq<Step>, i: nat)
    requires Init(s) && Run(s, es + fs) && Run(s, es)
    requires i < |After(s, es).bufs| && After(s, es).bufs[i].dirty
    requires forall e :: e in fs ==> !(e.Write? && e.i == i)
    ensures i < |After(s, es + fs).bufs| && After(s, es + fs).bufs[i].dirty
    ensures Caches(After(s, es + fs).bufs[i], After(s, es).bufs[i].dev, After(s, es).bufs[i].blk)
    decreases |fs|
  {
    hide Enabled, Do, Inv, Init;
    if fs == [] {
      assert es + fs == es;
    } else {
      var all := es + fs;
      assert all[..|all| - 1] == es + fs[..|fs| - 1] && all[|all| - 1] == fs[|fs| - 1];
      PinnedStays(s, es, fs[..|fs| - 1], i);
      RunInv(s, es + fs[..|fs| - 1]);
      PinnedStep(After(s, es + fs[..|fs| - 1]), fs[|fs| - 1], i);
    }
  }

  /** A buffer someone has a handle on is never given to another block. */
  lemma ReferencedStays(s: State, es: seq<Step>, e: Step, h: nat)
    requires Init(s) && Run(s, es) && Enabled(After(s, es), e) && h in After(s, es).handles
    ensures var i := After(s, es).handles[h];
            i < |After(s, es).bufs| && After(s, es).bufs[i].ref > 0 &&
            Caches(Do(After(s, es), e).bufs[i], After(s, es).bufs[i].dev, After(s, es).bufs[i].blk)
  {
    RunInv(s, es);
    var t := After(s, es);
    var i := t.handles[h];
    assert h in Of(t.handles, i);
    assert |Of(t.handles, i)| > 0;
  }
}
