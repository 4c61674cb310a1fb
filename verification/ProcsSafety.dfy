/**
 What every reachable process table keeps.
 */
module ProcsSafety {
  import opened Procs

  predicate Alive(st: PState) {
    st == SLEEPING || st == RUNNABLE || st == RUNNING
  }

  /** The lock is held by exactly the cpu that says so, and no two cpus share a kernel stack. */
  ghost predicate CpuInv(s: State) {
    && (forall c :: 0 <= c < |s.cpus| ==> CpuOk(s, c))
    && (forall c, d :: 0 <= c < |s.cpus| && 0 <= d < |s.cpus| && s.cpus[c].On? && s.cpus[d].On? && s.cpus[c].i == s.cpus[d].i ==> c == d)
  }

  /** A cpu without the lock runs a RUNNING process; only a cpu holding it can stand on another one's stack. */
  ghost predicate CpuOk(s: State, c: nat)
    requires c < |s.cpus|
  {
    && (s.cpus[c].holding <==> s.lock == At(c))
    && (s.cpus[c].On? ==>
          && s.cpus[c].i < |s.procs|
          && (!s.cpus[c].holding ==> s.procs[s.cpus[c].i].state == RUNNING && !s.procs[s.cpus[c].i].inWait))
  }

  /** The family tree: a live or dead process has a live parent, an embryo at most the process forking it. */
  ghost predicate FamilyOk(procs: seq<Proc>, init: nat, k: nat)
    requires k < |procs|
  {
    procs[k].parent != At(k) &&
    match procs[k].state
    case UNUSED => procs[k].parent == None
    case EMBRYO => procs[k].parent == None || ForkedBy(procs, procs[k].parent, k)
    case _ => if k == init then procs[k].parent == None && procs[k].state != ZOMBIE else LiveParent(procs, procs[k].parent)
  }

  ghost predicate ForkedBy(procs: seq<Proc>, p: Link, k: nat) {
    p.At? && p.i < |procs| && procs[p.i].fork == At(k)
  }

  ghost predicate LiveParent(procs: seq<Proc>, p: Link) {
    p.At? && p.i < |procs| && Alive(procs[p.i].state)
  }

  /** Only a live process is inside fork or wait, never both, and fork has an embryo in hand. */
  ghost predicate KernelOk(procs: seq<Proc>, k: nat)
    requires k < |procs|
  {
    && (procs[k].fork.At? ==> Alive(procs[k].state) && !procs[k].inWait && procs[k].fork.i < |procs| && procs[procs[k].fork.i].state == EMBRYO)
    && (procs[k].inWait ==> Alive(procs[k].state))
    && (procs[k].state == SLEEPING && procs[k].chan.ProcChan? ==> procs[k].chan.i == k && procs[k].inWait)
  }

  ghost predicate TableInv(procs: seq<Proc>, init: nat) {
    && init < |procs| && Alive(procs[init].state)
    && (forall k :: 0 <= k < |procs| ==> FamilyOk(procs, init, k))
    && (forall k :: 0 <= k < |procs| ==> KernelOk(procs, k))
    && (forall p, q :: 0 <= p < |procs| && 0 <= q < |procs| && procs[p].fork.At? && procs[p].fork == procs[q].fork ==> p == q)
  }

  /** No process asleep in wait has a zombie child. */
  ghost predicate WaitInv(procs: seq<Proc>) {
    forall i, k :: 0 <= i < |procs| && 0 <= k < |procs| && procs[i].state == SLEEPING && procs[i].chan == ProcChan(i) && procs[k].parent == At(i) ==>
      procs[k].state != ZOMBIE
  }

  /**
   Processes have pids above 0, no two slots show the same one, not even a slot given up in fork, and none is
   among those wait has returned; no pid was returned twice.
   */
  ghost predicate PidInv(s: State) {
    && (forall k :: 0 <= k < |s.procs| ==> s.procs[k].pid < s.nextpid && s.procs[k].pid !in s.reaped)
    && (forall k :: 0 <= k < |s.procs| && s.procs[k].state != UNUSED ==> s.procs[k].pid > 0)
    && (forall j, k :: 0 <= j < k < |s.procs| && s.procs[j].pid > 0 ==> s.procs[j].pid != s.procs[k].pid)
    && (forall x :: x in s.reaped ==> 0 < x < s.nextpid)
    && (forall a, b :: 0 <= a < b < |s.reaped| ==> s.reaped[a] != s.reaped[b])
  }

  ghost predicate Inv(s: State) {
    CpuInv(s) && TableInv(s.procs, s.init) && WaitInv(s.procs) && PidInv(s)
  }

  // ----- steps that change one process -----

  /** Changing the state of a live process to another live one, or its channel, killed flag or wait flag, keeps the family. */
  ghost predicate Gentle(p: Proc, q: Proc) {
    && p.parent == q.parent && p.pid == q.pid && p.fork == q.fork
    && (Alive(p.state) <==> Alive(q.state)) && (!Alive(p.state) ==> p.state == q.state)
    && (q.inWait ==> p.inWait || (Alive(q.state) && q.fork == None))
  }

  lemma GentleTable(procs: seq<Proc>, init: nat, k: nat, q: Proc)
    requires TableInv(procs, init) && k < |procs| && Gentle(procs[k], q)
    requires q.state == SLEEPING && q.chan.ProcChan? ==> q.chan.i == k && q.inWait
    ensures TableInv(procs[k := q], init)
  {
    var r := procs[k := q];
    forall j | 0 <= j < |r| ensures FamilyOk(r, init, j) && KernelOk(r, j) {
      assert FamilyOk(procs, init, j) && KernelOk(procs, j) && KernelOk(procs, k);
    }
  }

  // ----- fork -----

  lemma AllocTable(procs: seq<Proc>, init: nat, i: nat, k: nat, pid: nat)
    requires TableInv(procs, init) && i < |procs| && k < |procs| && procs[k].state == UNUSED
    requires procs[i].state == RUNNING && procs[i].fork == None && !procs[i].inWait
    ensures TableInv(procs[k := procs[k].(state := EMBRYO, pid := pid)][i := procs[i].(fork := At(k))], init)
  {
    var r := procs[k := procs[k].(state := EMBRYO, pid := pid)][i := procs[i].(fork := At(k))];
    forall j | 0 <= j < |r| ensures FamilyOk(r, init, j) && KernelOk(r, j) {
      assert FamilyOk(procs, init, j) && KernelOk(procs, j) && KernelOk(procs, k) && FamilyOk(procs, init, k);
    }
    forall p, q | 0 <= p < |r| && 0 <= q < |r| && r[p].fork.At? && r[p].fork == r[q].fork ensures p == q {
      assert KernelOk(procs, p) && KernelOk(procs, q);
    }
  }

  lemma FailTable(procs: seq<Proc>, init: nat, i: nat, k: nat)
    requires TableInv(procs, init) && i < |procs| && k < |procs| && procs[i].fork == At(k) && procs[k].parent == None && i != k
    ensures TableInv(procs[k := procs[k].(state := UNUSED)][i := procs[i].(fork := None)], init)
  {
    var r := procs[k := procs[k].(state := UNUSED)][i := procs[i].(fork := None)];
    assert KernelOk(procs, i);
    forall j | 0 <= j < |r| ensures FamilyOk(r, init, j) && KernelOk(r, j) {
      assert FamilyOk(procs, init, j) && KernelOk(procs, j) && KernelOk(procs, k);
    }
  }

  lemma ParentTable(procs: seq<Proc>, init: nat, i: nat, k: nat)
    requires TableInv(procs, init) && i < |procs| && k < |procs| && procs[i].fork == At(k)
    ensures TableInv(procs[k := procs[k].(parent := At(i))], init)
  {
    var r := procs[k := procs[k].(parent := At(i))];
    assert KernelOk(procs, i);
    ForkElsewhere(procs, init, i);
    forall j | 0 <= j < |r| ensures FamilyOk(r, init, j) && KernelOk(r, j) {
      assert FamilyOk(procs, init, j) && KernelOk(procs, j);
    }
  }

  lemma PublishTable(procs: seq<Proc>, init: nat, i: nat, k: nat)
    requires TableInv(procs, init) && i < |procs| && k < |procs| && procs[i].fork == At(k) && procs[k].parent == At(i) && i != k
    ensures TableInv(procs[k := procs[k].(state := RUNNABLE)][i := procs[i].(fork := None)], init)
  {
    var r := procs[k := procs[k].(state := RUNNABLE)][i := procs[i].(fork := None)];
    assert KernelOk(procs, i) && KernelOk(procs, k);
    forall j | 0 <= j < |r| ensures FamilyOk(r, init, j) && KernelOk(r, j) {
      assert FamilyOk(procs, init, j) && KernelOk(procs, j);
    }
  }

  /** A process never forks into its own slot. */
  lemma ForkElsewhere(procs: seq<Proc>, init: nat, i: nat)
    requires TableInv(procs, init) && i < |procs| && procs[i].fork.At?
    ensures procs[i].fork.i < |procs| && procs[i].fork.i != i && procs[procs[i].fork.i].state == EMBRYO
  {
    assert KernelOk(procs, i);
  }

  // ----- wait -----

  lemma ReapTable(procs: seq<Proc>, init: nat, k: nat)
    requires TableInv(procs, init) && k < |procs| && procs[k].state == ZOMBIE
    ensures TableInv(procs[k := Reaped(procs[k])], init)
  {
    var r := procs[k := Reaped(procs[k])];
    assert KernelOk(procs, k);
    forall j | 0 <= j < |r| ensures FamilyOk(r, init, j) && KernelOk(r, j) {
      assert FamilyOk(procs, init, j) && KernelOk(procs, j);
    }
  }

  // ----- exit -----

  /**
   What exit does to each entry: it becomes a zombie itself, its children get init for a parent, and exactly
   those sleepers wake that wait on its parent, or on init when one of the children is a zombie.
   */
  lemma ExitEntry(procs: seq<Proc>, i: nat, init: nat, k: nat)
    requires i < |procs| && k < |procs|
    ensures var r, p := ExitTable(procs, i, init)[k], procs[k];
            && r.parent == (if p.parent == At(i) then At(init) else p.parent)
            && r.pid == p.pid && r.chan == p.chan && r.fork == p.fork && r.inWait == p.inWait && r.killed == p.killed
            && (k == i ==> r.state == ZOMBIE)
            && (k != i && p.state != SLEEPING ==> r.state == p.state)
            && (k != i && p.state == SLEEPING ==> r.state == SLEEPING || r.state == RUNNABLE)
            && (k != i && r.state == SLEEPING && p.chan == ProcChan(init) ==> !HasZombieChild(procs, i))
            && (k != i && r.state == SLEEPING && procs[i].parent.At? ==> p.chan != ProcChan(procs[i].parent.i))
            && (k != i && p.state == SLEEPING && r.state == RUNNABLE && procs[i].parent.At? ==>
                  p.chan == ProcChan(procs[i].parent.i) || (p.chan == ProcChan(init) && HasZombieChild(procs, i)))
  {
  }

  lemma ExitKeepsTable(procs: seq<Proc>, i: nat, init: nat)
    requires TableInv(procs, init) && i < |procs| && i != init && procs[i].fork == None && !procs[i].inWait && procs[i].state == RUNNING
    ensures TableInv(ExitTable(procs, i, init), init)
  {
    var r := ExitTable(procs, i, init);
    forall j | 0 <= j < |r| ensures ExitedEntry(procs[j], r[j], i, init, j) {
      ExitEntry(procs, i, init, j);
    }
    hide ExitTable, FamilyOk, KernelOk, ExitedEntry;
    forall j | 0 <= j < |r| ensures FamilyOk(r, init, j) && KernelOk(r, j) {
      ExitedOk(procs, r, i, init, j);
    }
    assert forall p :: 0 <= p < |r| ==> r[p].fork == procs[p].fork by {
      forall p | 0 <= p < |r| ensures r[p].fork == procs[p].fork { ExitedFork(procs[p], r[p], i, init, p); }
    }
    ExitedFork(procs[init], r[init], i, init, init);
  }

  lemma ExitedFork(p: Proc, r: Proc, i: nat, init: nat, k: nat)
    requires ExitedEntry(p, r, i, init, k)
    ensures r.fork == p.fork && (k != i && Alive(p.state) ==> Alive(r.state))
  {
  }

  lemma ExitedOk(procs: seq<Proc>, r: seq<Proc>, i: nat, init: nat, j: nat)
    requires |r| == |procs| && i < |procs| && init < |procs| && i != init && j < |procs| && Alive(procs[init].state)
    requires FamilyOk(procs, init, j) && KernelOk(procs, j)
    requires procs[i].fork == None && !procs[i].inWait && procs[i].state == RUNNING
    requires forall k :: 0 <= k < |r| ==> ExitedEntry(procs[k], r[k], i, init, k)
    ensures FamilyOk(r, init, j) && KernelOk(r, j)
  {
    assert ExitedEntry(procs[j], r[j], i, init, j) && ExitedEntry(procs[init], r[init], i, init, init);
    if procs[j].parent.At? && procs[j].parent.i < |procs| {
      assert ExitedEntry(procs[procs[j].parent.i], r[procs[j].parent.i], i, init, procs[j].parent.i);
    }
    if procs[j].fork.At? && procs[j].fork.i < |procs| {
      assert ExitedEntry(procs[procs[j].fork.i], r[procs[j].fork.i], i, init, procs[j].fork.i);
    }
  }

  ghost predicate ExitedEntry(p: Proc, r: Proc, i: nat, init: nat, k: nat) {
    && r.parent == (if p.parent == At(i) then At(init) else p.parent)
    && r.pid == p.pid && r.chan == p.chan && r.fork == p.fork && r.inWait == p.inWait
    && (k == i ==> r.state == ZOMBIE)
    && (k != i && p.state != SLEEPING ==> r.state == p.state)
    && (k != i && p.state == SLEEPING ==> r.state == SLEEPING || r.state == RUNNABLE)
  }

  /** exit wakes whoever must learn of a zombie: its own parent, and init for adopted ones. */
  lemma ExitKeepsWait(procs: seq<Proc>, i: nat, init: nat)
    requires TableInv(procs, init) && WaitInv(procs) && i < |procs| && i != init && procs[i].state == RUNNING
    ensures WaitInv(ExitTable(procs, i, init))
  {
    var r := ExitTable(procs, i, init);
    forall j, k | 0 <= j < |r| && 0 <= k < |r| && r[j].state == SLEEPING && r[j].chan == ProcChan(j) && r[k].parent == At(j)
      ensures r[k].state != ZOMBIE
    {
      ExitEntry(procs, i, init, j);
      ExitEntry(procs, i, init, k);
      hide ExitTable;
      assert FamilyOk(procs, init, i);
    }
  }

  lemma ExitKeepsPids(s: State, i: nat)
    requires PidInv(s) && i < |s.procs| && s.procs[i].state == RUNNING
    ensures PidInv(s.(procs := ExitTable(s.procs, i, s.init)))
  {
    var r := ExitTable(s.procs, i, s.init);
    forall j | 0 <= j < |r| ensures r[j].pid == s.procs[j].pid && (r[j].state == UNUSED <==> s.procs[j].state == UNUSED) {
      ExitEntry(s.procs, i, s.init, j);
    }
    hide ExitTable;
  }

  // ----- every step -----

  /** The process on cpu c works on its own entry, or reaps a child. */
  predicate Own(step: Step) {
    step.Resume? || step.Yield? || step.Sleep? || step.WaitEnter? || step.WaitFail? || step.WaitSleep? || step.WaitReap?
  }

  predicate Scheduling(step: Step) {
    step.SchedAcquire? || step.SchedRelease? || step.SchedPick? || step.SwitchOut?
  }

  predicate InFork(step: Step) {
    step.ForkAlloc? || step.ForkFail? || step.ForkParent? || step.ForkPublish?
  }

  lemma OwnCpu(s: State, step: Step)
    requires CpuInv(s) && Enabled(s, step) && Own(step)
    ensures CpuInv(Do(s, step))
  {
    hide ExitTable, HasZombieChild, HasChild;
    var t := Do(s, step);
    assert CpuOk(s, step.c);
    forall d | 0 <= d < |t.cpus| ensures CpuOk(t, d) { assert CpuOk(s, d); }
  }

  lemma SchedulingCpu(s: State, step: Step)
    requires CpuInv(s) && Enabled(s, step) && Scheduling(step)
    ensures CpuInv(Do(s, step))
  {
    hide ExitTable, HasZombieChild, HasChild;
    var t := Do(s, step);
    assert CpuOk(s, step.c);
    forall d | 0 <= d < |t.cpus| ensures CpuOk(t, d) { assert CpuOk(s, d); }
    if step.SchedPick? { PickCpu(s, step.c, step.k); }
  }

  lemma OutsideCpu(s: State, step: Step)
    requires CpuInv(s) && Enabled(s, step) && (step.Kill? || step.WakeOther?)
    ensures CpuInv(Do(s, step))
  {
    hide ExitTable, HasZombieChild, HasChild;
    var t := Do(s, step);
    forall d | 0 <= d < |t.cpus| ensures CpuOk(t, d) { assert CpuOk(s, d); }
  }

  lemma StepCpu(s: State, step: Step)
    requires CpuInv(s) && TableInv(s.procs, s.init) && Enabled(s, step)
    ensures CpuInv(Do(s, step))
  {
    hide CpuInv, TableInv, Enabled, Do;
    if step.Exit? {
      ExitCpu(s, step.c);
    } else if InFork(step) {
      ForkCpu(s, step);
    } else if Own(step) {
      OwnCpu(s, step);
    } else if Scheduling(step) {
      SchedulingCpu(s, step);
    } else {
      OutsideCpu(s, step);
    }
  }

  /** fork works on a slot that no cpu runs. */
  lemma ForkCpu(s: State, step: Step)
    requires CpuInv(s) && TableInv(s.procs, s.init) && Enabled(s, step)
    requires InFork(step)
    ensures CpuInv(Do(s, step))
  {
    var t := Do(s, step);
    if !step.ForkAlloc? { ForkElsewhere(s.procs, s.init, s.cpus[step.c].i); }
    hide TableInv;
    forall d | 0 <= d < |t.cpus| ensures CpuOk(t, d) {
      assert CpuOk(s, d);
    }
  }

  /** The scheduler, holding the lock, picks a process that no other cpu stands on. */
  lemma PickCpu(s: State, c: nat, k: nat)
    requires CpuInv(s) && Enabled(s, SchedPick(c, k))
    ensures forall d :: 0 <= d < |s.cpus| && s.cpus[d].On? ==> s.cpus[d].i != k
  {
    forall d | 0 <= d < |s.cpus| && s.cpus[d].On? ensures s.cpus[d].i != k {
      assert CpuOk(s, d) && CpuOk(s, c);
    }
  }

  lemma ExitCpu(s: State, c: nat)
    requires CpuInv(s) && Enabled(s, Exit(c))
    ensures CpuInv(Do(s, Exit(c)))
  {
    var t := Do(s, Exit(c));
    var i := s.cpus[c].i;
    forall d | 0 <= d < |t.cpus| ensures CpuOk(t, d) {
      assert CpuOk(s, d);
      if s.cpus[d].On? { ExitEntry(s.procs, i, s.init, s.cpus[d].i); }
    }
  }

  /** The scheduler's pick, kill and wakeup change one process, whoever runs. */
  lemma OneTable(s: State, step: Step)
    requires TableInv(s.procs, s.init) && Enabled(s, step) && (step.SchedPick? || step.Kill? || step.WakeOther?)
    ensures TableInv(Do(s, step).procs, s.init)
  {
    hide TableInv, CpuInv, ExitTable, HasZombieChild, HasChild;
    var t := Do(s, step);
    match step
    case SchedPick(c, k) => GentleOne(s.procs, s.init, k, t.procs[k]);
    case Kill(pid) =>
      var k: nat :| k < |s.procs| && t.procs == s.procs[k := Killed(s.procs[k])];
      GentleKill(s.procs, s.init, k);
    case WakeOther(k) => GentleOne(s.procs, s.init, k, t.procs[k]);
  }

  lemma ForkTable(s: State, step: Step)
    requires CpuInv(s) && TableInv(s.procs, s.init) && Enabled(s, step)
    requires InFork(step)
    ensures TableInv(Do(s, step).procs, s.init)
  {
    assert CpuOk(s, step.c);
    hide TableInv, CpuInv, ExitTable, HasZombieChild, HasChild;
    var i := s.cpus[step.c].i;
    if !step.ForkAlloc? { ForkElsewhere(s.procs, s.init, i); }
    match step
    case ForkAlloc(c, k) => AllocTable(s.procs, s.init, i, k, s.nextpid);
    case ForkFail(c) => FailTable(s.procs, s.init, i, s.procs[i].fork.i);
    case ForkParent(c) => ParentTable(s.procs, s.init, i, s.procs[i].fork.i);
    case ForkPublish(c) => PublishTable(s.procs, s.init, i, s.procs[i].fork.i);
  }

  lemma WaitReapTable(s: State, c: nat, k: nat)
    requires TableInv(s.procs, s.init) && Enabled(s, WaitReap(c, k))
    ensures TableInv(Do(s, WaitReap(c, k)).procs, s.init)
  {
    ReapTable(s.procs, s.init, k);
    var i := s.cpus[c].i;
    var mid := s.procs[k := Reaped(s.procs[k])];
    hide TableInv;
    GentleOne(mid, s.init, i, mid[i].(inWait := false, chan := NoChan));
  }

  /** A process changes its own state, channel or wait flag. */
  lemma OwnTable(s: State, step: Step)
    requires CpuInv(s) && TableInv(s.procs, s.init) && Enabled(s, step)
    requires Own(step) && !step.WaitReap?
    ensures TableInv(Do(s, step).procs, s.init)
  {
    assert CpuOk(s, step.c);
    hide TableInv, CpuInv, ExitTable, HasZombieChild, HasChild;
    var i := s.cpus[step.c].i;
    GentleOne(s.procs, s.init, i, Do(s, step).procs[i]);
  }

  lemma StepTable(s: State, step: Step)
    requires CpuInv(s) && TableInv(s.procs, s.init) && Enabled(s, step)
    ensures TableInv(Do(s, step).procs, s.init)
  {
    if step.Exit? {
      assert CpuOk(s, step.c);
      hide CpuInv, TableInv, ExitTable;
      ExitKeepsTable(s.procs, s.cpus[step.c].i, s.init);
    } else if step.SchedAcquire? || step.SchedRelease? || step.SwitchOut? {
      hide TableInv, CpuInv;
    } else {
      hide CpuInv, TableInv, Enabled, Do;
      if step.WaitReap? {
        WaitReapTable(s, step.c, step.k);
      } else if InFork(step) {
        ForkTable(s, step);
      } else if Own(step) {
        OwnTable(s, step);
      } else {
        OneTable(s, step);
      }
    }
  }

  lemma GentleOne(procs: seq<Proc>, init: nat, k: nat, q: Proc)
    requires TableInv(procs, init) && k < |procs| && q.parent == procs[k].parent && q.pid == procs[k].pid && q.fork == procs[k].fork
    requires Alive(procs[k].state) && Alive(q.state)
    requires q.inWait ==> procs[k].inWait || q.fork == None
    requires q.state == SLEEPING && q.chan.ProcChan? ==> q.chan.i == k && q.inWait
    ensures TableInv(procs[k := q], init)
  {
    GentleTable(procs, init, k, q);
  }

  lemma GentleKill(procs: seq<Proc>, init: nat, k: nat)
    requires TableInv(procs, init) && k < |procs|
    ensures TableInv(procs[k := Killed(procs[k])], init)
  {
    assert KernelOk(procs, k);
    GentleTable(procs, init, k, Killed(procs[k]));
  }

  lemma OwnWait(s: State, step: Step)
    requires WaitInv(s.procs) && Enabled(s, step) && Own(step)
    ensures WaitInv(Do(s, step).procs)
  {
    if step.WaitSleep? { assert !HasZombieChild(s.procs, s.cpus[step.c].i); }
    hide ExitTable, HasChild;
  }

  lemma OutsideWait(s: State, step: Step)
    requires WaitInv(s.procs) && Enabled(s, step) && (Scheduling(step) || step.Kill? || step.WakeOther?)
    ensures WaitInv(Do(s, step).procs)
  {
    hide ExitTable, HasZombieChild, HasChild;
  }

  lemma StepWait(s: State, step: Step)
    requires CpuInv(s) && TableInv(s.procs, s.init) && WaitInv(s.procs) && Enabled(s, step)
    ensures WaitInv(Do(s, step).procs)
  {
    hide CpuInv, TableInv, WaitInv, ExitTable, HasZombieChild, HasChild;
    if step.Exit? {
      ExitKeepsWait(s.procs, s.cpus[step.c].i, s.init);
    } else {
      hide Enabled, Do;
      if InFork(step) {
        ForkWait(s, step);
      } else if Own(step) {
        OwnWait(s, step);
      } else {
        OutsideWait(s, step);
      }
    }
  }

  lemma ForkWait(s: State, step: Step)
    requires CpuInv(s) && TableInv(s.procs, s.init) && WaitInv(s.procs) && Enabled(s, step)
    requires InFork(step)
    ensures WaitInv(Do(s, step).procs)
  {
    if !step.ForkAlloc? { ForkElsewhere(s.procs, s.init, s.cpus[step.c].i); }
    hide CpuInv, TableInv;
  }

  /** No slot came into use and no pid changed. */
  ghost predicate SamePids(s: State, t: State) {
    && |t.procs| == |s.procs| && t.nextpid == s.nextpid && t.reaped == s.reaped
    && forall k :: 0 <= k < |t.procs| ==> t.procs[k].pid == s.procs[k].pid && (t.procs[k].state != UNUSED ==> s.procs[k].state != UNUSED)
  }

  lemma SamePidsInv(s: State, t: State)
    requires PidInv(s) && SamePids(s, t)
    ensures PidInv(t)
  {
  }

  lemma AllocPids(s: State, c: nat, k: nat)
    requires PidInv(s) && Enabled(s, ForkAlloc(c, k))
    ensures PidInv(Do(s, ForkAlloc(c, k)))
  {
  }

  lemma StepPid(s: State, step: Step)
    requires TableInv(s.procs, s.init) && PidInv(s) && Enabled(s, step)
    ensures PidInv(Do(s, step))
  {
    if step.Exit? {
      ExitKeepsPids(s, s.cpus[step.c].i);
    } else if step.WaitReap? {
      ReapPids(s, step.c, step.k);
    } else if step.ForkAlloc? {
      AllocPids(s, step.c, step.k);
    } else {
      StepSamePids(s, step);
      hide Enabled, TableInv, PidInv, SamePids, Do;
      SamePidsInv(s, Do(s, step));
    }
  }

  lemma OwnSamePids(s: State, step: Step)
    requires Enabled(s, step) && Own(step) && !step.WaitReap?
    ensures SamePids(s, Do(s, step))
  {
    hide ExitTable, HasZombieChild, HasChild;
  }

  lemma OutsideSamePids(s: State, step: Step)
    requires Enabled(s, step) && (Scheduling(step) || step.Kill? || step.WakeOther?)
    ensures SamePids(s, Do(s, step))
  {
    hide ExitTable, HasZombieChild, HasChild;
  }

  lemma ForkSamePids(s: State, step: Step)
    requires TableInv(s.procs, s.init) && Enabled(s, step) && InFork(step) && !step.ForkAlloc?
    ensures SamePids(s, Do(s, step))
  {
    ForkElsewhere(s.procs, s.init, s.cpus[step.c].i);
    hide TableInv, ExitTable, HasZombieChild, HasChild;
  }

  lemma StepSamePids(s: State, step: Step)
    requires TableInv(s.procs, s.init) && Enabled(s, step) && !step.Exit? && !step.WaitReap? && !step.ForkAlloc?
    ensures SamePids(s, Do(s, step))
  {
    hide TableInv, Enabled, Do, SamePids;
    if InFork(step) {
      ForkSamePids(s, step);
    } else if Own(step) {
      OwnSamePids(s, step);
    } else {
      OutsideSamePids(s, step);
    }
  }

  lemma ReapPids(s: State, c: nat, k: nat)
    requires PidInv(s) && Enabled(s, WaitReap(c, k))
    ensures PidInv(Do(s, WaitReap(c, k)))
  {
    var t := Do(s, WaitReap(c, k));
    assert forall j :: 0 <= j < |s.procs| && j != k ==> t.procs[j].pid == s.procs[j].pid && t.procs[j].state == s.procs[j].state;
    assert t.procs[k].pid == 0 && t.procs[k].state == UNUSED;
  }

  lemma InitInv(s: State)
    requires Init(s)
    ensures Inv(s)
  {
  }

  lemma {:induction false} RunInv(s0: State, steps: seq<Step>)
    requires Init(s0) && Run(s0, steps)
    ensures Inv(After(s0, steps)) && After(s0, steps).init == s0.init
    decreases |steps|
  {
    if steps == [] {
      InitInv(s0);
    } else {
      hide CpuInv, TableInv, WaitInv, PidInv, Enabled, Init;
      var n := |steps| - 1;
      RunInv(s0, steps[..n]);
      var s := After(s0, steps[..n]);
      StepCpu(s, steps[n]);
      StepTable(s, steps[n]);
      StepWait(s, steps[n]);
      StepPid(s, steps[n]);
    }
  }

  // ----- main results -----

  /** In every reachable table a process past EMBRYO, other than init, has a parent that is neither unused nor a zombie. */
  lemma ParentsLive(s0: State, steps: seq<Step>, k: nat)
    requires Init(s0) && Run(s0, steps) && k < |After(s0, steps).procs| && k != s0.init
    requires After(s0, steps).procs[k].state != UNUSED && After(s0, steps).procs[k].state != EMBRYO
    ensures LiveParent(After(s0, steps).procs, After(s0, steps).procs[k].parent)
  {
    RunInv(s0, steps);
    var s := After(s0, steps);
    assert FamilyOk(s.procs, s.init, k);
  }

  /** No process sleeps in wait over a zombie child, so no exit goes unnoticed. */
  lemma NoMissedExit(s0: State, steps: seq<Step>, i: nat, k: nat)
    requires Init(s0) && Run(s0, steps) && i < |After(s0, steps).procs| && k < |After(s0, steps).procs|
    requires After(s0, steps).procs[i].state == SLEEPING && After(s0, steps).procs[i].inWait && After(s0, steps).procs[i].chan.ProcChan?
    requires After(s0, steps).procs[k].parent == At(i)
    ensures After(s0, steps).procs[k].state != ZOMBIE
  {
    RunInv(s0, steps);
    assert KernelOk(After(s0, steps).procs, i);
  }

  /** wait returns each pid at most once. */
  lemma PidReapedOnce(s0: State, steps: seq<Step>, a: nat, b: nat)
    requires Init(s0) && Run(s0, steps) && a < b < |After(s0, steps).reaped|
    ensures After(s0, steps).reaped[a] != After(s0, steps).reaped[b]
  {
    RunInv(s0, steps);
  }

  /** When wait frees a zombie's kernel stack and page table, no cpu is on that stack. */
  lemma ReapedStackIdle(s0: State, steps: seq<Step>, c: nat, k: nat, d: nat)
    requires Init(s0) && Run(s0, steps) && Enabled(After(s0, steps), WaitReap(c, k))
    requires d < |After(s0, steps).cpus| && After(s0, steps).cpus[d].On?
    ensures After(s0, steps).cpus[d].i != k
  {
    RunInv(s0, steps);
    var s := After(s0, steps);
    assert CpuOk(s, c) && CpuOk(s, d);
  }

  /** Two cpus never run on one kernel stack. */
  lemma OneCpuPerStack(s0: State, steps: seq<Step>, c: nat, d: nat)
    requires Init(s0) && Run(s0, steps) && c < |After(s0, steps).cpus| && d < |After(s0, steps).cpus|
    requires After(s0, steps).cpus[c].On? && After(s0, steps).cpus[d].On? && After(s0, steps).cpus[c].i == After(s0, steps).cpus[d].i
    ensures c == d
  {
    RunInv(s0, steps);
  }
}
