/**
 The process table: fork, exit, wait, kill and the scheduler, on any number of processes and
 cpus. A step is a stretch of kernel code under ptable.lock, or one unlocked access of fork.
 */
module Procs {

  datatype PState = UNUSED | EMBRYO | SLEEPING | RUNNABLE | RUNNING | ZOMBIE

  datatype Link = None | At(i: nat)

  /** wait sleeps on the process itself; all other channels are Other. */
  datatype Chan = NoChan | ProcChan(i: nat) | Other

  /** `fork` is the slot this process is setting up in fork; `inWait` that it is in wait's loop. */
  datatype Proc = Proc(state: PState, parent: Link, pid: nat, chan: Chan, killed: bool, fork: Link, inWait: bool)

  /** A cpu is in the scheduler or on the kernel stack of process i, with or without ptable.lock. */
  datatype Cpu = Scheduler(holding: bool) | On(i: nat, holding: bool)

  /** `reaped` are the pids that wait has returned. */
  datatype State = State(procs: seq<Proc>, cpus: seq<Cpu>, lock: Link, nextpid: nat, init: nat, reaped: seq<nat>)

  datatype Step =
    | SchedAcquire(c: nat) | SchedRelease(c: nat) | SchedPick(c: nat, k: nat)
    | Resume(c: nat) | SwitchOut(c: nat) | Yield(c: nat) | Sleep(c: nat)
    | Exit(c: nat)
    | WaitEnter(c: nat) | WaitReap(c: nat, k: nat) | WaitFail(c: nat) | WaitSleep(c: nat)
    | ForkAlloc(c: nat, k: nat) | ForkFail(c: nat) | ForkParent(c: nat) | ForkPublish(c: nat)
    | Kill(pid: nat) | WakeOther(k: nat)

  // ----- what the table loops compute -----

  function Woken(p: Proc, chan: Chan): Proc {
    if p.state == SLEEPING && p.chan == chan then p.(state := RUNNABLE) else p
  }

  /** wakeup1 */
  function WakeAll(procs: seq<Proc>, chan: Chan): (r: seq<Proc>)
    ensures |r| == |procs| && forall k :: 0 <= k < |procs| ==> r[k] == Woken(procs[k], chan)
  {
    seq(|procs|, k requires 0 <= k < |procs| => Woken(procs[k], chan))
  }

  ghost predicate HasZombieChild(procs: seq<Proc>, i: nat) {
    exists k :: 0 <= k < |procs| && procs[k].parent == At(i) && procs[k].state == ZOMBIE
  }

  ghost predicate HasChild(procs: seq<Proc>, i: nat) {
    exists k :: 0 <= k < |procs| && procs[k].parent == At(i)
  }

  function Adopted(p: Proc, i: nat, init: nat): Proc {
    if p.parent == At(i) then p.(parent := At(init)) else p
  }

  function AdoptAll(procs: seq<Proc>, i: nat, init: nat): (r: seq<Proc>)
    ensures |r| == |procs| && forall k :: 0 <= k < |procs| ==> r[k] == Adopted(procs[k], i, init)
  {
    seq(|procs|, k requires 0 <= k < |procs| => Adopted(procs[k], i, init))
  }

  /** exit under ptable.lock: wake the parent, give the children to init, wake init if one is a zombie, become a zombie. */
  ghost function ExitTable(procs: seq<Proc>, i: nat, init: nat): (r: seq<Proc>)
    requires i < |procs|
    ensures |r| == |procs|
  {
    var woken := WakeAll(procs, if procs[i].parent.At? then ProcChan(procs[i].parent.i) else NoChan);
    var adopted := AdoptAll(woken, i, init);
    var all := if HasZombieChild(procs, i) then WakeAll(adopted, ProcChan(init)) else adopted;
    all[i := all[i].(state := ZOMBIE)]
  }

  /** The slot a scan with `p->pid == pid` stops at. */
  ghost predicate FirstPid(procs: seq<Proc>, pid: nat, k: nat) {
    && k < |procs| && procs[k].pid == pid
    && forall j :: 0 <= j < k ==> procs[j].pid != pid
  }

  function Killed(p: Proc): Proc {
    p.(killed := true, state := if p.state == SLEEPING then RUNNABLE else p.state)
  }

  // ----- steps -----

  predicate Running(s: State, c: nat, holding: bool) {
    c < |s.cpus| && s.cpus[c].On? && s.cpus[c].i < |s.procs| && s.cpus[c].holding == holding
    && (s.procs[s.cpus[c].i].state == RUNNING)
  }

  /** A process in the kernel, not inside fork, about to take ptable.lock. */
  predicate CanLock(s: State, c: nat) {
    Running(s, c, false) && s.lock == None
  }

  ghost predicate Enabled(s: State, step: Step) {
    match step
    case SchedAcquire(c) => c < |s.cpus| && s.cpus[c] == Scheduler(false) && s.lock == None
    case SchedRelease(c) => c < |s.cpus| && s.cpus[c] == Scheduler(true)
    case SchedPick(c, k) => c < |s.cpus| && s.cpus[c] == Scheduler(true) && k < |s.procs| && s.procs[k].state == RUNNABLE
    case Resume(c) => Running(s, c, true) && !s.procs[s.cpus[c].i].inWait
    case SwitchOut(c) => c < |s.cpus| && s.cpus[c].On? && s.cpus[c].holding && s.cpus[c].i < |s.procs| && s.procs[s.cpus[c].i].state != RUNNING
    case Yield(c) => CanLock(s, c)
    case Sleep(c) => CanLock(s, c)
    case Exit(c) => CanLock(s, c) && s.cpus[c].i != s.init && s.procs[s.cpus[c].i].fork == None
    case WaitEnter(c) => CanLock(s, c) && s.procs[s.cpus[c].i].fork == None
    case WaitReap(c, k) =>
      && Running(s, c, true) && s.procs[s.cpus[c].i].inWait
      && k < |s.procs| && s.procs[k].parent == At(s.cpus[c].i) && s.procs[k].state == ZOMBIE
    case WaitFail(c) =>
      && Running(s, c, true) && s.procs[s.cpus[c].i].inWait && !HasZombieChild(s.procs, s.cpus[c].i)
      && (!HasChild(s.procs, s.cpus[c].i) || s.procs[s.cpus[c].i].killed)
    case WaitSleep(c) =>
      && Running(s, c, true) && s.procs[s.cpus[c].i].inWait && !HasZombieChild(s.procs, s.cpus[c].i)
      && HasChild(s.procs, s.cpus[c].i) && !s.procs[s.cpus[c].i].killed
    case ForkAlloc(c, k) => CanLock(s, c) && s.procs[s.cpus[c].i].fork == None && k < |s.procs| && s.procs[k].state == UNUSED
    case ForkFail(c) => Forking(s, c) && s.procs[s.procs[s.cpus[c].i].fork.i].parent == None
    case ForkParent(c) => Forking(s, c)
    case ForkPublish(c) => Forking(s, c) && s.lock == None && s.procs[s.procs[s.cpus[c].i].fork.i].parent == At(s.cpus[c].i)
    case Kill(pid) => s.lock == None && exists k :: FirstPid(s.procs, pid, k)
    case WakeOther(k) => s.lock == None && k < |s.procs| && s.procs[k].state == SLEEPING && s.procs[k].chan == Other
  }

  predicate Forking(s: State, c: nat) {
    Running(s, c, false) && s.procs[s.cpus[c].i].fork.At? && s.procs[s.cpus[c].i].fork.i < |s.procs|
  }

  function Reaped(p: Proc): Proc {
    p.(state := UNUSED, pid := 0, parent := None, killed := false)
  }

  ghost function Do(s: State, step: Step): State
    requires Enabled(s, step)
  {
    match step
    case SchedAcquire(c) => s.(cpus := s.cpus[c := Scheduler(true)], lock := At(c))
    case SchedRelease(c) => s.(cpus := s.cpus[c := Scheduler(false)], lock := None)
    case SchedPick(c, k) => s.(cpus := s.cpus[c := On(k, true)], procs := s.procs[k := s.procs[k].(state := RUNNING)])
    case Resume(c) =>
      var i := s.cpus[c].i;
      s.(cpus := s.cpus[c := On(i, false)], lock := None, procs := s.procs[i := s.procs[i].(chan := NoChan)])
    case SwitchOut(c) => s.(cpus := s.cpus[c := Scheduler(true)])
    case Yield(c) => Locked(s, c, s.procs[s.cpus[c].i].(state := RUNNABLE))
    case Sleep(c) => Locked(s, c, s.procs[s.cpus[c].i].(state := SLEEPING, chan := Other))
    case Exit(c) =>
      var i := s.cpus[c].i;
      s.(cpus := s.cpus[c := On(i, true)], lock := At(c), procs := ExitTable(s.procs, i, s.init))
    case WaitEnter(c) => Locked(s, c, s.procs[s.cpus[c].i].(inWait := true))
    case WaitReap(c, k) =>
      var i := s.cpus[c].i;
      s.(cpus := s.cpus[c := On(i, false)], lock := None, reaped := s.reaped + [s.procs[k].pid],
         procs := s.procs[k := Reaped(s.procs[k])][i := s.procs[i].(inWait := false, chan := NoChan)])
    case WaitFail(c) =>
      var i := s.cpus[c].i;
      s.(cpus := s.cpus[c := On(i, false)], lock := None, procs := s.procs[i := s.procs[i].(inWait := false, chan := NoChan)])
    case WaitSleep(c) =>
      var i := s.cpus[c].i;
      s.(procs := s.procs[i := s.procs[i].(state := SLEEPING, chan := ProcChan(i))])
    case ForkAlloc(c, k) =>
      var i := s.cpus[c].i;
      s.(nextpid := s.nextpid + 1,
         procs := s.procs[k := s.procs[k].(state := EMBRYO, pid := s.nextpid)][i := s.procs[i].(fork := At(k))])
    case ForkFail(c) =>
      var i := s.cpus[c].i;
      var k := s.procs[i].fork.i;
      s.(procs := s.procs[k := s.procs[k].(state := UNUSED)][i := s.procs[i].(fork := None)])
    case ForkParent(c) =>
      var i := s.cpus[c].i;
      var k := s.procs[i].fork.i;
      s.(procs := s.procs[k := s.procs[k].(parent := At(i))])
    case ForkPublish(c) =>
      var i := s.cpus[c].i;
      var k := s.procs[i].fork.i;
      s.(procs := s.procs[k := s.procs[k].(state := RUNNABLE)][i := s.procs[i].(fork := None)])
    case Kill(pid) =>
      var k: nat :| FirstPid(s.procs, pid, k);
      s.(procs := s.procs[k := Killed(s.procs[k])])
    case WakeOther(k) => s.(procs := s.procs[k := s.procs[k].(state := RUNNABLE)])
  }

  /** The process on cpu c takes ptable.lock and becomes p. */
  function Locked(s: State, c: nat, p: Proc): State
    requires CanLock(s, c)
  {
    s.(cpus := s.cpus[c := On(s.cpus[c].i, true)], lock := At(c), procs := s.procs[s.cpus[c].i := p])
  }

  /** After userinit: init is RUNNABLE, every other slot unused, all cpus in the scheduler. */
  ghost predicate Init(s: State) {
    && s.init < |s.procs| && s.lock == None && s.reaped == [] && s.nextpid == 2
    && (forall c :: 0 <= c < |s.cpus| ==> s.cpus[c] == Scheduler(false))
    && (forall k :: 0 <= k < |s.procs| ==>
          s.procs[k] == if k == s.init then Proc(RUNNABLE, None, 1, NoChan, false, None, false)
                        else Proc(UNUSED, None, 0, NoChan, false, None, false))
  }

  ghost predicate Run(s0: State, steps: seq<Step>)
    decreases |steps|, 0
  {
    steps == [] ||
    (Run(s0, steps[..|steps| - 1]) && Enabled(After(s0, steps[..|steps| - 1]), steps[|steps| - 1]))
  }

  ghost function After(s0: State, steps: seq<Step>): State
    requires Run(s0, steps)
    decreases |steps|, 1
  {
    if steps == [] then s0 else Do(After(s0, steps[..|steps| - 1]), steps[|steps| - 1])
  }
}
