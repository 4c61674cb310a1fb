/**
 The loops over the process table in proc.c, on the table itself.
 */
module ProcsCode {
  import opened Procs
  import opened ProcsSafety

  datatype WaitEnd = Reaped(pid: nat) | GaveUp | Slept

  class ProcTable {
    const proc: array<Proc>
    const init: nat
    var nextpid: nat

    constructor (n: nat, init: nat)
      requires init < n
      ensures proc.Length == n && this.init == init && nextpid == 1 && fresh(proc)
      ensures forall k :: 0 <= k < n ==> proc[k] == Proc(UNUSED, None, 0, NoChan, false, None, false)
    {
      proc := new Proc[n](_ => Proc(UNUSED, None, 0, NoChan, false, None, false));
      this.init := init;
      nextpid := 1;
    }

    /** wakeup1: every process sleeping on chan becomes RUNNABLE. */
    method Wakeup1(chan: Chan)
      modifies proc
      ensures proc[..] == WakeAll(old(proc[..]), chan)
      ensures forall k :: 0 <= k < proc.Length ==>
                            proc[k] == if old(proc[k]).state == SLEEPING && old(proc[k]).chan == chan then old(proc[k]).(state := RUNNABLE) else old(proc[k])
    {
      var p := 0;
      while p < proc.Length
        invariant 0 <= p <= proc.Length
        invariant forall k :: 0 <= k < proc.Length ==> proc[k] == if k < p then Woken(old(proc[k]), chan) else old(proc[k])
      {
        if proc[p].state == SLEEPING && proc[p].chan == chan {
          proc[p] := proc[p].(state := RUNNABLE);
        }
        p := p + 1;
      }
    }

    /** allocproc's scan: the lowest unused slot becomes an embryo with the next pid. */
    method AllocProc() returns (slot: Link)
      modifies this, proc
      ensures slot == None ==> proc[..] == old(proc[..]) && nextpid == old(nextpid) && forall k :: 0 <= k < proc.Length ==> proc[k].state != UNUSED
      ensures slot.At? ==>
                && slot.i < proc.Length && old(proc[..])[slot.i].state == UNUSED
                && (forall j :: 0 <= j < slot.i ==> old(proc[..])[j].state != UNUSED)
                && nextpid == old(nextpid) + 1
                && proc[..] == old(proc[..])[slot.i := old(proc[..])[slot.i].(state := EMBRYO, pid := old(nextpid))]
    {
      var p := 0;
      while p < proc.Length
        invariant 0 <= p <= proc.Length && proc[..] == old(proc[..]) && nextpid == old(nextpid)
        invariant forall j :: 0 <= j < p ==> proc[j].state != UNUSED
      {
        if proc[p].state == UNUSED {
          proc[p] := proc[p].(state := EMBRYO, pid := nextpid);
          nextpid := nextpid + 1;
          return At(p);
        }
        p := p + 1;
      }
      return None;
    }

    /** exit with ptable.lock held. */
    method ExitLocked(i: nat)
      requires i < proc.Length && proc[i].state == RUNNING
      modifies proc
      ensures proc[..] == ExitTable(old(proc[..]), i, init)
    {
      hide ExitTable, AdoptedUpTo, WakeAll;
      ghost var start := proc[..];
      Wakeup1(if proc[i].parent.At? then ProcChan(proc[i].parent.i) else NoChan);
      ghost var woken := proc[..];
      AdoptNone(woken, i, init);
      var p := 0;
      while p < proc.Length
        invariant 0 <= p <= proc.Length
        invariant proc[..] == AdoptedUpTo(woken, i, init, p)
      {
        AdoptNext(woken, i, init, p);
        ghost var now := proc[..];
        if proc[p].parent == At(i) {
          proc[p] := proc[p].(parent := At(init));
          assert proc[..] == now[p := now[p].(parent := At(init))];
          if proc[p].state == ZOMBIE {
            Wakeup1(ProcChan(init));
          }
        }
        p := p + 1;
      }
      ExitDone(start, woken, i, init);
      ghost var all := proc[..];
      proc[i] := proc[i].(state := ZOMBIE);
      assert proc[..] == all[i := all[i].(state := ZOMBIE)];
    }

    /** wait's scan with ptable.lock held: the first zombie child is reaped and its pid returned. */
    method WaitScan(i: nat) returns (pid: Link, havekids: bool)
      requires i < proc.Length
      modifies proc
      ensures pid.At? <==> HasZombieChild(old(proc[..]), i)
      ensures pid == None ==> proc[..] == old(proc[..]) && (havekids <==> HasChild(proc[..], i))
      ensures pid.At? ==> ReapedOne(old(proc[..]), i, pid.i, proc[..])
    {
      havekids := false;
      var p := 0;
      while p < proc.Length
        invariant 0 <= p <= proc.Length && proc[..] == old(proc[..])
        invariant forall k :: 0 <= k < p ==> !(proc[k].parent == At(i) && proc[k].state == ZOMBIE)
        invariant havekids <==> exists k :: 0 <= k < p && proc[k].parent == At(i)
      {
        if proc[p].parent == At(i) {
          havekids := true;
          if proc[p].state == ZOMBIE {
            pid := At(proc[p].pid);
            assert old(proc[..])[p] == proc[p];
            proc[p] := proc[p].(state := UNUSED, pid := 0, parent := None, killed := false);
            assert proc[..] == old(proc[..])[p := old(proc[..])[p].(state := UNUSED, pid := 0, parent := None, killed := false)];
            return;
          }
        }
        p := p + 1;
      }
      assert forall k :: 0 <= k < proc.Length ==> proc[..][k] == proc[k];
      return None, havekids;
    }

    /** One pass of wait's loop, for a running process i: it reaps a child, gives up, or goes to sleep on itself. */
    method WaitPass(i: nat) returns (end: WaitEnd)
      requires i < proc.Length && proc[i].state == RUNNING
      modifies proc
      ensures end.Reaped? <==> HasZombieChild(old(proc[..]), i)
      ensures end.Reaped? ==> ReapedOne(old(proc[..]), i, end.pid, proc[..])
      ensures end == GaveUp <==> !HasZombieChild(old(proc[..]), i) && (!HasChild(old(proc[..]), i) || old(proc[i].killed))
      ensures end == GaveUp ==> proc[..] == old(proc[..])
      ensures end == Slept ==> proc[..] == old(proc[..])[i := old(proc[i]).(state := SLEEPING, chan := ProcChan(i))]
    {
      var pid, havekids := WaitScan(i);
      if pid.At? { return WaitEnd.Reaped(pid.i); }
      if !havekids || proc[i].killed { return GaveUp; }
      ghost var was := proc[..];
      proc[i] := proc[i].(state := SLEEPING, chan := ProcChan(i));
      assert proc[..] == was[i := was[i].(state := SLEEPING, chan := ProcChan(i))];
      return Slept;
    }

    /** kill: the first slot with that pid, whatever its state. */
    method Kill(pid: nat) returns (r: int)
      modifies proc
      ensures r == -1 ==> proc[..] == old(proc[..]) && forall k :: 0 <= k < proc.Length ==> proc[k].pid != pid
      ensures r != -1 ==> r == 0 && exists k: nat :: FirstPid(old(proc[..]), pid, k) && Struck(old(proc[..]), k, proc[..])
    {
      var p := 0;
      while p < proc.Length
        invariant 0 <= p <= proc.Length && proc[..] == old(proc[..])
        invariant forall k :: 0 <= k < p ==> proc[k].pid != pid
      {
        if proc[p].pid == pid {
          assert FirstPid(old(proc[..]), pid, p);
          proc[p] := proc[p].(killed := true);
          if proc[p].state == SLEEPING {
            proc[p] := proc[p].(state := RUNNABLE);
          }
          assert Struck(old(proc[..]), p, proc[..]);
          return 0;
        }
        p := p + 1;
      }
      return -1;
    }
  }

  /** The first zombie child of i, with that pid, was cleared: its slot is unused, with no pid, parent or killed flag. */
  ghost predicate ReapedOne(procs: seq<Proc>, i: nat, pid: nat, after: seq<Proc>) {
    exists k :: 0 <= k < |procs| && procs[k].parent == At(i) && procs[k].state == ZOMBIE && pid == procs[k].pid
                && (forall j :: 0 <= j < k ==> !(procs[j].parent == At(i) && procs[j].state == ZOMBIE))
                && after == procs[k := procs[k].(state := UNUSED, pid := 0, parent := None, killed := false)]
  }

  /** Slot k was killed: marked, and awake if it slept; nothing else changed. */
  ghost predicate Struck(procs: seq<Proc>, k: nat, after: seq<Proc>)
    requires k < |procs|
  {
    && |after| == |procs| && (forall j :: 0 <= j < |procs| && j != k ==> after[j] == procs[j])
    && after[k].killed && after[k].state == (if procs[k].state == SLEEPING then RUNNABLE else procs[k].state)
    && after[k].pid == procs[k].pid && after[k].parent == procs[k].parent && after[k].chan == procs[k].chan
    && after[k].fork == procs[k].fork && after[k].inWait == procs[k].inWait
  }

  /** The machine's kill is the table's. */
  lemma KillStep(s: State, pid: nat) returns (k: nat)
    requires Enabled(s, Step.Kill(pid))
    ensures FirstPid(s.procs, pid, k) && Struck(s.procs, k, Do(s, Step.Kill(pid)).procs)
    ensures Do(s, Step.Kill(pid)) == s.(procs := Do(s, Step.Kill(pid)).procs)
  {
    k :| FirstPid(s.procs, pid, k) && Do(s, Step.Kill(pid)).procs == s.procs[k := Killed(s.procs[k])];
  }

  /** After any run, a kill leaves no process with that pid asleep: it is marked, and runnable if it slept. */
  lemma KillWakes(s0: State, steps: seq<Step>, pid: nat, k: nat)
    requires Init(s0) && Run(s0, steps) && Enabled(After(s0, steps), Step.Kill(pid))
    requires k < |After(s0, steps).procs| && After(s0, steps).procs[k].pid == pid && After(s0, steps).procs[k].state != UNUSED
    ensures var s := After(s0, steps);
            var q := Do(s, Step.Kill(pid)).procs[k];
            && q.killed && q.state != SLEEPING && (s.procs[k].state == SLEEPING ==> q.state == RUNNABLE)
            && (s.procs[k].state != SLEEPING ==> q.state == s.procs[k].state)
  {
    hide CpuInv, TableInv, WaitInv, Init, Run, Enabled, Do;
    var s := After(s0, steps);
    RunInv(s0, steps);
    var j := KillStep(s, pid);
    assert j <= k && s.procs[k].pid > 0;
  }

  /** A process that exists can be killed whenever the table's lock is free. */
  lemma KillFinds(s: State, k: nat)
    requires k < |s.procs| && s.lock == None
    ensures Enabled(s, Step.Kill(s.procs[k].pid))
  {
    var j := FirstWith(s.procs, k, 0);
  }

  lemma {:induction false} FirstWith(procs: seq<Proc>, k: nat, from: nat) returns (j: nat)
    requires from <= k < |procs| && forall i :: 0 <= i < from ==> procs[i].pid != procs[k].pid
    ensures FirstPid(procs, procs[k].pid, j)
    decreases k - from
  {
    if procs[from].pid == procs[k].pid { j := from; } else { j := FirstWith(procs, k, from + 1); }
  }

  // ----- exit's loop -----

  ghost predicate ZombieBelow(procs: seq<Proc>, i: nat, n: nat)
    requires n <= |procs|
  {
    exists k :: 0 <= k < n && procs[k].parent == At(i) && procs[k].state == ZOMBIE
  }

  /** The table after exit's loop has passed n slots. */
  ghost function AdoptedUpTo(procs: seq<Proc>, i: nat, init: nat, n: nat): (r: seq<Proc>)
    requires n <= |procs|
    ensures |r| == |procs|
  {
    var adopted := AdoptAll(procs[..n], i, init) + procs[n..];
    if ZombieBelow(procs, i, n) then WakeAll(adopted, ProcChan(init)) else adopted
  }

  lemma AdoptNone(procs: seq<Proc>, i: nat, init: nat)
    ensures AdoptedUpTo(procs, i, init, 0) == procs
  {
    assert AdoptAll(procs[..0], i, init) + procs[0..] == procs;
  }

  lemma AdoptNext(procs: seq<Proc>, i: nat, init: nat, n: nat)
    requires n < |procs|
    ensures var now, p := AdoptedUpTo(procs, i, init, n), AdoptedUpTo(procs, i, init, n)[n];
            AdoptedUpTo(procs, i, init, n + 1) ==
            if p.parent != At(i) then now
            else if p.state == ZOMBIE then WakeAll(now[n := p.(parent := At(init))], ProcChan(init))
            else now[n := p.(parent := At(init))]
  {
    var now, next := AdoptedUpTo(procs, i, init, n), AdoptedUpTo(procs, i, init, n + 1);
    assert ZombieBelow(procs, i, n + 1) <==> ZombieBelow(procs, i, n) || (procs[n].parent == At(i) && procs[n].state == ZOMBIE) by {
      if ZombieBelow(procs, i, n + 1) && !ZombieBelow(procs, i, n) {
        var k :| 0 <= k < n + 1 && procs[k].parent == At(i) && procs[k].state == ZOMBIE;
        assert k == n;
      }
    }
    var p := now[n];
    var expected := if p.parent != At(i) then now
                    else if p.state == ZOMBIE then WakeAll(now[n := p.(parent := At(init))], ProcChan(init))
                    else now[n := p.(parent := At(init))];
    forall k | 0 <= k < |procs| ensures next[k] == expected[k] {
    }
  }

  lemma ExitDone(start: seq<Proc>, woken: seq<Proc>, i: nat, init: nat)
    requires i < |start| && start[i].state == RUNNING
    requires woken == WakeAll(start, if start[i].parent.At? then ProcChan(start[i].parent.i) else NoChan)
    ensures var all := AdoptedUpTo(woken, i, init, |woken|);
            ExitTable(start, i, init) == all[i := all[i].(state := ZOMBIE)]
  {
    assert woken[..|woken|] == woken && AdoptAll(woken, i, init) + woken[|woken|..] == AdoptAll(woken, i, init);
    assert ZombieBelow(woken, i, |woken|) <==> HasZombieChild(start, i) by {
      if HasZombieChild(start, i) {
        var k :| 0 <= k < |start| && start[k].parent == At(i) && start[k].state == ZOMBIE;
        assert woken[k] == start[k];
      }
      if ZombieBelow(woken, i, |woken|) {
        var k :| 0 <= k < |woken| && woken[k].parent == At(i) && woken[k].state == ZOMBIE;
        assert start[k].state == ZOMBIE;
      }
    }
  }

  // ----- processes born killed -----

  /** No unused slot carries a killed flag, so allocproc hands out none. */
  ghost predicate Clean(procs: seq<Proc>) {
    forall k :: 0 <= k < |procs| && procs[k].state == UNUSED ==> !procs[k].killed
  }

  /** kill of a pid that only an unused slot still shows, or a fork given up after its embryo was killed. */
  ghost predicate Spoils(s: State, step: Step)
    requires Enabled(s, step)
  {
    match step
    case Kill(pid) => exists k: nat :: FirstPid(s.procs, pid, k) && s.procs[k].state == UNUSED
    case ForkFail(c) => s.procs[s.procs[s.cpus[c].i].fork.i].killed
    case _ => false
  }

  lemma KillClean(procs: seq<Proc>, k: nat)
    requires Clean(procs) && k < |procs|
    ensures Clean(procs[k := Killed(procs[k])]) <==> procs[k].state != UNUSED
  {
    var r := procs[k := Killed(procs[k])];
    assert r[k].killed;
  }

  /**
   A clean table stays clean under a step exactly when the step is not a spoiling one. A new
   process starts unkilled if and only if its slot was clean, because allocproc does not reset
   the flag.
   */
  lemma CleanUnlessSpoiled(s: State, step: Step)
    requires Inv(s) && Enabled(s, step) && Clean(s.procs)
    ensures Clean(Do(s, step).procs) <==> !Spoils(s, step)
  {
    if step.Kill? {
      KillStepClean(s, step.pid);
    } else if step.ForkFail? {
      FailClean(s, step.c);
    } else {
      PlainClean(s, step);
      hide Inv, Enabled, Do, Clean;
    }
  }

  lemma FailClean(s: State, c: nat)
    requires Inv(s) && Enabled(s, ForkFail(c)) && Clean(s.procs)
    ensures Clean(Do(s, ForkFail(c)).procs) <==> !Spoils(s, ForkFail(c))
  {
    ForkElsewhere(s.procs, s.init, s.cpus[c].i);
    hide CpuInv, TableInv, WaitInv, PidInv;
    var k := s.procs[s.cpus[c].i].fork.i;
    assert Do(s, ForkFail(c)).procs[k].killed == s.procs[k].killed;
  }

  lemma OwnClean(s: State, step: Step)
    requires Enabled(s, step) && Clean(s.procs) && (Own(step) || Scheduling(step) || step.WakeOther?)
    ensures Clean(Do(s, step).procs)
  {
    hide ExitTable, HasZombieChild, HasChild;
  }

  lemma ForkClean(s: State, step: Step)
    requires TableInv(s.procs, s.init) && Enabled(s, step) && Clean(s.procs) && InFork(step) && !step.ForkFail?
    ensures Clean(Do(s, step).procs)
  {
    if !step.ForkAlloc? { ForkElsewhere(s.procs, s.init, s.cpus[step.c].i); }
    hide TableInv, ExitTable, HasZombieChild, HasChild;
  }

  lemma PlainClean(s: State, step: Step)
    requires Inv(s) && Enabled(s, step) && Clean(s.procs) && !step.Kill? && !step.ForkFail?
    ensures Clean(Do(s, step).procs)
  {
    hide CpuInv, TableInv, WaitInv, PidInv, ExitTable, HasZombieChild, HasChild, Clean;
    if step.Exit? {
      ExitClean(s.procs, s.cpus[step.c].i, s.init);
    } else {
      hide Enabled, Do;
      if InFork(step) { ForkClean(s, step); } else { OwnClean(s, step); }
    }
  }

  lemma KillStepClean(s: State, pid: nat)
    requires Enabled(s, Step.Kill(pid)) && Clean(s.procs)
    ensures Clean(Do(s, Step.Kill(pid)).procs) <==> !Spoils(s, Step.Kill(pid))
  {
    var k: nat :| FirstPid(s.procs, pid, k) && Do(s, Step.Kill(pid)).procs == s.procs[k := Killed(s.procs[k])];
    KillClean(s.procs, k);
    forall j: nat | FirstPid(s.procs, pid, j) ensures j == k { FirstPidUnique(s.procs, pid, j, k); }
  }

  lemma ExitClean(procs: seq<Proc>, i: nat, init: nat)
    requires Clean(procs) && i < |procs| && procs[i].state == RUNNING
    ensures Clean(ExitTable(procs, i, init))
  {
    var r := ExitTable(procs, i, init);
    forall k | 0 <= k < |r| && r[k].state == UNUSED ensures !r[k].killed {
      ExitEntry(procs, i, init, k);
    }
  }

  /** kill(0) in a fresh system finds an unused slot, and reports success. */
  lemma KillZero(s: State)
    requires Init(s) && |s.procs| > 1
    ensures Enabled(s, Step.Kill(0)) && Spoils(s, Step.Kill(0))
  {
    var k := if s.init == 0 then 1 else 0;
    assert FirstPid(s.procs, 0, k);
  }

  lemma Extend(s0: State, steps: seq<Step>, e: Step)
    requires Run(s0, steps) && Enabled(After(s0, steps), e)
    ensures Run(s0, steps + [e]) && After(s0, steps + [e]) == Do(After(s0, steps), e)
  {
    assert (steps + [e])[..|steps|] == steps;
  }

  /** The first process runs on cpu 0. */
  lemma InitRuns(s0: State) returns (steps: seq<Step>)
    requires Init(s0) && |s0.cpus| > 0
    ensures Run(s0, steps) && After(s0, steps) == s0.(cpus := s0.cpus[0 := On(s0.init, false)], procs := s0.procs[s0.init := s0.procs[s0.init].(state := RUNNING)])
    ensures forall e :: e in steps ==> !e.Kill?
  {
    assert Run(s0, []) && After(s0, []) == s0;
    Extend(s0, [], SchedAcquire(0));
    Extend(s0, [SchedAcquire(0)], SchedPick(0, s0.init));
    var two := [SchedAcquire(0)] + [SchedPick(0, s0.init)];
    Extend(s0, two, Resume(0));
    steps := two + [Resume(0)];
  }

  /** kill(0) marks slot k, the lowest but init's. */
  lemma ZeroKilled(s: State, k: nat)
    requires s.lock == None && FirstPid(s.procs, 0, k)
    ensures Enabled(s, Step.Kill(0)) && Do(s, Step.Kill(0)) == s.(procs := s.procs[k := Killed(s.procs[k])])
  {
    var j: nat :| FirstPid(s.procs, 0, j) && Do(s, Step.Kill(0)) == s.(procs := s.procs[j := Killed(s.procs[j])]);
    FirstPidUnique(s.procs, 0, j, k);
  }

  lemma FirstPidUnique(procs: seq<Proc>, pid: nat, j: nat, k: nat)
    requires FirstPid(procs, pid, j) && FirstPid(procs, pid, k)
    ensures j == k
  {
  }

  /** Process i is on cpu 0 and can fork into slot k. */
  predicate MayFork(s: State, i: nat, k: nat) {
    && |s.cpus| > 0 && s.cpus[0] == On(i, false) && s.lock == None && i < |s.procs| && k < |s.procs| && i != k
    && s.procs[i].state == RUNNING && s.procs[i].fork == None && s.procs[k].state == UNUSED
  }

  /** fork, in its three steps, leaves the slot's killed flag alone. */
  lemma ForkWhole(s0: State, before: seq<Step>, i: nat, k: nat) returns (steps: seq<Step>)
    requires Run(s0, before) && MayFork(After(s0, before), i, k)
    ensures steps == before + [ForkAlloc(0, k)] + [ForkParent(0)] + [ForkPublish(0)] && Run(s0, steps)
    ensures k < |After(s0, steps).procs|
    ensures var s := After(s0, before);
            After(s0, steps).procs[k] == s.procs[k].(state := RUNNABLE, pid := s.nextpid, parent := At(i))
  {
    hide Run, After, ExitTable, HasZombieChild, HasChild;
    var s := After(s0, before);
    Extend(s0, before, ForkAlloc(0, k));
    steps := before + [ForkAlloc(0, k)];
    Extend(s0, steps, ForkParent(0));
    steps := steps + [ForkParent(0)];
    Extend(s0, steps, ForkPublish(0));
    steps := steps + [ForkPublish(0)];
  }

  /** The first process runs, and kill(0) has marked the slot its fork will take. */
  lemma ZeroKilledFirst(s0: State) returns (steps: seq<Step>, k: nat)
    requires Init(s0) && |s0.procs| > 1 && |s0.cpus| > 0
    ensures Run(s0, steps) && MayFork(After(s0, steps), s0.init, k)
    ensures After(s0, steps).procs[k].killed && After(s0, steps).nextpid == 2
    ensures forall e :: e in steps && e.Kill? ==> e.pid == 0
  {
    hide Run, After, Enabled, Do;
    k := if s0.init == 0 then 1 else 0;
    steps := InitRuns(s0);
    var s1 := After(s0, steps);
    assert s1.procs[k] == Proc(UNUSED, None, 0, NoChan, false, None, false);
    assert FirstPid(s1.procs, 0, k);
    ZeroKilled(s1, k);
    Extend(s0, steps, Step.Kill(0));
    steps := steps + [Step.Kill(0)];
  }

  /** A process that nobody killed, runnable for the first time with its killed flag set: the only kill was of pid 0, before its fork. */
  lemma BornKilled(s0: State) returns (steps: seq<Step>, k: nat)
    requires Init(s0) && |s0.procs| > 1 && |s0.cpus| > 0
    ensures Run(s0, steps) && k < |After(s0, steps).procs|
    ensures var p := After(s0, steps).procs[k]; p.state == RUNNABLE && p.killed && p.pid == 2 && p.parent == At(s0.init)
    ensures forall e :: e in steps && e.Kill? ==> e.pid == 0
  {
    hide Run, After, Init;
    steps, k := ZeroKilledFirst(s0);
    steps := ForkWhole(s0, steps, s0.init, k);
  }
}
