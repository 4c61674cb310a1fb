/**
 Sleeping locks over sleep and wakeup, for any number of processes. Each step is one access
 to shared state; the steps of all processes interleave freely.
 */
module SleepLock {

  /** Where a process is in acquiresleep, sleep, releasesleep or wakeup. */
  datatype Pc =
    | Out            // not using the lock
    | Acquire        // acquiresleep: about to take the inner spinlock
    | Test           // inner held: about to test `locked`
    | SleepEnter     // sleep: inner held, about to take ptable.lock
    | DropInner      // both held, about to release the inner spinlock
    | SetSleeping    // ptable.lock held, about to become SLEEPING
    | Switching      // SLEEPING, its cpu still holds ptable.lock
    | Asleep         // SLEEPING, ptable.lock given up by the scheduler
    | Woken          // RUNNABLE, to be picked by the scheduler
    | Resumed        // running again, ptable.lock held since the scheduler took it
    | Retake         // about to take the inner spinlock again
    | Take           // inner held and `locked` was clear: about to set it
    | DropTaken      // set, about to release the inner spinlock
    | Critical       // between acquiresleep and releasesleep
    | Release        // releasesleep: about to take the inner spinlock
    | Clear          // inner held: about to clear `locked`
    | WakeEnter      // wakeup: inner held, about to take ptable.lock
    | WakeAll        // both held: about to wake the sleepers
    | WakeLeave      // both held: about to release ptable.lock
    | DropCleared    // about to release the inner spinlock

  datatype Owner = Free | By(p: nat)

  /** The inner spinlock, ptable.lock, the fields `locked` and `pid`, and every process. */
  datatype State = State(inner: Owner, ptable: Owner, locked: bool, pid: Owner, pcs: seq<Pc>)

  datatype Step = Move(p: nat) | Kill(p: nat)

  predicate HoldsInner(pc: Pc) {
    pc in {Test, SleepEnter, DropInner, Take, DropTaken, Clear, WakeEnter, WakeAll, WakeLeave, DropCleared}
  }

  predicate HoldsPtable(pc: Pc) {
    pc in {DropInner, SetSleeping, Switching, Resumed, WakeAll, WakeLeave}
  }

  /** Between setting `locked` and clearing it. */
  predicate HoldsLock(pc: Pc) {
    pc in {DropTaken, Critical, Release, Clear}
  }

  /** Asleep on the lock, or past the point where only a wakeup can bring it back. */
  predicate Waiting(pc: Pc) {
    pc in {SetSleeping, Switching, Asleep}
  }

  predicate HoldsSome(pc: Pc) {
    HoldsInner(pc) || HoldsPtable(pc) || HoldsLock(pc)
  }

  predicate Enabled(s: State, step: Step) {
    match step
    case Kill(p) => p < |s.pcs| && s.ptable == Free
    case Move(p) =>
      && p < |s.pcs|
      && match s.pcs[p]
         case Acquire | Retake | Release => s.inner == Free
         case SleepEnter | WakeEnter => s.ptable == Free
         case Woken => s.ptable == Free
         case Asleep => false
         case _ => true
  }

  /** wakeup1: every process asleep on the lock becomes RUNNABLE. */
  function Wake(pcs: seq<Pc>): (r: seq<Pc>)
    ensures |r| == |pcs|
    ensures forall q :: 0 <= q < |pcs| ==> r[q] == if pcs[q] == Asleep then Woken else pcs[q]
  {
    seq(|pcs|, q requires 0 <= q < |pcs| => if pcs[q] == Asleep then Woken else pcs[q])
  }

  function Do(s: State, step: Step): State
    requires Enabled(s, step)
  {
    match step
    // kill: under ptable.lock, a sleeping process is made RUNNABLE
    case Kill(p) => if s.pcs[p] == Asleep then s.(pcs := s.pcs[p := Woken]) else s
    case Move(p) =>
      match s.pcs[p]
      case Out => s.(pcs := s.pcs[p := Acquire])
      case Acquire => s.(inner := By(p), pcs := s.pcs[p := Test])
      case Test => s.(pcs := s.pcs[p := if s.locked then SleepEnter else Take])
      case SleepEnter => s.(ptable := By(p), pcs := s.pcs[p := DropInner])
      case DropInner => s.(inner := Free, pcs := s.pcs[p := SetSleeping])
      case SetSleeping => s.(pcs := s.pcs[p := Switching])
      case Switching => s.(ptable := Free, pcs := s.pcs[p := Asleep])
      case Asleep => s
      case Woken => s.(ptable := By(p), pcs := s.pcs[p := Resumed])
      case Resumed => s.(ptable := Free, pcs := s.pcs[p := Retake])
      case Retake => s.(inner := By(p), pcs := s.pcs[p := Test])
      case Take => s.(locked := true, pid := By(p), pcs := s.pcs[p := DropTaken])
      case DropTaken => s.(inner := Free, pcs := s.pcs[p := Critical])
      case Critical => s.(pcs := s.pcs[p := Release])
      case Release => s.(inner := By(p), pcs := s.pcs[p := Clear])
      case Clear => s.(locked := false, pid := Free, pcs := s.pcs[p := WakeEnter])
      case WakeEnter => s.(ptable := By(p), pcs := s.pcs[p := WakeAll])
      case WakeAll => s.(pcs := Wake(s.pcs)[p := WakeLeave])
      case WakeLeave => s.(ptable := Free, pcs := s.pcs[p := DropCleared])
      case DropCleared => s.(inner := Free, pcs := s.pcs[p := Out])
  }

  /** initsleeplock, before any process uses the lock. */
  ghost predicate Init(s: State) {
    s == State(Free, Free, false, Free, seq(|s.pcs|, _ => Out))
  }

  ghost predicate Run(s0: State, steps: seq<Step>)
    decreases |steps|, 0
  {
    steps == [] ||
    (Run(s0, steps[..|steps| - 1]) && Enabled(After(s0, steps[..|steps| - 1]), steps[|steps| - 1]))
  }

  ghost function After(s0: State, steps: seq<Step>): State
    requires Run(s0, steps)
    decreases |steps|, 1
  {
    if steps == [] then s0 else Do(After(s0, steps[..|steps| - 1]), steps[|steps| - 1])
  }

  // ----- the invariant -----

  /** A spinlock is held by exactly the process whose pc says so. */
  ghost predicate SpinInv(s: State) {
    InnerInv(s) && PtableInv(s)
  }

  ghost predicate InnerInv(s: State) {
    && (forall p :: 0 <= p < |s.pcs| ==> (HoldsInner(s.pcs[p]) <==> s.inner == By(p)))
    && (s.inner.By? ==> s.inner.p < |s.pcs|)
  }

  ghost predicate PtableInv(s: State) {
    && (forall p :: 0 <= p < |s.pcs| ==> (HoldsPtable(s.pcs[p]) <==> s.ptable == By(p)))
    && (s.ptable.By? ==> s.ptable.p < |s.pcs|)
  }

  /** `locked` and `pid` name the one process that holds the lock. */
  ghost predicate LockInv(s: State) {
    && (forall p :: 0 <= p < |s.pcs| ==> (HoldsLock(s.pcs[p]) <==> s.pid == By(p)))
    && (s.locked <==> s.pid.By?)
    && (s.pid.By? ==> s.pid.p < |s.pcs|)
    && (forall p :: 0 <= p < |s.pcs| && s.pcs[p] == Take ==> !s.locked)
  }

  /** Someone waits only while the lock is held, or while its releaser has yet to wake the sleepers. */
  ghost predicate WakeInv(s: State) {
    && (forall p :: 0 <= p < |s.pcs| && s.pcs[p] in {SleepEnter, DropInner} ==> s.locked)
    && (forall p :: 0 <= p < |s.pcs| && Waiting(s.pcs[p]) ==>
          s.locked || (s.inner.By? && s.inner.p < |s.pcs| && s.pcs[s.inner.p] in {WakeEnter, WakeAll}))
  }

  ghost predicate Inv(s: State) {
    SpinInv(s) && LockInv(s) && WakeInv(s)
  }

  lemma StepInner(s: State, step: Step)
    requires InnerInv(s) && Enabled(s, step)
    ensures InnerInv(Do(s, step))
  {
  }

  lemma StepPtable(s: State, step: Step)
    requires PtableInv(s) && Enabled(s, step)
    ensures PtableInv(Do(s, step))
  {
  }

  lemma StepLock(s: State, step: Step)
    requires Inv(s) && Enabled(s, step)
    ensures LockInv(Do(s, step))
  {
  }

  lemma StepWake(s: State, step: Step)
    requires Inv(s) && Enabled(s, step)
    ensures WakeInv(Do(s, step))
  {
  }

  lemma {:induction false} RunInv(s0: State, steps: seq<Step>)
    requires Init(s0) && Run(s0, steps)
    ensures Inv(After(s0, steps))
    decreases |steps|
  {
    if steps != [] {
      var n := |steps| - 1;
      RunInv(s0, steps[..n]);
      var s := After(s0, steps[..n]);
      StepInner(s, steps[n]);
      StepPtable(s, steps[n]);
      StepLock(s, steps[n]);
      StepWake(s, steps[n]);
    }
  }

  // ----- main results -----

  /** At most one process is ever between acquiresleep and releasesleep. */
  lemma MutualExclusion(s0: State, steps: seq<Step>, p: nat, q: nat)
    requires Init(s0) && Run(s0, steps)
    requires p < |After(s0, steps).pcs| && q < |After(s0, steps).pcs|
    requires HoldsLock(After(s0, steps).pcs[p]) && HoldsLock(After(s0, steps).pcs[q])
    ensures p == q
  {
    RunInv(s0, steps);
  }

  /** No wakeup is lost: with the inner spinlock free and the lock not held, nobody sleeps on it or is about to. */
  lemma NoLostWakeup(s0: State, steps: seq<Step>, p: nat)
    requires Init(s0) && Run(s0, steps)
    requires After(s0, steps).inner == Free && !After(s0, steps).locked && p < |After(s0, steps).pcs|
    ensures !Waiting(After(s0, steps).pcs[p])
  {
    RunInv(s0, steps);
  }

  /** holdingsleep answers yes to the holder, and only to it. */
  lemma HoldingSleep(s0: State, steps: seq<Step>, p: nat)
    requires Init(s0) && Run(s0, steps) && p < |After(s0, steps).pcs|
    ensures var s := After(s0, steps); s.locked && s.pid == By(p) <==> HoldsLock(s.pcs[p])
  {
    RunInv(s0, steps);
  }

  /** Nobody is stuck for good: if some process waits, another one that holds a lock can move. */
  lemma SleepersHaveAMover(s0: State, steps: seq<Step>, p: nat)
    requires Init(s0) && Run(s0, steps) && p < |After(s0, steps).pcs| && After(s0, steps).pcs[p] == Asleep
    ensures exists q :: 0 <= q < |After(s0, steps).pcs| && Enabled(After(s0, steps), Move(q)) && HoldsSome(After(s0, steps).pcs[q])
  {
    RunInv(s0, steps);
    var s := After(s0, steps);
    var q := if s.ptable.By? then s.ptable.p else if s.inner.By? then s.inner.p else s.pid.p;
    assert Enabled(s, Move(q));
  }
}
