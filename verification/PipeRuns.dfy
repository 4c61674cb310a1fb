/**
 Any number of readers and writers on one pipe, in any interleaving of their stretches under
 the pipe's lock.
 */
module PipeRuns {
  import opened Common
  import opened Pipe

  /** A process outside the pipe, inside pipewrite with bytes left, or inside piperead. */
  datatype Proc = Away | Writer(rest: seq<byte>, asleep: bool) | Reader(n: nat, asleep: bool)

  datatype State = State(buf: seq<byte>, readopen: bool, writeopen: bool, procs: seq<Proc>,
                         accepted: seq<byte>, delivered: seq<byte>)

  datatype Step =
    | StartWrite(p: nat, bytes: seq<byte>)
    | StartRead(p: nat, n: nat)
    | RunWrite(p: nat, killed: bool)
    | RunRead(p: nat, killed: bool)
    | Kill(p: nat)
    | CloseEnd(writable: bool)

  predicate Enabled(s: State, step: Step) {
    match step
    case StartWrite(p, _) => p < |s.procs| && s.procs[p] == Away
    case StartRead(p, _) => p < |s.procs| && s.procs[p] == Away
    case RunWrite(p, _) => p < |s.procs| && s.procs[p].Writer? && !s.procs[p].asleep && |s.buf| <= PIPESIZE
    case RunRead(p, _) => p < |s.procs| && s.procs[p].Reader? && !s.procs[p].asleep
    case Kill(p) => p < |s.procs|
    case CloseEnd(_) => true
  }

  /** wakeup(&p->nread) and wakeup(&p->nwrite). */
  function Awake(q: Proc, readers: bool): Proc {
    match q
    case Away => Away
    case Writer(rest, asleep) => Writer(rest, asleep && readers)
    case Reader(n, asleep) => Reader(n, asleep && !readers)
  }

  function Wake(procs: seq<Proc>, readers: bool): (r: seq<Proc>)
    ensures |r| == |procs| && forall q :: 0 <= q < |procs| ==> r[q] == Awake(procs[q], readers)
  {
    seq(|procs|, q requires 0 <= q < |procs| => Awake(procs[q], readers))
  }

  function DoWrite(s: State, p: nat, killed: bool): State
    requires Enabled(s, RunWrite(p, killed))
  {
    var rest := s.procs[p].rest;
    var m := Room(s.buf, rest);
    var t := s.(buf := s.buf + rest[..m], accepted := s.accepted + rest[..m]);
    match WriteOutcome(s.buf, rest, s.readopen, killed)
    case Wrote => t.(procs := Wake(s.procs, true)[p := Away])
    case WriteBlocked => t.(procs := Wake(s.procs, true)[p := Writer(rest[m..], true)])
    // a killed writer returns without waking anybody
    case WriteFailed => t.(procs := s.procs[p := Away])
  }

  function DoRead(s: State, p: nat, killed: bool): State
    requires Enabled(s, RunRead(p, killed))
  {
    var n := s.procs[p].n;
    var m := Min(n, |s.buf|);
    match ReadOutcome(s.buf, s.writeopen, killed)
    case ReadDone => s.(buf := s.buf[m..], delivered := s.delivered + s.buf[..m], procs := Wake(s.procs, false)[p := Away])
    case ReadBlocked => s.(procs := s.procs[p := Reader(n, true)])
    case ReadFailed => s.(procs := s.procs[p := Away])
  }

  function Do(s: State, step: Step): State
    requires Enabled(s, step)
  {
    match step
    case StartWrite(p, bytes) => s.(procs := s.procs[p := Writer(bytes, false)])
    case StartRead(p, n) => s.(procs := s.procs[p := Reader(n, false)])
    case RunWrite(p, killed) => DoWrite(s, p, killed)
    case RunRead(p, killed) => DoRead(s, p, killed)
    case Kill(p) =>
      s.(procs := s.procs[p := match s.procs[p] case Away => Away case Writer(r, _) => Writer(r, false) case Reader(n, _) => Reader(n, false)])
    case CloseEnd(writable) =>
      if writable then s.(writeopen := false, procs := Wake(s.procs, true))
      else s.(readopen := false, procs := Wake(s.procs, false))
  }

  ghost predicate Init(s: State) {
    s == State([], true, true, seq(|s.procs|, _ => Away), [], [])
  }

  ghost predicate Run(s0: State, steps: seq<Step>)
    decreases |steps|, 0
  {
    steps == [] ||
    (Run(s0, steps[..|steps| - 1]) && Enabled(After(s0, steps[..|steps| - 1]), steps[|steps| - 1]))
  }

  ghost function After(s0: State, steps: seq<Step>): State
    requires Run(s0, steps)
    decreases |steps|, 1
  {
    if steps == [] then s0 else Do(After(s0, steps[..|steps| - 1]), steps[|steps| - 1])
  }

  // ----- the invariant -----

  ghost predicate Inv(s: State) {
    && |s.buf| <= PIPESIZE
    && s.accepted == s.delivered + s.buf
    && (forall p :: 0 <= p < |s.procs| && s.procs[p].Writer? && s.procs[p].asleep ==> |s.buf| == PIPESIZE)
    && NotBoth(s.procs)
    && EndsSeen(s)
  }

  /** Nobody sleeps for an end that is closed. */
  ghost predicate EndsSeen(s: State) {
    && (!s.writeopen ==> forall p :: 0 <= p < |s.procs| && s.procs[p].Reader? ==> !s.procs[p].asleep)
    && (!s.readopen ==> forall p :: 0 <= p < |s.procs| && s.procs[p].Writer? ==> !s.procs[p].asleep)
  }

  /** No reader sleeps while a writer does. */
  ghost predicate NotBoth(procs: seq<Proc>) {
    forall p, q :: 0 <= p < |procs| && 0 <= q < |procs| && procs[p].Writer? && procs[q].Reader? ==>
      !(procs[p].asleep && procs[q].asleep)
  }

  lemma WriteInv(s: State, p: nat, killed: bool)
    requires Inv(s) && Enabled(s, RunWrite(p, killed))
    ensures Inv(DoWrite(s, p, killed))
  {
  }

  lemma ReadInv(s: State, p: nat, killed: bool)
    requires Inv(s) && Enabled(s, RunRead(p, killed))
    ensures Inv(DoRead(s, p, killed))
  {
    var t := DoRead(s, p, killed);
    ReadConserves(s.delivered, s.buf, Min(s.procs[p].n, |s.buf|));
    hide Min;
    assert NotBoth(t.procs);
  }

  lemma ReadConserves(delivered: seq<byte>, buf: seq<byte>, m: nat)
    requires m <= |buf|
    ensures (delivered + buf[..m]) + buf[m..] == delivered + buf
  {
    assert buf[..m] + buf[m..] == buf;
  }

  lemma StepInv(s: State, step: Step)
    requires Inv(s) && Enabled(s, step)
    ensures Inv(Do(s, step))
  {
    match step
    case RunWrite(p, killed) => WriteInv(s, p, killed);
    case RunRead(p, killed) => ReadInv(s, p, killed);
    case _ =>
  }

  lemma {:induction false} RunInv(s0: State, steps: seq<Step>)
    requires Init(s0) && Run(s0, steps)
    ensures Inv(After(s0, steps))
    decreases |steps|
  {
    if steps != [] {
      RunInv(s0, steps[..|steps| - 1]);
      StepInv(After(s0, steps[..|steps| - 1]), steps[|steps| - 1]);
    }
  }

  // ----- main results -----

  /** What readers got is what writers put in, in order, up to the bytes still in the buffer; the buffer never overflows. */
  lemma Fifo(s0: State, steps: seq<Step>)
    requires Init(s0) && Run(s0, steps)
    ensures After(s0, steps).delivered <= After(s0, steps).accepted
    ensures |After(s0, steps).accepted| - |After(s0, steps).delivered| <= PIPESIZE
  {
    RunInv(s0, steps);
  }

  /** With the lock free, a reader and a writer are never both asleep. */
  lemma NeverBothAsleep(s0: State, steps: seq<Step>, p: nat, q: nat)
    requires Init(s0) && Run(s0, steps)
    requires var procs := After(s0, steps).procs; p < |procs| && q < |procs| && procs[p].Writer? && procs[q].Reader?
    ensures var procs := After(s0, steps).procs; !(procs[p].asleep && procs[q].asleep)
  {
    RunInv(s0, steps);
  }

  /**
   The end of the stream. Once the write end is closed no reader is asleep, and a reader that runs returns at
   once, with the bytes it asked for or all that are left, and none when none are.
   */
  lemma ReadersSeeTheEnd(s0: State, steps: seq<Step>, p: nat, killed: bool)
    requires Init(s0) && Run(s0, steps) && !After(s0, steps).writeopen
    requires p < |After(s0, steps).procs| && After(s0, steps).procs[p].Reader?
    ensures var s := After(s0, steps);
            && Enabled(s, RunRead(p, killed))
            && var t, n := Do(s, RunRead(p, killed)), s.procs[p].n;
            && t.procs[p] == Away
            && t.delivered == s.delivered + s.buf[..if n <= |s.buf| then n else |s.buf|]
            && t.buf == s.buf[if n <= |s.buf| then n else |s.buf|..]
  {
    RunInv(s0, steps);
  }

  /**
   Once the read end is closed no writer is asleep, and a writer that runs returns at once: with all its bytes
   stored where they fit, and otherwise with the pipe full.
   */
  lemma WritersSeeTheEnd(s0: State, steps: seq<Step>, p: nat, killed: bool)
    requires Init(s0) && Run(s0, steps) && !After(s0, steps).readopen
    requires p < |After(s0, steps).procs| && After(s0, steps).procs[p].Writer?
    ensures var s := After(s0, steps);
            && Enabled(s, RunWrite(p, killed))
            && var t, rest := Do(s, RunWrite(p, killed)), s.procs[p].rest;
            && t.procs[p] == Away
            && if |s.buf| + |rest| <= PIPESIZE then t.buf == s.buf + rest else |t.buf| == PIPESIZE && s.buf <= t.buf <= s.buf + rest
  {
    RunInv(s0, steps);
    var s := After(s0, steps);
    var rest := s.procs[p].rest;
    var m := Room(s.buf, rest);
    assert m == |rest| ==> rest[..m] == rest;
  }

  /** Closing an end is for good, and a process that is killed is not asleep. */
  lemma CloseIsFinal(s: State, step: Step)
    requires Enabled(s, step)
    ensures var t := Do(s, step);
            && (t.writeopen <==> s.writeopen && step != CloseEnd(true))
            && (t.readopen <==> s.readopen && step != CloseEnd(false))
            && (step.Kill? && t.procs[step.p] != Away ==> !t.procs[step.p].asleep)
  {
  }

  /**
   A process falls asleep exactly when it reads an empty pipe that can still be written, or has more to write than
   fits a pipe that can still be read, and is not killed.
   */
  lemma FallsAsleep(s: State, step: Step, p: nat)
    requires Enabled(s, step) && p < |s.procs| && |s.buf| <= PIPESIZE
    requires s.procs[p] == Away || !s.procs[p].asleep
    ensures var q := Do(s, step).procs[p];
            q != Away && q.asleep <==>
            (step == RunRead(p, false) && s.buf == [] && s.writeopen) ||
            (step == RunWrite(p, false) && |s.buf| + |s.procs[p].rest| > PIPESIZE && s.readopen)
  {
  }

  /**
   A sleeping reader does not mean an empty pipe: a writer that fills the pipe and is killed
   there returns without a wakeup.
   */
  lemma SleepingReaderFullPipe(bytes: seq<byte>) returns (s0: State, steps: seq<Step>)
    requires |bytes| == PIPESIZE + 1
    ensures Init(s0) && Run(s0, steps)
    ensures var s := After(s0, steps); s.procs == [Reader(1, true), Away] && |s.buf| == PIPESIZE
  {
    s0 := State([], true, true, [Away, Away], [], []);
    assert s0.procs == seq(2, _ => Away);
    assert Run(s0, []) && After(s0, []) == s0;
    Extend(s0, [], StartRead(0, 1));
    Extend(s0, [StartRead(0, 1)], RunRead(0, false));
    var two := [StartRead(0, 1)] + [RunRead(0, false)];
    Extend(s0, two, StartWrite(1, bytes));
    Extend(s0, two + [StartWrite(1, bytes)], RunWrite(1, true));
    steps := two + [StartWrite(1, bytes)] + [RunWrite(1, true)];
  }

  lemma Extend(s0: State, steps: seq<Step>, e: Step)
    requires Run(s0, steps) && Enabled(After(s0, steps), e)
    ensures Run(s0, steps + [e]) && After(s0, steps + [e]) == Do(After(s0, steps), e)
  {
    assert (steps + [e])[..|steps|] == steps;
  }

  ghost predicate ReaderAsleep(procs: seq<Proc>) {
    exists q :: 0 <= q < |procs| && procs[q].Reader? && procs[q].asleep
  }

  /** Readers sleep on an empty pipe only. */
  ghost predicate SleepOnEmpty(s: State) {
    ReaderAsleep(s.procs) ==> s.buf == []
  }

  /** A writer gives up with bytes left, killed or without readers' end, while a reader sleeps. */
  ghost predicate Strands(s: State, step: Step)
    requires Enabled(s, step)
  {
    step.RunWrite? && |s.buf| + |s.procs[step.p].rest| > PIPESIZE && (step.killed || !s.readopen) && ReaderAsleep(s.procs)
  }

  lemma WriteStrands(s: State, p: nat, killed: bool)
    requires Inv(s) && Enabled(s, RunWrite(p, killed)) && SleepOnEmpty(s)
    ensures SleepOnEmpty(DoWrite(s, p, killed)) <==> !Strands(s, RunWrite(p, killed))
  {
    var t := DoWrite(s, p, killed);
    if WriteOutcome(s.buf, s.procs[p].rest, s.readopen, killed) == WriteFailed {
      assert |t.buf| == PIPESIZE;
      assert forall q :: 0 <= q < |s.procs| && q != p ==> t.procs[q] == s.procs[q];
      hide DoWrite, Inv;
    } else {
      assert forall q :: 0 <= q < |s.procs| && q != p ==> t.procs[q] == Awake(s.procs[q], true);
      hide DoWrite, Inv;
    }
  }

  lemma ReadStrandsNone(s: State, p: nat, killed: bool)
    requires Enabled(s, RunRead(p, killed)) && SleepOnEmpty(s)
    ensures SleepOnEmpty(DoRead(s, p, killed))
  {
    var t := DoRead(s, p, killed);
    if ReadOutcome(s.buf, s.writeopen, killed) == ReadDone && ReaderAsleep(t.procs) {
      var q :| 0 <= q < |t.procs| && t.procs[q].Reader? && t.procs[q].asleep;
      assert s.procs[q].Reader? && s.procs[q].asleep;
    } else if ReadOutcome(s.buf, s.writeopen, killed) == ReadFailed {
      assert s.buf == [];
    }
  }

  lemma OthersStrandNone(s: State, step: Step)
    requires Enabled(s, step) && SleepOnEmpty(s) && !step.RunWrite? && !step.RunRead?
    ensures SleepOnEmpty(Do(s, step))
  {
    var t := Do(s, step);
    assert t.buf == s.buf;
    if ReaderAsleep(t.procs) {
      var q :| 0 <= q < |t.procs| && t.procs[q].Reader? && t.procs[q].asleep;
      assert s.procs[q].Reader? && s.procs[q].asleep;
    }
  }

  /** That is the one kind of step after which a reader can be asleep on a pipe that is not empty. */
  lemma SleepOnEmptyUnlessStranded(s: State, step: Step)
    requires Inv(s) && Enabled(s, step) && SleepOnEmpty(s)
    ensures SleepOnEmpty(Do(s, step)) <==> !Strands(s, step)
  {
    hide Inv, SleepOnEmpty, Enabled, DoRead, DoWrite, ReaderAsleep;
    match step
    case RunWrite(p, killed) => WriteStrands(s, p, killed);
    case RunRead(p, killed) => ReadStrandsNone(s, p, killed);
    case _ => OthersStrandNone(s, step);
  }
}
