/**
 When log_write can panic, and when a commit can leave the log region. The size check counts lh.n
 against LOGSIZE and log.size - 1, before it looks for the block in the list and before the lock is
 taken.
 */
module LogPanic {
  import opened LogMachine
  import opened LogSafety
  import opened LogAtomicity

  /** A run in which every log_write is called by an operation that has logged fewer than maxOp distinct blocks. */
  ghost predicate FrugalRun(c: Config, s0: State, steps: seq<Step>)
    requires c.WellFormed()
    decreases |steps|
  {
    && Run(c, s0, steps)
    && (steps != [] ==>
          && FrugalRun(c, s0, steps[..|steps| - 1])
          && FrugalStep(c, After(c, s0, steps[..|steps| - 1]), steps[|steps| - 1]))
  }

  predicate FrugalStep(c: Config, s: State, step: Step) {
    step.LogCheck? && step.k < |s.ops| ==> |s.ops[step.k].spent| < c.maxOp
  }

  lemma FrugalExtend(c: Config, s0: State, steps: seq<Step>, step: Step)
    requires c.WellFormed() && FrugalRun(c, s0, steps)
    requires Enabled(c, After(c, s0, steps), step) && FrugalStep(c, After(c, s0, steps), step)
    ensures FrugalRun(c, s0, steps + [step])
    ensures After(c, s0, steps + [step]) == Do(c, After(c, s0, steps), step)
  {
    var all := steps + [step];
    assert all[..|all| - 1] == steps;
    RunExtend(c, s0, steps, step);
  }

  /** Whoever has passed the check had room for one more block. */
  ghost predicate Spare(c: Config, ops: seq<Op>) {
    forall k :: 0 <= k < |ops| && ops[k].pending.Checked? ==> |ops[k].spent| < c.maxOp
  }

  lemma SpareStep(c: Config, s: State, step: Step)
    requires c.WellFormed() && Phased(s) && Spare(c, s.ops) && Enabled(c, s, step) && FrugalStep(c, s, step)
    ensures Spare(c, Do(c, s, step).ops) && ThriftyStep(c, s, step)
  {
    hide Spare;
    match step
    case BeginOp => SpareMore(c, s.ops, s.nextId);
    case LogCheck(k, b) => SpareSet(c, s.ops, k, s.ops[k].(pending := Checked(b)));
    case LogAppend(k, data) =>
      SpareAt(c, s.ops, k);
      SpentUp(s.ops[k].spent, s.ops[k].pending.block);
      SpareSet(c, s.ops, k, Append(s, k, data).ops[k]);
    case EndOp(k) => SpareLess(c, s.ops, k);
    case CommitStep => assert s.ops == Do(c, s, step).ops;
    case Crash => SpareNone(c);
  }

  lemma SpareNone(c: Config)
    ensures Spare(c, [])
  {
  }

  lemma SpareAt(c: Config, ops: seq<Op>, k: nat)
    requires Spare(c, ops) && k < |ops| && ops[k].pending.Checked?
    ensures |ops[k].spent| < c.maxOp
  {
  }

  lemma SpareMore(c: Config, ops: seq<Op>, id: nat)
    requires Spare(c, ops)
    ensures Spare(c, ops + [Op(id, {}, Nothing, [])])
  {
  }

  lemma SpareSet(c: Config, ops: seq<Op>, k: nat, op: Op)
    requires Spare(c, ops) && k < |ops| && (op.pending.Checked? ==> |op.spent| < c.maxOp)
    ensures Spare(c, ops[k := op])
  {
  }

  lemma SpareLess(c: Config, ops: seq<Op>, k: nat)
    requires Spare(c, ops) && k < |ops|
    ensures Spare(c, ops[..k] + ops[k + 1..])
  {
    var rest := ops[..k] + ops[k + 1..];
    assert forall j :: 0 <= j < |rest| ==> rest[j] == ops[if j < k then j else j + 1];
  }

  /** A frugal run keeps to the budget. */
  lemma {:induction false} FrugalIsThrifty(c: Config, s0: State, steps: seq<Step>)
    requires c.WellFormed() && Init(c, s0) && FrugalRun(c, s0, steps)
    ensures ThriftyRun(c, s0, steps) && Spare(c, After(c, s0, steps).ops)
    decreases |steps|
  {
    if steps != [] {
      var n := |steps| - 1;
      FrugalIsThrifty(c, s0, steps[..n]);
      RunPhased(c, s0, steps[..n]);
      SpareStep(c, After(c, s0, steps[..n]), steps[n]);
    }
  }

  // ----- log.size > LOGSIZE: no frugal run panics -----

  lemma CheckPasses(c: Config, s: State, k: nat, b: nat)
    requires c.Fits() && SpaceInv(c, s.lh, s.ops) && Enabled(c, s, LogCheck(k, b)) && |s.ops[k].spent| < c.maxOp
    ensures Do(c, s, LogCheck(k, b)).phase != Panicked
  {
    SpaceRoom(c, s.lh, s.ops);
  }

  lemma {:induction false} FrugalNeverPanics(c: Config, s0: State, steps: seq<Step>)
    requires c.Fits() && Init(c, s0) && FrugalRun(c, s0, steps)
    ensures After(c, s0, steps).phase != Panicked
    ensures |After(c, s0, steps).lh| <= c.size - 1
    decreases |steps|
  {
    FrugalIsThrifty(c, s0, steps);
    LogSpace(c, s0, steps);
    if steps != [] {
      var n := |steps| - 1;
      FrugalNeverPanics(c, s0, steps[..n]);
      RunSound(c, s0, steps[..n]);
      var s := After(c, s0, steps[..n]);
      hide SpaceInv;
      PhasedStep(c, s, steps[n]);
      if steps[n].LogCheck? { CheckPasses(c, s, steps[n].k, steps[n].block); }
    }
  }

  // ----- filling the log -----

  /** The home block the j-th write of the run goes to. */
  function Target(c: Config, j: nat): nat {
    c.start + c.size + j
  }

  ghost predicate RoomForTargets(c: Config) {
    && c.WellFormed() && c.logSize == 3 * c.maxOp
    && 2 <= c.size
    && Target(c, c.logSize) <= c.nblocks
  }

  function ZeroBlock(c: Config): (b: Block)
    ensures |b| == c.words && forall i :: 0 <= i < |b| ==> b[i] == 0
  {
    seq(c.words, _ => 0)
  }

  function OneBlock(c: Config): (b: Block)
    ensures |b| == c.words && forall i :: 0 <= i < |b| ==> b[i] == 1
  {
    seq(c.words, _ => 1)
  }

  /** Nothing has been written or committed. */
  ghost predicate Blank(c: Config, s: State) {
    |s.disk| == c.nblocks && s.stable == s.disk && forall b :: 0 <= b < |s.disk| ==> s.disk[b] == ZeroBlock(c)
  }

  /** Three operations are open and have logged the first j targets; the first two can log more while two blocks are left. */
  ghost predicate Filled(c: Config, s: State, j: nat) {
    && s.phase == Idle && |s.ops| == 3 && |s.lh| == j && Blank(c, s)
    && (forall i :: 0 <= i < j ==> s.lh[i] == Target(c, i))
    && Unspent(s.ops, c.maxOp) == c.logSize - j
    && (forall k :: 0 <= k < 3 ==> Plain(c, s.lh, s.ops[k]))
    && (j + 2 <= c.logSize ==> |s.ops[0].spent| < c.maxOp && |s.ops[1].spent| < c.maxOp)
  }

  ghost predicate Plain(c: Config, lh: seq<nat>, op: Op) {
    && op.pending == Nothing && |op.spent| <= c.maxOp
    && forall b :: b in op.spent ==> b in lh
  }

  /** Some frugal run from a fresh file system leads to s. */
  ghost predicate Reached(c: Config, s: State)
    requires c.WellFormed()
  {
    exists s0: State, steps: seq<Step> :: Init(c, s0) && FrugalRun(c, s0, steps) && After(c, s0, steps) == s
  }

  lemma ReachStep(c: Config, s: State, step: Step)
    requires c.WellFormed() && Reached(c, s) && Enabled(c, s, step) && FrugalStep(c, s, step)
    ensures Reached(c, Do(c, s, step))
  {
    var s0: State, steps: seq<Step> :| Init(c, s0) && FrugalRun(c, s0, steps) && After(c, s0, steps) == s;
    FrugalExtend(c, s0, steps, step);
  }

  lemma ReachedSound(c: Config, s: State)
    requires c.WellFormed() && Reached(c, s)
    ensures Sound(c, s) && SpaceInv(c, s.lh, s.ops)
  {
    var s0: State, steps: seq<Step> :| Init(c, s0) && FrugalRun(c, s0, steps) && After(c, s0, steps) == s;
    FrugalIsThrifty(c, s0, steps);
    RunSound(c, s0, steps);
  }

  /** A new file system, before its first recovery. */
  lemma Booted(c: Config) returns (s: State)
    requires RoomForTargets(c)
    ensures Reached(c, s) && s.phase == RecoverRead && s.ops == [] && s.lh == [] && Blank(c, s)
  {
    var d: Disk := seq(c.nblocks, _ => ZeroBlock(c));
    s := State(d, map[], [], [], RecoverRead, [], [], d, map[], {}, 0, 0);
    assert Init(c, s) && FrugalRun(c, s, []) && After(c, s, []) == s;
  }

  /** One step of recovery with nothing to recover. */
  lemma RecoverBlank(c: Config, s: State) returns (t: State)
    requires RoomForTargets(c) && Reached(c, s) && s.ops == [] && s.lh == [] && Blank(c, s)
    requires s.phase == RecoverRead || s.phase == RecoverInstall(0) || s.phase == RecoverClear
    ensures Reached(c, t) && t.ops == [] && t.lh == [] && Blank(c, t)
    ensures t.phase == if s.phase == RecoverRead then RecoverInstall(0) else if s.phase == RecoverClear then Idle else RecoverClear
  {
    assert Encode(ZeroBlock(c), []) == ZeroBlock(c);
    ReachStep(c, s, CommitStep);
    hide Reached;
    t := Advance(c, s);
  }

  lemma Mounted(c: Config) returns (s: State)
    requires RoomForTargets(c)
    ensures Reached(c, s) && s.phase == Idle && s.ops == [] && s.lh == [] && Blank(c, s)
  {
    hide Reached, Blank, RoomForTargets;
    s := Booted(c);
    s := RecoverBlank(c, s);
    s := RecoverBlank(c, s);
    s := RecoverBlank(c, s);
  }

  lemma UnspentOfThree(ops: seq<Op>, maxOp: nat)
    requires |ops| == 3
    ensures Unspent(ops, maxOp) == 3 * maxOp - |ops[0].spent| - |ops[1].spent| - |ops[2].spent|
  {
    var two := ops[..2];
    var one := two[..1];
    assert one[..0] == [];
    assert Unspent(one, maxOp) == maxOp - |ops[0].spent|;
    assert Unspent(two, maxOp) == Unspent(one, maxOp) + maxOp - |two[1].spent|;
  }

  lemma BeginOne(c: Config, s: State) returns (t: State)
    requires RoomForTargets(c) && Reached(c, s) && s.phase == Idle && s.lh == [] && |s.ops| < 3
    ensures Reached(c, t) && t == s.(ops := s.ops + [Op(s.nextId, {}, Nothing, [])], nextId := s.nextId + 1)
  {
    UpToThree(|s.ops| + 1, c.maxOp);
    ReachStep(c, s, BeginOp);
    t := Do(c, s, BeginOp);
  }

  lemma UpToThree(n: nat, m: nat)
    requires n <= 3
    ensures n * m <= 3 * m
  {
  }

  lemma ThreeOpen(c: Config) returns (s: State)
    requires RoomForTargets(c)
    ensures Reached(c, s) && Filled(c, s, 0)
  {
    hide Reached;
    var m := Mounted(c);
    var s1 := BeginOne(c, m);
    var s2 := BeginOne(c, s1);
    s := BeginOne(c, s2);
    FreshFilled(c, s);
  }

  lemma FreshFilled(c: Config, s: State)
    requires RoomForTargets(c) && s.phase == Idle && s.lh == [] && |s.ops| == 3 && Blank(c, s)
    requires forall k :: 0 <= k < 3 ==> s.ops[k].spent == {} && s.ops[k].pending == Nothing
    ensures Filled(c, s, 0)
  {
    UnspentOfThree(s.ops, c.maxOp);
  }

  /** The size check of a log_write by operation k. */
  lemma CheckOne(c: Config, s: State, k: nat, b: nat) returns (t: State)
    requires c.WellFormed() && Reached(c, s) && s.phase == Idle && k < |s.ops| && c.Home(b)
    requires |s.lh| < c.logSize && |s.lh| < c.size - 1
    requires s.ops[k].pending == Nothing && |s.ops[k].spent| < c.maxOp
    ensures Reached(c, t) && t == s.(ops := s.ops[k := s.ops[k].(pending := Checked(b))])
  {
    ReachStep(c, s, LogCheck(k, b));
    t := Do(c, s, LogCheck(k, b));
  }

  /** The locked part of a log_write by operation k. */
  lemma AppendOne(c: Config, s: State, k: nat, data: Block) returns (t: State)
    requires c.WellFormed() && Reached(c, s) && s.phase == Idle && k < |s.ops| && s.ops[k].pending.Checked?
    requires |s.ops[k].spent| < c.maxOp && s.ops[k].pending.block !in s.lh && |data| == c.words
    ensures Reached(c, t) && t == Append(s, k, data) && t.lh == s.lh + [s.ops[k].pending.block]
  {
    SpentUp(s.ops[k].spent, s.ops[k].pending.block);
    ReachStep(c, s, LogAppend(k, data));
    t := Append(s, k, data);
  }

  lemma SpentUp(a: set<nat>, b: nat)
    ensures |a + {b}| <= |a| + 1
  {
    if b in a { assert a + {b} == a; }
  }

  lemma FillOne(c: Config, s: State, j: nat, k: nat) returns (t: State)
    requires RoomForTargets(c) && Reached(c, s) && Filled(c, s, j) && j < c.size - 1
    requires k < 3 && |s.ops[k].spent| < c.maxOp && (k < 2 && j + 3 <= c.logSize ==> |s.ops[k].spent| + 1 < c.maxOp)
    ensures Reached(c, t) && Filled(c, t, j + 1)
  {
    hide Reached, Unspent, Blank, Filled, Plain;
    FilledFacts(c, s, j, k);
    t := CheckOne(c, s, k, Target(c, j));
    t := AppendOne(c, t, k, ZeroBlock(c));
    FilledAfter(c, s, t, j, k);
  }

  lemma FilledFacts(c: Config, s: State, j: nat, k: nat)
    requires RoomForTargets(c) && Filled(c, s, j) && k < 3 && |s.ops[k].spent| < c.maxOp
    ensures s.phase == Idle && |s.ops| == 3 && |s.lh| == j && j < c.logSize
    ensures s.ops[k].pending == Nothing && Target(c, j) !in s.lh
  {
    hide Unspent;
    UnspentOfThree(s.ops, c.maxOp);
    assert forall i :: 0 <= i < 3 ==> Plain(c, s.lh, s.ops[i]);
  }

  lemma PlainAfter(c: Config, lh: seq<nat>, op: Op, b: nat, now: Op)
    requires Plain(c, lh, op)
    ensures Plain(c, lh + [b], op)
    ensures |op.spent| < c.maxOp && b !in lh && now.spent == op.spent + {b} && now.pending == Nothing ==>
              Plain(c, lh + [b], now) && |now.spent| == |op.spent| + 1
  {
  }

  lemma UnspentAfter(ops: seq<Op>, now: seq<Op>, maxOp: nat, k: nat)
    requires |ops| == 3 == |now| && k < 3 && forall i :: 0 <= i < 3 && i != k ==> now[i] == ops[i]
    requires |now[k].spent| == |ops[k].spent| + 1
    ensures Unspent(now, maxOp) == Unspent(ops, maxOp) - 1
  {
    hide Unspent;
    UnspentOfThree(ops, maxOp);
    UnspentOfThree(now, maxOp);
  }

  lemma FilledAfter(c: Config, s: State, t: State, j: nat, k: nat)
    requires RoomForTargets(c) && Filled(c, s, j) && k < 3
    requires |s.ops[k].spent| < c.maxOp && (k < 2 && j + 3 <= c.logSize ==> |s.ops[k].spent| + 1 < c.maxOp)
    requires t.phase == Idle && t.lh == s.lh + [Target(c, j)] && |t.ops| == 3 && t.disk == s.disk && t.stable == s.stable
    requires forall i :: 0 <= i < 3 && i != k ==> t.ops[i] == s.ops[i]
    requires t.ops[k].spent == s.ops[k].spent + {Target(c, j)} && t.ops[k].pending == Nothing
    ensures Filled(c, t, j + 1)
  {
    FilledFacts(c, s, j, k);
    hide Unspent, Plain, RoomForTargets;
    forall i | 0 <= i < 3 ensures Plain(c, t.lh, t.ops[i]) { PlainAfter(c, s.lh, s.ops[i], Target(c, j), t.ops[i]); }
    PlainAfter(c, s.lh, s.ops[k], Target(c, j), t.ops[k]);
    UnspentAfter(s.ops, t.ops, c.maxOp, k);
  }

  lemma {:induction false} FillUp(c: Config, j: nat) returns (s: State)
    requires RoomForTargets(c) && j <= c.size - 1 && j <= c.logSize
    ensures Reached(c, s) && Filled(c, s, j)
  {
    if j == 0 {
      s := ThreeOpen(c);
    } else {
      s := FillUp(c, j - 1);
      UnspentOfThree(s.ops, c.maxOp);
      assert forall k :: 0 <= k < 3 ==> Plain(c, s.lh, s.ops[k]);
      var k := if |s.ops[2].spent| < c.maxOp then 2
               else if |s.ops[0].spent| + 1 < c.maxOp then 0
               else if |s.ops[1].spent| + 1 < c.maxOp then 1
               else if |s.ops[0].spent| < c.maxOp then 0 else 1;
      s := FillOne(c, s, j - 1, k);
    }
  }

  // ----- log.size > LOGSIZE: an operation at its limit panics -----

  /** The log is full of the operations' own blocks; logging one of them again needs no room, but the check comes first. */
  lemma FullLogPanics(c: Config) returns (s: State, b: nat)
    requires RoomForTargets(c) && c.Fits()
    ensures Reached(c, s) && |s.ops| == 3 && b in s.ops[0].spent && |s.ops[0].spent| == c.maxOp
    ensures Enabled(c, s, LogCheck(0, b)) && Do(c, s, LogCheck(0, b)).phase == Panicked
  {
    s := FillUp(c, c.logSize);
    UnspentOfThree(s.ops, c.maxOp);
    assert forall k :: 0 <= k < 3 ==> Plain(c, s.lh, s.ops[k]);
    assert s.ops[0].spent != {};
    b :| b in s.ops[0].spent;
    ReachedSound(c, s);
    assert b in s.lh;
  }

  /**
   How many distinct blocks an operation may have logged and still call log_write safely: fewer than
   MAXOPBLOCKS, even where the call would log a block again.
   */
  lemma BudgetIsExact(c: Config, m: nat)
    requires RoomForTargets(c) && c.Fits() && m <= c.maxOp
    ensures m < c.maxOp <==>
            forall s: State, k: nat, b: nat :: Reached(c, s) && Enabled(c, s, LogCheck(k, b)) && |s.ops[k].spent| <= m ==>
              Do(c, s, LogCheck(k, b)).phase != Panicked
  {
    if m < c.maxOp {
      forall s: State, k: nat, b: nat | Reached(c, s) && Enabled(c, s, LogCheck(k, b)) && |s.ops[k].spent| <= m
        ensures Do(c, s, LogCheck(k, b)).phase != Panicked
      {
        ReachedSound(c, s);
        CheckPasses(c, s, k, b);
      }
    } else {
      var s, b := FullLogPanics(c);
    }
  }

  // ----- log.size <= LOGSIZE: a frugal run that panics, and one whose slots leave the region -----

  /** The log has one slot left and two operations are about to log a block each. */
  ghost predicate OneLeft(c: Config, s: State) {
    && s.phase == Idle && |s.ops| == 3 && |s.lh| == c.size - 2 && Blank(c, s)
    && (forall k :: 0 <= k < 3 ==> s.ops[k].pending == Nothing)
    && (forall k :: 0 <= k < 2 ==> |s.ops[k].spent| < c.maxOp)
    && Target(c, c.size - 2) !in s.lh && Target(c, c.size - 1) !in s.lh
  }

  lemma OneLeftReached(c: Config) returns (s: State)
    requires RoomForTargets(c) && c.size <= c.logSize
    ensures Reached(c, s) && OneLeft(c, s)
  {
    s := FillUp(c, c.size - 2);
    FilledLeavesOne(c, s);
  }

  lemma FilledLeavesOne(c: Config, s: State)
    requires RoomForTargets(c) && c.size <= c.logSize && Filled(c, s, c.size - 2)
    ensures OneLeft(c, s)
  {
    assert forall k :: 0 <= k < 3 ==> Plain(c, s.lh, s.ops[k]);
  }

  /** The first takes the slot, the second panics although it is within its budget. */
  lemma PanicReached(c: Config) returns (s: State)
    requires RoomForTargets(c) && c.size <= c.logSize
    ensures Reached(c, s) && s.phase == Panicked
  {
    s := OneLeftReached(c);
    s := CheckOne(c, s, 0, Target(c, c.size - 2));
    s := AppendOne(c, s, 0, ZeroBlock(c));
    ReachStep(c, s, LogCheck(1, Target(c, c.size - 1)));
    s := Do(c, s, LogCheck(1, Target(c, c.size - 1)));
  }

  /** Both pass the unlocked check before either appends: the second block gets a slot past the region. */
  lemma RaceReached(c: Config) returns (s: State)
    requires RoomForTargets(c) && c.size <= c.logSize
    ensures Reached(c, s) && |s.lh| == c.size && c.Slot(|s.lh| - 1) == c.start + c.size
    ensures s.phase == Idle && |s.ops| == 3 && Blank(c, s) && forall k :: 0 <= k < 3 ==> s.ops[k].pending == Nothing
    ensures s.lh[c.size - 1] in s.dirty && s.dirty[s.lh[c.size - 1]] == OneBlock(c)
  {
    hide Reached;
    s := OneLeftReached(c);
    s := CheckOne(c, s, 0, Target(c, c.size - 2));
    s := CheckOne(c, s, 1, Target(c, c.size - 1));
    s := AppendOne(c, s, 0, ZeroBlock(c));
    s := AppendOne(c, s, 1, OneBlock(c));
  }

  /** The operations end, and the last one starts the commit. */
  lemma AllEnd(c: Config, s: State) returns (t: State)
    requires c.WellFormed() && Reached(c, s) && s.phase == Idle && s.ops != [] && s.lh != []
    requires forall k :: 0 <= k < |s.ops| ==> s.ops[k].pending == Nothing
    ensures Reached(c, t) && t.phase == WriteLog(0) && t.ops == []
    ensures t.lh == s.lh && t.dirty == s.dirty && t.disk == s.disk && t.stable == s.stable
    decreases |s.ops|
  {
    ReachStep(c, s, EndOp(0));
    t := End(s, 0);
    if |s.ops| > 1 {
      hide Reached;
      t := AllEnd(c, t);
    }
  }

  lemma WriteOneOut(c: Config, s: State, i: nat) returns (t: State)
    requires c.WellFormed() && Reached(c, s) && s.phase == WriteLog(i) && i < |s.lh| && c.Slot(|s.lh|) <= c.nblocks
    ensures s.lh[i] in s.dirty && |s.disk| == c.nblocks
    ensures Reached(c, t) && t == s.(disk := s.disk[c.Slot(i) := s.dirty[s.lh[i]]],
                                     phase := if i + 1 < |s.lh| then WriteLog(i + 1) else WriteHead)
  {
    SoundFacts(c, s);
    SlotStep(c, s, i);
    hide Sound, FrugalRun, Reached, Do, Enabled;
    ReachStep(c, s, CommitStep);
    t := Do(c, s, CommitStep);
  }

  lemma SlotStep(c: Config, s: State, i: nat)
    requires c.WellFormed() && s.phase == WriteLog(i) && i < |s.lh| && c.Slot(|s.lh|) <= c.nblocks
    requires s.lh[i] in s.dirty && |s.disk| == c.nblocks
    ensures Enabled(c, s, CommitStep)
    ensures Do(c, s, CommitStep) == s.(disk := s.disk[c.Slot(i) := s.dirty[s.lh[i]]],
                                       phase := if i + 1 < |s.lh| then WriteLog(i + 1) else WriteHead)
  {
  }

  lemma SoundFacts(c: Config, s: State)
    requires c.WellFormed() && Reached(c, s)
    ensures |s.disk| == c.nblocks && (s.phase.WriteLog? ==> forall i :: 0 <= i < |s.lh| ==> s.lh[i] in s.dirty)
  {
    ReachedSound(c, s);
  }

  /** write_log from entry i on: the header stays and the last slot gets the last block logged. */
  lemma {:induction false} WriteOut(c: Config, s: State, i: nat) returns (t: State)
    requires c.WellFormed() && Reached(c, s) && s.phase == WriteLog(i) && i < |s.lh| && c.Slot(|s.lh|) <= c.nblocks
    ensures Reached(c, t) && t.stable == s.stable && |t.disk| == |s.disk| == c.nblocks
    ensures t.disk[c.start] == s.disk[c.start]
    ensures s.lh[|s.lh| - 1] in s.dirty && t.disk[c.Slot(|s.lh| - 1)] == s.dirty[s.lh[|s.lh| - 1]]
    decreases |s.lh| - i
  {
    hide Reached;
    t := WriteOneOut(c, s, i);
    if i + 1 < |s.lh| { t := WriteOut(c, t, i + 1); }
  }

  /** What a crash followed by a complete recovery leaves is what was committed. */
  ghost predicate Atomic(c: Config, s: State)
    requires c.WellFormed()
  {
    && HeaderOk(c, s.disk) && c.Slot(|Header(c, s.disk)|) <= c.nblocks
    && SameHome(c, Recover(c, s.disk), s.stable)
  }

  /** The commit of the race writes uncommitted contents over the home block that follows the region. */
  lemma ClobberReached(c: Config) returns (s: State)
    requires RoomForTargets(c) && c.size <= c.logSize
    ensures Reached(c, s) && !Atomic(c, s)
    ensures |s.disk| == |s.stable| == c.nblocks && c.Home(c.start + c.size) && c.start + c.size < c.nblocks
    ensures s.disk[c.start + c.size] == OneBlock(c) != s.stable[c.start + c.size]
  {
    hide Reached;
    var r := RaceReached(c);
    var e := AllEnd(c, r);
    s := WriteOut(c, e, 0);
    Clobbered(c, s, r.disk);
  }

  lemma Clobbered(c: Config, s: State, d: Disk)
    requires RoomForTargets(c) && |d| == c.nblocks && s.stable == d && forall b :: 0 <= b < |d| ==> d[b] == ZeroBlock(c)
    requires |s.disk| == c.nblocks && s.disk[c.start] == d[c.start] && s.disk[c.start + c.size] == OneBlock(c)
    ensures c.Home(c.start + c.size) && OneBlock(c) != s.stable[c.start + c.size] && !Atomic(c, s)
  {
    assert OneBlock(c)[0] != ZeroBlock(c)[0];
    if HeaderOk(c, s.disk) {
      assert Header(c, s.disk) == [];
    }
  }

  /**
   With LOGSIZE three times MAXOPBLOCKS: in the runs whose operations call log_write only with fewer than
   MAXOPBLOCKS distinct blocks logged, no call panics, no slot leaves the log region, and every crash
   recovers to the committed transactions, each exactly when the region is larger than LOGSIZE. A file
   system made with nlog equal to LOGSIZE has none of the three.
   */
  lemma LogWriteSafeIffFits(c: Config)
    requires RoomForTargets(c)
    ensures c.logSize < c.size <==> forall s: State :: Reached(c, s) ==> s.phase != Panicked
    ensures c.logSize < c.size <==> forall s: State :: Reached(c, s) ==> |s.lh| <= c.size - 1
    ensures c.logSize < c.size <==> forall s: State :: Reached(c, s) ==> Atomic(c, s)
  {
    if c.logSize < c.size {
      forall s: State | Reached(c, s) ensures s.phase != Panicked && |s.lh| <= c.size - 1 && Atomic(c, s) {
        var s0: State, steps: seq<Step> :| Init(c, s0) && FrugalRun(c, s0, steps) && After(c, s0, steps) == s;
        FrugalNeverPanics(c, s0, steps);
        FrugalIsThrifty(c, s0, steps);
        FitsIsSnug(c, s0, steps);
        CrashAtomicity(c, s0, steps);
        RunFacts(c, s0, steps);
      }
    } else {
      var s := PanicReached(c);
      var t := RaceReached(c);
      var u := ClobberReached(c);
    }
  }
}
