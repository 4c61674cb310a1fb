/**
 Crash atomicity and log space, for every run of the log machine.
 */
module LogSafety {
  import opened Common
  import opened LogMachine

  // ----- the disk is always recoverable -----

  /** The committed contents can be rebuilt: a named block is in its slot, any other is in place. */
  ghost predicate Recoverable(c: Config, d: Disk, stable: Disk)
    requires c.WellFormed()
  {
    && HeaderOk(c, d) && |Header(c, d)| < c.size && |stable| == c.nblocks
    && (forall j :: 0 <= j < |Header(c, d)| ==> d[c.Slot(j)] == stable[Header(c, d)[j]])
    && forall b :: 0 <= b < |d| && c.Home(b) && b !in Header(c, d) ==> d[b] == stable[b]
  }

  lemma {:induction false} InstallRestores(c: Config, d: Disk, lh: seq<nat>, i: nat, stable: Disk)
    requires c.WellFormed() && |d| == |stable| == c.nblocks && i <= |lh| < c.size
    requires forall j :: 0 <= j < |lh| ==> lh[j] < c.nblocks && c.Home(lh[j])
    requires forall j :: 0 <= j < |lh| ==> d[c.Slot(j)] == stable[lh[j]]
    requires forall b :: 0 <= b < |d| && c.Home(b) && (forall j :: i <= j < |lh| ==> lh[j] != b) ==> d[b] == stable[b]
    ensures SameHome(c, InstallFrom(c, d, lh, i), stable)
    ensures forall b :: 0 <= b < |d| && !c.Home(b) ==> InstallFrom(c, d, lh, i)[b] == d[b]
    decreases |lh| - i
  {
    if i < |lh| {
      var e := d[lh[i] := d[c.Slot(i)]];
      forall b | 0 <= b < |e| && c.Home(b) && (forall j :: i + 1 <= j < |lh| ==> lh[j] != b)
        ensures e[b] == stable[b]
      {
        if b != lh[i] { assert forall j :: i <= j < |lh| ==> lh[j] != b; }
      }
      InstallRestores(c, e, lh, i + 1, stable);
    }
  }

  /** Recovery run to its end on a recoverable disk rebuilds exactly the committed contents. */
  lemma RecoverRestores(c: Config, d: Disk, stable: Disk)
    requires c.WellFormed() && Recoverable(c, d, stable)
    ensures SameHome(c, Recover(c, d), stable)
    ensures HeaderOk(c, Recover(c, d)) && Header(c, Recover(c, d)) == []
  {
    var h := Header(c, d);
    InstallRestores(c, d, h, 0, stable);
    InstallKeepsSizes(c, d, h, 0);
    var e := InstallFrom(c, d, h, 0);
    DecodeEncode(e[c.start], []);
  }

  lemma {:induction false} InstallKeepsSizes(c: Config, d: Disk, lh: seq<nat>, i: nat)
    requires i <= |lh| && c.Slot(|lh|) <= |d|
    requires forall j :: 0 <= j < |lh| ==> lh[j] < |d|
    requires forall b :: 0 <= b < |d| ==> |d[b]| == c.words
    ensures forall b :: 0 <= b < |d| ==> |InstallFrom(c, d, lh, i)[b]| == c.words
    decreases |lh| - i
  {
    if i < |lh| { InstallKeepsSizes(c, d[lh[i] := d[c.Slot(i)]], lh, i + 1); }
  }

  // ----- memory and disk agree on the open transaction -----

  /** What the open transaction means: committed contents overlaid with the pinned buffers. */
  ghost predicate Overlay(c: Config, stable: Disk, group: seq<Rec>, dirty: map<nat, Block>, lh: seq<nat>) {
    && |stable| == c.nblocks
    && (forall b :: 0 <= b < c.nblocks && c.Home(b) ==>
          ApplyRecs(stable, group)[b] == if b in dirty then dirty[b] else stable[b])
    && (forall i :: 0 <= i < |lh| ==> lh[i] in dirty && c.Home(lh[i]))
    && (forall b :: b in dirty ==> b in lh && |dirty[b]| == c.words)
    && (lh == [] ==> group == [])
  }

  ghost predicate SlotsFilled(c: Config, d: Disk, dirty: map<nat, Block>, lh: seq<nat>, i: nat)
    requires c.WellFormed()
  {
    && i <= |lh| < c.size && |lh| <= c.logSize && |d| == c.nblocks
    && forall j :: 0 <= j < i ==> lh[j] in dirty && d[c.Slot(j)] == dirty[lh[j]]
  }

  ghost predicate Installed(c: Config, d: Disk, stable: Disk, lh: seq<nat>, i: nat)
    requires c.WellFormed()
  {
    && HeaderOk(c, d) && Header(c, d) == lh && |stable| == c.nblocks
    && i <= |lh|
    && forall j :: 0 <= j < i ==> d[lh[j]] == stable[lh[j]]
  }

  /** Only blocks still to be installed are pinned. */
  ghost predicate Left(lh: seq<nat>, dirty: map<nat, Block>, i: nat) {
    forall b :: b in dirty ==> exists j :: i <= j < |lh| && lh[j] == b
  }

  ghost predicate Quiet(s: State) {
    s.ops == [] && s.group == []
  }

  ghost predicate PhaseInv(c: Config, s: State)
    requires c.WellFormed() && HeaderOk(c, s.disk)
  {
    match s.phase
    case Idle | Panicked => Header(c, s.disk) == [] && Overlay(c, s.stable, s.group, s.dirty, s.lh)
    case WriteLog(i) => Header(c, s.disk) == [] && Overlay(c, s.stable, s.group, s.dirty, s.lh) && s.ops == [] && i < |s.lh| && SlotsFilled(c, s.disk, s.dirty, s.lh, i)
    case WriteHead => Header(c, s.disk) == [] && Overlay(c, s.stable, s.group, s.dirty, s.lh) && s.ops == [] && 0 < |s.lh| && SlotsFilled(c, s.disk, s.dirty, s.lh, |s.lh|)
    case Install(i) =>
      && Quiet(s) && i < |s.lh| && Installed(c, s.disk, s.stable, s.lh, i)
      && Left(s.lh, s.dirty, i)
    case ClearHead => Quiet(s) && Installed(c, s.disk, s.stable, s.lh, |s.lh|) && s.dirty == map[]
    case Done => Quiet(s) && s.lh == [] && Header(c, s.disk) == [] && s.dirty == map[]
    case RecoverRead => Quiet(s) && s.lh == [] && s.dirty == map[]
    case RecoverInstall(i) => Quiet(s) && Installed(c, s.disk, s.stable, s.lh, i) && s.dirty == map[]
    case RecoverClear => Quiet(s) && Installed(c, s.disk, s.stable, s.lh, |s.lh|) && s.dirty == map[]
  }

  // ----- log space -----

  function Unspent(ops: seq<Op>, maxOp: nat): (r: int) {
    if ops == [] then 0
    else Unspent(ops[..|ops| - 1], maxOp) + maxOp - |ops[|ops| - 1].spent|
  }

  lemma {:induction false} UnspentUpdate(ops: seq<Op>, k: nat, op: Op, maxOp: nat)
    requires k < |ops|
    ensures Unspent(ops[k := op], maxOp) == Unspent(ops, maxOp) + |ops[k].spent| - |op.spent|
  {
    var n := |ops| - 1;
    if k < n {
      UnspentUpdate(ops[..n], k, op, maxOp);
      assert ops[k := op][..n] == ops[..n][k := op];
    } else {
      assert ops[k := op][..n] == ops[..n];
    }
  }

  lemma {:induction false} UnspentRemove(ops: seq<Op>, k: nat, maxOp: nat)
    requires k < |ops|
    ensures Unspent(ops[..k] + ops[k + 1..], maxOp) == Unspent(ops, maxOp) - maxOp + |ops[k].spent|
  {
    var n := |ops| - 1;
    if k < n {
      UnspentRemove(ops[..n], k, maxOp);
      var rest := ops[..k] + ops[k + 1..];
      assert rest[..n - 1] == ops[..n][..k] + ops[..n][k + 1..];
      assert rest[n - 1] == ops[n];
    } else {
      assert ops[..k] + ops[k + 1..] == ops[..n];
    }
  }

  lemma {:induction false} UnspentBounds(ops: seq<Op>, maxOp: nat)
    requires forall k :: 0 <= k < |ops| ==> |ops[k].spent| <= maxOp
    ensures forall k :: 0 <= k < |ops| ==> maxOp - |ops[k].spent| <= Unspent(ops, maxOp)
    ensures 0 <= Unspent(ops, maxOp) <= |ops| * maxOp
  {
    if ops != [] {
      UnspentBounds(ops[..|ops| - 1], maxOp);
    }
  }

  /** lh.n plus every reservation not yet used fits the log. */
  ghost predicate SpaceInv(c: Config, lh: seq<nat>, ops: seq<Op>) {
    && |lh| + Unspent(ops, c.maxOp) <= c.logSize
    && forall k :: 0 <= k < |ops| ==> OpInv(c, lh, ops[k])
  }

  ghost predicate OpInv(c: Config, lh: seq<nat>, op: Op) {
    |op.spent| <= c.maxOp && forall b :: b in op.spent ==> b in lh
  }

  /** Each operation logs at most maxOp distinct blocks. */
  predicate ThriftyStep(c: Config, s: State, step: Step) {
    step.LogAppend? && step.k < |s.ops| && s.ops[step.k].pending.Checked? ==>
      |s.ops[step.k].spent + {s.ops[step.k].pending.block}| <= c.maxOp
  }

  ghost predicate ThriftyRun(c: Config, s0: State, steps: seq<Step>)
    requires c.WellFormed()
    decreases |steps|
  {
    && Run(c, s0, steps)
    && (steps != [] ==>
          && ThriftyRun(c, s0, steps[..|steps| - 1])
          && ThriftyStep(c, After(c, s0, steps[..|steps| - 1]), steps[|steps| - 1]))
  }

  // ----- what every run keeps -----

  /** The open transaction is in memory only: before its commit point, or with no commit running. */
  predicate Gathering(p: Phase) {
    p == Idle || p == Panicked || p.WriteLog? || p == WriteHead
  }

  ghost predicate Phased(s: State) {
    && (s.lh == [] || !Gathering(s.phase) ==> s.group == [])
    && (s.ops != [] ==> s.phase == Idle || s.phase == Panicked)
    && (s.phase == Done || s.phase == RecoverRead || (s.phase == Idle && s.ops == []) ==> s.lh == [])
  }

  lemma PhasedStep(c: Config, s: State, step: Step)
    requires c.WellFormed() && Phased(s) && Enabled(c, s, step)
    ensures Phased(Do(c, s, step))
    ensures step.EndOp? ==> Do(c, s, step).phase != Panicked
  {
    if step.LogAppend? { assert s.ops[step.k].pending.block in Append(s, step.k, step.data).lh; }
  }

  lemma {:induction false} RunPhased(c: Config, s0: State, steps: seq<Step>)
    requires c.WellFormed() && Init(c, s0) && Run(c, s0, steps)
    ensures Phased(After(c, s0, steps))
    decreases |steps|
  {
    if steps != [] {
      var n := |steps| - 1;
      RunPhased(c, s0, steps[..n]);
      PhasedStep(c, After(c, s0, steps[..n]), steps[n]);
    }
  }

  // ----- what a run keeps whose transactions fit the header, whether or not they fit the slots -----

  /** Logged blocks are home blocks, and pinned until they are committed. */
  ghost predicate Listed(c: Config, lh: seq<nat>, dirty: map<nat, Block>, p: Phase) {
    && (forall i :: 0 <= i < |lh| ==> c.Home(lh[i]))
    && (forall b :: b in dirty ==> |dirty[b]| == c.words)
    && (Gathering(p) ==> forall i :: 0 <= i < |lh| ==> lh[i] in dirty)
  }

  /** Blocks that have passed the check are home blocks. */
  ghost predicate OpsHome(c: Config, ops: seq<Op>) {
    forall k :: 0 <= k < |ops| && ops[k].pending.Checked? ==> c.Home(ops[k].pending.block)
  }

  predicate Distinct(lh: seq<nat>) {
    forall i, j :: 0 <= i < j < |lh| ==> lh[i] != lh[j]
  }

  ghost predicate Sound(c: Config, s: State)
    requires c.WellFormed()
  {
    && Phased(s)
    && HeaderOk(c, s.disk)
    && OpsHome(c, s.ops)
    && Listed(c, s.lh, s.dirty, s.phase)
    && Distinct(s.lh) && Distinct(Header(c, s.disk))
    && (s.phase.WriteLog? || s.phase == WriteHead ==> |s.lh| <= c.logSize)
  }

  lemma BeginSound(c: Config, s: State)
    requires c.WellFormed() && Sound(c, s) && CanBegin(c, s)
    ensures Sound(c, Do(c, s, BeginOp))
  {
    hide Listed, Distinct, Header, HeaderOk;
  }

  lemma CheckSound(c: Config, s: State, k: nat, b: nat)
    requires c.WellFormed() && Sound(c, s) && Enabled(c, s, LogCheck(k, b))
    ensures Sound(c, Do(c, s, LogCheck(k, b)))
  {
    hide Distinct, Header, HeaderOk;
  }

  lemma AppendSound(c: Config, s: State, k: nat, data: Block)
    requires c.WellFormed() && Sound(c, s) && Enabled(c, s, LogAppend(k, data))
    ensures Sound(c, Do(c, s, LogAppend(k, data)))
  {
    PhasedStep(c, s, LogAppend(k, data));
    AppendListed(c, s, k, data);
    hide HeaderOk, Listed, Distinct, Header, Phased;
  }

  lemma AppendListed(c: Config, s: State, k: nat, data: Block)
    requires Listed(c, s.lh, s.dirty, s.phase) && Distinct(s.lh) && |data| == c.words
    requires k < |s.ops| && s.ops[k].pending.Checked? && c.Home(s.ops[k].pending.block)
    ensures var t := Append(s, k, data);
            Distinct(t.lh) && Listed(c, t.lh, t.dirty, t.phase)
  {
  }

  /** The list keeps what it named and names the block logged. */
  lemma AppendNames(s: State, k: nat, data: Block)
    requires k < |s.ops| && s.ops[k].pending.Checked?
    ensures forall b :: b in s.lh ==> b in Append(s, k, data).lh
    ensures s.ops[k].pending.block in Append(s, k, data).lh
  {
    var t := Append(s, k, data);
    if s.ops[k].pending.block !in s.lh { assert t.lh[|s.lh|] == s.ops[k].pending.block; }
    forall x | x in s.lh ensures x in t.lh {
      var i :| 0 <= i < |s.lh| && s.lh[i] == x;
      assert t.lh[i] == x;
    }
  }

  lemma AppendOverlay(c: Config, s: State, k: nat, data: Block)
    requires c.WellFormed() && Overlay(c, s.stable, s.group, s.dirty, s.lh)
    requires k < |s.ops| && s.ops[k].pending.Checked? && c.Home(s.ops[k].pending.block) && |data| == c.words
    requires forall b :: b in s.lh ==> b in Append(s, k, data).lh
    requires s.ops[k].pending.block in Append(s, k, data).lh
    ensures (var t := Append(s, k, data); Overlay(c, t.stable, t.group, t.dirty, t.lh))
  {
    var t := Append(s, k, data);
    assert t.group[..|t.group| - 1] == s.group;
  }

  lemma EndSound(c: Config, s: State, k: nat)
    requires c.WellFormed() && Sound(c, s) && Enabled(c, s, EndOp(k)) && HeadStep(c, s, EndOp(k))
    ensures Sound(c, Do(c, s, EndOp(k)))
  {
    hide HeaderOk, Header, Distinct, OpsHome;
    EndHome(c, s.ops, k);
  }

  lemma EndHome(c: Config, ops: seq<Op>, k: nat)
    requires OpsHome(c, ops) && k < |ops|
    ensures OpsHome(c, ops[..k] + ops[k + 1..])
  {
    var rest := ops[..k] + ops[k + 1..];
    assert forall j :: 0 <= j < |rest| ==> rest[j] == ops[if j < k then j else j + 1];
  }

  lemma CrashSound(c: Config, s: State)
    requires c.WellFormed() && Sound(c, s)
    ensures Sound(c, Do(c, s, Crash))
  {
  }

  /** Writing a slot does not touch the header, wherever the slot lies. */
  lemma WriteLogSound(c: Config, s: State)
    requires c.WellFormed() && Sound(c, s) && Enabled(c, s, CommitStep) && s.phase.WriteLog?
    ensures Sound(c, Advance(c, s))
  {
    assert Advance(c, s).disk[c.start] == s.disk[c.start];
  }

  lemma InstallSound(c: Config, s: State)
    requires c.WellFormed() && Sound(c, s) && Enabled(c, s, CommitStep) && (s.phase.Install? || s.phase.RecoverInstall?)
    ensures Sound(c, Advance(c, s))
  {
    if s.phase.i < |s.lh| { HomeWrite(c, s.disk, s.lh[s.phase.i], s.disk[c.Slot(s.phase.i)]); }
    hide HeaderOk;
  }

  lemma ClearSound(c: Config, s: State)
    requires c.WellFormed() && Sound(c, s) && Enabled(c, s, CommitStep) && (s.phase.ClearHead? || s.phase.RecoverClear?)
    ensures Sound(c, Advance(c, s))
  {
    HeaderWrite(c, s.disk, []);
    hide HeaderOk;
  }

  lemma HeadSound(c: Config, s: State)
    requires c.WellFormed() && Sound(c, s) && Enabled(c, s, CommitStep) && s.phase.WriteHead?
    ensures Sound(c, Advance(c, s))
  {
    HeaderWrite(c, s.disk, s.lh);
    hide HeaderOk, Header, Encode;
  }

  lemma RestSound(c: Config, s: State)
    requires c.WellFormed() && Sound(c, s) && Enabled(c, s, CommitStep) && (s.phase.RecoverRead? || s.phase.Done?)
    ensures Sound(c, Advance(c, s))
  {
    hide HeaderOk, Distinct;
  }

  lemma AdvanceSound(c: Config, s: State)
    requires c.WellFormed() && Sound(c, s) && Enabled(c, s, CommitStep)
    ensures Sound(c, Advance(c, s))
  {
    hide Sound;
    match s.phase
    case WriteLog(_) => WriteLogSound(c, s);
    case WriteHead => HeadSound(c, s);
    case Install(_) => InstallSound(c, s);
    case RecoverInstall(_) => InstallSound(c, s);
    case ClearHead => ClearSound(c, s);
    case RecoverClear => ClearSound(c, s);
    case _ => RestSound(c, s);
  }

  lemma SoundStep(c: Config, s: State, step: Step)
    requires c.WellFormed() && Sound(c, s) && Enabled(c, s, step) && HeadStep(c, s, step)
    ensures Sound(c, Do(c, s, step))
  {
    hide Sound;
    match step
    case BeginOp => BeginSound(c, s);
    case LogCheck(k, b) => CheckSound(c, s, k, b);
    case LogAppend(k, data) => AppendSound(c, s, k, data);
    case EndOp(k) => EndSound(c, s, k);
    case Crash => CrashSound(c, s);
    case CommitStep => AdvanceSound(c, s);
  }

  // ----- log space, for runs whose operations keep to their share -----

  lemma AppendSpaceInv(c: Config, s: State, k: nat, data: Block)
    requires c.WellFormed() && SpaceInv(c, s.lh, s.ops) && Enabled(c, s, LogAppend(k, data)) && ThriftyStep(c, s, LogAppend(k, data))
    ensures SpaceInv(c, Append(s, k, data).lh, Append(s, k, data).ops)
  {
    var t := Append(s, k, data);
    UnspentUpdate(s.ops, k, t.ops[k], c.maxOp);
    AppendNames(s, k, data);
    AppendSpace(c, s, k, data);
    var b := s.ops[k].pending.block;
    forall j | 0 <= j < |t.ops| ensures OpInv(c, t.lh, t.ops[j]) {
      assert OpInv(c, s.lh, s.ops[j]);
      assert s.ops[j].spent <= t.ops[j].spent <= s.ops[j].spent + {b};
    }
  }

  /** A block new to the list is new to the operation, so its reservation pays for it. */
  lemma AppendSpace(c: Config, s: State, k: nat, data: Block)
    requires k < |s.ops| && s.ops[k].pending.Checked? && OpInv(c, s.lh, s.ops[k])
    ensures |Append(s, k, data).lh| - |s.lh| <= |Append(s, k, data).ops[k].spent| - |s.ops[k].spent|
  {
    var b := s.ops[k].pending.block;
    if b in s.lh {
      SubsetSize(s.ops[k].spent, s.ops[k].spent + {b});
    } else {
      assert b !in s.ops[k].spent;
    }
  }

  lemma BeginSpace(c: Config, s: State)
    requires c.WellFormed() && SpaceInv(c, s.lh, s.ops) && CanBegin(c, s)
    ensures SpaceInv(c, Do(c, s, BeginOp).lh, Do(c, s, BeginOp).ops)
  {
    var t := Do(c, s, BeginOp);
    assert t.ops[..|t.ops| - 1] == s.ops;
    assert forall k :: 0 <= k < |s.ops| ==> OpInv(c, s.lh, s.ops[k]);
    UnspentBounds(s.ops, c.maxOp);
    assert (|s.ops| + 1) * c.maxOp == |s.ops| * c.maxOp + c.maxOp;
  }

  lemma CheckSpace(c: Config, lh: seq<nat>, ops: seq<Op>, k: nat, b: nat)
    requires SpaceInv(c, lh, ops) && k < |ops|
    ensures SpaceInv(c, lh, ops[k := ops[k].(pending := Checked(b))])
  {
    UnspentUpdate(ops, k, ops[k].(pending := Checked(b)), c.maxOp);
    assert OpInv(c, lh, ops[k]);
  }

  lemma EndSpace(c: Config, s: State, k: nat)
    requires SpaceInv(c, s.lh, s.ops) && k < |s.ops|
    ensures SpaceInv(c, End(s, k).lh, End(s, k).ops)
  {
    var t := End(s, k);
    UnspentRemove(s.ops, k, c.maxOp);
    assert OpInv(c, s.lh, s.ops[k]);
    assert forall j :: 0 <= j < |t.ops| ==> t.ops[j] == s.ops[if j < k then j else j + 1];
  }

  lemma CommitSpace(c: Config, s: State)
    requires c.WellFormed() && Sound(c, s) && SpaceInv(c, s.lh, s.ops) && Enabled(c, s, CommitStep)
    ensures SpaceInv(c, Advance(c, s).lh, Advance(c, s).ops)
  {
    assert s.ops == [];
    assert s.phase == RecoverRead ==> Advance(c, s).lh == Header(c, s.disk);
  }

  lemma SpaceStep(c: Config, s: State, step: Step)
    requires c.WellFormed() && Sound(c, s) && SpaceInv(c, s.lh, s.ops) && Enabled(c, s, step) && ThriftyStep(c, s, step)
    ensures SpaceInv(c, Do(c, s, step).lh, Do(c, s, step).ops)
  {
    hide Sound, SpaceInv;
    match step
    case BeginOp => BeginSpace(c, s);
    case LogCheck(k, b) => CheckSpace(c, s.lh, s.ops, k, b);
    case LogAppend(k, data) => AppendSpaceInv(c, s, k, data);
    case EndOp(k) => EndSpace(c, s, k);
    case CommitStep => CommitSpace(c, s);
    case Crash => NoSpace(c);
  }

  lemma NoSpace(c: Config)
    ensures SpaceInv(c, [], [])
  {
  }

  lemma SpaceRoom(c: Config, lh: seq<nat>, ops: seq<Op>)
    requires SpaceInv(c, lh, ops)
    ensures |lh| <= c.logSize && 0 <= Unspent(ops, c.maxOp) <= c.logSize - |lh|
    ensures forall k :: 0 <= k < |ops| ==> |lh| + c.maxOp - |ops[k].spent| <= c.logSize
  {
    assert forall k :: 0 <= k < |ops| ==> OpInv(c, lh, ops[k]);
    UnspentBounds(ops, c.maxOp);
  }

  lemma {:induction false} RunSound(c: Config, s0: State, steps: seq<Step>)
    requires c.WellFormed() && Init(c, s0) && ThriftyRun(c, s0, steps)
    ensures Sound(c, After(c, s0, steps)) && SpaceInv(c, After(c, s0, steps).lh, After(c, s0, steps).ops)
    decreases |steps|
  {
    if steps != [] {
      var n := |steps| - 1;
      RunSound(c, s0, steps[..n]);
      var s := After(c, s0, steps[..n]);
      hide Sound, SpaceInv, Do;
      SpaceRoom(c, s.lh, s.ops);
      SoundStep(c, s, steps[n]);
      SpaceStep(c, s, steps[n]);
    }
  }

  // ----- begin_op: whom it admits -----

  /** The locked part of log_write for each of the blocks in turn, by operation k. */
  function Logs(s: State, k: nat, bs: seq<nat>): (t: State)
    requires k < |s.ops|
    ensures |t.ops| == |s.ops|
  {
    if bs == [] then s
    else
      var t := Logs(s, k, bs[..|bs| - 1]);
      Append(t.(ops := t.ops[k := t.ops[k].(pending := Checked(bs[|bs| - 1]))]), k, [])
  }

  /** Every operation logs its blocks. */
  function AllLog(s: State, writes: seq<seq<nat>>): (t: State)
    requires |writes| <= |s.ops|
    ensures |t.ops| == |s.ops|
  {
    if writes == [] then s else Logs(AllLog(s, writes[..|writes| - 1]), |writes| - 1, writes[|writes| - 1])
  }

  /** One operation more. */
  function Joined(s: State): State {
    s.(ops := s.ops + [Op(s.nextId, {}, Nothing, [])], nextId := s.nextId + 1)
  }

  function Elems(bs: seq<nat>): set<nat> {
    set b | b in bs
  }

  lemma ElemsMore(bs: seq<nat>, b: nat)
    ensures Elems(bs + [b]) == Elems(bs) + {b} && (b in bs <==> b in Elems(bs))
  {
  }

  /** The list after each of the blocks has been added unless it is there. */
  function Added(lh: seq<nat>, bs: seq<nat>): seq<nat> {
    if bs == [] then lh
    else
      var l := Added(lh, bs[..|bs| - 1]);
      if bs[|bs| - 1] in l then l else l + [bs[|bs| - 1]]
  }

  lemma {:induction false} LogsAdd(s: State, k: nat, bs: seq<nat>)
    requires k < |s.ops|
    ensures Logs(s, k, bs).lh == Added(s.lh, bs)
    decreases |bs|
  {
    if bs != [] { LogsAdd(s, k, bs[..|bs| - 1]); }
  }

  lemma {:induction false} AddedSize(lh: seq<nat>, bs: seq<nat>)
    ensures Elems(Added(lh, bs)) == Elems(lh) + Elems(bs)
    ensures |Added(lh, bs)| <= |lh| + |Elems(bs)|
    ensures Distinct(bs) && Elems(bs) !! Elems(lh) ==> |Added(lh, bs)| == |lh| + |bs|
    decreases |bs|
  {
    if bs == [] {
      assert Elems(bs) == {} && Elems(lh) + {} == Elems(lh);
    } else {
      var n := |bs| - 1;
      var init, b, l := bs[..n], bs[n], Added(lh, bs[..n]);
      AddedSize(lh, init);
      assert bs == init + [b];
      hide Elems, Distinct;
      ElemsMore(init, b);
      ElemsMore(l, b);
      DistinctInit(bs);
      assert Elems(l) + {b} == Elems(lh) + Elems(bs);
      if b in l { assert Elems(l) == Elems(l) + {b}; }
      SubsetSize(Elems(init), Elems(bs));
    }
  }

  lemma DistinctInit(bs: seq<nat>)
    requires bs != []
    ensures Distinct(bs) ==> Distinct(bs[..|bs| - 1]) && bs[|bs| - 1] !in Elems(bs[..|bs| - 1])
  {
  }

  function Flat(writes: seq<seq<nat>>): seq<nat> {
    if writes == [] then [] else Flat(writes[..|writes| - 1]) + writes[|writes| - 1]
  }

  lemma {:induction false} AllLogAdds(s: State, writes: seq<seq<nat>>)
    requires |writes| <= |s.ops|
    ensures writes != [] ==> AllLog(s, writes).lh == Added(AllLog(s, writes[..|writes| - 1]).lh, writes[|writes| - 1])
  {
    if writes != [] { LogsAdd(AllLog(s, writes[..|writes| - 1]), |writes| - 1, writes[|writes| - 1]); }
  }

  lemma {:induction false} AllLogMost(s: State, writes: seq<seq<nat>>, m: nat)
    requires |writes| <= |s.ops| && forall k :: 0 <= k < |writes| ==> |Elems(writes[k])| <= m
    ensures |AllLog(s, writes).lh| <= |s.lh| + |writes| * m
    decreases |writes|
  {
    if writes != [] {
      var n := |writes| - 1;
      AllLogMost(s, writes[..n], m);
      AllLogAdds(s, writes);
      hide AllLog, Added, Elems;
      AddedSize(AllLog(s, writes[..n]).lh, writes[n]);
      assert |writes| * m == n * m + m;
    }
  }

  lemma {:induction false} AllLogAll(s: State, writes: seq<seq<nat>>, m: nat)
    requires |writes| <= |s.ops| && forall k :: 0 <= k < |writes| ==> |writes[k]| == m
    requires Distinct(Flat(writes)) && Elems(Flat(writes)) !! Elems(s.lh)
    ensures |AllLog(s, writes).lh| == |s.lh| + |writes| * m && Elems(AllLog(s, writes).lh) == Elems(s.lh) + Elems(Flat(writes))
    decreases |writes|
  {
    hide AllLog, Added, Elems, Distinct, Flat;
    if writes == [] {
      NoneLogged(s);
      assert writes == [];
    } else {
      var n := |writes| - 1;
      var a, b, l := Flat(writes[..n]), writes[n], AllLog(s, writes[..n]).lh;
      FlatLast(writes);
      FlatApart(a, b);
      AllLogAll(s, writes[..n], m);
      AllLogAdds(s, writes);
      AddedSize(l, b);
      assert Elems(b) !! Elems(l);
      assert |writes| * m == n * m + m;
    }
  }

  lemma NoneLogged(s: State)
    ensures AllLog(s, []) == s && Elems(Flat([])) == {}
  {
  }

  lemma FlatLast(writes: seq<seq<nat>>)
    requires writes != []
    ensures Flat(writes) == Flat(writes[..|writes| - 1]) + writes[|writes| - 1]
  {
  }

  lemma FlatApart(a: seq<nat>, b: seq<nat>)
    ensures Elems(a + b) == Elems(a) + Elems(b)
    ensures Distinct(a + b) ==> Distinct(a) && Distinct(b) && Elems(a) !! Elems(b)
  {
    if Distinct(a + b) {
      assert forall i :: 0 <= i < |a| ==> a[i] == (a + b)[i];
      assert forall i :: 0 <= i < |b| ==> b[i] == (a + b)[|a| + i];
    }
  }

  /**
   With no commit running, begin_op refuses an operation exactly when it and the operations outstanding, each
   logging MAXOPBLOCKS blocks that are not in the list yet, would take the list past LOGSIZE.
   */
  lemma RefusalIsExact(c: Config, s: State, writes: seq<seq<nat>>)
    requires s.phase == Idle && |writes| == |s.ops| + 1 && forall k :: 0 <= k < |writes| ==> |writes[k]| == c.maxOp
    requires Distinct(Flat(writes)) && Elems(Flat(writes)) !! Elems(s.lh)
    ensures !CanBegin(c, s) <==> |AllLog(Joined(s), writes).lh| > c.logSize
  {
    AllLogAll(Joined(s), writes, c.maxOp);
  }

  /** Once it is admitted, whatever these operations log within MAXOPBLOCKS distinct blocks each fits. */
  lemma AdmittedFits(c: Config, s: State, writes: seq<seq<nat>>)
    requires CanBegin(c, s) && |writes| == |s.ops| + 1 && forall k :: 0 <= k < |writes| ==> |Elems(writes[k])| <= c.maxOp
    ensures |AllLog(Joined(s), writes).lh| <= c.logSize
  {
    AllLogMost(Joined(s), writes, c.maxOp);
  }

  // ----- the whole invariant, for runs whose transactions fit the header and the slots -----

  ghost predicate Inv(c: Config, s: State)
    requires c.WellFormed()
  {
    Sound(c, s) && Recoverable(c, s.disk, s.stable) && PhaseInv(c, s)
  }

  lemma InitInv(c: Config, s: State)
    requires c.WellFormed() && Init(c, s)
    ensures Inv(c, s)
  {
  }

  lemma BeginInv(c: Config, s: State)
    requires c.WellFormed() && Inv(c, s) && CanBegin(c, s)
    ensures Inv(c, Do(c, s, BeginOp))
  {
    BeginSound(c, s);
    hide Sound, Overlay, Recoverable;
  }

  lemma CheckInv(c: Config, s: State, k: nat, b: nat)
    requires c.WellFormed() && Inv(c, s) && Enabled(c, s, LogCheck(k, b))
    ensures Inv(c, Do(c, s, LogCheck(k, b)))
  {
    CheckSound(c, s, k, b);
    assert s.phase == Idle;
    hide Sound, Overlay, Recoverable;
  }

  lemma AppendInv(c: Config, s: State, k: nat, data: Block)
    requires c.WellFormed() && Inv(c, s) && Enabled(c, s, LogAppend(k, data))
    ensures Inv(c, Do(c, s, LogAppend(k, data)))
  {
    AppendSound(c, s, k, data);
    assert s.phase == Idle && c.Home(s.ops[k].pending.block);
    AppendNames(s, k, data);
    AppendOverlay(c, s, k, data);
    hide Sound;
  }

  lemma EndInv(c: Config, s: State, k: nat)
    requires c.WellFormed() && Inv(c, s) && Enabled(c, s, EndOp(k)) && SnugStep(c, s, EndOp(k))
    ensures Inv(c, Do(c, s, EndOp(k)))
  {
    EndSound(c, s, k);
    if s.lh == [] {
      assert forall b :: b in s.dirty ==> b in s.lh;
    }
  }

  lemma CrashInv(c: Config, s: State)
    requires c.WellFormed() && Inv(c, s)
    ensures Inv(c, Do(c, s, Crash))
  {
    CrashSound(c, s);
  }

  // ----- the commit and recovery steps -----

  /** Writing a block of the log region other than the header keeps the disk recoverable while no transaction is named. */
  lemma SlotWrite(c: Config, d: Disk, stable: Disk, i: nat, data: Block)
    requires c.WellFormed() && Recoverable(c, d, stable) && Header(c, d) == []
    requires i + 1 < c.size && |data| == c.words
    ensures Recoverable(c, d[c.Slot(i) := data], stable)
    ensures Header(c, d[c.Slot(i) := data]) == []
  {
    var e := d[c.Slot(i) := data];
    assert e[c.start] == d[c.start];
  }

  lemma WriteLogInv(c: Config, s: State)
    requires c.WellFormed() && Inv(c, s) && s.phase.WriteLog? && Enabled(c, s, CommitStep)
    ensures Inv(c, Advance(c, s))
  {
    AdvanceSound(c, s);
    hide Sound, Distinct;
    assert s.lh[s.phase.i] in s.dirty by { assert Listed(c, s.lh, s.dirty, s.phase); }
    SlotWrite(c, s.disk, s.stable, s.phase.i, s.dirty[s.lh[s.phase.i]]);
  }

  lemma HeaderWrite(c: Config, d: Disk, lh: seq<nat>)
    requires c.WellFormed() && HeaderOk(c, d) && |lh| <= c.logSize
    requires forall i :: 0 <= i < |lh| ==> c.Home(lh[i])
    ensures var e := d[c.start := Encode(d[c.start], lh)];
            HeaderOk(c, e) && Header(c, e) == lh
  {
    DecodeEncode(d[c.start], lh);
    var e := d[c.start := Encode(d[c.start], lh)];
    assert forall i :: 1 <= i <= |lh| ==> e[c.start][i] == lh[i - 1];
  }

  /** The commit point: one header write turns the open transaction into a committed one. */
  lemma WriteHeadInv(c: Config, s: State)
    requires c.WellFormed() && Inv(c, s) && s.phase.WriteHead? && Enabled(c, s, CommitStep)
    ensures Inv(c, Advance(c, s))
  {
    AdvanceSound(c, s);
    HeaderWrite(c, s.disk, s.lh);
    CommitPoint(c, s.disk, s.stable, s.group, s.dirty, s.lh);
  }

  lemma CommitPoint(c: Config, d: Disk, stable: Disk, group: seq<Rec>, dirty: map<nat, Block>, lh: seq<nat>)
    requires c.WellFormed() && Recoverable(c, d, stable) && Header(c, d) == []
    requires Overlay(c, stable, group, dirty, lh) && SlotsFilled(c, d, dirty, lh, |lh|)
    ensures var e := d[c.start := Encode(d[c.start], lh)];
            Recoverable(c, e, ApplyRecs(stable, group)) && Installed(c, e, ApplyRecs(stable, group), lh, 0)
    ensures Left(lh, dirty, 0)
  {
    hide Encode, ApplyRecs, Header;
    HeaderWrite(c, d, lh);
    var e, now := d[c.start := Encode(d[c.start], lh)], ApplyRecs(stable, group);
    forall b | 0 <= b < |e| && c.Home(b) && b !in lh ensures e[b] == now[b] {
      assert b !in dirty && b != c.start;
    }
    forall j | 0 <= j < |lh| ensures e[c.Slot(j)] == now[lh[j]] {
      assert lh[j] in dirty && c.Slot(j) != c.start;
    }
    AllLeft(lh, dirty);
  }

  lemma AllLeft(lh: seq<nat>, dirty: map<nat, Block>)
    requires forall b :: b in dirty ==> b in lh
    ensures Left(lh, dirty, 0)
  {
  }

  /** Writing a home block does not touch the header. */
  lemma HomeWrite(c: Config, d: Disk, b: nat, data: Block)
    requires c.WellFormed() && HeaderOk(c, d) && c.Home(b) && |data| == c.words
    ensures HeaderOk(c, d[b := data]) && Header(c, d[b := data]) == Header(c, d)
  {
    assert d[b := data][c.start] == d[c.start];
  }

  /** Installing one block brings it to its committed contents. */
  lemma InstallOne(c: Config, d: Disk, stable: Disk, lh: seq<nat>, i: nat)
    requires c.WellFormed() && Recoverable(c, d, stable) && Installed(c, d, stable, lh, i) && i < |lh|
    ensures var e := d[lh[i] := d[c.Slot(i)]];
            Recoverable(c, e, stable) && Installed(c, e, stable, lh, i + 1)
  {
    var e := d[lh[i] := d[c.Slot(i)]];
    HomeWrite(c, d, lh[i], d[c.Slot(i)]);
    forall j | 0 <= j < |lh| ensures e[c.Slot(j)] == stable[lh[j]] {
      assert c.Home(lh[i]) && !c.Home(c.Slot(j));
    }
  }

  lemma InstallInv(c: Config, s: State)
    requires c.WellFormed() && Inv(c, s) && s.phase.Install? && Enabled(c, s, CommitStep)
    ensures Inv(c, Advance(c, s))
  {
    AdvanceSound(c, s);
    var t := Advance(c, s);
    var i := s.phase.i;
    InstallOne(c, s.disk, s.stable, s.lh, i);
    LeftStep(s.lh, s.dirty, i);
  }

  lemma LeftStep(lh: seq<nat>, dirty: map<nat, Block>, i: nat)
    requires Left(lh, dirty, i) && i < |lh|
    ensures Left(lh, dirty - {lh[i]}, i + 1)
    ensures i + 1 == |lh| ==> dirty - {lh[i]} == map[]
  {
    forall b | b in dirty - {lh[i]} ensures exists j :: i + 1 <= j < |lh| && lh[j] == b {
      var j :| i <= j < |lh| && lh[j] == b;
    }
  }

  lemma ClearStep(c: Config, s: State, t: State)
    requires c.WellFormed() && Recoverable(c, s.disk, s.stable) && Installed(c, s.disk, s.stable, s.lh, |s.lh|)
    requires t.disk == s.disk[c.start := Encode(s.disk[c.start], [])] && t.stable == s.stable
    ensures Recoverable(c, t.disk, t.stable) && Header(c, t.disk) == []
  {
    HeaderWrite(c, s.disk, []);
    forall b | 0 <= b < |t.disk| && c.Home(b) ensures t.disk[b] == t.stable[b] {
      if b in s.lh {
        var j :| 0 <= j < |s.lh| && s.lh[j] == b;
      }
    }
  }

  lemma ClearInv(c: Config, s: State)
    requires c.WellFormed() && Inv(c, s) && (s.phase.ClearHead? || s.phase.RecoverClear?) && Enabled(c, s, CommitStep)
    ensures Inv(c, Advance(c, s))
  {
    AdvanceSound(c, s);
    ClearStep(c, s, Advance(c, s));
  }

  lemma RecoverInv(c: Config, s: State)
    requires c.WellFormed() && Inv(c, s) && Enabled(c, s, CommitStep)
    requires s.phase.RecoverRead? || s.phase.RecoverInstall? || s.phase.Done?
    ensures Inv(c, Advance(c, s))
  {
    AdvanceSound(c, s);
    if s.phase.RecoverInstall? && s.phase.i < |s.lh| {
      InstallOne(c, s.disk, s.stable, s.lh, s.phase.i);
    }
  }

  lemma AdvanceInv(c: Config, s: State)
    requires c.WellFormed() && Inv(c, s) && Enabled(c, s, CommitStep)
    ensures Inv(c, Advance(c, s))
  {
    hide Inv;
    match s.phase
    case WriteLog(_) => WriteLogInv(c, s);
    case WriteHead => WriteHeadInv(c, s);
    case Install(_) => InstallInv(c, s);
    case ClearHead => ClearInv(c, s);
    case RecoverClear => ClearInv(c, s);
    case _ => RecoverInv(c, s);
  }

  /** Any step, a single block write and a crash among them, that does not start to commit more than the slots hold. */
  lemma StepInv(c: Config, s: State, step: Step)
    requires c.WellFormed() && Inv(c, s) && Enabled(c, s, step) && SnugStep(c, s, step)
    ensures Inv(c, Do(c, s, step))
  {
    hide Inv;
    match step
    case BeginOp => BeginInv(c, s);
    case LogCheck(k, b) => CheckInv(c, s, k, b);
    case LogAppend(k, data) => AppendInv(c, s, k, data);
    case EndOp(k) => EndInv(c, s, k);
    case Crash => CrashInv(c, s);
    case CommitStep => AdvanceInv(c, s);
  }

  lemma {:induction false} RunInv(c: Config, s0: State, steps: seq<Step>)
    requires c.WellFormed() && Init(c, s0) && SnugRun(c, s0, steps)
    ensures Inv(c, After(c, s0, steps))
    decreases |steps|
  {
    if steps == [] {
      InitInv(c, s0);
    } else {
      var n := |steps| - 1;
      RunInv(c, s0, steps[..n]);
      StepInv(c, After(c, s0, steps[..n]), steps[n]);
    }
  }

  // ----- when the transactions fit -----

  lemma {:induction false} FitsIsSnug(c: Config, s0: State, steps: seq<Step>)
    requires c.Fits() && Init(c, s0) && ThriftyRun(c, s0, steps)
    ensures SnugRun(c, s0, steps)
    decreases |steps|
  {
    if steps != [] {
      var n := |steps| - 1;
      FitsIsSnug(c, s0, steps[..n]);
      RunSound(c, s0, steps[..n]);
      var s := After(c, s0, steps[..n]);
      hide Sound, SpaceInv;
      SpaceRoom(c, s.lh, s.ops);
    }
  }

  /** The size check made under the lock: while one operation is between its check and its append no other makes its own. */
  predicate LockedStep(s: State, step: Step) {
    step.LogCheck? ==> forall k :: 0 <= k < |s.ops| ==> s.ops[k].pending == Nothing
  }

  ghost predicate LockedRun(c: Config, s0: State, steps: seq<Step>)
    requires c.WellFormed()
    decreases |steps|
  {
    && Run(c, s0, steps)
    && (steps != [] ==>
          && LockedRun(c, s0, steps[..|steps| - 1])
          && LockedStep(After(c, s0, steps[..|steps| - 1]), steps[|steps| - 1]))
  }

  /** Whoever has passed the check still has a slot, and is alone with it. */
  ghost predicate Guarded(c: Config, lh: seq<nat>, ops: seq<Op>) {
    && (ops != [] ==> |lh| < c.size && |lh| <= c.logSize)
    && (forall k :: 0 <= k < |ops| && ops[k].pending.Checked? ==> |lh| + 1 < c.size && |lh| < c.logSize)
    && (forall j, k :: 0 <= j < |ops| && 0 <= k < |ops| && ops[j].pending.Checked? && ops[k].pending.Checked? ==> j == k)
  }

  lemma GuardedStep(c: Config, s: State, step: Step)
    requires c.WellFormed() && Phased(s) && Enabled(c, s, step) && LockedStep(s, step) && Guarded(c, s.lh, s.ops)
    ensures Guarded(c, Do(c, s, step).lh, Do(c, s, step).ops)
  {
    match step
    case EndOp(k) => GuardedEnd(c, s, k);
    case LogAppend(k, data) => GuardedAppend(c, s, k, data);
    case CommitStep => hide Guarded;
    case _ =>
  }

  lemma GuardedEnd(c: Config, s: State, k: nat)
    requires k < |s.ops| && Guarded(c, s.lh, s.ops)
    ensures Guarded(c, End(s, k).lh, End(s, k).ops)
  {
    var t := End(s, k);
    assert forall j :: 0 <= j < |t.ops| ==> t.ops[j] == s.ops[if j < k then j else j + 1];
  }

  lemma GuardedAppend(c: Config, s: State, k: nat, data: Block)
    requires k < |s.ops| && s.ops[k].pending.Checked? && Guarded(c, s.lh, s.ops)
    ensures Guarded(c, Append(s, k, data).lh, Append(s, k, data).ops)
  {
    var t := Append(s, k, data);
    assert forall j :: 0 <= j < |t.ops| && j != k ==> t.ops[j] == s.ops[j];
  }

  /** With the check under the lock every commit fits, whatever the operations log and however small the region. */
  lemma {:induction false} LockedIsSnug(c: Config, s0: State, steps: seq<Step>)
    requires c.WellFormed() && Init(c, s0) && LockedRun(c, s0, steps)
    ensures SnugRun(c, s0, steps) && Guarded(c, After(c, s0, steps).lh, After(c, s0, steps).ops)
    decreases |steps|
  {
    if steps != [] {
      var n := |steps| - 1;
      LockedIsSnug(c, s0, steps[..n]);
      RunPhased(c, s0, steps[..n]);
      GuardedStep(c, After(c, s0, steps[..n]), steps[n]);
    }
  }
}
