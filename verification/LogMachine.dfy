/**
 The write-ahead log as a step machine.

 A disk is a sequence of blocks and a block a sequence of 32-bit words, so the header block
 is read and written word by word, as `struct logheader` lies in it. Every step does at most
 one block write, which is the unit a crash can fall between. Operations are interleaved in
 any order and in any number.
 */
module LogMachine {

  type Block = seq<int>
  type Disk = seq<Block>

  /** maxOp is MAXOPBLOCKS, logSize is LOGSIZE, size and start are log.size and log.start. */
  datatype Config = Config(maxOp: nat, logSize: nat, start: nat, size: nat, nblocks: nat, words: nat) {

    /** What the constants, the super block and the check in initlog guarantee. */
    predicate WellFormed() {
      && 1 <= maxOp <= logSize
      && logSize + 1 < words
      && 1 <= size
      && start + size <= nblocks
    }

    /** The log region has a slot for every header entry. */
    predicate Fits() {
      WellFormed() && logSize < size
    }

    /** Blocks that callers may log: any block outside the log region. */
    predicate Home(b: nat) {
      b < nblocks && !(start <= b < start + size)
    }

    function Slot(i: nat): nat {
      start + 1 + i
    }
  }

  /** One log_write: operation `op` gave block `block` the contents `data`. */
  datatype Rec = Rec(op: nat, block: nat, data: Block)

  datatype Pending = Nothing | Checked(block: nat)

  /**
   An operation between begin_op and end_op. `pending` is set between the size check of
   log_write, which is made without the lock, and its locked part.
   */
  datatype Op = Op(id: nat, spent: set<nat>, pending: Pending, logged: seq<Rec>)

  /** Which instruction the committing (or recovering) thread has reached. */
  datatype Phase =
    | Idle
    | WriteLog(i: nat)
    | WriteHead
    | Install(i: nat)
    | ClearHead
    | Done
    | RecoverRead
    | RecoverInstall(i: nat)
    | RecoverClear
    | Panicked

  /**
   disk, dirty (the pinned buffers), lh, ops (its length is log.outstanding) and phase are the
   program's. The rest records what happened: `group` holds the records of the open
   transaction, `history` the committed ones, `stable` the blocks they amount to, `ended` the
   complete log of every operation that called end_op, `lost` the operations a crash erased,
   `first` the first operation number of the open transaction.
   */
  datatype State = State(
    disk: Disk, dirty: map<nat, Block>, lh: seq<nat>, ops: seq<Op>, phase: Phase,
    group: seq<Rec>, history: seq<seq<Rec>>, stable: Disk,
    ended: map<nat, seq<Rec>>, lost: set<nat>, first: nat, nextId: nat)

  datatype Step =
    | BeginOp
    | LogCheck(k: nat, block: nat)
    | LogAppend(k: nat, data: Block)
    | EndOp(k: nat)
    | CommitStep
    | Crash

  // ----- header encoding -----

  /** A header block that read_head can copy without leaving it. */
  predicate Readable(b: Block) {
    1 <= |b| && b[0] < |b| && forall i :: 1 <= i <= b[0] ==> 0 <= b[i]
  }

  /** read_head: word 0 is the count, the block numbers follow. */
  function Decode(b: Block): (lh: seq<nat>)
    requires Readable(b)
  {
    if b[0] <= 0 then [] else b[1..1 + b[0]]
  }

  /** write_head: the words past the entries keep what the block held. */
  function Encode(b: Block, lh: seq<nat>): (r: Block)
    requires |lh| < |b|
  {
    [|lh|] + lh + b[1 + |lh|..]
  }

  lemma DecodeEncode(b: Block, lh: seq<nat>)
    requires |lh| < |b|
    ensures |Encode(b, lh)| == |b| && Readable(Encode(b, lh))
    ensures Decode(Encode(b, lh)) == lh
    ensures Encode(b, lh)[0] == |lh| && forall i :: 0 <= i < |lh| ==> Encode(b, lh)[1 + i] == lh[i]
    ensures forall i :: |lh| < i < |b| ==> Encode(b, lh)[i] == b[i]
  {
    var r := Encode(b, lh);
    assert forall i :: 1 <= i <= |lh| ==> r[i] == lh[i - 1];
    assert r[1..1 + |lh|] == lh;
  }

  /** The header block holds a count in range and names only home blocks. */
  ghost predicate HeaderOk(c: Config, d: Disk)
    requires c.WellFormed()
  {
    && |d| == c.nblocks
    && (forall b :: 0 <= b < |d| ==> |d[b]| == c.words)
    && 0 <= d[c.start][0] <= c.logSize
    && forall i :: 1 <= i <= d[c.start][0] ==> 0 <= d[c.start][i] && c.Home(d[c.start][i])
  }

  function Header(c: Config, d: Disk): (lh: seq<nat>)
    requires c.WellFormed() && HeaderOk(c, d)
    ensures |lh| <= c.logSize
    ensures forall i :: 0 <= i < |lh| ==> lh[i] == d[c.start][1 + i] && c.Home(lh[i])
  {
    Decode(d[c.start])
  }

  // ----- what a sequence of records means -----

  function ApplyRecs(d: Disk, recs: seq<Rec>): (r: Disk)
    ensures |r| == |d|
  {
    if recs == [] then d
    else
      var d' := ApplyRecs(d, recs[..|recs| - 1]);
      var last := recs[|recs| - 1];
      if last.block < |d'| then d'[last.block := last.data] else d'
  }

  function ApplyAll(d: Disk, groups: seq<seq<Rec>>): (r: Disk)
    ensures |r| == |d|
  {
    if groups == [] then d
    else ApplyRecs(ApplyAll(d, groups[..|groups| - 1]), groups[|groups| - 1])
  }

  /** The records of one operation, in order. */
  function Project(recs: seq<Rec>, op: nat): (r: seq<Rec>) {
    if recs == [] then []
    else
      var last := recs[|recs| - 1];
      Project(recs[..|recs| - 1], op) + (if last.op == op then [last] else [])
  }

  ghost predicate SameHome(c: Config, d: Disk, e: Disk) {
    && |d| == |e| == c.nblocks
    && forall b :: 0 <= b < |d| && c.Home(b) ==> d[b] == e[b]
  }

  // ----- steps -----

  /** begin_op's test: no commit running and room for one more operation. */
  predicate CanBegin(c: Config, s: State) {
    && s.phase == Idle
    && |s.lh| + (|s.ops| + 1) * c.maxOp <= c.logSize
  }

  predicate Enabled(c: Config, s: State, step: Step)
    requires c.WellFormed()
  {
    match step
    case BeginOp => CanBegin(c, s)
    // callers log home blocks, one log_write at a time
    case LogCheck(k, b) => k < |s.ops| && s.phase != Panicked && s.ops[k].pending == Nothing && c.Home(b)
    case LogAppend(k, data) => k < |s.ops| && s.phase != Panicked && s.ops[k].pending.Checked? && |data| == c.words
    case EndOp(k) => k < |s.ops| && s.phase != Panicked && s.ops[k].pending == Nothing
    case CommitStep =>
      && |s.disk| == c.nblocks
      && (match s.phase
         case Idle | Panicked => false
         case WriteLog(i) => i < |s.lh| && c.Slot(i) < c.nblocks && s.lh[i] in s.dirty
         case WriteHead => 0 < |s.lh| < |s.disk[c.start]|
         case Install(i) => i < |s.lh| && c.Slot(i) < c.nblocks && s.lh[i] < c.nblocks
         case RecoverInstall(i) => i <= |s.lh| && (i < |s.lh| ==> c.Slot(i) < c.nblocks && s.lh[i] < c.nblocks)
         case RecoverRead => Readable(s.disk[c.start])
         case ClearHead | RecoverClear => 1 <= |s.disk[c.start]|
         case Done => true)
    case Crash => true
  }

  /** The locked part of log_write: absorb or append, and pin the buffer. */
  function Append(s: State, k: nat, data: Block): State
    requires k < |s.ops| && s.ops[k].pending.Checked?
  {
    var op := s.ops[k];
    var b := op.pending.block;
    var rec := Rec(op.id, b, data);
    s.(lh := if b in s.lh then s.lh else s.lh + [b],
       dirty := s.dirty[b := data],
       ops := s.ops[k := Op(op.id, op.spent + {b}, Nothing, op.logged + [rec])],
       group := s.group + [rec])
  }

  /** end_op: the last operation out starts the commit. */
  function End(s: State, k: nat): State
    requires k < |s.ops|
  {
    var op := s.ops[k];
    var rest := s.ops[..k] + s.ops[k + 1..];
    s.(ops := rest,
       ended := s.ended[op.id := op.logged],
       phase := if s.phase != Idle then Panicked
                else if rest != [] then Idle
                else if s.lh == [] then Done else WriteLog(0))
  }

  /** One block write of commit or recover_from_log, or the bookkeeping between two writes. */
  function Advance(c: Config, s: State): State
    requires c.WellFormed() && Enabled(c, s, CommitStep)
  {
    match s.phase
    case WriteLog(i) =>
      s.(disk := s.disk[c.Slot(i) := s.dirty[s.lh[i]]],
         phase := if i + 1 < |s.lh| then WriteLog(i + 1) else WriteHead)
    case WriteHead =>
      s.(disk := s.disk[c.start := Encode(s.disk[c.start], s.lh)],
         phase := Install(0),
         stable := ApplyRecs(s.stable, s.group),
         history := s.history + [s.group], group := [], first := s.nextId)
    case Install(i) =>
      s.(disk := s.disk[s.lh[i] := s.disk[c.Slot(i)]],
         dirty := s.dirty - {s.lh[i]},
         phase := if i + 1 < |s.lh| then Install(i + 1) else ClearHead)
    case ClearHead =>
      s.(lh := [], disk := s.disk[c.start := Encode(s.disk[c.start], [])], phase := Done)
    case Done => s.(phase := Idle)
    case RecoverRead =>
      s.(lh := Decode(s.disk[c.start]), phase := RecoverInstall(0))
    case RecoverInstall(i) =>
      if i < |s.lh| then
        s.(disk := s.disk[s.lh[i] := s.disk[c.Slot(i)]], dirty := s.dirty - {s.lh[i]}, phase := RecoverInstall(i + 1))
      else s.(phase := RecoverClear)
    case RecoverClear =>
      s.(lh := [], disk := s.disk[c.start := Encode(s.disk[c.start], [])], phase := Idle)
  }

  function Do(c: Config, s: State, step: Step): State
    requires c.WellFormed() && Enabled(c, s, step)
  {
    match step
    case BeginOp =>
      s.(ops := s.ops + [Op(s.nextId, {}, Nothing, [])], nextId := s.nextId + 1)
    case LogCheck(k, b) =>
      if |s.lh| >= c.logSize || |s.lh| >= c.size - 1 then s.(phase := Panicked)
      else s.(ops := s.ops[k := s.ops[k].(pending := Checked(b))])
    case LogAppend(k, data) => Append(s, k, data)
    case EndOp(k) => End(s, k)
    case CommitStep => Advance(c, s)
    case Crash =>
      // memory is gone, the disk stays; the reboot starts recover_from_log
      s.(dirty := map[], lh := [], ops := [], phase := RecoverRead,
         lost := s.lost + (set r | r in s.group :: r.op), group := [], first := s.nextId)
  }

  /** A freshly made file system: an empty log, mounted. */
  ghost predicate Init(c: Config, s: State)
    requires c.WellFormed()
  {
    && HeaderOk(c, s.disk) && Header(c, s.disk) == []
    && s == State(s.disk, map[], [], [], RecoverRead, [], [], s.disk, map[], {}, 0, 0)
  }

  // ----- runs -----

  ghost predicate Run(c: Config, s0: State, steps: seq<Step>)
    requires c.WellFormed()
    decreases |steps|, 0
  {
    steps == [] ||
    (Run(c, s0, steps[..|steps| - 1]) && Enabled(c, After(c, s0, steps[..|steps| - 1]), steps[|steps| - 1]))
  }

  ghost function After(c: Config, s0: State, steps: seq<Step>): State
    requires c.WellFormed() && Run(c, s0, steps)
    decreases |steps|, 1
  {
    if steps == [] then s0
    else Do(c, After(c, s0, steps[..|steps| - 1]), steps[|steps| - 1])
  }

  lemma RunExtend(c: Config, s0: State, steps: seq<Step>, step: Step)
    requires c.WellFormed() && Run(c, s0, steps) && Enabled(c, After(c, s0, steps), step)
    ensures Run(c, s0, steps + [step])
    ensures After(c, s0, steps + [step]) == Do(c, After(c, s0, steps), step)
  {
    var all := steps + [step];
    assert all[..|all| - 1] == steps;
  }

  /** A commit starts only with a transaction the header array can name. */
  predicate HeadStep(c: Config, s: State, step: Step) {
    step.EndOp? && |s.ops| == 1 ==> |s.lh| <= c.logSize
  }

  /**
   And one the log region has slots for. Two log_write calls that make their size check together can
   break either; where operations keep to MAXOPBLOCKS and the region is larger than LOGSIZE none does.
   */
  predicate SnugStep(c: Config, s: State, step: Step) {
    HeadStep(c, s, step) && (step.EndOp? && |s.ops| == 1 ==> |s.lh| < c.size)
  }

  ghost predicate SnugRun(c: Config, s0: State, steps: seq<Step>)
    requires c.WellFormed()
    decreases |steps|
  {
    && Run(c, s0, steps)
    && (steps != [] ==>
          && SnugRun(c, s0, steps[..|steps| - 1])
          && SnugStep(c, After(c, s0, steps[..|steps| - 1]), steps[|steps| - 1]))
  }

  lemma SnugExtend(c: Config, s0: State, steps: seq<Step>, step: Step)
    requires c.WellFormed() && SnugRun(c, s0, steps)
    requires Enabled(c, After(c, s0, steps), step) && SnugStep(c, After(c, s0, steps), step)
    ensures SnugRun(c, s0, steps + [step])
    ensures After(c, s0, steps + [step]) == Do(c, After(c, s0, steps), step)
  {
    var all := steps + [step];
    assert all[..|all| - 1] == steps;
    RunExtend(c, s0, steps, step);
  }

  // ----- recovery as one function -----

  function InstallFrom(c: Config, d: Disk, lh: seq<nat>, i: nat): (r: Disk)
    requires i <= |lh| && c.Slot(|lh|) <= |d|
    requires forall j :: 0 <= j < |lh| ==> lh[j] < |d|
    ensures |r| == |d|
    decreases |lh| - i
  {
    if i == |lh| then d else InstallFrom(c, d[lh[i] := d[c.Slot(i)]], lh, i + 1)
  }

  /** recover_from_log run to its end on a disk. */
  ghost function Recover(c: Config, d: Disk): (r: Disk)
    requires c.WellFormed() && HeaderOk(c, d) && c.Slot(|Header(c, d)|) <= c.nblocks
  {
    var e := InstallFrom(c, d, Header(c, d), 0);
    e[c.start := if 1 <= |e[c.start]| then Encode(e[c.start], []) else []]
  }
}
