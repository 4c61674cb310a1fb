/**
 log.c as it is written: a struct updated in place by loops. Each method shows that what it
 does to memory and disk, block write by block write, is a run of the log machine, so the
 results about every run hold at every point of this code.
 */
module LogCode {
  import opened LogMachine
  import opened LogSafety
  import opened LogAtomicity

  class Log {
    const c: Config
    const block: array<nat>
    var n: nat
    var outstanding: nat
    var committing: bool
    /** The device, and the buffers pinned by B_DIRTY. */
    var disk: Disk
    var dirty: map<nat, Block>

    ghost const s0: State
    ghost var steps: seq<Step>
    ghost var at: State

    /** The run taken so far ends in `at`, and committed only what fitted the log region. */
    ghost predicate Tracks()
      reads this`steps, this`at
    {
      c.WellFormed() && Init(c, s0) && SnugRun(c, s0, steps) && at == After(c, s0, steps)
    }

    /** Disk, buffers and header are the machine's. */
    ghost predicate Same()
      reads this, block
    {
      && block.Length == c.logSize && n <= block.Length
      && disk == at.disk && dirty == at.dirty && block[..n] == at.lh
    }

    /** What holds whenever log.lock is free, also while another thread commits. */
    ghost predicate Shared()
      reads this, block
    {
      && Tracks() && Same() && outstanding == |at.ops|
      && at.phase != Panicked && (committing <==> at.phase != Idle)
    }

    /** And when no commit is running. */
    ghost predicate Valid()
      reads this, block
    {
      Shared() && !committing && n < c.size
    }

    /** A machine that has just been switched on. */
    constructor (c: Config, disk: Disk)
      requires c.WellFormed() && HeaderOk(c, disk) && Header(c, disk) == []
      ensures this.c == c && Tracks() && Same() && at.phase == RecoverRead
      ensures outstanding == 0 && !committing && fresh(block)
    {
      this.c := c;
      this.disk := disk;
      block := new nat[c.logSize];
      n, outstanding, committing, dirty := 0, 0, false, map[];
      s0 := State(disk, map[], [], [], RecoverRead, [], [], disk, map[], {}, 0, 0);
      steps := [];
      at := State(disk, map[], [], [], RecoverRead, [], [], disk, map[], {}, 0, 0);
    }

    ghost method Take(step: Step)
      requires Tracks() && Enabled(c, at, step) && SnugStep(c, at, step)
      modifies this`steps, this`at
      ensures Tracks() && steps == old(steps) + [step] && at == Do(c, old(at), step)
    {
      SnugExtend(c, s0, steps, step);
      steps := steps + [step];
      at := Do(c, at, step);
    }

    lemma Ready()
      requires Tracks() && at.phase != Idle && at.phase != Panicked
      ensures Enabled(c, at, CommitStep) && HeaderOk(c, at.disk) && c.WellFormed() && at.ops == []
      ensures at.phase.Install? || at.phase.RecoverInstall? ==> forall i :: 0 <= i < |at.lh| ==> c.Slot(i) < c.nblocks
    {
      RunInv(c, s0, steps);
      NeverStuck(c, s0, steps);
    }

    /** One pass of begin_op's loop: admitted, or asleep until the next wakeup. */
    method BeginOp() returns (admitted: bool)
      requires Shared()
      modifies this
      ensures Shared() && (old(Valid()) ==> Valid())
      ensures admitted <==> !old(committing) && old(n) + (old(outstanding) + 1) * c.maxOp <= c.logSize
      ensures outstanding == old(outstanding) + if admitted then 1 else 0
      ensures steps == if admitted then old(steps) + [Step.BeginOp] else old(steps)
      ensures disk == old(disk) && dirty == old(dirty) && n == old(n)
    {
      hide Tracks;
      if committing || n + (outstanding + 1) * c.maxOp > c.logSize {
        return false;
      }
      outstanding := outstanding + 1;
      Take(Step.BeginOp);
      return true;
    }

    /** log_write by the k-th outstanding operation; false means it panicked. */
    method LogWrite(ghost k: nat, b: nat, data: Block) returns (ok: bool)
      requires Valid()
      requires k < |at.ops| && at.ops[k].pending == Nothing && c.Home(b) && |data| == c.words
      modifies this, block
      ensures ok == (old(n) < c.logSize && old(n) < c.size - 1)
      ensures Tracks() && steps == old(steps) + if ok then [LogCheck(k, b), LogAppend(k, data)] else [LogCheck(k, b)]
      ensures ok ==> Valid() && dirty == old(dirty)[b := data]
      ensures ok ==> block[..n] == if b in old(block[..n]) then old(block[..n]) else old(block[..n]) + [b]
      ensures !ok ==> at.phase == Panicked
      ensures disk == old(disk)
    {
      hide Tracks;
      if n >= c.logSize || n >= c.size - 1 {
        Take(LogCheck(k, b));
        return false;
      }
      Take(LogCheck(k, b));
      var i := 0;
      while i < n
        invariant 0 <= i <= n
        invariant forall j :: 0 <= j < i ==> block[j] != b
      {
        if block[i] == b { break; }
        i := i + 1;
      }
      ghost var before := block[..n];
      assert b in before <==> i < n by {
        if i < n { assert before[i] == b; }
      }
      block[i] := b;
      if i == n {
        n := n + 1;
        assert block[..n] == before + [b];
      } else {
        assert block[..n] == before;
      }
      dirty := dirty[b := data];
      Take(LogAppend(k, data));
      return true;
    }

    /** write_log: cache blocks to log slots, one write at a time. */
    method WriteLog()
      requires Tracks() && Same() && at.phase == Phase.WriteLog(0)
      modifies this`disk, this`steps, this`at
      ensures Tracks() && Same() && at.phase == Phase.WriteHead
      ensures steps == old(steps) + seq(n, _ => CommitStep)
      ensures at.group == old(at.group) && at.history == old(at.history)
    {
      hide Tracks;
      Ready();
      var tail := 0;
      while tail < n
        invariant 0 <= tail <= n
        invariant Tracks() && Same()
        invariant at.group == old(at.group) && at.history == old(at.history)
        invariant at.phase == if tail < n then Phase.WriteLog(tail) else Phase.WriteHead
        invariant steps == old(steps) + seq(tail, _ => CommitStep)
      {
        Ready();
        disk := disk[c.Slot(tail) := dirty[block[tail]]];
        Take(CommitStep);
        tail := tail + 1;
      }
    }

    /** write_head with the transaction in it: the commit point. */
    method WriteHead()
      requires Tracks() && Same() && at.phase == Phase.WriteHead
      modifies this`disk, this`steps, this`at
      ensures Tracks() && Same() && at.phase == Install(0)
      ensures steps == old(steps) + [CommitStep]
      ensures at.history == old(at.history) + [old(at.group)]
    {
      hide Tracks;
      Ready();
      var hb := PutHead();
      disk := disk[c.start := hb];
      Take(CommitStep);
    }

    /** The header block with the count and the entries stored in it, word by word. */
    method PutHead() returns (hb: Block)
      requires block.Length == c.logSize && n <= block.Length
      requires c.start < |disk| && n < |disk[c.start]|
      ensures hb == Encode(disk[c.start], block[..n])
    {
      hb := disk[c.start][0 := n];
      var i := 0;
      while i < n
        invariant 0 <= i <= n && |hb| == |disk[c.start]| && hb[0] == n
        invariant forall j :: 0 <= j < i ==> hb[1 + j] == block[j]
        invariant forall j :: i < j < |hb| ==> hb[j] == disk[c.start][j]
      {
        hb := hb[1 + i := block[i]];
        i := i + 1;
      }
    }

    /** install_trans: log slots to home blocks, one write at a time. */
    method InstallTrans()
      requires Tracks() && Same() && (at.phase == Install(0) || at.phase == RecoverInstall(0))
      modifies this`disk, this`dirty, this`steps, this`at
      ensures Tracks() && Same() && steps == old(steps) + seq(n, _ => CommitStep)
      ensures at.phase == if old(at.phase).Install? then ClearHead else RecoverInstall(n)
      ensures at.history == old(at.history)
    {
      hide Tracks;
      Ready();
      ghost var committing := at.phase.Install?;
      var tail := 0;
      while tail < n
        invariant 0 <= tail <= n
        invariant Tracks() && Same() && at.history == old(at.history)
        invariant at.phase == if !committing then RecoverInstall(tail) else if tail < n then Install(tail) else ClearHead
        invariant steps == old(steps) + seq(tail, _ => CommitStep)
      {
        Ready();
        disk := disk[block[tail] := disk[c.Slot(tail)]];
        dirty := dirty - {block[tail]};
        Take(CommitStep);
        assert dirty == at.dirty;
        tail := tail + 1;
      }
    }

    /** log.lh.n = 0 and write_head: erase the transaction from the log. */
    method ClearHeader()
      requires Tracks() && Same() && (at.phase == ClearHead || at.phase == RecoverClear)
      modifies this`disk, this`n, this`steps, this`at
      ensures Tracks() && Same() && n == 0 && steps == old(steps) + [CommitStep]
      ensures at.phase == if old(at.phase).ClearHead? then Done else Idle
      ensures at.history == old(at.history) && at.ops == []
    {
      hide Tracks;
      Ready();
      n := 0;
      var hb := PutHead();
      disk := disk[c.start := hb];
      assert block[..n] == [];
      Take(CommitStep);
    }

    /** commit: two passes of block writes around the header write. */
    method Commit()
      requires Tracks() && Same()
      requires at.phase == if n > 0 then Phase.WriteLog(0) else Done
      modifies this`disk, this`dirty, this`n, this`steps, this`at
      ensures Tracks() && Same() && at.phase == Done && n == 0
      ensures steps == old(steps) + seq(if old(n) > 0 then 2 * old(n) + 2 else 0, _ => CommitStep)
      ensures at.history == if old(n) > 0 then old(at.history) + [old(at.group)] else old(at.history)
    {
      hide Tracks;
      if n > 0 {
        ghost var m := n;
        WriteLog();
        WriteHead();
        InstallTrans();
        ClearHeader();
        assert steps == old(steps) + (seq(m, _ => CommitStep) + [CommitStep] + seq(m, _ => CommitStep) + [CommitStep]);
        assert seq(m, _ => CommitStep) + [CommitStep] + seq(m, _ => CommitStep) + [CommitStep] == seq(2 * m + 2, _ => CommitStep);
      }
    }

    /**
     end_op. The last operation out commits before it returns: the open transaction is then in
     the history, with the whole log of every operation in it.
     */
    method EndOp(ghost k: nat)
      requires Valid() && k < |at.ops| && at.ops[k].pending == Nothing
      modifies this
      ensures Valid() && outstanding == old(outstanding) - 1
      ensures old(outstanding) > 1 ==> steps == old(steps) + [Step.EndOp(k)] && disk == old(disk) && n == old(n)
      ensures old(outstanding) == 1 ==> n == 0 && dirty == map[] && SameHome(c, disk, ApplyAll(s0.disk, at.history))
      ensures at.history == if old(outstanding) == 1 && old(n) > 0 then old(at.history) + [old(at.group)] else old(at.history)
    {
      hide Tracks;
      outstanding := outstanding - 1;
      Take(Step.EndOp(k));
      if outstanding == 0 {
        committing := true;
        Commit();
        Ready();
        Take(CommitStep);
        committing := false;
        Rested();
      }
    }

    /** read_head: copy count and entries from the header block. */
    method ReadHead()
      requires Tracks() && Same() && at.phase == RecoverRead
      modifies this`n, block, this`steps, this`at
      ensures Tracks() && Same() && at.phase == RecoverInstall(0) && steps == old(steps) + [CommitStep]
      ensures at.history == old(at.history)
    {
      hide Tracks;
      Ready();
      var hb := disk[c.start];
      n := hb[0];
      var i := 0;
      while i < n
        modifies block
        invariant 0 <= i <= n == hb[0] <= block.Length && n < |hb|
        invariant forall j :: 0 <= j < i ==> block[j] == hb[1 + j]
      {
        block[i] := hb[1 + i];
        i := i + 1;
      }
      assert block[..n] == Decode(hb);
      Take(CommitStep);
    }

    /** recover_from_log: whatever the crash left, the committed transactions are in place after it. */
    method RecoverFromLog()
      requires Tracks() && Same() && at.phase == RecoverRead && outstanding == 0 && !committing
      modifies this, block
      ensures Valid() && n == 0 && at.history == old(at.history)
      ensures SameHome(c, disk, ApplyAll(s0.disk, at.history))
    {
      hide Tracks;
      ReadHead();
      InstallTrans();
      Ready();
      Take(CommitStep);
      Ready();
      ClearHeader();
      Rested();
    }

    lemma Rested()
      requires Tracks() && at.phase == Idle
      ensures SameHome(c, at.disk, ApplyAll(s0.disk, at.history))
      ensures at.ops == [] ==> at.dirty == map[]
    {
      RunInv(c, s0, steps);
      RestingDisk(c, s0, steps);
    }

    /** Power is lost and comes back: memory starts afresh, the device does not. */
    method Reboot()
      requires Tracks() && Same()
      modifies this
      ensures Tracks() && Same() && at.phase == RecoverRead && outstanding == 0 && !committing
      ensures disk == old(disk) && at.history == old(at.history)
    {
      hide Tracks;
      n, outstanding, committing, dirty := 0, 0, false, map[];
      assert block[..n] == [];
      Take(Crash);
    }
  }
}
