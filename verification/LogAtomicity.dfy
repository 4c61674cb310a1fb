/**
 Operations are atomic and durable, in every run of the log machine.
 */
module LogAtomicity {
  import opened LogMachine
  import opened LogSafety

  lemma {:induction false} ProjectMember(recs: seq<Rec>, o: nat)
    requires Project(recs, o) != []
    ensures exists i :: 0 <= i < |recs| && recs[i].op == o
  {
    var n := |recs| - 1;
    if recs[n].op != o {
      ProjectMember(recs[..n], o);
      var i :| 0 <= i < n && recs[..n][i].op == o;
      assert recs[i].op == o;
    }
  }

  lemma ProjectAppend(recs: seq<Rec>, r: Rec, o: nat)
    ensures Project(recs + [r], o) == Project(recs, o) + (if r.op == o then [r] else [])
  {
    assert (recs + [r])[..|recs|] == recs;
  }

  lemma {:induction false} ProjectAbsent(recs: seq<Rec>, o: nat)
    requires forall i :: 0 <= i < |recs| ==> recs[i].op != o
    ensures Project(recs, o) == []
  {
    if recs != [] { ProjectAbsent(recs[..|recs| - 1], o); }
  }

  /** Records of the open transaction come from its own operations, each with its whole log. */
  ghost predicate OpenInv(group: seq<Rec>, ops: seq<Op>, ended: map<nat, seq<Rec>>, first: nat, nextId: nat) {
    && first <= nextId
    && InRange(group, ended, first, nextId)
    && OpsOk(group, ops, ended, first, nextId)
    && DistinctIds(ops)
    && Accounted(group, ops, ended, first, nextId)
  }

  ghost predicate InRange(group: seq<Rec>, ended: map<nat, seq<Rec>>, first: nat, nextId: nat) {
    && (forall i :: 0 <= i < |group| ==> first <= group[i].op < nextId)
    && (forall o :: o in ended ==> o < nextId)
  }

  ghost predicate OpsOk(group: seq<Rec>, ops: seq<Op>, ended: map<nat, seq<Rec>>, first: nat, nextId: nat) {
    forall k :: 0 <= k < |ops| ==>
      && first <= ops[k].id < nextId
      && ops[k].id !in ended
      && ops[k].logged == Project(group, ops[k].id)
  }

  ghost predicate DistinctIds(ops: seq<Op>) {
    forall j, k :: 0 <= j < k < |ops| ==> ops[j].id != ops[k].id
  }

  ghost predicate Accounted(group: seq<Rec>, ops: seq<Op>, ended: map<nat, seq<Rec>>, first: nat, nextId: nat) {
    forall o: nat :: first <= o < nextId && !IsOpen(ops, o) ==> o in ended && ended[o] == Project(group, o)
  }

  ghost predicate IsOpen(ops: seq<Op>, o: nat) {
    exists k :: 0 <= k < |ops| && ops[k].id == o
  }

  /** Each operation appears in at most one committed transaction, and there with its whole log. */
  ghost predicate WholeOps(history: seq<seq<Rec>>, ended: map<nat, seq<Rec>>) {
    Complete(history, ended) && Separate(history)
  }

  ghost predicate Complete(history: seq<seq<Rec>>, ended: map<nat, seq<Rec>>) {
    forall k, o: nat :: 0 <= k < |history| && Project(history[k], o) != [] ==>
      o in ended && ended[o] == Project(history[k], o)
  }

  ghost predicate Separate(history: seq<seq<Rec>>) {
    forall j, k, o: nat :: 0 <= j < k < |history| ==> Project(history[j], o) == [] || Project(history[k], o) == []
  }

  /** Every ended operation that is not in the open transaction and not lost is committed. */
  ghost predicate Durable(history: seq<seq<Rec>>, ended: map<nat, seq<Rec>>, lost: set<nat>, first: nat) {
    forall o :: o in ended && o < first && o !in lost && ended[o] != [] ==>
      exists k :: 0 <= k < |history| && Project(history[k], o) == ended[o]
  }

  /** A crash erases an operation wholly: a lost one is in no committed transaction. */
  ghost predicate LostInv(history: seq<seq<Rec>>, lost: set<nat>, first: nat) {
    && (forall k, o: nat :: 0 <= k < |history| && Project(history[k], o) != [] ==> o < first)
    && (forall o :: o in lost ==> o < first)
    && (forall k, o: nat :: 0 <= k < |history| && o in lost ==> Project(history[k], o) == [])
  }

  ghost predicate OpsInv(s: State) {
    && OpenInv(s.group, s.ops, s.ended, s.first, s.nextId)
    && WholeOps(s.history, s.ended)
    && Durable(s.history, s.ended, s.lost, s.first)
    && LostInv(s.history, s.lost, s.first)
  }

  lemma BeginOps(c: Config, s: State)
    requires c.WellFormed() && OpsInv(s) && CanBegin(c, s)
    ensures OpsInv(Do(c, s, BeginOp))
  {
    hide WholeOps, Durable, LostInv, OpenInv;
    BeginOpen(s.group, s.ops, s.ended, s.first, s.nextId);
  }

  lemma BeginOpen(group: seq<Rec>, ops: seq<Op>, ended: map<nat, seq<Rec>>, first: nat, nextId: nat)
    requires OpenInv(group, ops, ended, first, nextId)
    ensures OpenInv(group, ops + [Op(nextId, {}, Nothing, [])], ended, first, nextId + 1)
  {
    var all := ops + [Op(nextId, {}, Nothing, [])];
    ProjectAbsent(group, nextId);
    hide Project;
    forall o: nat | first <= o <= nextId && !IsOpen(all, o) ensures o in ended && ended[o] == Project(group, o) {
      assert all[|ops|].id == nextId;
      assert forall k :: 0 <= k < |ops| ==> ops[k] == all[k];
    }
  }

  lemma AppendOps(s: State, k: nat, data: Block)
    requires OpsInv(s) && k < |s.ops| && s.ops[k].pending.Checked?
    ensures OpsInv(Append(s, k, data))
  {
    var t := Append(s, k, data);
    var rec := t.group[|s.group|];
    assert forall j :: 0 <= j < |s.ops| ==> t.ops[j].id == s.ops[j].id;
    forall j | 0 <= j < |t.ops| ensures t.ops[j].logged == Project(t.group, t.ops[j].id) {
      ProjectAppend(s.group, rec, s.ops[j].id);
    }
    forall o: nat | s.first <= o < s.nextId && !IsOpen(t.ops, o)
      ensures o in t.ended && t.ended[o] == Project(t.group, o)
    {
      assert t.ops[k].id != o;
      ProjectAppend(s.group, rec, o);
    }
  }

  lemma EndOps(s: State, k: nat)
    requires OpsInv(s) && k < |s.ops|
    ensures OpsInv(End(s, k))
  {
    EndOpen(s, k);
    var t := End(s, k);
    assert forall o :: o in s.ended ==> o in t.ended && t.ended[o] == s.ended[o];
  }

  lemma EndOpen(s: State, k: nat)
    requires OpenInv(s.group, s.ops, s.ended, s.first, s.nextId) && k < |s.ops|
    ensures var t := End(s, k); OpenInv(t.group, t.ops, t.ended, t.first, t.nextId)
  {
    RemoveAt(s.ops, k);
    EndAccounted(s.group, s.ops, s.ended, s.first, s.nextId, k);
    var t := End(s, k);
    forall j | 0 <= j < |t.ops|
      ensures s.first <= t.ops[j].id < s.nextId && t.ops[j].id !in t.ended
      ensures t.ops[j].logged == Project(s.group, t.ops[j].id)
    {
      assert t.ops[j] in s.ops && t.ops[j].id != s.ops[k].id;
    }
  }

  lemma RemoveAt(ops: seq<Op>, k: nat)
    requires DistinctIds(ops) && k < |ops|
    ensures var rest := ops[..k] + ops[k + 1..];
            && DistinctIds(rest)
            && (forall j :: 0 <= j < |rest| ==> rest[j] in ops && rest[j].id != ops[k].id)
  {
    var rest := ops[..k] + ops[k + 1..];
    forall j | 0 <= j < |rest| ensures rest[j] in ops && rest[j].id != ops[k].id {
      var i := if j < k then j else j + 1;
      assert rest[j] == ops[i];
    }
    forall j, l | 0 <= j < l < |rest| ensures rest[j].id != rest[l].id {
      var i, m := if j < k then j else j + 1, if l < k then l else l + 1;
      assert rest[j] == ops[i] && rest[l] == ops[m];
    }
  }

  lemma EndAccounted(group: seq<Rec>, ops: seq<Op>, ended: map<nat, seq<Rec>>, first: nat, nextId: nat, k: nat)
    requires k < |ops| && Accounted(group, ops, ended, first, nextId) && ops[k].logged == Project(group, ops[k].id)
    ensures Accounted(group, ops[..k] + ops[k + 1..], ended[ops[k].id := ops[k].logged], first, nextId)
  {
    var rest := ops[..k] + ops[k + 1..];
    forall o: nat | IsOpen(ops, o) && o != ops[k].id ensures IsOpen(rest, o) {
      var j :| 0 <= j < |ops| && ops[j].id == o;
      assert rest[if j < k then j else j - 1] == ops[j];
    }
  }

  lemma GroupEnded(group: seq<Rec>, ended: map<nat, seq<Rec>>, first: nat, nextId: nat, o: nat)
    requires OpenInv(group, [], ended, first, nextId) && Project(group, o) != []
    ensures first <= o < nextId && o in ended && ended[o] == Project(group, o)
  {
    ProjectMember(group, o);
    assert !IsOpen([], o);
  }

  /** Closing a group whose operations have all ended keeps every committed operation whole. */
  lemma CommitComplete(history: seq<seq<Rec>>, group: seq<Rec>, ended: map<nat, seq<Rec>>, first: nat, nextId: nat)
    requires Complete(history, ended)
    requires OpenInv(group, [], ended, first, nextId)
    ensures Complete(history + [group], ended)
  {
    var h := history + [group];
    forall k, o: nat | 0 <= k < |h| && Project(h[k], o) != [] ensures o in ended && ended[o] == Project(h[k], o) {
      if k == |history| { GroupEnded(group, ended, first, nextId, o); } else { assert h[k] == history[k]; }
    }
  }

  lemma CommitSeparate(history: seq<seq<Rec>>, group: seq<Rec>, ended: map<nat, seq<Rec>>, lost: set<nat>, first: nat, nextId: nat)
    requires Separate(history) && LostInv(history, lost, first)
    requires OpenInv(group, [], ended, first, nextId)
    ensures Separate(history + [group])
  {
    var h := history + [group];
    forall j, k, o: nat | 0 <= j < k < |h| ensures Project(h[j], o) == [] || Project(h[k], o) == [] {
      assert h[j] == history[j];
      if k < |history| {
        assert h[k] == history[k];
      } else if Project(h[j], o) != [] && Project(group, o) != [] {
        GroupEnded(group, ended, first, nextId, o);
        assert false;
      }
    }
  }

  lemma CommitLost(history: seq<seq<Rec>>, group: seq<Rec>, ended: map<nat, seq<Rec>>, lost: set<nat>, first: nat, nextId: nat)
    requires LostInv(history, lost, first)
    requires OpenInv(group, [], ended, first, nextId)
    ensures LostInv(history + [group], lost, nextId)
  {
    var h := history + [group];
    forall k, o: nat | 0 <= k < |h| && Project(h[k], o) != [] ensures o < nextId {
      if k == |history| { GroupEnded(group, ended, first, nextId, o); } else { assert h[k] == history[k]; }
    }
    forall k, o: nat | 0 <= k < |h| && o in lost ensures Project(h[k], o) == [] {
      if k < |history| { assert h[k] == history[k]; }
      else if Project(h[k], o) != [] { GroupEnded(group, ended, first, nextId, o); }
    }
  }

  lemma CommitDurable(history: seq<seq<Rec>>, group: seq<Rec>, ended: map<nat, seq<Rec>>, lost: set<nat>, first: nat, nextId: nat)
    requires Durable(history, ended, lost, first)
    requires OpenInv(group, [], ended, first, nextId)
    ensures Durable(history + [group], ended, lost, nextId)
  {
    var n := |history|;
    var h := history + [group];
    forall o: nat | o in ended && o < nextId && o !in lost && ended[o] != []
      ensures exists k :: 0 <= k < |h| && Project(h[k], o) == ended[o]
    {
      if o < first {
        var k :| 0 <= k < n && Project(history[k], o) == ended[o];
        assert h[k] == history[k];
      } else {
        assert !IsOpen([], o);
        assert Project(h[n], o) == ended[o];
      }
    }
  }

  /** At the commit point no operation is outstanding, so the group consists of whole operations. */
  lemma CommitOps(c: Config, s: State)
    requires c.WellFormed() && OpsInv(s) && s.phase.WriteHead? && s.ops == [] && Enabled(c, s, CommitStep)
    ensures OpsInv(Advance(c, s))
  {
    CommitComplete(s.history, s.group, s.ended, s.first, s.nextId);
    CommitSeparate(s.history, s.group, s.ended, s.lost, s.first, s.nextId);
    CommitLost(s.history, s.group, s.ended, s.lost, s.first, s.nextId);
    CommitDurable(s.history, s.group, s.ended, s.lost, s.first, s.nextId);
  }

  lemma CrashOps(c: Config, s: State)
    requires c.WellFormed() && OpsInv(s)
    ensures OpsInv(Do(c, s, Crash))
  {
    var t := Do(c, s, Crash);
    forall o | o in t.ended && o < t.first && o !in t.lost && t.ended[o] != []
      ensures exists k :: 0 <= k < |t.history| && Project(t.history[k], o) == t.ended[o]
    {
      if s.first <= o {
        if Project(s.group, o) != [] { ProjectMember(s.group, o); }
      }
    }
    forall k, o: nat | 0 <= k < |t.history| && o in t.lost ensures Project(t.history[k], o) == [] {
      if o !in s.lost {
        var r :| r in s.group && r.op == o;
        assert s.first <= o;
      }
    }
  }

  lemma CheckOpen(group: seq<Rec>, ops: seq<Op>, ended: map<nat, seq<Rec>>, first: nat, nextId: nat, k: nat, b: nat)
    requires OpenInv(group, ops, ended, first, nextId) && k < |ops|
    ensures OpenInv(group, ops[k := ops[k].(pending := Checked(b))], ended, first, nextId)
  {
    var ops' := ops[k := ops[k].(pending := Checked(b))];
    assert forall j :: 0 <= j < |ops| ==> ops'[j].id == ops[j].id && ops'[j].logged == ops[j].logged;
    forall o: nat | IsOpen(ops, o) ensures IsOpen(ops', o) {
      var j :| 0 <= j < |ops| && ops[j].id == o;
      assert ops'[j].id == o;
    }
  }

  lemma CheckOps(c: Config, s: State, k: nat, b: nat)
    requires c.WellFormed() && OpsInv(s) && Enabled(c, s, LogCheck(k, b))
    ensures OpsInv(Do(c, s, LogCheck(k, b)))
  {
    CheckOpen(s.group, s.ops, s.ended, s.first, s.nextId, k, b);
  }

  lemma StepOps(c: Config, s: State, step: Step)
    requires c.WellFormed() && Phased(s) && OpsInv(s) && Enabled(c, s, step)
    ensures OpsInv(Do(c, s, step))
  {
    match step
    case BeginOp => BeginOps(c, s);
    case LogCheck(k, b) => CheckOps(c, s, k, b);
    case LogAppend(k, data) => AppendOps(s, k, data);
    case EndOp(k) => EndOps(s, k);
    case Crash => CrashOps(c, s);
    case CommitStep => if s.phase.WriteHead? { CommitOps(c, s); }
  }

  // ----- main results -----

  /** In every run, whatever the operations log, the history is made of whole operations and is all that is committed. */
  lemma {:induction false} RunFacts(c: Config, s0: State, steps: seq<Step>)
    requires c.WellFormed() && Init(c, s0) && Run(c, s0, steps)
    ensures Phased(After(c, s0, steps)) && OpsInv(After(c, s0, steps))
    ensures After(c, s0, steps).stable == ApplyAll(s0.disk, After(c, s0, steps).history)
    decreases |steps|
  {
    RunPhased(c, s0, steps);
    if steps != [] {
      var n := |steps| - 1;
      RunFacts(c, s0, steps[..n]);
      var s := After(c, s0, steps[..n]);
      StepOps(c, s, steps[n]);
      StepStable(c, s, steps[n], s0.disk);
    }
  }

  lemma StepStable(c: Config, s: State, step: Step, d: Disk)
    requires c.WellFormed() && Enabled(c, s, step) && s.stable == ApplyAll(d, s.history)
    ensures Do(c, s, step).stable == ApplyAll(d, Do(c, s, step).history)
  {
    var t := Do(c, s, step);
    if t.history != s.history { assert t.history[..|s.history|] == s.history; }
  }

  /**
   Crash atomicity. Stop any run anywhere, between two block writes of a commit or of a
   recovery, and run recovery to its end: the home blocks are those of the transactions
   committed so far, no more and no less, and each of these consists of whole operations.
   All that is asked of the run is that header and log region have room for what it commits.
   */
  lemma CrashAtomicity(c: Config, s0: State, steps: seq<Step>)
    requires c.WellFormed() && Init(c, s0) && SnugRun(c, s0, steps)
    ensures var s := After(c, s0, steps);
            && HeaderOk(c, s.disk) && c.Slot(|Header(c, s.disk)|) <= c.nblocks
            && SameHome(c, Recover(c, s.disk), ApplyAll(s0.disk, s.history))
            && WholeOps(s.history, s.ended)
  {
    RunFacts(c, s0, steps);
    RunInv(c, s0, steps);
    var s := After(c, s0, steps);
    RecoverRestores(c, s.disk, s.stable);
  }

  /** Outside a commit or recovery the home blocks themselves are the committed ones. */
  lemma RestingDisk(c: Config, s0: State, steps: seq<Step>)
    requires c.WellFormed() && Init(c, s0) && SnugRun(c, s0, steps)
    requires After(c, s0, steps).phase == Idle
    ensures SameHome(c, After(c, s0, steps).disk, ApplyAll(s0.disk, After(c, s0, steps).history))
  {
    RunFacts(c, s0, steps);
    RunInv(c, s0, steps);
  }

  lemma StepHistory(c: Config, s: State, step: Step)
    requires c.WellFormed() && Enabled(c, s, step)
    ensures s.history <= Do(c, s, step).history
  {
  }

  /** Commits are never taken back, by later steps or by crashes. */
  lemma {:induction false} HistoryGrows(c: Config, s0: State, steps: seq<Step>, k: nat)
    requires c.WellFormed() && Run(c, s0, steps) && k <= |steps|
    ensures Run(c, s0, steps[..k])
    ensures After(c, s0, steps[..k]).history <= After(c, s0, steps).history
    decreases |steps|
  {
    if k == |steps| {
      assert steps[..k] == steps;
    } else {
      var n := |steps| - 1;
      HistoryGrows(c, s0, steps[..n], k);
      assert steps[..n][..k] == steps[..k];
      StepHistory(c, After(c, s0, steps[..n]), steps[n]);
    }
  }

  /**
   When the committing end_op has finished, every operation that ever ended is committed with
   its whole log, unless it belonged to a transaction that a crash erased before its commit
   point; such an operation left no trace.
   */
  lemma CommitIsDurable(c: Config, s0: State, steps: seq<Step>, o: nat)
    requires c.WellFormed() && Init(c, s0) && Run(c, s0, steps)
    requires var s := After(c, s0, steps); s.phase == Done || (s.phase == Idle && s.ops == [])
    requires o in After(c, s0, steps).ended
    ensures var s := After(c, s0, steps);
            if o in s.lost then forall k :: 0 <= k < |s.history| ==> Project(s.history[k], o) == []
            else s.ended[o] == [] || exists k :: 0 <= k < |s.history| && Project(s.history[k], o) == s.ended[o]
  {
    RunFacts(c, s0, steps);
    var s := After(c, s0, steps);
    assert s.ops == [] && s.group == [];
    if o !in s.lost && s.first <= o {
      assert !IsOpen(s.ops, o);
      assert s.ended[o] == Project(s.group, o);
    }
  }

  /**
   Log space: in every interleaving of operations that log at most MAXOPBLOCKS blocks each, lh.n plus all
   unspent reservations stays within LOGSIZE, so the header array never overflows. With no operation outstanding and no commit running the
   log is empty and begin_op goes through.
   */
  lemma LogSpace(c: Config, s0: State, steps: seq<Step>)
    requires c.WellFormed() && Init(c, s0) && ThriftyRun(c, s0, steps)
    ensures var s := After(c, s0, steps);
            && |s.lh| + Unspent(s.ops, c.maxOp) <= c.logSize && 0 <= Unspent(s.ops, c.maxOp)
            && (s.phase == Idle && s.ops == [] ==> s.lh == [] && CanBegin(c, s))
            && (s.ops != [] ==> s.phase == Idle || s.phase == Panicked)
            && (c.Fits() ==> forall i :: 0 <= i < |s.lh| ==> c.start < c.Slot(i) < c.start + c.size)
  {
    RunSound(c, s0, steps);
    var s := After(c, s0, steps);
    SpaceRoom(c, s.lh, s.ops);
  }

  /** The committing thread is never stuck: every commit and every recovery runs to its end. */
  lemma NeverStuck(c: Config, s0: State, steps: seq<Step>)
    requires c.WellFormed() && Init(c, s0) && SnugRun(c, s0, steps)
    requires After(c, s0, steps).phase != Idle && After(c, s0, steps).phase != Panicked
    ensures Enabled(c, After(c, s0, steps), CommitStep)
  {
    RunInv(c, s0, steps);
  }
}
