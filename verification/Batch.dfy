/** Batch execution (batch.rs) as a function of the machine state, and what it
    refines: the reference machine running transactions one at a time. */
module Batch {
  import opened Types
  import opened Overlay
  import opened Store
  import opened Partition
  import opened TimeTravel
  import opened View
  import opened Warming
  import opened Lifecycle
  import opened Planner
  import opened Machine
  import opened StageRun
  import H = History

  // ----- One transaction on the live machine -----

  function LiveView(sv: Services, ex: Executor, vm: VmState, tx: Tx): AccountView {
    map a | a in Observed(ex, tx) :: Read(sv, vm.accounts.db, a)
  }

  function LiveOutcome(sv: Services, ex: Executor, vm: VmState, tx: Tx): DetachedTx {
    TransactDetached(ex, tx, LiveView(sv, ex, vm, tx), H.Check(vm.history, tx.signature))
  }

  /** `staged` is false when the accounts of an outcome were refused and rolled back. */
  datatype Sent = Sent(vm: VmState, result: TransactionResult, staged: bool)

  function SendLive(sv: Services, ex: Executor, vm: VmState, tx: Tx): Sent {
    var d := LiveOutcome(sv, ex, vm, tx);
    match Lifecycle.Stage(sv, vm, d)
    case Live(live, staged) => Sent(Commit(live, staged), staged.result, true)
    case Refused(kept, result) => Sent(kept, result, d.fatal)
  }

  // ----- One stage -----

  function StaticKeys(tx: Tx): seq<Address> {
    seq(if tx.numStatic < |tx.keys| then tx.numStatic else |tx.keys|,
        i requires 0 <= i < |tx.keys| => tx.keys[i].address)
  }

  function AppendNew(union: seq<Address>, keys: seq<Address>): seq<Address>
    decreases |keys|
  {
    if keys == [] then union
    else AppendNew(if keys[0] in union then union else union + [keys[0]], keys[1..])
  }

  /** The union of the static keys of a stage, each once, in order of first use. */
  function ReadSet(txs: seq<Tx>, members: seq<nat>): seq<Address>
    requires InRange(txs, members)
  {
    if members == [] then []
    else AppendNew(ReadSet(txs, members[..|members| - 1]), StaticKeys(txs[members[|members| - 1]]))
  }

  /** Applies, in order, the deltas the members had on the snapshot. */
  function MergeLive(
    sv: Services, ex: Executor, snapshot: VmState, vm: VmState, txs: seq<Tx>, members: seq<nat>): Applied
    requires InRange(txs, members)
    decreases |members|
  {
    if members == [] then Applied(vm, true)
    else
      var delta := DeltaOf(LiveOutcome(sv, ex, snapshot, txs[members[0]]), snapshot.history.max != 0);
      var applied := ApplyCommitDelta(sv, vm, delta);
      if applied.ok then MergeLive(sv, ex, snapshot, applied.vm, txs, members[1..]) else applied
  }

  function LiveResults(
    sv: Services, ex: Executor, snapshot: VmState, txs: seq<Tx>, members: seq<nat>): map<nat, TransactionResult>
    requires InRange(txs, members)
  {
    map i | i in members :: ResultOf(LiveOutcome(sv, ex, snapshot, txs[i]))
  }

  /** The members whose outcome has effects. */
  function Included(sv: Services, ex: Executor, snapshot: VmState, txs: seq<Tx>, members: seq<nat>): set<nat>
    requires InRange(txs, members)
  {
    set i | i in members && LiveOutcome(sv, ex, snapshot, txs[i]).included
  }

  datatype Status = Finished | SourceFailed(stage: nat) | MergePanicked(stage: nat)

  /** A batch run so far: the machine, the results, the transactions whose
      effects were kept (after a panic: may have been written in part), and the
      single-transaction stages whose accounts were refused. */
  datatype BatchRun = BatchRun(
    vm: VmState,
    results: map<nat, TransactionResult>,
    committed: set<nat>,
    status: Status,
    refused: set<nat>)

  function WarmUp(sv: Services, vm: VmState, txs: seq<Tx>, members: seq<nat>): Applied
    requires InRange(txs, members)
  {
    var warmed := Warm(sv, vm.accounts, ReadSet(txs, members));
    Applied(vm.(accounts := warmed.state), warmed.ok)
  }

  /** Runs stage `k` on a finished run: alone on the live machine, or all
      members on one warmed-up snapshot. */
  function RunStage(sv: Services, ex: Executor, run: BatchRun, txs: seq<Tx>, members: seq<nat>, k: nat): BatchRun
    requires InRange(txs, members)
  {
    if |members| == 1 then
      var sent := SendLive(sv, ex, run.vm, txs[members[0]]);
      BatchRun(
        sent.vm, run.results[members[0] := sent.result],
        if sent.staged then run.committed + Included(sv, ex, run.vm, txs, members) else run.committed,
        Finished, if sent.staged then run.refused else run.refused + {members[0]})
    else
      var warmed := WarmUp(sv, run.vm, txs, members);
      if !warmed.ok then run.(vm := warmed.vm, status := SourceFailed(k))
      else
        var merged := MergeLive(sv, ex, warmed.vm, warmed.vm, txs, members);
        if merged.ok then
          BatchRun(
            merged.vm, run.results + LiveResults(sv, ex, warmed.vm, txs, members),
            run.committed + Included(sv, ex, warmed.vm, txs, members), Finished, run.refused)
        else
          run.(
            vm := merged.vm, committed := run.committed + Included(sv, ex, warmed.vm, txs, members),
            status := MergePanicked(k))
  }

  predicate StagesInRange(txs: seq<Tx>, stages: seq<Planner.Stage>) {
    forall s :: 0 <= s < |stages| ==> InRange(txs, stages[s].indexes)
  }

  /** Runs stages in order, stopping at the first failure. */
  function RunStages(sv: Services, ex: Executor, vm: VmState, txs: seq<Tx>, stages: seq<Planner.Stage>): BatchRun
    requires StagesInRange(txs, stages)
  {
    if stages == [] then BatchRun(vm, map[], {}, Finished, {})
    else
      var n := |stages| - 1;
      var before := RunStages(sv, ex, vm, txs, stages[..n]);
      if before.status.Finished? then RunStage(sv, ex, before, txs, stages[n].indexes, n) else before
  }

  function AllLocks(ex: Executor, txs: seq<Tx>): seq<LockSet> {
    seq(|txs|, i requires 0 <= i < |txs| => LocksOf(ex, txs[i]))
  }

  lemma PlanStep(ex: Executor, txs: seq<Tx>, n: nat)
    requires n < |txs|
    ensures PlanOf(AllLocks(ex, txs), n + 1) == Place(PlanOf(AllLocks(ex, txs), n), n, LocksOf(ex, txs[n]))
  {}

  // ----- Refinement -----

  /** The live machine shows the accounts and the history of the reference machine. */
  ghost predicate Tracks(sv: Services, vm: VmState, f: FlatState) {
    Refines(sv, vm.accounts.db, f.known) && vm.history == f.history
  }

  lemma TracksInitially(sv: Services, vm: VmState)
    ensures Tracks(sv, vm, FlatState(Flatten(vm.accounts.db), vm.history))
  {}

  lemma SameOutcome(sv: Services, ex: Executor, vm: VmState, f: FlatState, tx: Tx)
    requires Tracks(sv, vm, f)
    ensures LiveOutcome(sv, ex, vm, tx) == Outcome(sv, ex, f, tx)
  {
    assert LiveView(sv, ex, vm, tx) == Observe(sv, ex, f.known, tx);
  }

  lemma {:induction false} OverwriteRespectsReads(
    sv: Services, m: map<Address, Option<Account>>, n: map<Address, Option<Account>>, delta: Delta)
    requires forall a: Address :: ReadFlat(sv, m, a) == ReadFlat(sv, n, a)
    ensures forall a: Address :: ReadFlat(sv, Overwrite(m, delta), a) == ReadFlat(sv, Overwrite(n, delta), a)
    decreases |delta|
  {
    if delta != [] {
      var b, v := delta[0].0, Stored(delta[0].1);
      var m', n' := m[b := v], n[b := v];
      forall a: Address ensures ReadFlat(sv, m', a) == ReadFlat(sv, n', a) {
        assert ReadFlat(sv, m, a) == ReadFlat(sv, n, a);
      }
      OverwriteRespectsReads(sv, m', n', delta[1..]);
    }
  }

  /** Applying the delta of an outcome follows settling that outcome. */
  lemma ApplyTracks(sv: Services, vm: VmState, f: FlatState, d: DetachedTx)
    requires Tracks(sv, vm, f)
    requires var delta := DeltaOf(d, f.history.max != 0);
             Distinct(delta.postAccounts) && ApplyCommitDelta(sv, vm, delta).ok
    ensures Tracks(sv, ApplyCommitDelta(sv, vm, DeltaOf(d, f.history.max != 0)).vm, Settle(f, d))
  {
    var delta := DeltaOf(d, f.history.max != 0);
    var db, db' := vm.accounts.db, SyncAccounts(sv, vm.accounts, delta.postAccounts).state.db;
    SyncOverwrites(sv, vm.accounts, delta.postAccounts);
    forall a: Address ensures ReadFlat(sv, Flatten(db), a) == ReadFlat(sv, f.known, a) {
      assert Read(sv, db, a) == ReadFlat(sv, f.known, a);
    }
    OverwriteRespectsReads(sv, Flatten(db), f.known, delta.postAccounts);
    forall a: Address ensures Read(sv, db', a) == ReadFlat(sv, Settle(f, d).known, a) {
      assert Read(sv, db', a) == ReadFlat(sv, Flatten(db'), a);
    }
  }

  /** A transaction sent to the live machine behaves as on the reference
      machine unless its accounts were refused. */
  lemma SendTracks(sv: Services, ex: Executor, vm: VmState, f: FlatState, tx: Tx)
    requires Tracks(sv, vm, f) && DistinctKeys(tx)
    ensures var sent := SendLive(sv, ex, vm, tx);
            && sent.result == ResultOf(Outcome(sv, ex, f, tx))
            && Tracks(sv, sent.vm, if sent.staged then Send(sv, ex, f, tx) else f)
  {
    var d := LiveOutcome(sv, ex, vm, tx);
    SameOutcome(sv, ex, vm, f, tx);
    OutcomeWritesLocked(ex, tx, LiveView(sv, ex, vm, tx), H.Check(vm.history, tx.signature), vm.history.max != 0);
    CommitPathsAgree(sv, vm, d);
    if SendLive(sv, ex, vm, tx).staged && !d.fatal {
      ApplyTracks(sv, vm, f, d);
    }
  }

  lemma {:induction false} MergeTracks(
    sv: Services, ex: Executor, snapshot: VmState, vm: VmState, s: FlatState, f: FlatState, txs: seq<Tx>,
    members: seq<nat>)
    requires InRange(txs, members) && Tracks(sv, snapshot, s) && Tracks(sv, vm, f) && s.history.max == f.history.max
    requires forall p :: 0 <= p < |members| ==> DistinctKeys(txs[members[p]])
    requires MergeLive(sv, ex, snapshot, vm, txs, members).ok
    ensures Tracks(sv, MergeLive(sv, ex, snapshot, vm, txs, members).vm, Merge(sv, ex, s, f, txs, members))
    decreases |members|
  {
    if members != [] {
      var tx := txs[members[0]];
      var d := LiveOutcome(sv, ex, snapshot, tx);
      SameOutcome(sv, ex, snapshot, s, tx);
      OutcomeWritesLocked(
        ex, tx, LiveView(sv, ex, snapshot, tx), H.Check(snapshot.history, tx.signature), f.history.max != 0);
      ApplyTracks(sv, vm, f, d);
      MergeTracks(
        sv, ex, snapshot, ApplyCommitDelta(sv, vm, DeltaOf(d, f.history.max != 0)).vm, s, Settle(f, d), txs,
        members[1..]);
    }
  }

  /** Warming up changes neither what is read nor the history, even when it fails. */
  lemma WarmUpTracks(sv: Services, vm: VmState, f: FlatState, txs: seq<Tx>, members: seq<nat>)
    requires InRange(txs, members) && Tracks(sv, vm, f) && BatchAgrees(sv)
    ensures Tracks(sv, WarmUp(sv, vm, txs, members).vm, f)
  {
    var keys := ReadSet(txs, members);
    PrewarmTransparent(sv, vm.accounts, keys);
    var warmed := Prewarm(sv, vm.accounts, keys);
    if warmed.ok {
      UnresolvedCached(warmed.state, keys);
      LoadEachKeepsOverlay(sv, warmed.state, Unresolved(warmed.state, keys));
    }
    forall a: Address ensures Read(sv, WarmUp(sv, vm, txs, members).vm.accounts.db, a) == ReadFlat(sv, f.known, a) {
      assert Read(sv, warmed.state.db, a) == Read(sv, vm.accounts.db, a) == ReadFlat(sv, f.known, a);
    }
  }

  /** A finished run has a result for every listed transaction and no other. */
  ghost predicate Covers(run: BatchRun, order: seq<nat>) {
    run.status.Finished? ==> forall i: nat :: i in run.results <==> i in order
  }

  lemma {:induction false} RunResultKeys(
    sv: Services, ex: Executor, vm: VmState, txs: seq<Tx>, stages: seq<Planner.Stage>)
    requires StagesInRange(txs, stages)
    ensures Covers(RunStages(sv, ex, vm, txs, stages), OrderOf(stages))
    decreases |stages|
  {
    if stages != [] {
      var n := |stages| - 1;
      RunResultKeys(sv, ex, vm, txs, stages[..n]);
      StageCovers(sv, ex, RunStages(sv, ex, vm, txs, stages[..n]), txs, OrderOf(stages[..n]), stages[n].indexes, n);
    }
  }

  lemma StageCovers(sv: Services, ex: Executor, run: BatchRun, txs: seq<Tx>, done: seq<nat>, members: seq<nat>, k: nat)
    requires InRange(txs, members) && Covers(run, done)
    ensures Covers(if run.status.Finished? then RunStage(sv, ex, run, txs, members, k) else run, done + members)
  {
    if run.status.Finished? {
      StageResultKeys(sv, ex, run, txs, members, k);
    }
  }

  lemma LiveResultKeys(sv: Services, ex: Executor, snapshot: VmState, txs: seq<Tx>, members: seq<nat>)
    requires InRange(txs, members)
    ensures forall i: nat :: i in LiveResults(sv, ex, snapshot, txs, members) <==> i in members
  {}

  lemma StageResultKeys(sv: Services, ex: Executor, run: BatchRun, txs: seq<Tx>, members: seq<nat>, k: nat)
    requires InRange(txs, members)
    ensures var next := RunStage(sv, ex, run, txs, members, k);
            next.status.Finished? ==> forall i: nat :: i in next.results <==> i in run.results || i in members
  {
    var next := RunStage(sv, ex, run, txs, members, k);
    if |members| == 1 {
      var sent := SendLive(sv, ex, run.vm, txs[members[0]]);
      assert next.results == run.results[members[0] := sent.result];
    } else if next.status.Finished? {
      var warmed := WarmUp(sv, run.vm, txs, members);
      LiveResultKeys(sv, ex, warmed.vm, txs, members);
      assert warmed.ok ==>
        next.results == run.results || next.results == run.results + LiveResults(sv, ex, warmed.vm, txs, members);
    }
  }
}
