/** A batch against the source's own `send_transaction`: running a stage's
    members side by side leaves exactly the machine, caches and journal
    included, that sending them one after the other leaves. */
module Sequential {
  import opened Types
  import opened Overlay
  import opened Store
  import opened Partition
  import opened Lifecycle
  import opened Coherence
  import opened Staleness
  import opened Planner
  import opened Machine
  import opened StageRun
  import opened Batch
  import opened Serializability
  import H = History

  /** Where sending transactions one at a time leads, and those whose accounts
      were refused on the way. */
  datatype Sequel = Sequel(vm: VmState, results: map<nat, TransactionResult>, refused: set<nat>)

  function SendEach(sv: Services, ex: Executor, vm: VmState, txs: seq<Tx>, members: seq<nat>): Sequel
    requires InRange(txs, members)
    decreases |members|
  {
    if members == [] then Sequel(vm, map[], {})
    else
      var sent := SendLive(sv, ex, vm, txs[members[0]]);
      var rest := SendEach(sv, ex, sent.vm, txs, members[1..]);
      Sequel(
        rest.vm, rest.results[members[0] := sent.result],
        if sent.staged then rest.refused else rest.refused + {members[0]})
  }

  /** The stage without parallelism: the same warm-up, then one member at a
      time. Where the parallel merge panics, this stage is marked alike. */
  function SendStage(sv: Services, ex: Executor, run: BatchRun, txs: seq<Tx>, members: seq<nat>, k: nat): BatchRun
    requires InRange(txs, members)
  {
    var warmed := if |members| == 1 then Applied(run.vm, true) else WarmUp(sv, run.vm, txs, members);
    if !warmed.ok then run.(vm := warmed.vm, status := SourceFailed(k))
    else
      var sent := SendEach(sv, ex, warmed.vm, txs, members);
      if |members| != 1 && sent.refused != {} then run.(vm := sent.vm, status := MergePanicked(k))
      else run.(vm := sent.vm, results := run.results + sent.results)
  }

  function SendStages(sv: Services, ex: Executor, vm: VmState, txs: seq<Tx>, stages: seq<Planner.Stage>): BatchRun
    requires StagesInRange(txs, stages)
  {
    if stages == [] then BatchRun(vm, map[], {}, Finished, {})
    else
      var n := |stages| - 1;
      var before := SendStages(sv, ex, vm, txs, stages[..n]);
      if before.status.Finished? then SendStage(sv, ex, before, txs, stages[n].indexes, n) else before
  }

  // ----- One stage -----

  /** The members would do the same on either machine. */
  ghost predicate LiveOutcomesAgree(
    sv: Services, ex: Executor, snapshot: VmState, vm: VmState, txs: seq<Tx>, members: seq<nat>)
    requires InRange(txs, members)
  {
    forall p :: 0 <= p < |members| ==>
      LiveOutcome(sv, ex, snapshot, txs[members[p]]) == LiveOutcome(sv, ex, vm, txs[members[p]])
  }

  /** Sending is applying the delta of the outcome, or a refusal. */
  lemma SendIsApply(sv: Services, ex: Executor, vm: VmState, tx: Tx)
    ensures var sent := SendLive(sv, ex, vm, tx);
            var applied := ApplyCommitDelta(sv, vm, DeltaOf(LiveOutcome(sv, ex, vm, tx), vm.history.max != 0));
            && sent.result == ResultOf(LiveOutcome(sv, ex, vm, tx))
            && sent.staged == applied.ok && (sent.staged ==> sent.vm == applied.vm)
  {
    OutcomeWritesLocked(ex, tx, LiveView(sv, ex, vm, tx), H.Check(vm.history, tx.signature), vm.history.max != 0);
    CommitPathsAgree(sv, vm, LiveOutcome(sv, ex, vm, tx));
  }

  /** A send that is not refused leaves compatible transactions their outcome. */
  lemma SendKeepsLiveOutcome(sv: Services, ex: Executor, vm: VmState, head: Tx, tx: Tx, n: nat)
    requires DistinctKeys(head) && Compatible(ex, head, tx) && SendLive(sv, ex, vm, head).staged
    requires H.Valid(vm.history) && CheckStable(ex, vm.history, n + 1)
    ensures LiveOutcome(sv, ex, SendLive(sv, ex, vm, head).vm, tx) == LiveOutcome(sv, ex, vm, tx)
  {
    var f := Start(vm);
    TracksInitially(sv, vm);
    SendTracks(sv, ex, vm, f, head);
    SameOutcome(sv, ex, vm, f, tx);
    SameOutcome(sv, ex, SendLive(sv, ex, vm, head).vm, Send(sv, ex, f, head), tx);
    CompatibleKeepsOutcome(sv, ex, f, head, Observe(sv, ex, f.known, head), H.Check(f.history, head.signature), tx, n);
  }

  /** The history keeps its shape and its room through any send, refused or not. */
  lemma SendKeepsLiveHistory(sv: Services, ex: Executor, vm: VmState, tx: Tx, n: nat)
    requires DistinctKeys(tx) && H.Valid(vm.history) && CheckStable(ex, vm.history, n + 1)
    ensures var h := SendLive(sv, ex, vm, tx).vm.history;
            H.Valid(h) && CheckStable(ex, h, n) && h.max == vm.history.max
  {
    var f := Start(vm);
    TracksInitially(sv, vm);
    SendTracks(sv, ex, vm, f, tx);
    SendKeepsHistory(sv, ex, f, tx, n);
    OutcomeWritesLocked(ex, tx, LiveView(sv, ex, vm, tx), H.Check(vm.history, tx.signature), vm.history.max != 0);
    CommitPathsAgree(sv, vm, LiveOutcome(sv, ex, vm, tx));
  }

  lemma AgreementSurvives(sv: Services, ex: Executor, snapshot: VmState, vm: VmState, txs: seq<Tx>, members: seq<nat>)
    requires members != [] && InRange(txs, members) && AllCompatible(ex, txs, members)
    requires forall p :: 0 <= p < |members| ==> DistinctKeys(txs[members[p]])
    requires LiveOutcomesAgree(sv, ex, snapshot, vm, txs, members)
    requires H.Valid(vm.history) && CheckStable(ex, vm.history, |members|)
    requires SendLive(sv, ex, vm, txs[members[0]]).staged
    ensures AllCompatible(ex, txs, members[1..])
    ensures LiveOutcomesAgree(sv, ex, snapshot, SendLive(sv, ex, vm, txs[members[0]]).vm, txs, members[1..])
  {
    var rest := members[1..];
    forall p | 0 <= p < |rest|
      ensures LiveOutcome(sv, ex, snapshot, txs[rest[p]]) ==
              LiveOutcome(sv, ex, SendLive(sv, ex, vm, txs[members[0]]).vm, txs[rest[p]])
    {
      assert rest[p] == members[p + 1];
      SendKeepsLiveOutcome(sv, ex, vm, txs[members[0]], txs[rest[p]], |rest|);
    }
  }

  /** Merging the outcomes all members had on the snapshot is sending them one
      at a time: the merge panics exactly when one of the sends is refused, and
      otherwise leaves the very same machine. */
  lemma {:induction false} MergeIsSequential(
    sv: Services, ex: Executor, snapshot: VmState, vm: VmState, txs: seq<Tx>, members: seq<nat>)
    requires InRange(txs, members) && AllCompatible(ex, txs, members)
    requires forall p :: 0 <= p < |members| ==> DistinctKeys(txs[members[p]])
    requires LiveOutcomesAgree(sv, ex, snapshot, vm, txs, members) && snapshot.history.max == vm.history.max
    requires H.Valid(vm.history) && CheckStable(ex, vm.history, |members|)
    ensures var merged, sent := MergeLive(sv, ex, snapshot, vm, txs, members), SendEach(sv, ex, vm, txs, members);
            && (merged.ok <==> sent.refused == {}) && (merged.ok ==> merged.vm == sent.vm)
    decreases |members|
  {
    if members != [] {
      var head := txs[members[0]];
      var sent := SendLive(sv, ex, vm, head);
      SendIsApply(sv, ex, vm, head);
      if sent.staged {
        AgreementSurvives(sv, ex, snapshot, vm, txs, members);
        SendKeepsLiveHistory(sv, ex, vm, head, |members| - 1);
        MergeIsSequential(sv, ex, snapshot, sent.vm, txs, members[1..]);
      }
    }
  }

  lemma {:induction false} ResultsAreSequential(
    sv: Services, ex: Executor, snapshot: VmState, vm: VmState, txs: seq<Tx>, members: seq<nat>)
    requires InRange(txs, members) && AllCompatible(ex, txs, members)
    requires forall p :: 0 <= p < |members| ==> DistinctKeys(txs[members[p]])
    requires LiveOutcomesAgree(sv, ex, snapshot, vm, txs, members)
    requires H.Valid(vm.history) && CheckStable(ex, vm.history, |members|)
    requires SendEach(sv, ex, vm, txs, members).refused == {}
    ensures LiveResults(sv, ex, snapshot, txs, members) == SendEach(sv, ex, vm, txs, members).results
    decreases |members|
  {
    if members != [] {
      var head := txs[members[0]];
      SendIsApply(sv, ex, vm, head);
      AgreementSurvives(sv, ex, snapshot, vm, txs, members);
      SendKeepsLiveHistory(sv, ex, vm, head, |members| - 1);
      ResultsAreSequential(sv, ex, snapshot, SendLive(sv, ex, vm, head).vm, txs, members[1..]);
      LiveResultsOfCons(sv, ex, snapshot, txs, members);
    }
  }

  lemma LiveResultsOfCons(sv: Services, ex: Executor, snapshot: VmState, txs: seq<Tx>, members: seq<nat>)
    requires members != [] && InRange(txs, members)
    ensures LiveResults(sv, ex, snapshot, txs, members) ==
            LiveResults(sv, ex, snapshot, txs, members[1..])
              [members[0] := ResultOf(LiveOutcome(sv, ex, snapshot, txs[members[0]]))]
  {
    assert members == [members[0]] + members[1..];
  }

  lemma {:induction false} SendEachKeepsHistory(
    sv: Services, ex: Executor, vm: VmState, txs: seq<Tx>, members: seq<nat>, n: nat)
    requires InRange(txs, members) && (forall p :: 0 <= p < |members| ==> DistinctKeys(txs[members[p]]))
    requires |members| <= n && H.Valid(vm.history) && CheckStable(ex, vm.history, n)
    ensures var h := SendEach(sv, ex, vm, txs, members).vm.history; H.Valid(h) && CheckStable(ex, h, n - |members|)
    decreases |members|
  {
    if members != [] {
      SendKeepsLiveHistory(sv, ex, vm, txs[members[0]], n - 1);
      SendEachKeepsHistory(sv, ex, SendLive(sv, ex, vm, txs[members[0]]).vm, txs, members[1..], n - 1);
    }
  }

  // ----- What the members could see of the caches -----

  /** The delta member `m` has on the snapshot. */
  function SnapshotDelta(sv: Services, ex: Executor, snapshot: VmState, txs: seq<Tx>, m: nat): Delta
    requires m < |txs|
  {
    DeltaOf(LiveOutcome(sv, ex, snapshot, txs[m]), snapshot.history.max != 0).postAccounts
  }

  lemma {:induction false} MergeLeavesEntry(
    sv: Services, ex: Executor, snapshot: VmState, vm: VmState, txs: seq<Tx>, members: seq<nat>, b: Address)
    requires InRange(txs, members) && MergeLive(sv, ex, snapshot, vm, txs, members).ok && SettledAt(sv, vm.accounts, b)
    requires forall p :: 0 <= p < |members| ==>
               OutOfReach(sv, vm.accounts.db, SnapshotDelta(sv, ex, snapshot, txs, members[p]), b)
    ensures SameAt(vm.accounts, MergeLive(sv, ex, snapshot, vm, txs, members).vm.accounts, b)
    decreases |members|
  {
    if members != [] {
      var delta := SnapshotDelta(sv, ex, snapshot, txs, members[0]);
      SyncLeavesEntry(sv, vm.accounts, delta, b);
      var outcome := LiveOutcome(sv, ex, snapshot, txs[members[0]]);
      var applied := ApplyCommitDelta(sv, vm, DeltaOf(outcome, snapshot.history.max != 0)).vm;
      forall p | 0 <= p < |members[1..]|
        ensures OutOfReach(sv, applied.accounts.db, SnapshotDelta(sv, ex, snapshot, txs, members[1..][p]), b)
      {
        assert members[1..][p] == members[p + 1];
      }
      MergeLeavesEntry(sv, ex, snapshot, applied, txs, members[1..], b);
    }
  }

  /** The delta writes no sysvar and nothing the program at `b` names. */
  predicate SparesCaches(sv: Services, db: CacheDb, delta: Delta, b: Address) {
    && NoSysvars(delta)
    && (b in ProgramIds(db) && Names(sv, db.inner[b]).Some? ==> Names(sv, db.inner[b]).value !in Addresses(delta))
  }

  /** When its turn comes in the sequential run, a member finds in the program
      and sysvar caches, for every account it may look at, what the snapshot
      holds: provided the caches are settled there (coherent ones are settled
      everywhere), and no earlier member writes a sysvar or the programdata of a
      program it looks at. */
  lemma TurnSeesSnapshotCaches(
    sv: Services, ex: Executor, vm: VmState, txs: seq<Tx>, members: seq<nat>, p: nat, b: Address)
    requires InRange(txs, members) && AllCompatible(ex, txs, members) && p < |members|
    requires forall q :: 0 <= q < |members| ==> DistinctKeys(txs[members[q]])
    requires H.Valid(vm.history) && CheckStable(ex, vm.history, |members|)
    requires SendEach(sv, ex, vm, txs, members[..p]).refused == {}
    requires b in Observed(ex, txs[members[p]]) && SettledAt(sv, vm.accounts, b)
    requires forall q :: 0 <= q < p ==> SparesCaches(sv, vm.accounts.db, SnapshotDelta(sv, ex, vm, txs, members[q]), b)
    ensures SameAt(vm.accounts, SendEach(sv, ex, vm, txs, members[..p]).vm.accounts, b)
  {
    var before := members[..p];
    EarlierOutOfReach(sv, ex, vm, txs, members, p, b);
    MergeIsSequential(sv, ex, vm, vm, txs, before);
    MergeLeavesEntry(sv, ex, vm, vm, txs, before, b);
  }

  lemma EarlierOutOfReach(sv: Services, ex: Executor, vm: VmState, txs: seq<Tx>, members: seq<nat>, p: nat, b: Address)
    requires InRange(txs, members) && AllCompatible(ex, txs, members) && p < |members|
    requires b in Observed(ex, txs[members[p]])
    requires forall q :: 0 <= q < p ==> SparesCaches(sv, vm.accounts.db, SnapshotDelta(sv, ex, vm, txs, members[q]), b)
    ensures var before := members[..p];
            && InRange(txs, before) && AllCompatible(ex, txs, before)
            && forall q :: 0 <= q < |before| ==>
              OutOfReach(sv, vm.accounts.db, SnapshotDelta(sv, ex, vm, txs, before[q]), b)
  {
    forall q | 0 <= q < p ensures OutOfReach(sv, vm.accounts.db, SnapshotDelta(sv, ex, vm, txs, members[q]), b) {
      MemberWritesElsewhere(sv, ex, vm, txs, members, q, p, b);
    }
  }

  lemma MemberWritesElsewhere(
    sv: Services, ex: Executor, vm: VmState, txs: seq<Tx>, members: seq<nat>, q: nat, p: nat, b: Address)
    requires InRange(txs, members) && AllCompatible(ex, txs, members) && q < p < |members|
    requires b in Observed(ex, txs[members[p]])
    ensures b !in Addresses(SnapshotDelta(sv, ex, vm, txs, members[q]))
  {
    var tx := txs[members[q]];
    assert Compatible(ex, tx, txs[members[p]]);
    OutcomeWritesLocked(ex, tx, LiveView(sv, ex, vm, tx), H.Check(vm.history, tx.signature), vm.history.max != 0);
    ConflictFreeMeansUnobserved(ex, tx, txs[members[p]]);
  }

  // ----- All stages -----

  /** Two runs that ended alike; a panic leaves nothing to compare. */
  ghost predicate Alike(x: BatchRun, y: BatchRun) {
    && x.status == y.status
    && (!x.status.MergePanicked? ==> x.vm == y.vm && x.results == y.results)
  }

  lemma SingleIsSequential(
    sv: Services, ex: Executor, run: BatchRun, other: BatchRun, txs: seq<Tx>, members: seq<nat>, k: nat)
    requires InRange(txs, members) && |members| == 1 && run.status.Finished? && Alike(run, other)
    ensures Alike(RunStage(sv, ex, run, txs, members, k), SendStage(sv, ex, other, txs, members, k))
  {
    var sent := SendLive(sv, ex, run.vm, txs[members[0]]);
    SendEachOfOne(sv, ex, run.vm, txs, members);
    UpdateIsUnion(run.results, members[0], sent.result);
  }

  lemma SendEachOfOne(sv: Services, ex: Executor, vm: VmState, txs: seq<Tx>, members: seq<nat>)
    requires InRange(txs, members) && |members| == 1
    ensures var sent := SendLive(sv, ex, vm, txs[members[0]]);
            SendEach(sv, ex, vm, txs, members) ==
              Sequel(sent.vm, map[members[0] := sent.result], if sent.staged then {} else {members[0]})
  {
    var sent := SendLive(sv, ex, vm, txs[members[0]]);
    assert members[1..] == [];
    assert SendEach(sv, ex, sent.vm, txs, []) == Sequel(sent.vm, map[], {});
  }

  lemma StageIsSequential(
    sv: Services, ex: Executor, run: BatchRun, other: BatchRun, txs: seq<Tx>, members: seq<nat>, k: nat)
    requires InRange(txs, members) && AllCompatible(ex, txs, members)
    requires forall p :: 0 <= p < |members| ==> DistinctKeys(txs[members[p]])
    requires run.status.Finished? && Alike(run, other)
    requires H.Valid(run.vm.history) && CheckStable(ex, run.vm.history, |members|)
    ensures Alike(RunStage(sv, ex, run, txs, members, k), SendStage(sv, ex, other, txs, members, k))
  {
    if |members| == 1 {
      SingleIsSequential(sv, ex, run, other, txs, members, k);
    } else {
      var warmed := WarmUp(sv, run.vm, txs, members);
      if warmed.ok {
        MergeIsSequential(sv, ex, warmed.vm, warmed.vm, txs, members);
        if SendEach(sv, ex, warmed.vm, txs, members).refused == {} {
          ResultsAreSequential(sv, ex, warmed.vm, warmed.vm, txs, members);
        }
      }
    }
  }

  lemma SendStageKeepsHistory(
    sv: Services, ex: Executor, run: BatchRun, txs: seq<Tx>, members: seq<nat>, k: nat, n: nat)
    requires InRange(txs, members) && (forall p :: 0 <= p < |members| ==> DistinctKeys(txs[members[p]]))
    requires |members| <= n && H.Valid(run.vm.history) && CheckStable(ex, run.vm.history, n)
    ensures var next := SendStage(sv, ex, run, txs, members, k);
            next.status.Finished? ==> H.Valid(next.vm.history) && CheckStable(ex, next.vm.history, n - |members|)
  {
    var warmed := if |members| == 1 then Applied(run.vm, true) else WarmUp(sv, run.vm, txs, members);
    SendEachKeepsHistory(sv, ex, warmed.vm, txs, members, n);
  }

  ghost predicate HistoryReady(ex: Executor, run: BatchRun, n: nat) {
    run.status.Finished? ==> H.Valid(run.vm.history) && CheckStable(ex, run.vm.history, n)
  }

  lemma {:induction false} StagesAreSequential(
    sv: Services, ex: Executor, vm: VmState, txs: seq<Tx>, stages: seq<Planner.Stage>, room: nat)
    requires StagesCompatible(ex, txs, stages) && (forall i :: 0 <= i < |txs| ==> DistinctKeys(txs[i]))
    requires H.Valid(vm.history) && CheckStable(ex, vm.history, room) && |OrderOf(stages)| <= room
    ensures Alike(RunStages(sv, ex, vm, txs, stages), SendStages(sv, ex, vm, txs, stages))
    ensures HistoryReady(ex, SendStages(sv, ex, vm, txs, stages), room - |OrderOf(stages)|)
    decreases |stages|
  {
    if stages != [] {
      var n := |stages| - 1;
      TidyPrefix(stages, n);
      OrderOfPrefix(stages, n);
      StagesAreSequential(sv, ex, vm, txs, stages[..n], room);
      LastStageIsSequential(
        sv, ex, RunStages(sv, ex, vm, txs, stages[..n]), SendStages(sv, ex, vm, txs, stages[..n]),
        txs, stages[n].indexes, n,
        room - |OrderOf(stages[..n])|);
    }
  }

  lemma LastStageIsSequential(
    sv: Services, ex: Executor, run: BatchRun, other: BatchRun, txs: seq<Tx>, members: seq<nat>, k: nat, room: nat)
    requires InRange(txs, members) && AllCompatible(ex, txs, members)
    requires forall i :: 0 <= i < |txs| ==> DistinctKeys(txs[i])
    requires Alike(run, other) && HistoryReady(ex, other, room) && |members| <= room
    ensures
      var x := if run.status.Finished? then RunStage(sv, ex, run, txs, members, k) else run;
      var y := if other.status.Finished? then SendStage(sv, ex, other, txs, members, k) else other;
      Alike(x, y) && HistoryReady(ex, y, room - |members|)
  {
    if run.status.Finished? {
      StageIsSequential(sv, ex, run, other, txs, members, k);
      SendStageKeepsHistory(sv, ex, other, txs, members, k, room);
    }
  }

  /** Parallelism is unobservable: every planned batch ends with the status,
      the results and the whole machine (overlay, tombstones, journal, program
      and sysvar caches, history) of sending its transactions one at a time in
      plan order with the same warm-ups, refused accounts included. */
  lemma BatchIsSequential(sv: Services, ex: Executor, vm: VmState, txs: seq<Tx>)
    requires H.Valid(vm.history) && CheckStable(ex, vm.history, |txs|)
    requires (forall i :: 0 <= i < |txs| ==> DistinctKeys(txs[i])) && (ex.sigverify ==> RepeatsConflict(ex, txs))
    ensures StagesInRange(txs, PlanFor(ex, txs))
    ensures Alike(RunStages(sv, ex, vm, txs, PlanFor(ex, txs)), SendStages(sv, ex, vm, txs, PlanFor(ex, txs)))
  {
    PlanIsCompatible(ex, txs);
    ListsLength(OrderOf(PlanFor(ex, txs)), 0, |txs|);
    StagesAreSequential(sv, ex, vm, txs, PlanFor(ex, txs), |txs|);
  }
}
