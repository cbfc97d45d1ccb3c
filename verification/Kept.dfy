/** Exactly which transactions of a batch have their effects kept: those that ran
    at their turn and were not refused. */
module Kept {
  import opened Types
  import opened Lifecycle
  import opened Planner
  import opened Machine
  import opened StageRun
  import opened Inversion
  import opened Batch
  import opened Serializability
  import opened Outcomes
  import H = History

  /** The transaction would run on this state of the reference machine. */
  predicate RunsOn(sv: Services, ex: Executor, f: FlatState, tx: Tx) {
    Runs(ex, tx, Observe(sv, ex, f.known, tx), H.Check(f.history, tx.signature))
  }

  /** Those of a serial run that ran at their turn and were not refused. */
  function Effective(
    sv: Services, ex: Executor, f: FlatState, txs: seq<Tx>, order: seq<nat>, refused: set<nat>): set<nat>
    requires InRange(txs, order)
    decreases |order|
  {
    if order == [] then {}
    else
      (if order[0] !in refused && RunsOn(sv, ex, f, txs[order[0]]) then {order[0]} else {}) +
      Effective(sv, ex, Step(sv, ex, f, txs, order[0], refused), txs, order[1..], refused)
  }

  lemma {:induction false} EffectiveAt(
    sv: Services, ex: Executor, f: FlatState, txs: seq<Tx>, order: seq<nat>, refused: set<nat>, p: nat)
    requires InRange(txs, order) && NoRepeats(order) && p < |order|
    ensures InRange(txs, order[..p])
    ensures order[p] in Effective(sv, ex, f, txs, order, refused) <==>
            order[p] !in refused && RunsOn(sv, ex, Serial(sv, ex, f, txs, order[..p], refused), txs[order[p]])
    decreases |order|
  {
    EffectiveIsListed(sv, ex, Step(sv, ex, f, txs, order[0], refused), txs, order[1..], refused);
    if p > 0 {
      assert order[1..][p - 1] == order[p] && order[..p][1..] == order[1..][..p - 1];
      EffectiveAt(sv, ex, Step(sv, ex, f, txs, order[0], refused), txs, order[1..], refused, p - 1);
    } else {
      assert |order[..p]| == 0;
    }
  }

  lemma {:induction false} EffectiveIsListed(
    sv: Services, ex: Executor, f: FlatState, txs: seq<Tx>, order: seq<nat>, refused: set<nat>)
    requires InRange(txs, order)
    ensures forall i :: i in Effective(sv, ex, f, txs, order, refused) ==> i in order
    decreases |order|
  {
    if order != [] {
      EffectiveIsListed(sv, ex, Step(sv, ex, f, txs, order[0], refused), txs, order[1..], refused);
    }
  }

  lemma {:induction false} EffectiveOfConcat(
    sv: Services, ex: Executor, f: FlatState, txs: seq<Tx>, first: seq<nat>, second: seq<nat>, refused: set<nat>)
    requires InRange(txs, first) && InRange(txs, second) && InRange(txs, first + second)
    ensures Effective(sv, ex, f, txs, first + second, refused) ==
            Effective(sv, ex, f, txs, first, refused) +
            Effective(sv, ex, Serial(sv, ex, f, txs, first, refused), txs, second, refused)
    decreases |first|
  {
    if first == [] {
      assert first + second == second;
    } else {
      assert (first + second)[1..] == first[1..] + second;
      EffectiveOfConcat(sv, ex, Step(sv, ex, f, txs, first[0], refused), txs, first[1..], second, refused);
    }
  }

  lemma {:induction false} EffectiveElsewhere(
    sv: Services, ex: Executor, f: FlatState, txs: seq<Tx>, order: seq<nat>, refused: set<nat>, refused': set<nat>)
    requires InRange(txs, order) && forall i :: i in order ==> (i in refused <==> i in refused')
    ensures Effective(sv, ex, f, txs, order, refused) == Effective(sv, ex, f, txs, order, refused')
    decreases |order|
  {
    if order != [] {
      assert order[0] in order;
      assert Step(sv, ex, f, txs, order[0], refused) == Step(sv, ex, f, txs, order[0], refused');
      EffectiveElsewhere(sv, ex, Step(sv, ex, f, txs, order[0], refused), txs, order[1..], refused, refused');
    }
  }

  /** On one snapshot the same members run as one after the other. */
  lemma {:induction false} SnapshotRunsAreSerial(
    sv: Services, ex: Executor, snapshot: FlatState, f: FlatState, txs: seq<Tx>, members: seq<nat>, refused: set<nat>)
    requires InRange(txs, members) && AllCompatible(ex, txs, members)
    requires OutcomesAgree(sv, ex, f, snapshot, txs, members)
    requires H.Valid(f.history) && CheckStable(ex, f.history, |members|)
    requires forall i :: i in members ==> i !in refused
    ensures Effective(sv, ex, f, txs, members, refused) == set i | i in members && RunsOn(sv, ex, snapshot, txs[i])
    decreases |members|
  {
    if members != [] {
      var m, rest := members[0], members[1..];
      assert members == [m] + rest;
      SendKeepsAgreement(sv, ex, snapshot, f, txs, members);
      SnapshotRunsAreSerial(sv, ex, snapshot, Step(sv, ex, f, txs, m, refused), txs, rest, refused);
      assert Outcome(sv, ex, f, txs[m]) == Outcome(sv, ex, snapshot, txs[m]);
      RunsIsIncluded(sv, ex, f, txs[m]);
      RunsIsIncluded(sv, ex, snapshot, txs[m]);
    }
  }

  lemma RunsIsIncluded(sv: Services, ex: Executor, f: FlatState, tx: Tx)
    ensures RunsOn(sv, ex, f, tx) <==> Outcome(sv, ex, f, tx).included
  {
    OutcomeIsDue(ex, tx, Observe(sv, ex, f.known, tx), H.Check(f.history, tx.signature));
  }

  lemma IncludedRuns(sv: Services, ex: Executor, vm: VmState, f: FlatState, txs: seq<Tx>, members: seq<nat>)
    requires InRange(txs, members) && Tracks(sv, vm, f)
    ensures Included(sv, ex, vm, txs, members) == set i | i in members && RunsOn(sv, ex, f, txs[i])
  {
    forall i | i in members ensures LiveOutcome(sv, ex, vm, txs[i]).included <==> RunsOn(sv, ex, f, txs[i]) {
      SameOutcome(sv, ex, vm, f, txs[i]);
      RunsIsIncluded(sv, ex, f, txs[i]);
    }
  }

  /** A finished stage keeps exactly the members that ran and were not refused. */
  lemma StageKeeps(sv: Services, ex: Executor, run: BatchRun, f: FlatState, txs: seq<Tx>, members: seq<nat>, k: nat)
    requires InRange(txs, members) && AllCompatible(ex, txs, members) && BatchAgrees(sv)
    requires Tracks(sv, run.vm, f) && run.status.Finished? && forall i :: i in members ==> i !in run.refused
    requires H.Valid(f.history) && CheckStable(ex, f.history, |members|)
    ensures var next := RunStage(sv, ex, run, txs, members, k);
            next.status.Finished? ==>
              next.committed == run.committed + Effective(sv, ex, f, txs, members, next.refused)
  {
    if |members| == 1 {
      SingleKeeps(sv, ex, run, f, txs, members, k);
    } else if RunStage(sv, ex, run, txs, members, k).status.Finished? {
      WarmUpTracks(sv, run.vm, f, txs, members);
      IncludedRuns(sv, ex, WarmUp(sv, run.vm, txs, members).vm, f, txs, members);
      SnapshotRunsAreSerial(sv, ex, f, f, txs, members, run.refused);
    }
  }

  lemma SingleKeeps(sv: Services, ex: Executor, run: BatchRun, f: FlatState, txs: seq<Tx>, members: seq<nat>, k: nat)
    requires InRange(txs, members) && |members| == 1 && Tracks(sv, run.vm, f) && members[0] !in run.refused
    ensures var next := RunStage(sv, ex, run, txs, members, k);
            next.committed == run.committed + Effective(sv, ex, f, txs, members, next.refused)
  {
    var m, next := members[0], RunStage(sv, ex, run, txs, members, k);
    IncludedRuns(sv, ex, run.vm, f, txs, members);
    assert members[1..] == [] && members == [m];
    assert Effective(sv, ex, f, txs, members, next.refused) ==
           if m !in next.refused && RunsOn(sv, ex, f, txs[m]) then {m} else {};
  }

  /** What a finished run shows, with the transactions whose effects are kept. */
  ghost predicate Keeps(sv: Services, ex: Executor, f: FlatState, txs: seq<Tx>, order: seq<nat>, run: BatchRun) {
    run.status.Finished? ==>
      Shows(sv, ex, f, txs, order, run) && run.committed == Effective(sv, ex, f, txs, order, run.refused)
  }

  lemma StageKeepsExactly(
    sv: Services, ex: Executor, run: BatchRun, f: FlatState, txs: seq<Tx>, done: seq<nat>, members: seq<nat>, k: nat,
    room: nat)
    requires InRange(txs, members) && AllCompatible(ex, txs, members) && BatchAgrees(sv)
    requires forall i :: 0 <= i < |txs| ==> DistinctKeys(txs[i])
    requires H.Valid(f.history) && CheckStable(ex, f.history, room) && |done| + |members| <= room
    requires forall i :: i in done ==> i !in members
    requires run.status.Finished? && Keeps(sv, ex, f, txs, done, run)
    ensures Keeps(sv, ex, f, txs, done + members, RunStage(sv, ex, run, txs, members, k))
  {
    var g, next := Serial(sv, ex, f, txs, done, run.refused), RunStage(sv, ex, run, txs, members, k);
    StageExtends(sv, ex, run, f, txs, done, members, k, room);
    SerialKeepsHistory(sv, ex, f, txs, done, room, run.refused);
    StageTracks(sv, ex, run, g, txs, members, k);
    StageKeeps(sv, ex, run, g, txs, members, k);
    RefusedElsewhere(sv, ex, f, txs, done, run.refused, next.refused);
    EffectiveElsewhere(sv, ex, f, txs, done, run.refused, next.refused);
    if next.status.Finished? {
      EffectiveOfConcat(sv, ex, f, txs, done, members, next.refused);
    }
  }

  lemma {:induction false} StagesKeep(
    sv: Services, ex: Executor, vm: VmState, f: FlatState, txs: seq<Tx>, stages: seq<Planner.Stage>, room: nat)
    requires StagesCompatible(ex, txs, stages) && BatchAgrees(sv) && Tracks(sv, vm, f)
    requires forall i :: 0 <= i < |txs| ==> DistinctKeys(txs[i])
    requires H.Valid(f.history) && CheckStable(ex, f.history, room) && |OrderOf(stages)| <= room
    ensures Keeps(sv, ex, f, txs, OrderOf(stages), RunStages(sv, ex, vm, txs, stages))
    decreases |stages|
  {
    if stages != [] {
      var n := |stages| - 1;
      TidyPrefix(stages, n);
      OrderOfPrefix(stages, n);
      StagesKeep(sv, ex, vm, f, txs, stages[..n], room);
      StagesAreDisjoint(stages);
      var before := RunStages(sv, ex, vm, txs, stages[..n]);
      if before.status.Finished? {
        StageKeepsExactly(sv, ex, before, f, txs, OrderOf(stages[..n]), stages[n].indexes, n, room);
      }
    }
  }

  /** A finished batch keeps the effects of exactly those transactions that the
      runtime ran at their turn in plan order and that were not refused. */
  lemma CommittedExactly(sv: Services, ex: Executor, vm: VmState, txs: seq<Tx>, p: nat)
    requires Ready(sv, ex, vm.history, txs) && p < |OrderOf(PlanFor(ex, txs))|
    ensures StagesInRange(txs, PlanFor(ex, txs)) && InRange(txs, OrderOf(PlanFor(ex, txs)))
    ensures var order, run := OrderOf(PlanFor(ex, txs)), RunStages(sv, ex, vm, txs, PlanFor(ex, txs));
            run.status.Finished? ==>
              (order[p] in run.committed <==>
                 && order[p] !in run.refused
                 && RunsOn(sv, ex, Serial(sv, ex, Start(vm), txs, order[..p], run.refused), txs[order[p]]))
  {
    var stages := PlanFor(ex, txs);
    PlanIsCompatible(ex, txs);
    OrderInRange(txs, stages);
    ListsLength(OrderOf(stages), 0, |txs|);
    TracksInitially(sv, vm);
    StagesKeep(sv, ex, vm, Start(vm), txs, stages, |txs|);
    var run := RunStages(sv, ex, vm, txs, stages);
    EffectiveAt(sv, ex, Start(vm), txs, OrderOf(stages), run.refused, p);
  }
}
