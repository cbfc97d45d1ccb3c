/** What a batch shows of the reference machine: plan-order serializability, the
    prefix property on failure and input-order equivalence. */
module Serializability {
  import opened Types
  import opened Overlay
  import opened Lifecycle
  import opened Planner
  import opened Machine
  import opened StageRun
  import opened Commute
  import opened InputOrder
  import opened Inversion
  import opened Batch
  import H = History

  /** What the results below assume of a batch and the machine it runs on. When
      signatures are verified, the history must not evict during the batch. */
  ghost predicate Ready(sv: Services, ex: Executor, h: H.HistoryState, txs: seq<Tx>) {
    && BatchAgrees(sv) && H.Valid(h) && CheckStable(ex, h, |txs|)
    && (forall i :: 0 <= i < |txs| ==> DistinctKeys(txs[i]))
    && (ex.sigverify ==> RepeatsConflict(ex, txs))
  }

  function PlanFor(ex: Executor, txs: seq<Tx>): seq<Planner.Stage> {
    PlanOf(AllLocks(ex, txs), |txs|)
  }

  ghost predicate StagesCompatible(ex: Executor, txs: seq<Tx>, stages: seq<Planner.Stage>) {
    && StagesInRange(txs, stages) && Tidy(stages)
    && (forall s :: 0 <= s < |stages| ==> AllCompatible(ex, txs, stages[s].indexes))
  }

  ghost predicate StagesConflictFree(ex: Executor, txs: seq<Tx>, stages: seq<Planner.Stage>) {
    && StagesInRange(txs, stages) && Tidy(stages)
    && (forall s :: 0 <= s < |stages| ==> PairwiseFree(ex, txs, stages[s].indexes))
  }

  lemma PlanIsConflictFree(ex: Executor, txs: seq<Tx>)
    ensures StagesConflictFree(ex, txs, PlanFor(ex, txs))
    ensures Lists(OrderOf(PlanFor(ex, txs)), 0, |txs|)
  {
    var locks, stages := AllLocks(ex, txs), PlanFor(ex, txs);
    PlanIsSound(locks, |txs|);
    PlanOrderLists(locks, |txs|);
    forall s | 0 <= s < |stages|
      ensures InRange(txs, stages[s].indexes) && PairwiseFree(ex, txs, stages[s].indexes)
    {
      var members := stages[s].indexes;
      assert StageSound(locks, |txs|, stages[s]);
      forall p, q | 0 <= p < |members| && 0 <= q < |members| && p != q
        ensures members[p] != members[q] && !Conflicts(LocksOf(ex, txs[members[p]]), LocksOf(ex, txs[members[q]]))
      {
        assert locks[members[p]] == LocksOf(ex, txs[members[p]]) && locks[members[q]] == LocksOf(ex, txs[members[q]]);
        ConflictsSymmetric(locks[members[p]], locks[members[q]]);
      }
    }
  }

  lemma PlanIsCompatible(ex: Executor, txs: seq<Tx>)
    requires ex.sigverify ==> RepeatsConflict(ex, txs)
    ensures StagesCompatible(ex, txs, PlanFor(ex, txs))
    ensures Lists(OrderOf(PlanFor(ex, txs)), 0, |txs|)
  {
    var stages := PlanFor(ex, txs);
    PlanIsConflictFree(ex, txs);
    forall s | 0 <= s < |stages| ensures AllCompatible(ex, txs, stages[s].indexes) {
      FreeIsCompatible(ex, txs, stages[s].indexes);
    }
  }

  lemma FreeIsCompatible(ex: Executor, txs: seq<Tx>, members: seq<nat>)
    requires InRange(txs, members) && PairwiseFree(ex, txs, members) && (ex.sigverify ==> RepeatsConflict(ex, txs))
    ensures AllCompatible(ex, txs, members)
  {
    forall p, q | 0 <= p < q < |members|
      ensures members[p] != members[q] && Compatible(ex, txs[members[p]], txs[members[q]])
    {
      assert !Conflicts(LocksOf(ex, txs[members[q]]), LocksOf(ex, txs[members[p]]));
    }
  }

  // ----- One stage -----

  /** A stage run on the live machine follows the serial run of its members,
      refusals included; a stage that failed to warm up leaves everything where
      it was. */
  lemma StageTracks(sv: Services, ex: Executor, run: BatchRun, f: FlatState, txs: seq<Tx>, members: seq<nat>, k: nat)
    requires InRange(txs, members) && AllCompatible(ex, txs, members) && BatchAgrees(sv)
    requires forall p :: 0 <= p < |members| ==> DistinctKeys(txs[members[p]])
    requires Tracks(sv, run.vm, f) && run.status.Finished? && forall i :: i in members ==> i !in run.refused
    requires H.Valid(f.history) && CheckStable(ex, f.history, |members|)
    ensures var next := RunStage(sv, ex, run, txs, members, k);
            && run.refused <= next.refused <= run.refused + (set i | i in members)
            && (next.status.Finished? ==>
                  Tracks(sv, next.vm, Serial(sv, ex, f, txs, members, next.refused)) &&
                  next.results == run.results + SerialResults(sv, ex, f, txs, members, next.refused))
            && (next.status.SourceFailed? ==>
                  Tracks(sv, next.vm, f) && next.results ==
                    run.results && next.refused == run.refused && next.status.stage == k)
  {
    if |members| == 1 {
      SingleTracks(sv, ex, run, f, txs, members, k);
    } else {
      WarmedTracks(sv, ex, run, f, txs, members, k);
    }
  }

  lemma SingleTracks(sv: Services, ex: Executor, run: BatchRun, f: FlatState, txs: seq<Tx>, members: seq<nat>, k: nat)
    requires InRange(txs, members) && |members| == 1 && DistinctKeys(txs[members[0]]) && Tracks(sv, run.vm, f)
    requires members[0] !in run.refused
    ensures var next := RunStage(sv, ex, run, txs, members, k);
            && next.status.Finished? && run.refused <= next.refused <= run.refused + {members[0]}
            && Tracks(sv, next.vm, Serial(sv, ex, f, txs, members, next.refused))
            && next.results == run.results + SerialResults(sv, ex, f, txs, members, next.refused)
  {
    var sent := SendLive(sv, ex, run.vm, txs[members[0]]);
    var next := RunStage(sv, ex, run, txs, members, k);
    SendTracks(sv, ex, run.vm, f, txs[members[0]]);
    SerialOfOne(sv, ex, f, txs, members, next.refused);
    assert next.vm == sent.vm && next.results == run.results[members[0] := sent.result];
    UpdateIsUnion(run.results, members[0], sent.result);
  }

  lemma UpdateIsUnion(m: map<nat, TransactionResult>, i: nat, r: TransactionResult)
    ensures m[i := r] == m + map[i := r]
  {}

  lemma WarmedTracks(sv: Services, ex: Executor, run: BatchRun, f: FlatState, txs: seq<Tx>, members: seq<nat>, k: nat)
    requires InRange(txs, members) && |members| != 1 && AllCompatible(ex, txs, members) && BatchAgrees(sv)
    requires forall p :: 0 <= p < |members| ==> DistinctKeys(txs[members[p]])
    requires Tracks(sv, run.vm, f) && run.status.Finished? && forall i :: i in members ==> i !in run.refused
    requires H.Valid(f.history) && CheckStable(ex, f.history, |members|)
    ensures var next := RunStage(sv, ex, run, txs, members, k);
            && next.refused == run.refused
            && (next.status.Finished? ==>
                  Tracks(sv, next.vm, Serial(sv, ex, f, txs, members, run.refused)) &&
                  next.results == run.results + SerialResults(sv, ex, f, txs, members, run.refused))
            && (next.status.SourceFailed? ==>
                  Tracks(sv, next.vm, f) && next.results == run.results && next.status.stage == k)
  {
    WarmUpTracks(sv, run.vm, f, txs, members);
    var warmed := WarmUp(sv, run.vm, txs, members);
    if warmed.ok && MergeLive(sv, ex, warmed.vm, warmed.vm, txs, members).ok {
      ParallelTracks(sv, ex, warmed.vm, f, txs, members, run.refused);
    }
  }

  /** Members run on one snapshot and merged in order show their serial run. */
  lemma ParallelTracks(
    sv: Services, ex: Executor, snapshot: VmState, f: FlatState, txs: seq<Tx>, members: seq<nat>, refused: set<nat>)
    requires InRange(txs, members) && AllCompatible(ex, txs, members)
    requires forall p :: 0 <= p < |members| ==> DistinctKeys(txs[members[p]])
    requires Tracks(sv, snapshot, f) && H.Valid(f.history) && CheckStable(ex, f.history, |members|)
    requires MergeLive(sv, ex, snapshot, snapshot, txs, members).ok
    requires forall i :: i in members ==> i !in refused
    ensures Tracks(sv, MergeLive(sv, ex, snapshot, snapshot, txs, members).vm, Serial(sv, ex, f, txs, members, refused))
    ensures LiveResults(sv, ex, snapshot, txs, members) == SerialResults(sv, ex, f, txs, members, refused)
  {
    MergeTracks(sv, ex, snapshot, snapshot, f, f, txs, members);
    MergeIsSerial(sv, ex, f, f, txs, members, refused);
    SnapshotResultsAreSerial(sv, ex, f, f, txs, members, refused);
    SameResults(sv, ex, snapshot, f, txs, members);
  }

  lemma SerialOfOne(sv: Services, ex: Executor, f: FlatState, txs: seq<Tx>, members: seq<nat>, refused: set<nat>)
    requires |members| == 1 && InRange(txs, members)
    ensures Serial(sv, ex, f, txs, members, refused) == Step(sv, ex, f, txs, members[0], refused)
    ensures SerialResults(sv, ex, f, txs, members, refused) ==
              map[members[0] := ResultOf(Outcome(sv, ex, f, txs[members[0]]))]
  {
    assert members[1..] == [];
  }

  lemma SameResults(sv: Services, ex: Executor, vm: VmState, f: FlatState, txs: seq<Tx>, members: seq<nat>)
    requires InRange(txs, members) && Tracks(sv, vm, f)
    ensures LiveResults(sv, ex, vm, txs, members) == SnapshotResults(sv, ex, f, txs, members)
  {
    forall i | i in members ensures LiveOutcome(sv, ex, vm, txs[i]) == Outcome(sv, ex, f, txs[i]) {
      SameOutcome(sv, ex, vm, f, txs[i]);
    }
  }

  // ----- All stages -----

  lemma {:induction false} SerialKeepsHistory(
    sv: Services, ex: Executor, f: FlatState, txs: seq<Tx>, order: seq<nat>, n: nat, refused: set<nat>)
    requires InRange(txs, order) && H.Valid(f.history) && |order| <= n && CheckStable(ex, f.history, n)
    ensures var g := Serial(sv, ex, f, txs, order, refused);
            H.Valid(g.history) && CheckStable(ex, g.history, n - |order|)
    decreases |order|
  {
    if order != [] {
      StepKeepsHistory(sv, ex, f, txs, order[0], refused, n - 1);
      SerialKeepsHistory(sv, ex, Step(sv, ex, f, txs, order[0], refused), txs, order[1..], n - 1, refused);
    }
  }

  lemma {:induction false} OrderInRange(txs: seq<Tx>, stages: seq<Planner.Stage>)
    requires StagesInRange(txs, stages)
    ensures InRange(txs, OrderOf(stages))
  {
    if stages != [] {
      OrderInRange(txs, stages[..|stages| - 1]);
    }
  }

  /** A run shows exactly the serial run of the given order, in which the same
      transactions are refused. */
  ghost predicate Shows(sv: Services, ex: Executor, f: FlatState, txs: seq<Tx>, order: seq<nat>, run: BatchRun) {
    && InRange(txs, order)
    && run.refused <= (set i | i in order)
    && Tracks(sv, run.vm, Serial(sv, ex, f, txs, order, run.refused))
    && run.results == SerialResults(sv, ex, f, txs, order, run.refused)
  }

  /** A stage extends what a run shows by its members, or by nothing. */
  lemma StageExtends(
    sv: Services, ex: Executor, run: BatchRun, f: FlatState, txs: seq<Tx>, done: seq<nat>, members: seq<nat>, k: nat,
    room: nat)
    requires InRange(txs, members) && AllCompatible(ex, txs, members) && BatchAgrees(sv)
    requires forall i :: 0 <= i < |txs| ==> DistinctKeys(txs[i])
    requires H.Valid(f.history) && CheckStable(ex, f.history, room) && |done| + |members| <= room
    requires forall i :: i in done ==> i !in members
    requires run.status.Finished? && Shows(sv, ex, f, txs, done, run)
    ensures var next := RunStage(sv, ex, run, txs, members, k);
            && (next.status.Finished? ==> Shows(sv, ex, f, txs, done + members, next))
            && (next.status.SourceFailed? ==> Shows(sv, ex, f, txs, done, next) && next.status.stage == k)
  {
    var g := Serial(sv, ex, f, txs, done, run.refused);
    var next := RunStage(sv, ex, run, txs, members, k);
    SerialKeepsHistory(sv, ex, f, txs, done, room, run.refused);
    StageTracks(sv, ex, run, g, txs, members, k);
    RefusedElsewhere(sv, ex, f, txs, done, run.refused, next.refused);
    SerialOfConcat(sv, ex, f, txs, done, members, next.refused);
    ResultsOfConcat(sv, ex, f, txs, done, members, next.refused);
    assert (set i | i in done + members) == (set i | i in done) + (set i | i in members);
  }

  /** The order of the stages whose effects a run shows. */
  function ShownOrder(run: BatchRun, stages: seq<Planner.Stage>): seq<nat> {
    match run.status
    case Finished => OrderOf(stages)
    case SourceFailed(k) => OrderOf(if k <= |stages| then stages[..k] else stages)
    case MergePanicked(k) => OrderOf(if k <= |stages| then stages[..k] else stages)
  }

  lemma StagesAreDisjoint(stages: seq<Planner.Stage>)
    requires stages != [] && Tidy(stages)
    ensures var done, last := OrderOf(stages[..|stages| - 1]), stages[|stages| - 1].indexes;
            forall i :: i in done ==> i !in last
  {
    var n := |stages| - 1;
    OrderMembers(stages[..n]);
    forall i | i in OrderOf(stages[..n]) ensures i !in stages[n].indexes {
      assert Planned(stages[..n], i);
      var s :| InStage(stages[..n], s, i);
      assert InStage(stages, s, i);
      assert InStage(stages, n, i) ==> n == s;
    }
  }

  /** A run shows the serial run of the stages before the one that failed, or of
      all of them. */
  ghost predicate ShowsPrefix(
    sv: Services, ex: Executor, f: FlatState, txs: seq<Tx>, stages: seq<Planner.Stage>, run: BatchRun) {
    && (!run.status.MergePanicked? ==> Shows(sv, ex, f, txs, ShownOrder(run, stages), run))
    && (run.status.SourceFailed? ==> run.status.stage < |stages|)
  }

  lemma LastStageExtends(
    sv: Services, ex: Executor, f: FlatState, txs: seq<Tx>, stages: seq<Planner.Stage>, before: BatchRun, room: nat)
    requires stages != [] && StagesCompatible(ex, txs, stages) && BatchAgrees(sv)
    requires forall i :: 0 <= i < |txs| ==> DistinctKeys(txs[i])
    requires H.Valid(f.history) && CheckStable(ex, f.history, room) && |OrderOf(stages)| <= room
    requires before.status.Finished? && ShowsPrefix(sv, ex, f, txs, stages[..|stages| - 1], before)
    ensures var k := |stages| - 1;
            ShowsPrefix(sv, ex, f, txs, stages, RunStage(sv, ex, before, txs, stages[k].indexes, k))
  {
    var n := |stages| - 1;
    StagesAreDisjoint(stages);
    StageExtends(sv, ex, before, f, txs, OrderOf(stages[..n]), stages[n].indexes, n, room);
  }

  lemma FailedRunStays(
    sv: Services, ex: Executor, f: FlatState, txs: seq<Tx>, stages: seq<Planner.Stage>, before: BatchRun)
    requires stages != [] && !before.status.Finished? && ShowsPrefix(sv, ex, f, txs, stages[..|stages| - 1], before)
    ensures ShowsPrefix(sv, ex, f, txs, stages, before)
  {
    if before.status.SourceFailed? {
      assert stages[..|stages| - 1][..before.status.stage] == stages[..before.status.stage];
    }
  }

  lemma {:induction false} RunShowsPrefix(
    sv: Services, ex: Executor, vm: VmState, f: FlatState, txs: seq<Tx>, stages: seq<Planner.Stage>, room: nat)
    requires StagesCompatible(ex, txs, stages) && BatchAgrees(sv) && Tracks(sv, vm, f)
    requires forall i :: 0 <= i < |txs| ==> DistinctKeys(txs[i])
    requires H.Valid(f.history) && CheckStable(ex, f.history, room) && |OrderOf(stages)| <= room
    ensures ShowsPrefix(sv, ex, f, txs, stages, RunStages(sv, ex, vm, txs, stages))
    decreases |stages|
  {
    if stages != [] {
      var init := stages[..|stages| - 1];
      TidyPrefix(stages, |stages| - 1);
      OrderOfPrefix(stages, |stages| - 1);
      RunShowsPrefix(sv, ex, vm, f, txs, init, room);
      var before := RunStages(sv, ex, vm, txs, init);
      if before.status.Finished? {
        LastStageExtends(sv, ex, f, txs, stages, before, room);
      } else {
        FailedRunStays(sv, ex, f, txs, stages, before);
      }
    }
  }

  // ----- The batch theorems -----

  function Start(vm: VmState): FlatState {
    FlatState(Flatten(vm.accounts.db), vm.history)
  }

  lemma PlanRunShowsPrefix(sv: Services, ex: Executor, vm: VmState, txs: seq<Tx>)
    requires Ready(sv, ex, vm.history, txs)
    ensures StagesInRange(txs, PlanFor(ex, txs))
    ensures ShowsPrefix(sv, ex, Start(vm), txs, PlanFor(ex, txs), RunStages(sv, ex, vm, txs, PlanFor(ex, txs)))
  {
    PlanIsCompatible(ex, txs);
    ListsLength(OrderOf(PlanFor(ex, txs)), 0, |txs|);
    TracksInitially(sv, vm);
    RunShowsPrefix(sv, ex, vm, Start(vm), txs, PlanFor(ex, txs), |txs|);
  }

  /** Serializability: a finished batch shows the accounts and the history of
      running its transactions one at a time in plan order, gives each the
      result it has there, and leaves no result slot empty. The transactions
      whose accounts the batch refused have a result and no effect in both. */
  lemma PlanOrderSerializable(sv: Services, ex: Executor, vm: VmState, txs: seq<Tx>)
    requires Ready(sv, ex, vm.history, txs)
    ensures StagesInRange(txs, PlanFor(ex, txs)) && InRange(txs, OrderOf(PlanFor(ex, txs)))
    ensures
      var run, order := RunStages(sv, ex, vm, txs, PlanFor(ex, txs)), OrderOf(PlanFor(ex, txs));
      run.status.Finished? ==>
        && Tracks(sv, run.vm, Serial(sv, ex, Start(vm), txs, order, run.refused))
        && run.results == SerialResults(sv, ex, Start(vm), txs, order, run.refused)
        && (forall i: nat :: i in run.results <==> i < |txs|)
  {
    var stages := PlanFor(ex, txs);
    var order := OrderOf(stages);
    PlanRunShowsPrefix(sv, ex, vm, txs);
    PlanIsCompatible(ex, txs);
    OrderInRange(txs, stages);
    ResultKeys(sv, ex, Start(vm), txs, order, RunStages(sv, ex, vm, txs, stages).refused);
  }

  /** Prefix on failure: when warming up a stage fails, accounts, history and
      results are those of exactly the stages before it. */
  lemma FailureShowsPrefix(sv: Services, ex: Executor, vm: VmState, txs: seq<Tx>)
    requires Ready(sv, ex, vm.history, txs)
    ensures StagesInRange(txs, PlanFor(ex, txs))
    ensures
      var run, stages := RunStages(sv, ex, vm, txs, PlanFor(ex, txs)), PlanFor(ex, txs);
      run.status.SourceFailed? ==>
        && run.status.stage < |stages| && InRange(txs, OrderOf(stages[..run.status.stage]))
        && Tracks(sv, run.vm, Serial(sv, ex, Start(vm), txs, OrderOf(stages[..run.status.stage]), run.refused))
        && run.results == SerialResults(sv, ex, Start(vm), txs, OrderOf(stages[..run.status.stage]), run.refused)
  {
    PlanRunShowsPrefix(sv, ex, vm, txs);
  }

  // ----- Input order -----

  /** The plan never puts the later of two conflicting transactions in an
      earlier stage. */
  ghost predicate NoReversal(ex: Executor, txs: seq<Tx>, stages: seq<Planner.Stage>) {
    forall i: nat, j: nat, s, t :: i < j < |txs| && InStage(stages, s, i) && InStage(stages, t, j) ==>
      Conflicts(LocksOf(ex, txs[i]), LocksOf(ex, txs[j])) ==> s < t
  }

  lemma NoReversalKeepsOrder(ex: Executor, txs: seq<Tx>, stages: seq<Planner.Stage>)
    requires StagesInRange(txs, stages) && Tidy(stages) && NoReversal(ex, txs, stages)
    ensures InRange(txs, OrderOf(stages)) && KeepsConflictOrder(ex, txs, OrderOf(stages))
  {
    var order := OrderOf(stages);
    OrderInRange(txs, stages);
    forall p, q | 0 <= p < q < |order| && order[q] < order[p]
      ensures !Conflicts(LocksOf(ex, txs[order[p]]), LocksOf(ex, txs[order[q]]))
    {
      var s, t := OrderFollowsStages(stages, p, q);
      ConflictsSymmetric(LocksOf(ex, txs[order[p]]), LocksOf(ex, txs[order[q]]));
      assert !Conflicts(LocksOf(ex, txs[order[q]]), LocksOf(ex, txs[order[p]]));
    }
  }

  /** Conditional input-order equivalence on the reference machine: when the plan
      reverses no conflicting pair, the batch shows the accounts and the results
      of running in input order with the same refusals, and, when the history has
      room and repeated signatures conflict, its lookups as well. */
  lemma BatchInInputOrder(sv: Services, ex: Executor, vm: VmState, txs: seq<Tx>)
    requires Ready(sv, ex, vm.history, txs) && NoReversal(ex, txs, PlanFor(ex, txs))
    ensures StagesInRange(txs, PlanFor(ex, txs)) && InRange(txs, Range(0, |txs|))
    ensures
      var run := RunStages(sv, ex, vm, txs, PlanFor(ex, txs));
      var g := Serial(sv, ex, Start(vm), txs, Range(0, |txs|), run.refused);
      run.status.Finished? ==>
        && Refines(sv, run.vm.accounts.db, g.known)
        && run.results == SerialResults(sv, ex, Start(vm), txs, Range(0, |txs|), run.refused)
        && (Roomy(vm.history, |txs|) && RepeatsConflict(ex, txs) ==> SameLookups(run.vm.history, g.history))
  {
    var order := OrderOf(PlanFor(ex, txs));
    PlanOrderSerializable(sv, ex, vm, txs);
    PlanIsCompatible(ex, txs);
    NoReversalKeepsOrder(ex, txs, PlanFor(ex, txs));
    var refused := RunStages(sv, ex, vm, txs, PlanFor(ex, txs)).refused;
    ShownInInputOrder(sv, ex, Start(vm), txs, order, refused);
    if Roomy(vm.history, |txs|) && RepeatsConflict(ex, txs) {
      LookupsInInputOrder(sv, ex, Start(vm), txs, order, refused);
    }
  }

  lemma {:induction false} EarlierStagePrecedes(stages: seq<Planner.Stage>, s: int, t: int, i: nat, j: nat)
    requires s < t && InStage(stages, s, i) && InStage(stages, t, j)
    ensures Precedes(OrderOf(stages), i, j)
    decreases |stages|
  {
    var n := |stages| - 1;
    var init := stages[..n];
    var order := OrderOf(stages);
    if t < n {
      EarlierStagePrecedes(init, s, t, i, j);
      var p, q :| 0 <= p < q < |OrderOf(init)| && OrderOf(init)[p] == i && OrderOf(init)[q] == j;
      assert order[p] == i && order[q] == j;
    } else {
      OrderMembers(init);
      assert InStage(init, s, i);
      assert Planned(init, i);
      var p :| 0 <= p < |OrderOf(init)| && OrderOf(init)[p] == i;
      var q :| 0 <= q < |stages[n].indexes| && stages[n].indexes[q] == j;
      assert order[p] == i && order[|OrderOf(init)| + q] == j;
    }
  }

  /** A reversed pair of the plan, as positions of its order. */
  lemma ReversalInOrder(ex: Executor, txs: seq<Tx>, stages: seq<Planner.Stage>) returns (p: nat, q: nat)
    requires StagesConflictFree(ex, txs, stages) && !NoReversal(ex, txs, stages)
    ensures InRange(txs, OrderOf(stages)) && p < q < |OrderOf(stages)| && OrderOf(stages)[q] < OrderOf(stages)[p]
    ensures Conflicts(LocksOf(ex, txs[OrderOf(stages)[p]]), LocksOf(ex, txs[OrderOf(stages)[q]]))
  {
    OrderInRange(txs, stages);
    var order := OrderOf(stages);
    var i: nat, j: nat, s, t :| i < j < |txs| && InStage(stages, s, i) && InStage(stages, t, j)
      && Conflicts(LocksOf(ex, txs[i]), LocksOf(ex, txs[j])) && s >= t;
    if s == t { SameStageIsConflictFree(ex, txs, stages, s, i, j); }
    EarlierStagePrecedes(stages, t, s, j, i);
    ConflictsSymmetric(LocksOf(ex, txs[i]), LocksOf(ex, txs[j]));
    p, q :| 0 <= p < q < |order| && order[p] == j && order[q] == i;
  }

  lemma SameStageIsConflictFree(ex: Executor, txs: seq<Tx>, stages: seq<Planner.Stage>, s: int, i: nat, j: nat)
    requires StagesConflictFree(ex, txs, stages) && i < |txs| && j < |txs| && i != j
    requires InStage(stages, s, i) && InStage(stages, s, j)
    ensures !Conflicts(LocksOf(ex, txs[i]), LocksOf(ex, txs[j]))
  {
    var members := stages[s].indexes;
    var p :| 0 <= p < |members| && members[p] == i;
    var q :| 0 <= q < |members| && members[q] == j;
    assert PairwiseFree(ex, txs, members);
  }

  /** Best fit does reverse conflicting pairs: of three transactions writing
      {a}, {a, b} and {b}, the third joins the first and overtakes the second. */
  lemma PlanReversesAPair(a: Address, b: Address)
    requires a != b
    ensures
      var locks := [LockSet({}, {a}), LockSet({}, {a, b}), LockSet({}, {b})];
      && OrderOf(PlanOf(locks, 3)) == [0, 2, 1]
      && Conflicts(locks[1], locks[2])
  {
    var locks := [LockSet({}, {a}), LockSet({}, {a, b}), LockSet({}, {b})];
    assert b in locks[1].writable * locks[2].writable && a in locks[0].writable * locks[1].writable;
    assert locks[0].writable * locks[2].writable == {};
    var one := [Planner.Stage([0], locks[0])];
    assert PlanOf(locks, 1) == one;
    var two := one + [Planner.Stage([1], locks[1])];
    assert BestFit(one, locks[1], 1) == None;
    assert PlanOf(locks, 2) == two;
    assert BestFit(two, locks[2], 1) == Some(0) && BestFit(two, locks[2], 2) == Some(0);
    assert [0] + [2] == [0, 2];
    var three := PlanOf(locks, 3);
    assert three == two[0 := Planner.Stage([0, 2], Extend(locks[0], locks[2]))];
    assert three[..1] == [three[0]] && three[..1][..0] == [];
    assert OrderOf(three[..1]) == OrderOf([]) + [0, 2];
  }
}
