/** The virtual machine as the source has it: an account store and a history
    updated in place, with staging, commit paths and batch submission on top
    (executed.rs, commit.rs, vm.rs and batch.rs). */
module Vm {
  import opened Types
  import opened Overlay
  import opened Planner
  import opened Machine
  import opened Schedule
  import C = Coherence
  import L = Lifecycle
  import B = Batch
  import R = Serializability
  import P = Placement
  import opened AccountsDb
  import opened HistoryDb
  import S = Store
  import H = History

  datatype BatchError =
    | Sanitize(index: nat, err: TransactionError)
    | AccountSource(index: nat, pubkey: Address, cause: SourceError)

  datatype BatchReply =
    | BatchOk(plan: seq<seq<nat>>, results: seq<TransactionResult>)
    | BatchErr(error: BatchError)
    | BatchPanic

  datatype CommitReply = Kept(result: TransactionResult) | SinkFailed | RebuildPanic

  function SanitizeView(sv: Services, vm: L.VmState, tx: Tx): AccountView {
    map a | a in tx.lookups :: Read(sv, vm.accounts.db, a)
  }

  function InBatchError(index: nat, e: SanitizeError): BatchError {
    match e
    case BadTransaction(err) => Sanitize(index, err)
    case SourceDown(pubkey, cause) => AccountSource(index, pubkey, cause)
  }

  /** The first of the first `n` transactions that cannot be sanitized. */
  function FirstInsane(sv: Services, ex: Executor, vm: L.VmState, txs: seq<Tx>, n: nat): Option<BatchError>
    requires n <= |txs|
  {
    if n == 0 then None
    else
      var earlier := FirstInsane(sv, ex, vm, txs, n - 1);
      if earlier.Some? then earlier
      else
        match ex.sanitize(txs[n - 1], SanitizeView(sv, vm, txs[n - 1]))
        case Some(e) => Some(InBatchError(n - 1, e))
        case None => None
  }

  // ----- Planning -----

  /** Collects the locks of a transaction key by key. */
  method LockSetOf(ex: Executor, tx: Tx) returns (locks: LockSet)
    ensures locks == LocksOf(ex, tx)
    ensures forall a: Address :: a in locks.writable <==> P.Writes(ex, tx, a)
    ensures forall a: Address :: a in locks.readonly <==> P.Shares(ex, tx, a)
  {
    var readonly: set<Address>, writable: set<Address> := {}, {};
    for i := 0 to |tx.keys|
      invariant writable == set k | 0 <= k < i && IsWritable(ex, tx.keys[k]) :: tx.keys[k].address
      invariant readonly == set k | 0 <= k < i && !IsWritable(ex, tx.keys[k]) :: tx.keys[k].address
    {
      if IsWritable(ex, tx.keys[i]) {
        writable := writable + {tx.keys[i].address};
      } else {
        readonly := readonly + {tx.keys[i].address};
      }
    }
    readonly := readonly + set a | a in tx.lookups;
    locks := LockSet(readonly, writable);
    forall a: Address
      ensures a in locks.writable <==> P.Writes(ex, tx, a)
      ensures a in locks.readonly <==> P.Shares(ex, tx, a)
    {
      P.LocksExactly(ex, tx, a);
    }
  }

  /** Scans the stages for the lightest conflict-free one, the first on a tie. */
  method BestFitStage(stages: seq<Stage>, lock: LockSet) returns (best: Option<nat>)
    ensures best == BestFit(stages, lock, |stages|)
    ensures match best
            case Some(i) => FirstLightest(stages, lock, i)
            case None => forall j :: 0 <= j < |stages| ==> Conflicts(stages[j].locks, lock)
  {
    best := None;
    var bestWeight := 0;
    for k := 0 to |stages|
      invariant best == BestFit(stages, lock, k)
      invariant best.Some? ==> bestWeight == Weight(stages[best.value].locks)
    {
      if Conflicts(stages[k].locks, lock) { continue; }
      var weight := Weight(stages[k].locks);
      if best.None? || weight < bestWeight {
        best, bestWeight := Some(k), weight;
      }
    }
    BestFitIsFirstLightest(stages, lock);
  }

  /** Joins the chosen stage or opens a new one. */
  method PlaceTransaction(stages: seq<Stage>, index: nat, lock: LockSet) returns (next: seq<Stage>)
    ensures next == Place(stages, index, lock)
  {
    var best := BestFitStage(stages, lock);
    match best {
      case Some(k) => next := stages[k := Stage(stages[k].indexes + [index], Extend(stages[k].locks, lock))];
      case None => next := stages + [Stage([index], lock)];
    }
  }

  // ----- Sorting the results of a stage -----

  /** Sorts results by index. */
  method SortByIndex(results: seq<StageResult>) returns (sorted: seq<StageResult>)
    requires forall k, l :: 0 <= k < l < |results| ==> results[k].index != results[l].index
    ensures multiset(sorted) == multiset(results) && Ascending(Indexes(sorted))
  {
    sorted := [];
    for n := 0 to |results|
      invariant multiset(sorted) == multiset(results[..n]) && Ascending(Indexes(sorted))
    {
      ghost var before := sorted;
      SameReports(sorted, results[..n]);
      forall k | 0 <= k < |sorted| ensures sorted[k].index != results[n].index {
        assert sorted[k] in results[..n];
      }
      sorted := InsertByIndex(sorted, results[n]);
      assert results[..n + 1] == results[..n] + [results[n]];
    }
    assert results[..|results|] == results;
  }

  method InsertByIndex(sorted: seq<StageResult>, x: StageResult) returns (r: seq<StageResult>)
    requires Ascending(Indexes(sorted)) && forall k :: 0 <= k < |sorted| ==> sorted[k].index != x.index
    ensures multiset(r) == multiset(sorted) + multiset{x} && Ascending(Indexes(r))
  {
    var p := 0;
    while p < |sorted| && sorted[p].index < x.index
      invariant 0 <= p <= |sorted|
      invariant forall k :: 0 <= k < p ==> sorted[k].index < x.index
    {
      p := p + 1;
    }
    r := sorted[..p] + [x] + sorted[p..];
    assert sorted == sorted[..p] + sorted[p..];
    InsertedAscends(sorted, x, p);
  }

  lemma InsertedAscends(sorted: seq<StageResult>, x: StageResult, p: nat)
    requires p <= |sorted| && Ascending(Indexes(sorted))
    requires forall k :: 0 <= k < p ==> sorted[k].index < x.index
    requires p < |sorted| ==> x.index < sorted[p].index
    ensures Ascending(Indexes(sorted[..p] + [x] + sorted[p..]))
  {
    var r := sorted[..p] + [x] + sorted[p..];
    assert forall k :: 0 <= k < |sorted| ==> Indexes(sorted)[k] == sorted[k].index;
    forall k, l | 0 <= k < l < |r| ensures r[k].index < r[l].index {
      var k', l' := if k < p then k else k - 1, if l < p then l else l - 1;
      assert k != p ==> r[k] == sorted[k'];
      assert l != p ==> r[l] == sorted[l'];
      if k == p && l' > p { assert Indexes(sorted)[p] < Indexes(sorted)[l']; }
      if k != p && l != p { assert Indexes(sorted)[k'] < Indexes(sorted)[l']; }
    }
  }

  class Svm {
    const sv: Services
    const ex: Executor
    const accounts: Accounts
    const history: TransactionHistory

    constructor (sv: Services, ex: Executor)
      ensures Valid() && this.sv == sv && this.ex == ex
      ensures accounts.State() == S.StoreState(CacheDb(map[], {}), [], S.ProgramCache(0, map[]), map[])
      ensures history.State() == H.WithCapacity(DEFAULT_CAPACITY)
    {
      this.sv, this.ex := sv, ex;
      accounts := new Accounts(sv);
      history := new TransactionHistory();
    }

    ghost predicate Valid() {
      accounts.sv == sv
    }

    function State(): L.VmState
      reads accounts, history
    {
      L.VmState(accounts.State(), history.State())
    }

    /** Executes a transaction without touching the machine. */
    method TransactDetached(tx: Tx) returns (d: L.DetachedTx)
      ensures d == B.LiveOutcome(sv, ex, State(), tx)
    {
      var view := map a | a in Observed(ex, tx) :: Read(sv, accounts.Db(), a);
      var seen := history.CheckTransaction(tx.signature);
      d := Machine.TransactDetached(ex, tx, view, seen);
    }

    /** Executes a transaction and stages its accounts in the live overlay. */
    method TransactCore(tx: Tx) returns (r: Result<L.Staged, TransactionResult>)
      requires Valid()
      modifies accounts
      ensures match L.Stage(sv, old(State()), B.LiveOutcome(sv, ex, old(State()), tx))
              case Live(vm, staged) => State() == vm && r == Ok(staged)
              case Refused(vm, result) => State() == vm && r == Err(result)
    {
      var d := TransactDetached(tx);
      if d.fatal { return Err(L.ResultOf(d)); }
      var checkpoint := accounts.Checkpoint();
      var cacheDirty := C.TouchesCaches(d.postAccounts, accounts.State());
      var enabled := history.IsEnabled();
      var delta := L.DeltaOf(d, enabled);
      var changes := L.Changes(sv, accounts.Db(), delta.postAccounts);
      var synced := accounts.SyncAccounts(delta.postAccounts);
      if synced.Err? {
        accounts.Rollback(checkpoint);
        return Err(L.ResultOf(d));
      }
      r := Ok(L.Staged(checkpoint, L.ResultOf(d), delta.historyEntry, cacheDirty, changes));
    }

    method Commit(staged: L.Staged) returns (result: TransactionResult)
      modifies history
      ensures State() == L.Commit(old(State()), staged) && result == staged.result
    {
      if staged.historyEntry.Some? {
        history.AddNewTransaction(staged.historyEntry.value.0, staged.historyEntry.value.1);
      }
      result := staged.result;
    }

    /** Rolls the overlay back and rebuilds the caches if they may have been
        touched. A failing rebuild is the panic of the source. */
    method Discard(staged: L.Staged) returns (result: Option<TransactionResult>)
      requires Valid()
      modifies accounts
      ensures match L.Discard(sv, old(State()), staged)
              case Some(vm) => State() == vm && result == Some(staged.result)
              case None => result == None
    {
      accounts.Rollback(staged.checkpoint);
      if staged.cacheDirty {
        accounts.RebuildSysvarCache();
        var rebuilt := accounts.RebuildProgramCache();
        if rebuilt.Err? { return None; }
      }
      result := Some(staged.result);
    }

    /** Streams the changes to the sink one at a time; commits if it takes all
        of them and discards at the first it refuses. */
    method CommitWith(staged: L.Staged, sink: L.Sink) returns (reply: CommitReply)
      requires Valid()
      modifies accounts, history
      ensures match L.CommitWith(sv, old(State()), staged, sink)
              case Committed(vm) => State() == vm && reply == Kept(staged.result)
              case Aborted(vm) => State() == vm && reply == SinkFailed
              case Panicked => reply == RebuildPanic
    {
      for k := 0 to |staged.changes|
        invariant State() == old(State())
        invariant forall n :: 1 <= n <= k ==> sink(staged.changes[..n])
      {
        if !sink(staged.changes[..k + 1]) {
          var discarded := Discard(staged);
          return if discarded.Some? then SinkFailed else RebuildPanic;
        }
      }
      var result := Commit(staged);
      reply := Kept(result);
    }

    method SendTransaction(tx: Tx) returns (result: TransactionResult)
      requires Valid()
      modifies accounts, history
      ensures State() == B.SendLive(sv, ex, old(State()), tx).vm
      ensures result == B.SendLive(sv, ex, old(State()), tx).result
    {
      var staged := TransactCore(tx);
      match staged {
        case Ok(s) => result := Commit(s);
        case Err(r) => result := r;
      }
    }

    method ApplyCommitDelta(delta: L.CommitDelta) returns (ok: bool)
      requires Valid()
      modifies accounts, history
      ensures L.Applied(State(), ok) == L.ApplyCommitDelta(sv, old(State()), delta)
    {
      var synced := accounts.SyncAccounts(delta.postAccounts);
      if synced.Err? { return false; }
      if delta.historyEntry.Some? {
        history.AddNewTransaction(delta.historyEntry.value.0, delta.historyEntry.value.1);
      }
      ok := true;
    }

    // ----- Batches -----

    /** Plans a batch in input order, changing nothing. */
    method PlanTransactionBatch(txs: seq<Tx>) returns (r: Result<seq<Stage>, BatchError>)
      ensures match FirstInsane(sv, ex, State(), txs, |txs|)
              case Some(e) => r == Err(e)
              case None => r == Ok(R.PlanFor(ex, txs))
    {
      var stages: seq<Stage> := [];
      var n := 0;
      while n < |txs|
        invariant 0 <= n <= |txs|
        invariant FirstInsane(sv, ex, State(), txs, n) == None
        invariant stages == PlanOf(B.AllLocks(ex, txs), n)
      {
        InsaneStep(sv, ex, State(), txs, n);
        B.PlanStep(ex, txs, n);
        var insane := SanitizeForBatch(txs[n]);
        if insane.Some? {
          InsaneStays(sv, ex, State(), txs, n + 1, |txs|);
          return Err(InBatchError(n, insane.value));
        }
        var lock := LockSetOf(ex, txs[n]);
        stages := PlaceTransaction(stages, n, lock);
        n := n + 1;
      }
      r := Ok(stages);
    }

    method SanitizeForBatch(tx: Tx) returns (insane: Option<SanitizeError>)
      ensures insane == ex.sanitize(tx, SanitizeView(sv, State(), tx))
    {
      insane := ex.sanitize(tx, map a | a in tx.lookups :: Read(sv, accounts.Db(), a));
    }

    /** The union of the static keys of a stage, without repetitions. */
    method StageReadSet(txs: seq<Tx>, members: seq<nat>) returns (keys: seq<Address>)
      requires InRange(txs, members)
      ensures keys == B.ReadSet(txs, members)
    {
      keys := [];
      for m := 0 to |members|
        invariant keys == B.ReadSet(txs, members[..m])
      {
        assert members[..m + 1][..m] == members[..m];
        var own := B.StaticKeys(txs[members[m]]);
        ghost var before := keys;
        for k := 0 to |own|
          invariant B.AppendNew(before, own) == B.AppendNew(keys, own[k..])
        {
          assert own[k..][1..] == own[k + 1..];
          if own[k] !in keys { keys := keys + [own[k]]; }
        }
        assert own[|own|..] == [];
      }
      assert members[..|members|] == members;
    }

    /** Drains a stage with any number of workers, each holding its own copy of
        the machine, in any order. */
    method ExecuteTransactionBatchStage(txs: seq<Tx>, members: seq<nat>) returns (results: seq<StageResult>)
      requires InRange(txs, members)
      ensures exists s: StageState ::
                Draining(sv, ex, State(), txs, members, s) && s.pending == {} && s.pushed == results
    {
      var snapshot := State();
      var stage := StageState(map[], set i | i in members, []);
      while stage.pending != {}
        invariant Draining(sv, ex, snapshot, txs, members, stage)
        decreases stage.pending
      {
        var i :| i in stage.pending;
        var w: nat := *;
        WorkerStepKeepsDraining(sv, ex, snapshot, txs, members, stage, w, i);
        stage := WorkerStep(sv, ex, snapshot, txs, stage, w, i);
      }
      results := stage.pushed;
    }

    /** Runs all members of a stage on one snapshot and merges their deltas in
        index order. `ok` is false when a merge is refused, where the source
        panics. */
    method RunParallelStage(txs: seq<Tx>, members: seq<nat>) returns (results: seq<StageResult>, ok: bool)
      requires Valid() && InRange(txs, members) && Ascending(members)
      modifies accounts, history
      ensures L.Applied(State(), ok) == B.MergeLive(sv, ex, old(State()), old(State()), txs, members)
      ensures results == Reports(sv, ex, old(State()), txs, members)
    {
      ghost var snapshot := State();
      var pushed := ExecuteTransactionBatchStage(txs, members);
      ghost var drained: StageState :|
        Draining(sv, ex, snapshot, txs, members, drained) && drained.pending == {} && drained.pushed == pushed;
      results := SortByIndex(pushed);
      AnyScheduleSortsAlike(sv, ex, snapshot, txs, members, drained, results);
      var k := 0;
      while k < |results|
        invariant 0 <= k <= |results| == |members|
        invariant B.MergeLive(sv, ex, snapshot, snapshot, txs, members) ==
                    B.MergeLive(sv, ex, snapshot, State(), txs, members[k..])
      {
        assert members[k..][0] == members[k] && members[k..][1..] == members[k + 1..];
        assert results[k] == Report(sv, ex, snapshot, txs, members[k]);
        var applied := ApplyCommitDelta(results[k].delta);
        if !applied { return results, false; }
        k := k + 1;
      }
      ok := true;
    }

    /** Warms up and runs a stage of several transactions. */
    method RunWarmedStage(txs: seq<Tx>, members: seq<nat>) returns (reply: StageReply)
      requires Valid() && InRange(txs, members) && Ascending(members) && members != []
      modifies accounts, history
      ensures
        var warmed := B.WarmUp(sv, old(State()), txs, members);
        if !warmed.ok then
          && State() == warmed.vm && reply.StageFailed? && reply.error.AccountSource?
          && B.ReadSet(txs, members) != []
          && reply.error.index == members[0] && reply.error.pubkey == B.ReadSet(txs, members)[0]
        else
          var merged := B.MergeLive(sv, ex, warmed.vm, warmed.vm, txs, members);
          && State() == merged.vm
          && reply == if merged.ok then StageDone(Reports(sv, ex, warmed.vm, txs, members)) else StagePanic
    {
      var keys := StageReadSet(txs, members);
      var warmed := accounts.Prewarm(keys);
      if warmed.Err? {
        assert keys != [];
        return StageFailed(AccountSource(members[0], keys[0], warmed.error));
      }
      var loaded := accounts.PrewarmPrograms(keys);
      if loaded.Err? {
        assert keys != [];
        return StageFailed(AccountSource(members[0], keys[0], SourceError(Other, "program prewarm failed")));
      }
      var results, ok := RunParallelStage(txs, members);
      reply := if ok then StageDone(results) else StagePanic;
    }

    /** Runs one stage of a plan and files its results. `stop` is the reply of
        the batch when the stage fails. */
    method RunPlannedStage(
      txs: seq<Tx>, members: seq<nat>, s: nat, slots: seq<Option<TransactionResult>>, ghost run: B.BatchRun)
      returns (filled: seq<Option<TransactionResult>>, stop: Option<BatchReply>)
      requires Valid() && InRange(txs, members) && Ascending(members) && members != []
      requires run.status.Finished? && State() == run.vm && SlotsHold(slots, txs, run.results)
      modifies accounts, history
      ensures
        var next := B.RunStage(sv, ex, run, txs, members, s);
        && State() == next.vm
        && match next.status
           case Finished => stop == None && SlotsHold(filled, txs, next.results)
           case SourceFailed(k) =>
             && k == s && stop.Some? && stop.value.BatchErr?
             && stop.value.error.AccountSource? && stop.value.error.index == members[0]
           case MergePanicked(_) => stop == Some(BatchPanic)
    {
      filled, stop := slots, None;
      if |members| == 1 {
        var result := SendTransaction(txs[members[0]]);
        filled := slots[members[0] := Some(result)];
      } else {
        ghost var warmed := B.WarmUp(sv, run.vm, txs, members);
        var done := RunWarmedStage(txs, members);
        match done {
          case StageFailed(error) => stop := Some(BatchErr(error));
          case StagePanic => stop := Some(BatchPanic);
          case StageDone(results) =>
            ReportsIndexes(sv, ex, warmed.vm, txs, members);
            filled := FillSlots(slots, results);
            FilledHold(sv, ex, warmed.vm, txs, members, slots, filled, run.results);
        }
      }
    }

    /** Runs the stages of the plan one after the other, stopping at a failure. */
    method RunPlan(txs: seq<Tx>, stages: seq<Stage>) returns (reply: BatchReply)
      requires Valid() && stages == R.PlanFor(ex, txs)
      modifies accounts, history
      ensures B.StagesInRange(txs, stages)
      ensures State() == B.RunStages(sv, ex, old(State()), txs, stages).vm
      ensures ReplyFits(B.RunStages(sv, ex, old(State()), txs, stages), txs, stages, reply)
    {
      PlanStagesUsable(ex, txs);
      ghost var vm := State();
      ghost var run := B.RunStages(sv, ex, vm, txs, stages[..0]);
      var slots: seq<Option<TransactionResult>> := seq(|txs|, _ => None);
      for s := 0 to |stages|
        invariant run == B.RunStages(sv, ex, vm, txs, stages[..s]) && run.status.Finished?
        invariant State() == run.vm && SlotsHold(slots, txs, run.results)
      {
        RunStagesStep(sv, ex, vm, txs, stages, s);
        ghost var next := B.RunStage(sv, ex, run, txs, stages[s].indexes, s);
        var filled, stop := RunPlannedStage(txs, stages[s].indexes, s, slots, run);
        if stop.Some? {
          FailedRunStays(sv, ex, vm, txs, stages, s + 1, |stages|);
          assert stages[..|stages|] == stages;
          return stop.value;
        }
        slots, run := filled, next;
      }
      assert stages[..|stages|] == stages;
      AllSlotsFilled(sv, ex, vm, txs, slots);
      var results := CollectSlots(slots);
      reply := BatchOk(P.Members(stages), results);
    }

    /** Plans and runs a batch. Its effect on the machine and its reply are a
        function of the machine and the batch, whatever the workers' schedule. */
    method SendTransactionBatch(txs: seq<Tx>) returns (reply: BatchReply)
      requires Valid()
      modifies accounts, history
      ensures match FirstInsane(sv, ex, old(State()), txs, |txs|)
              case Some(e) => reply == BatchErr(e) && State() == old(State())
              case None =>
                var stages := R.PlanFor(ex, txs);
                && B.StagesInRange(txs, stages)
                && State() == B.RunStages(sv, ex, old(State()), txs, stages).vm
                && ReplyFits(B.RunStages(sv, ex, old(State()), txs, stages), txs, stages, reply)
    {
      var planned := PlanTransactionBatch(txs);
      if planned.Err? { return BatchErr(planned.error); }
      reply := RunPlan(txs, planned.value);
    }
  }

  lemma InsaneStep(sv: Services, ex: Executor, vm: L.VmState, txs: seq<Tx>, n: nat)
    requires n < |txs| && FirstInsane(sv, ex, vm, txs, n) == None
    ensures FirstInsane(sv, ex, vm, txs, n + 1) ==
            match ex.sanitize(txs[n], SanitizeView(sv, vm, txs[n]))
            case Some(e) => Some(InBatchError(n, e))
            case None => None
  {}

  lemma {:induction false} InsaneStays(sv: Services, ex: Executor, vm: L.VmState, txs: seq<Tx>, n: nat, m: nat)
    requires n <= m <= |txs| && FirstInsane(sv, ex, vm, txs, n).Some?
    ensures FirstInsane(sv, ex, vm, txs, m) == FirstInsane(sv, ex, vm, txs, n)
    decreases m
  {
    if n < m { InsaneStays(sv, ex, vm, txs, n, m - 1); }
  }

  datatype StageReply = StageDone(results: seq<StageResult>) | StageFailed(error: BatchError) | StagePanic

  /** The result slots hold the results of a run and nothing else. */
  ghost predicate SlotsHold(slots: seq<Option<TransactionResult>>, txs: seq<Tx>, results: map<nat, TransactionResult>) {
    && |slots| == |txs|
    && forall i: nat :: i < |slots| ==> slots[i] == if i in results then Some(results[i]) else None
  }

  /** How the reply of a batch reflects its run. */
  ghost predicate ReplyFits(run: B.BatchRun, txs: seq<Tx>, stages: seq<Stage>, reply: BatchReply) {
    match run.status
    case Finished =>
      && reply.BatchOk? && reply.plan == P.Members(stages) && |reply.results| == |txs|
      && forall i: nat :: i < |txs| ==> i in run.results && reply.results[i] == run.results[i]
    case SourceFailed(k) =>
      && k < |stages| && stages[k].indexes != []
      && reply.BatchErr? && reply.error.AccountSource? && reply.error.index == stages[k].indexes[0]
    case MergePanicked(_) => reply == BatchPanic
  }

  method FillSlots(
    slots: seq<Option<TransactionResult>>, results: seq<StageResult>) returns (filled: seq<Option<TransactionResult>>)
    requires forall k :: 0 <= k < |results| ==> results[k].index < |slots|
    requires Ascending(Indexes(results))
    ensures |filled| == |slots|
    ensures forall k :: 0 <= k < |results| ==> filled[results[k].index] == Some(results[k].result)
    ensures forall i: nat :: i < |slots| && i !in Indexes(results) ==> filled[i] == slots[i]
  {
    filled := slots;
    for n := 0 to |results|
      invariant |filled| == |slots|
      invariant forall k :: 0 <= k < n ==> filled[results[k].index] == Some(results[k].result)
      invariant forall i: nat :: i < |slots| && i !in Indexes(results) ==> filled[i] == slots[i]
    {
      assert forall k :: 0 <= k < |results| ==> Indexes(results)[k] == results[k].index;
      assert Indexes(results)[n] in Indexes(results);
      filled := filled[results[n].index := Some(results[n].result)];
    }
  }

  /** Unwraps the slots; none of them may be empty. */
  method CollectSlots(slots: seq<Option<TransactionResult>>) returns (results: seq<TransactionResult>)
    requires forall i :: 0 <= i < |slots| ==> slots[i].Some?
    ensures |results| == |slots| && forall i :: 0 <= i < |slots| ==> Some(results[i]) == slots[i]
  {
    results := seq(|slots|, i requires 0 <= i < |slots| && slots[i].Some? => slots[i].value);
  }

  lemma PlanStagesUsable(ex: Executor, txs: seq<Tx>)
    ensures var stages := R.PlanFor(ex, txs);
            && B.StagesInRange(txs, stages) && Lists(OrderOf(stages), 0, |txs|)
            && forall s :: 0 <= s < |stages| ==> stages[s].indexes != [] && Ascending(stages[s].indexes)
  {
    var locks, stages := B.AllLocks(ex, txs), R.PlanFor(ex, txs);
    PlanIsSound(locks, |txs|);
    PlanOrderLists(locks, |txs|);
    forall s | 0 <= s < |stages|
      ensures InRange(txs, stages[s].indexes) && stages[s].indexes != [] && Ascending(stages[s].indexes)
    {
      assert StageSound(locks, |txs|, stages[s]);
    }
  }

  /** After all stages every slot is filled: the final unwrap cannot fail. */
  lemma AllSlotsFilled(sv: Services, ex: Executor, vm: L.VmState, txs: seq<Tx>, slots: seq<Option<TransactionResult>>)
    ensures B.StagesInRange(txs, R.PlanFor(ex, txs))
    ensures var run := B.RunStages(sv, ex, vm, txs, R.PlanFor(ex, txs));
            run.status.Finished? && SlotsHold(slots, txs, run.results) ==>
              forall i: nat :: i < |slots| ==> i in run.results && slots[i] == Some(run.results[i])
  {
    PlanStagesUsable(ex, txs);
    B.RunResultKeys(sv, ex, vm, txs, R.PlanFor(ex, txs));
    assert forall i: nat :: i < |txs| ==> i in OrderOf(R.PlanFor(ex, txs));
  }

  lemma RunStagesStep(sv: Services, ex: Executor, vm: L.VmState, txs: seq<Tx>, stages: seq<Stage>, s: nat)
    requires s < |stages| && B.StagesInRange(txs, stages)
    ensures var before := B.RunStages(sv, ex, vm, txs, stages[..s]);
            B.RunStages(sv, ex, vm, txs, stages[..s + 1]) ==
              if before.status.Finished? then B.RunStage(sv, ex, before, txs, stages[s].indexes, s) else before
  {
    assert stages[..s + 1][..s] == stages[..s];
  }

  /** Once a stage has failed, the stages after it are not run. */
  lemma {:induction false} FailedRunStays(
    sv: Services, ex: Executor, vm: L.VmState, txs: seq<Tx>, stages: seq<Stage>, s: nat, n: nat)
    requires s <= n <= |stages| && B.StagesInRange(txs, stages)
    requires !B.RunStages(sv, ex, vm, txs, stages[..s]).status.Finished?
    ensures B.RunStages(sv, ex, vm, txs, stages[..n]) == B.RunStages(sv, ex, vm, txs, stages[..s])
    decreases n
  {
    if s < n {
      FailedRunStays(sv, ex, vm, txs, stages, s, n - 1);
      RunStagesStep(sv, ex, vm, txs, stages, n - 1);
    }
  }

  lemma ReportsIndexes(sv: Services, ex: Executor, snapshot: L.VmState, txs: seq<Tx>, members: seq<nat>)
    requires InRange(txs, members)
    ensures Indexes(Reports(sv, ex, snapshot, txs, members)) == members
  {}

  lemma FilledHold(
    sv: Services, ex: Executor, snapshot: L.VmState, txs: seq<Tx>, members: seq<nat>,
    slots: seq<Option<TransactionResult>>, filled: seq<Option<TransactionResult>>, results: map<nat, TransactionResult>)
    requires InRange(txs, members) && SlotsHold(slots, txs, results) && |filled| == |slots|
    requires var reports := Reports(sv, ex, snapshot, txs, members);
             forall k :: 0 <= k < |reports| ==>
               reports[k].index < |filled| && filled[reports[k].index] == Some(reports[k].result)
    requires forall i: nat :: i < |slots| && i !in members ==> filled[i] == slots[i]
    ensures SlotsHold(filled, txs, results + B.LiveResults(sv, ex, snapshot, txs, members))
  {
    var reports := Reports(sv, ex, snapshot, txs, members);
    var all := results + B.LiveResults(sv, ex, snapshot, txs, members);
    forall i: nat | i < |filled| ensures filled[i] == if i in all then Some(all[i]) else None {
      if i in members {
        var k :| 0 <= k < |members| && members[k] == i;
        assert reports[k].index == i;
      }
    }
  }

  /** Transaction `i` is the first that cannot be sanitized, and this is why. */
  ghost predicate InsaneAt(sv: Services, ex: Executor, vm: L.VmState, txs: seq<Tx>, i: int, e: BatchError) {
    && 0 <= i < |txs| && (forall j :: 0 <= j < i ==> ex.sanitize(txs[j], SanitizeView(sv, vm, txs[j])).None?)
    && match ex.sanitize(txs[i], SanitizeView(sv, vm, txs[i]))
       case None => false
       case Some(BadTransaction(err)) => e == Sanitize(i, err)
       case Some(SourceDown(pubkey, cause)) => e == AccountSource(i, pubkey, cause)
  }

  /** A batch is not planned if and only if one of its transactions cannot be
      sanitized; the error names the first of them and its reason. */
  lemma {:induction false} PlanFailsExactly(
    sv: Services, ex: Executor, vm: L.VmState, txs: seq<Tx>, n: nat, e: BatchError)
    requires n <= |txs|
    ensures FirstInsane(sv, ex, vm, txs, n) == Some(e) <==> exists i :: i < n && InsaneAt(sv, ex, vm, txs, i, e)
    ensures FirstInsane(sv, ex, vm, txs, n) == None <==>
            forall j :: 0 <= j < n ==> ex.sanitize(txs[j], SanitizeView(sv, vm, txs[j])).None?
  {
    if n > 0 {
      PlanFailsExactly(sv, ex, vm, txs, n - 1, e);
      var insane := ex.sanitize(txs[n - 1], SanitizeView(sv, vm, txs[n - 1]));
      if FirstInsane(sv, ex, vm, txs, n - 1) == None && insane.Some? && InBatchError(n - 1, insane.value) == e {
        assert InsaneAt(sv, ex, vm, txs, n - 1, e);
      }
    }
  }
}
