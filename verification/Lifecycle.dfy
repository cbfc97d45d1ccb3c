/** The life of one transaction outcome: built as a detached value, applied as
    a delta or staged into the live overlay, and then committed or discarded
    (commit.rs, executed.rs and the staging core of vm.rs). */
module Lifecycle {
  import opened Types
  import opened Overlay
  import opened Store
  import opened Partition
  import opened TimeTravel
  import opened Coherence
  import opened Staleness
  import H = History

  /** The owned outcome of a readonly execution. */
  datatype DetachedTx = DetachedTx(
    meta: TransactionMetadata,
    postAccounts: Delta,
    status: Option<TransactionError>,
    included: bool,
    fatal: bool)

  datatype CommitDelta = CommitDelta(postAccounts: Delta, historyEntry: Option<H.Entry>)

  datatype VmState = VmState(accounts: StoreState, history: H.HistoryState)

  function ResultOf(d: DetachedTx): TransactionResult {
    match d.status
    case None => Succeeded(d.meta)
    case Some(err) => Failed(err, d.meta)
  }

  /** Only an included outcome has effects, and only an enabled history stores one. */
  function DeltaOf(d: DetachedTx, historyEnabled: bool): CommitDelta {
    if d.included then
      CommitDelta(d.postAccounts, if historyEnabled then Some((d.meta.signature, ResultOf(d))) else None)
    else
      CommitDelta([], None)
  }

  function RecordEntry(h: H.HistoryState, entry: Option<H.Entry>): H.HistoryState {
    match entry
    case Some(e) => H.Insert(h, e.0, e.1)
    case None => h
  }

  datatype Applied = Applied(vm: VmState, ok: bool)

  function ApplyCommitDelta(sv: Services, vm: VmState, delta: CommitDelta): Applied {
    var synced := SyncAccounts(sv, vm.accounts, delta.postAccounts);
    if synced.ok then Applied(VmState(synced.state, RecordEntry(vm.history, delta.historyEntry)), true)
    else Applied(vm.(accounts := synced.state), false)
  }

  // ----- Staging -----

  datatype AccountChange = AccountChange(address: Address, before: Option<Account>, after: Option<Account>)

  /** A staged transaction; its post-state is already live in the overlay. */
  datatype Staged = Staged(
    checkpoint: nat,
    result: TransactionResult,
    historyEntry: Option<H.Entry>,
    cacheDirty: bool,
    changes: seq<AccountChange>)

  datatype StageOutcome =
    | Live(vm: VmState, staged: Staged)
    | Refused(vm: VmState, result: TransactionResult)

  function Changes(sv: Services, db: CacheDb, delta: Delta): seq<AccountChange> {
    seq(|delta|, i requires 0 <= i < |delta| =>
      AccountChange(delta[i].0, GetAccount(sv, db, delta[i].0), Stored(delta[i].1)))
  }

  /** The staging core: a fatal outcome stages nothing, and a refused sync is
      rolled back (without rebuilding the caches). */
  function Stage(sv: Services, vm: VmState, d: DetachedTx): StageOutcome {
    if d.fatal then Refused(vm, ResultOf(d))
    else
      var checkpoint := |vm.accounts.journal|;
      var delta := DeltaOf(d, vm.history.max != 0);
      var synced := SyncAccounts(sv, vm.accounts, delta.postAccounts);
      if synced.ok then
        Live(
          vm.(accounts := synced.state),
          Staged(checkpoint, ResultOf(d), delta.historyEntry, TouchesCaches(d.postAccounts, vm.accounts),
                 Changes(sv, vm.accounts.db, delta.postAccounts)))
      else
        Refused(vm.(accounts := RollbackTo(synced.state, checkpoint)), ResultOf(d))
  }

  function Commit(vm: VmState, staged: Staged): VmState {
    vm.(history := RecordEntry(vm.history, staged.historyEntry))
  }

  /** Rolls back and rebuilds the caches if they may have been touched. `None`
      is the panic of the source when the rebuild fails. */
  function Discard(sv: Services, vm: VmState, staged: Staged): Option<VmState> {
    var back := RollbackTo(vm.accounts, staged.checkpoint);
    if staged.cacheDirty then
      var rebuilt := RebuildPrograms(sv, RebuildSysvars(sv, back));
      if rebuilt.ok then Some(vm.(accounts := rebuilt.state)) else None
    else Some(vm.(accounts := back))
  }

  /** A sink may refuse a change depending on everything it has seen so far. */
  type Sink = seq<AccountChange> -> bool

  /** Whether the sink takes every change, streamed one at a time. */
  predicate Accepts(sink: Sink, changes: seq<AccountChange>) {
    forall k :: 1 <= k <= |changes| ==> sink(changes[..k])
  }

  datatype Resolution = Committed(vm: VmState) | Aborted(vm: VmState) | Panicked

  function CommitWith(sv: Services, vm: VmState, staged: Staged, sink: Sink): Resolution {
    if Accepts(sink, staged.changes) then Committed(Commit(vm, staged))
    else
      match Discard(sv, vm, staged)
      case Some(back) => Aborted(back)
      case None => Panicked
  }

  // ----- Discarding undoes staging -----

  /** After a live stage the overlay and journal can be rolled back exactly. */
  lemma StageCanBeRolledBack(sv: Services, s: StoreState, delta: Delta)
    ensures var t := RollbackTo(SyncAccounts(sv, s, delta).state, |s.journal|);
            t.db == s.db && t.journal == s.journal
  {
    AddAllRecovers(sv, s, Partitioned(delta));
    var t := SyncAccounts(sv, s, delta).state;
    if |t.journal| == |s.journal| {
      assert t.journal[|s.journal|..] == [];
    }
  }

  /** When staging is not flagged as touching the caches, it does not. */
  lemma UnflaggedStageKeepsCaches(sv: Services, vm: VmState, d: DetachedTx)
    requires !TouchesCaches(d.postAccounts, vm.accounts)
    ensures var delta := DeltaOf(d, vm.history.max != 0);
            var t := SyncAccounts(sv, vm.accounts, delta.postAccounts);
            t.ok && t.state.programs == vm.accounts.programs && t.state.sysvars == vm.accounts.sysvars
  {
    var delta := DeltaOf(d, vm.history.max != 0);
    assert !TouchesCaches(delta.postAccounts, vm.accounts);
    PartitionedSound(delta.postAccounts);
    FlagIsOrderFree(Partitioned(delta.postAccounts), delta.postAccounts, vm.accounts);
    UnflaggedKeepsCaches(sv, vm.accounts, Partitioned(delta.postAccounts));
  }

  /** A staged transaction is flagged exactly if one of its accounts is executable,
      takes the place of an executable one, or is a sysvar. */
  lemma FlagExactly(sv: Services, vm: VmState, d: DetachedTx)
    requires Stage(sv, vm, d).Live?
    ensures Stage(sv, vm, d).staged.cacheDirty <==>
            exists x :: && x in d.postAccounts
                        && (x.1.executable || IsManagedSysvar(x.0) || Executable(vm.accounts.db, x.0))
  {
    var xs, db := d.postAccounts, vm.accounts.db;
    if TouchesCaches(xs, vm.accounts) {
      var i :| 0 <= i < |xs|
        && (xs[i].1.executable || IsManagedSysvar(xs[i].0) || (xs[i].0 in db.inner && db.inner[xs[i].0].executable));
      assert xs[i] in xs;
    }
  }

  predicate Executable(db: CacheDb, a: Address) {
    a in db.inner && db.inner[a].executable
  }

  /** Discard is the inverse of staging, overlay, tombstones, journal, history and
      both caches included, and its rebuild cannot fail, exactly when the caches
      were coherent or staging was not flagged as touching them. */
  lemma DiscardUndoesStage(sv: Services, vm: VmState, d: DetachedTx)
    requires Stage(sv, vm, d).Live?
    ensures var live := Stage(sv, vm, d);
            Discard(sv, live.vm, live.staged) == Some(vm) <==>
            (TouchesCaches(d.postAccounts, vm.accounts) ==> Coherent(sv, vm.accounts))
  {
    var live := Stage(sv, vm, d);
    var delta := DeltaOf(d, vm.history.max != 0);
    StageCanBeRolledBack(sv, vm.accounts, delta.postAccounts);
    if !live.staged.cacheDirty {
      UnflaggedStageKeepsCaches(sv, vm, d);
    } else {
      RebuildRestoresExactly(sv, vm.accounts, RollbackTo(live.vm.accounts, live.staged.checkpoint));
    }
  }

  lemma RebuildRestoresExactly(sv: Services, s: StoreState, back: StoreState)
    requires back.db == s.db && back.journal == s.journal
    ensures var rebuilt := RebuildPrograms(sv, RebuildSysvars(sv, back));
            rebuilt.ok && rebuilt.state == s <==> Coherent(sv, s)
  {
    var renewed := RebuildSysvars(sv, back);
    if Coherent(sv, s) {
      assert renewed.sysvars == s.sysvars;
      assert AllLoad(sv, renewed);
      assert Rebuilt(sv, renewed) == Rebuilt(sv, s);
    }
  }

  /** A sink that fails at any change leaves the machine as it was before
      staging; one that takes every change commits. */
  lemma CommitWithIsAllOrNothing(sv: Services, vm: VmState, d: DetachedTx, sink: Sink)
    requires TouchesCaches(d.postAccounts, vm.accounts) ==> Coherent(sv, vm.accounts)
    requires Stage(sv, vm, d).Live?
    ensures
      var live := Stage(sv, vm, d);
      CommitWith(sv, live.vm, live.staged, sink) ==
        if forall k :: 1 <= k <= |live.staged.changes| ==> sink(live.staged.changes[..k])
        then Committed(Commit(live.vm, live.staged)) else Aborted(vm)
  {
    DiscardUndoesStage(sv, vm, d);
  }

  // ----- The two commit paths -----

  /** Staging and committing an outcome does what applying its delta does. A
      fatal outcome changes nothing on either path. When the accounts are
      refused, staging restores overlay and history while the delta path has
      already written a part of them. */
  lemma CommitPathsAgree(sv: Services, vm: VmState, d: DetachedTx)
    requires d.fatal ==> !d.included
    ensures
      var stage := Stage(sv, vm, d);
      var applied := ApplyCommitDelta(sv, vm, DeltaOf(d, vm.history.max != 0));
      match stage
      case Live(live, staged) =>
        !d.fatal && applied == Applied(Commit(live, staged), true) && staged.result == ResultOf(d)
      case Refused(kept, result) =>
        && kept.accounts.db == vm.accounts.db && kept.accounts.journal == vm.accounts.journal
        && kept.history == vm.history && result == ResultOf(d)
        && if d.fatal then applied == Applied(vm, true) else !applied.ok
  {
    var delta := DeltaOf(d, vm.history.max != 0);
    if d.fatal {
      assert Partitioned([]) == [];
    } else {
      StageCanBeRolledBack(sv, vm.accounts, delta.postAccounts);
    }
  }

  // ----- A refused stage and the caches -----

  /** A refused stage restores the overlay but not the caches: a program that
      was accepted before the refusal keeps its cache entry although its
      account is gone again. */
  lemma RefusedStageLeavesStaleEntry(
    sv: Services, vm: VmState, a: Address, good: Account, b: Address, bad: Account, meta: TransactionMetadata)
    requires a != b && !IsManagedSysvar(a) && !IsManagedSysvar(b)
    requires HasProgram(a, good) && !IsProgramdata(good)
    requires LoadProgram(sv, vm.accounts.db, vm.accounts.sysvars, good).Ok?
    requires HasProgram(b, bad) && bad.owner == DEFAULT_ADDRESS
    requires !Known(vm.accounts.db, a)
    ensures
      var d := DetachedTx(meta, [(a, good), (b, bad)], None, true, false);
      var stage := Stage(sv, vm, d);
      && stage.Refused?
      && stage.vm.accounts.db == vm.accounts.db
      && a !in stage.vm.accounts.db.inner
      && a in stage.vm.accounts.programs.entries
      && (a !in sv.builtins ==> !Coherent(sv, stage.vm.accounts))
  {
    var delta := [(a, good), (b, bad)];
    var s := vm.accounts;
    PartitionOfPair((a, good), (b, bad));
    AddAllOfPair(sv, s, (a, good), (b, bad));
    var s1 := AddAccount(sv, s, a, good);
    assert s1.ok;
    assert LoadProgram(sv, s1.state.db, s1.state.sysvars, bad).Err?;
    assert SyncAccounts(sv, s, delta) == Attempt(s1.state, false);
    StageCanBeRolledBack(sv, s, delta);
    assert RollbackTo(s1.state, |s.journal|).programs == s1.state.programs;
  }

  /** Exactly when a refused stage changes nothing at all: if and only if every
      account up to the refused one is quiet, that is, a program only where there
      was one, loading to the entry already cached, one closed only if the rebuild
      fails, and a sysvar only with the data it had. */
  lemma RefusedStageExactly(sv: Services, vm: VmState, d: DetachedTx)
    requires !d.fatal && Stage(sv, vm, d).Refused?
    ensures var s, xs := vm.accounts, Partitioned(d.postAccounts);
            && (Quiet(sv, s, xs) && (NoSysvars(xs) || Derived(sv, s)) ==> Stage(sv, vm, d) == Refused(vm, ResultOf(d)))
            && (Coherent(sv, s) && Distinct(d.postAccounts) ==>
                  (Stage(sv, vm, d) == Refused(vm, ResultOf(d)) <==> Quiet(sv, s, xs)))
  {
    var s, xs := vm.accounts, Partitioned(d.postAccounts);
    StageCanBeRolledBack(sv, s, d.postAccounts);
    PartitionedSound(d.postAccounts);
    QuietExactly(sv, s, xs);
    var synced := AddAll(sv, s, xs).state;
    assert RollbackTo(synced, |s.journal|).programs == synced.programs;
    assert RollbackTo(synced, |s.journal|).sysvars == synced.sysvars;
  }
}
