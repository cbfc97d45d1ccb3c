/** Batches whose transactions also see the caches: their outcomes may depend on
    the slot, the sysvars and the loaded programs of the accounts they look at. */
module CacheReaders {
  import opened Types
  import opened Overlay
  import opened Store
  import opened Partition
  import opened Lifecycle
  import opened Staleness
  import opened Planner
  import opened Machine
  import opened StageRun
  import opened Batch
  import opened Inversion
  import opened Serializability
  import opened Sequential
  import H = History

  /** What a transaction can see of the caches. */
  datatype CacheView = CacheView(slot: nat, sysvars: SysvarCache, programs: map<Address, ProgramEntry>)

  function CachesSeen(ex: Executor, s: StoreState, tx: Tx): CacheView {
    CacheView(
      s.programs.slot, s.sysvars,
      map a | a in Observed(ex, tx) && a in s.programs.entries :: s.programs.entries[a])
  }

  /** An executor whose programs see the caches as well; `base` gives the rest. */
  datatype Reader = Reader(base: Executor, run: (Tx, AccountView, CacheView) -> RunOutcome)

  /** The reader on the caches of one store. */
  function Frozen(rd: Reader, s: StoreState): Executor {
    rd.base.(run := (tx: Tx, view: AccountView) => rd.run(tx, view, CachesSeen(rd.base, s, tx)))
  }

  // ----- One at a time: each sees the caches of its turn -----

  function SendEachReading(sv: Services, rd: Reader, vm: VmState, txs: seq<Tx>, members: seq<nat>): Sequel
    requires InRange(txs, members)
    decreases |members|
  {
    if members == [] then Sequel(vm, map[], {})
    else
      var sent := SendLive(sv, Frozen(rd, vm.accounts), vm, txs[members[0]]);
      var rest := SendEachReading(sv, rd, sent.vm, txs, members[1..]);
      Sequel(
        rest.vm, rest.results[members[0] := sent.result],
        if sent.staged then rest.refused else rest.refused + {members[0]})
  }

  /** The machine the members of a stage are run on. */
  function Prepared(sv: Services, vm: VmState, txs: seq<Tx>, members: seq<nat>): Applied
    requires InRange(txs, members)
  {
    if |members| == 1 then Applied(vm, true) else WarmUp(sv, vm, txs, members)
  }

  function SendStageReading(
    sv: Services, rd: Reader, run: BatchRun, txs: seq<Tx>, members: seq<nat>, k: nat): BatchRun
    requires InRange(txs, members)
  {
    var warmed := Prepared(sv, run.vm, txs, members);
    if !warmed.ok then run.(vm := warmed.vm, status := SourceFailed(k))
    else
      var sent := SendEachReading(sv, rd, warmed.vm, txs, members);
      if |members| != 1 && sent.refused != {} then run.(vm := sent.vm, status := MergePanicked(k))
      else run.(vm := sent.vm, results := run.results + sent.results)
  }

  function SendStagesReading(
    sv: Services, rd: Reader, vm: VmState, txs: seq<Tx>, stages: seq<Planner.Stage>): BatchRun
    requires StagesInRange(txs, stages)
  {
    if stages == [] then BatchRun(vm, map[], {}, Finished, {})
    else
      var n := |stages| - 1;
      var before := SendStagesReading(sv, rd, vm, txs, stages[..n]);
      if before.status.Finished? then SendStageReading(sv, rd, before, txs, stages[n].indexes, n) else before
  }

  // ----- In parallel: all see the caches of the stage's snapshot -----

  function RunStageReading(
    sv: Services, rd: Reader, run: BatchRun, txs: seq<Tx>, members: seq<nat>, k: nat): BatchRun
    requires InRange(txs, members)
  {
    RunStage(sv, Frozen(rd, Prepared(sv, run.vm, txs, members).vm.accounts), run, txs, members, k)
  }

  function RunStagesReading(
    sv: Services, rd: Reader, vm: VmState, txs: seq<Tx>, stages: seq<Planner.Stage>): BatchRun
    requires StagesInRange(txs, stages)
  {
    if stages == [] then BatchRun(vm, map[], {}, Finished, {})
    else
      var n := |stages| - 1;
      var before := RunStagesReading(sv, rd, vm, txs, stages[..n]);
      if before.status.Finished? then RunStageReading(sv, rd, before, txs, stages[n].indexes, n) else before
  }

  // ----- One stage -----

  /** Every member looks at some account (its fee payer), the caches are settled
      wherever it looks, and no earlier member writes a sysvar or the programdata
      of a program it looks at. */
  ghost predicate CachesStill(sv: Services, rd: Reader, vm: VmState, txs: seq<Tx>, members: seq<nat>)
    requires InRange(txs, members)
  {
    forall p :: 0 <= p < |members| ==>
      && Observed(rd.base, txs[members[p]]) != {}
      && forall b :: b in Observed(rd.base, txs[members[p]]) ==>
           && SettledAt(sv, vm.accounts, b)
           && forall q :: 0 <= q < p ==>
                SparesCaches(sv, vm.accounts.db, SnapshotDelta(sv, Frozen(rd, vm.accounts), vm, txs, members[q]), b)
  }

  lemma FrozenLocks(rd: Reader, s: StoreState, tx: Tx)
    ensures LocksOf(Frozen(rd, s), tx) == LocksOf(rd.base, tx) && Observed(Frozen(rd, s), tx) == Observed(rd.base, tx)
  {
    SameLocks(Frozen(rd, s), rd.base, tx);
  }

  lemma {:induction false} SamePostAccounts(ex: Executor, ex': Executor, keys: seq<KeyMeta>, accounts: seq<Account>)
    requires ex.reserved == ex'.reserved
    ensures PostAccounts(ex, keys, accounts) == PostAccounts(ex', keys, accounts)
    decreases |keys|
  {
    if keys != [] && accounts != [] {
      SamePostAccounts(ex, ex', keys[1..], accounts[1..]);
    }
  }

  lemma SameCachesSeen(ex: Executor, s: StoreState, t: StoreState, tx: Tx)
    requires Observed(ex, tx) != {} && forall b :: b in Observed(ex, tx) ==> SameAt(s, t, b)
    ensures CachesSeen(ex, s, tx) == CachesSeen(ex, t, tx)
  {
    var x, y := CachesSeen(ex, s, tx), CachesSeen(ex, t, tx);
    var a :| a in Observed(ex, tx);
    assert SameAt(s, t, a);
    forall b ensures b in x.programs <==> b in y.programs {
      assert b in Observed(ex, tx) ==> EntryAt(s.programs, b) == EntryAt(t.programs, b);
    }
    forall b | b in x.programs ensures x.programs[b] == y.programs[b] {
      assert EntryAt(s.programs, b) == EntryAt(t.programs, b);
    }
  }

  /** A reader that sees the same caches does the same. */
  lemma SameCachesSameSend(sv: Services, rd: Reader, s: StoreState, vm: VmState, tx: Tx)
    requires CachesSeen(rd.base, s, tx) == CachesSeen(rd.base, vm.accounts, tx)
    ensures SendLive(sv, Frozen(rd, s), vm, tx) == SendLive(sv, Frozen(rd, vm.accounts), vm, tx)
  {
    var x, y := Frozen(rd, s), Frozen(rd, vm.accounts);
    FrozenLocks(rd, s, tx);
    FrozenLocks(rd, vm.accounts, tx);
    var view := LiveView(sv, x, vm, tx);
    assert view == LiveView(sv, y, vm, tx);
    var outcome := rd.run(tx, view, CachesSeen(rd.base, s, tx));
    assert x.run(tx, view) == outcome == y.run(tx, view);
    if outcome.Ran? {
      SamePostAccounts(x, y, tx.keys, outcome.accounts);
    }
    assert LiveOutcome(sv, x, vm, tx) == LiveOutcome(sv, y, vm, tx);
  }

  lemma {:induction false} SendEachOfSnoc(sv: Services, ex: Executor, vm: VmState, txs: seq<Tx>, init: seq<nat>, m: nat)
    requires InRange(txs, init) && m < |txs|
    ensures InRange(txs, init + [m])
    ensures var before, all := SendEach(sv, ex, vm, txs, init), SendEach(sv, ex, vm, txs, init + [m]);
            var sent := SendLive(sv, ex, before.vm, txs[m]);
            && all.vm == sent.vm && all.refused == before.refused + if sent.staged then {} else {m}
    decreases |init|
  {
    if init == [] {
      SendEachOfOne(sv, ex, vm, txs, init + [m]);
    } else {
      assert (init + [m])[1..] == init[1..] + [m];
      SendEachOfSnoc(sv, ex, SendLive(sv, ex, vm, txs[init[0]]).vm, txs, init[1..], m);
    }
  }

  /** What the results about a stage need of it. */
  ghost predicate StageReady(ex: Executor, vm: VmState, txs: seq<Tx>, members: seq<nat>) {
    && InRange(txs, members) && AllCompatible(ex, txs, members)
    && (forall p :: 0 <= p < |members| ==> DistinctKeys(txs[members[p]]))
    && H.Valid(vm.history) && CheckStable(ex, vm.history, |members|)
  }

  lemma FrozenIsReady(rd: Reader, s: StoreState, vm: VmState, txs: seq<Tx>, members: seq<nat>)
    requires StageReady(rd.base, vm, txs, members)
    ensures StageReady(Frozen(rd, s), vm, txs, members)
  {
    forall p, q | 0 <= p < q < |members| ensures Compatible(Frozen(rd, s), txs[members[p]], txs[members[q]]) {
      FrozenLocks(rd, s, txs[members[p]]);
      FrozenLocks(rd, s, txs[members[q]]);
      assert Compatible(rd.base, txs[members[p]], txs[members[q]]);
    }
  }

  /** At its turn a member sees the caches of the snapshot. */
  lemma TurnIsFrozen(sv: Services, rd: Reader, vm: VmState, txs: seq<Tx>, members: seq<nat>, k: nat)
    requires StageReady(rd.base, vm, txs, members) && CachesStill(sv, rd, vm, txs, members) && k < |members|
    requires SendEach(sv, Frozen(rd, vm.accounts), vm, txs, members[..k]).refused == {}
    ensures var turn := SendEach(sv, Frozen(rd, vm.accounts), vm, txs, members[..k]).vm;
            SendLive(sv, Frozen(rd, vm.accounts), turn, txs[members[k]])
            == SendLive(sv, Frozen(rd, turn.accounts), turn, txs[members[k]])
  {
    var ex := Frozen(rd, vm.accounts);
    var turn := SendEach(sv, ex, vm, txs, members[..k]).vm;
    FrozenIsReady(rd, vm.accounts, vm, txs, members);
    forall b | b in Observed(rd.base, txs[members[k]]) ensures SameAt(vm.accounts, turn.accounts, b) {
      FrozenLocks(rd, vm.accounts, txs[members[k]]);
      TurnSeesSnapshotCaches(sv, ex, vm, txs, members, k, b);
    }
    SameCachesSeen(rd.base, vm.accounts, turn.accounts, txs[members[k]]);
    SameCachesSameSend(sv, rd, vm.accounts, turn, txs[members[k]]);
  }

  /** Both refuse something, or neither does and they end alike. */
  ghost predicate SameSends(x: Sequel, y: Sequel) {
    (x.refused == {} <==> y.refused == {}) && (x.refused == {} ==> x == y)
  }

  lemma FirstIsFrozen(sv: Services, rd: Reader, ex: Executor, turn: VmState, txs: seq<Tx>, members: seq<nat>)
    requires members != [] && InRange(txs, members)
    requires SendLive(sv, ex, turn, txs[members[0]]) == SendLive(sv, Frozen(rd, turn.accounts), turn, txs[members[0]])
    requires var sent := SendLive(sv, ex, turn, txs[members[0]]);
             var rest := members[1..];
             sent.staged ==>
               SameSends(SendEach(sv, ex, sent.vm, txs, rest), SendEachReading(sv, rd, sent.vm, txs, rest))
    ensures SameSends(SendEach(sv, ex, turn, txs, members), SendEachReading(sv, rd, turn, txs, members))
  {}

  /** From any turn on, each seeing its own caches is all seeing the snapshot's,
      up to the first refusal. */
  lemma {:induction false} RestIsFrozen(
    sv: Services, rd: Reader, vm: VmState, txs: seq<Tx>, members: seq<nat>, k: nat, ex: Executor, turn: VmState)
    requires StageReady(rd.base, vm, txs, members) && CachesStill(sv, rd, vm, txs, members) && k <= |members|
    requires ex == Frozen(rd, vm.accounts) && AtTurn(sv, ex, vm, txs, members, k, turn)
    ensures SameSends(SendEach(sv, ex, turn, txs, members[k..]), SendEachReading(sv, rd, turn, txs, members[k..]))
    decreases |members| - k
  {
    if k == |members| {
      NoneIsFrozen(sv, rd, ex, turn, txs, members[k..]);
    } else {
      var rest, sent := members[k..], SendLive(sv, ex, turn, txs[members[k]]);
      assert rest[1..] == members[k + 1..] && rest[0] == members[k];
      TurnIsFrozen(sv, rd, vm, txs, members, k);
      if sent.staged {
        NextTurn(sv, ex, vm, txs, members, k);
        RestIsFrozen(sv, rd, vm, txs, members, k + 1, ex, sent.vm);
      }
      FirstIsFrozen(sv, rd, ex, turn, txs, rest);
    }
  }

  /** The machine member `k` is sent to, no earlier one having been refused. */
  ghost predicate AtTurn(
    sv: Services, ex: Executor, vm: VmState, txs: seq<Tx>, members: seq<nat>, k: nat, turn: VmState)
    requires InRange(txs, members) && k <= |members|
  {
    SendEach(sv, ex, vm, txs, members[..k]).refused == {} && SendEach(sv, ex, vm, txs, members[..k]).vm == turn
  }

  lemma NoneIsFrozen(sv: Services, rd: Reader, ex: Executor, turn: VmState, txs: seq<Tx>, members: seq<nat>)
    requires members == []
    ensures SameSends(SendEach(sv, ex, turn, txs, members), SendEachReading(sv, rd, turn, txs, members))
  {}

  lemma NextTurn(sv: Services, ex: Executor, vm: VmState, txs: seq<Tx>, members: seq<nat>, k: nat)
    requires InRange(txs, members) && k < |members| && SendEach(sv, ex, vm, txs, members[..k]).refused == {}
    requires SendLive(sv, ex, SendEach(sv, ex, vm, txs, members[..k]).vm, txs[members[k]]).staged
    ensures var next := SendEach(sv, ex, vm, txs, members[..k + 1]);
            next.refused ==
              {} && next.vm == SendLive(sv, ex, SendEach(sv, ex, vm, txs, members[..k]).vm, txs[members[k]]).vm
  {
    assert members[..k + 1] == members[..k] + [members[k]];
    SendEachOfSnoc(sv, ex, vm, txs, members[..k], members[k]);
  }

  lemma StageIsFrozen(sv: Services, rd: Reader, vm: VmState, txs: seq<Tx>, members: seq<nat>)
    requires StageReady(rd.base, vm, txs, members) && (|members| == 1 || CachesStill(sv, rd, vm, txs, members))
    ensures var x := SendEach(sv, Frozen(rd, vm.accounts), vm, txs, members);
            var y := SendEachReading(sv, rd, vm, txs, members);
            SameSends(x, y) && (|members| == 1 ==> x == y)
  {
    if |members| == 1 {
      assert members[1..] == [];
    } else {
      assert members[..0] == [] && members[0..] == members;
      RestIsFrozen(sv, rd, vm, txs, members, 0, Frozen(rd, vm.accounts), vm);
    }
  }

  /** A stage run in parallel, its members all seeing the caches of the snapshot,
      is the stage run one at a time, each seeing the caches of its turn. */
  lemma StageReadsSequentially(
    sv: Services, rd: Reader, run: BatchRun, other: BatchRun, txs: seq<Tx>, members: seq<nat>, k: nat)
    requires run.status.Finished? && Alike(run, other) && StageReady(rd.base, run.vm, txs, members)
    requires var warmed := Prepared(sv, run.vm, txs, members);
             |members| != 1 && warmed.ok ==> CachesStill(sv, rd, warmed.vm, txs, members)
    ensures Alike(RunStageReading(sv, rd, run, txs, members, k), SendStageReading(sv, rd, other, txs, members, k))
  {
    var warmed := Prepared(sv, run.vm, txs, members);
    var ex := Frozen(rd, warmed.vm.accounts);
    FrozenIsReady(rd, warmed.vm.accounts, run.vm, txs, members);
    StageIsSequential(sv, ex, run, other, txs, members, k);
    if warmed.ok {
      StageIsFrozen(sv, rd, warmed.vm, txs, members);
    }
    assert Alike(SendStage(sv, ex, other, txs, members, k), SendStageReading(sv, rd, other, txs, members, k));
  }

  // ----- All stages -----

  /** Every stage that is reached finds the caches still. */
  ghost predicate StagesStill(sv: Services, rd: Reader, vm: VmState, txs: seq<Tx>, stages: seq<Planner.Stage>)
    requires StagesInRange(txs, stages)
  {
    forall n :: 0 <= n < |stages| ==>
      StageStill(sv, rd, RunStagesReading(sv, rd, vm, txs, stages[..n]), txs, stages[n].indexes)
  }

  ghost predicate StageStill(sv: Services, rd: Reader, run: BatchRun, txs: seq<Tx>, members: seq<nat>)
    requires InRange(txs, members)
  {
    var warmed := Prepared(sv, run.vm, txs, members);
    run.status.Finished? && |members| != 1 && warmed.ok ==> CachesStill(sv, rd, warmed.vm, txs, members)
  }

  lemma StageReadingKeepsHistory(
    sv: Services, rd: Reader, run: BatchRun, txs: seq<Tx>, members: seq<nat>, k: nat, room: nat)
    requires InRange(txs, members) && AllCompatible(rd.base, txs, members)
    requires forall i :: 0 <= i < |txs| ==> DistinctKeys(txs[i])
    requires run.status.Finished? && HistoryReady(rd.base, run, room) && |members| <= room
    ensures HistoryReady(rd.base, RunStageReading(sv, rd, run, txs, members, k), room - |members|)
  {
    var s := Prepared(sv, run.vm, txs, members).vm.accounts;
    FrozenIsReady(rd, s, run.vm, txs, members);
    LastStageIsSequential(sv, Frozen(rd, s), run, run, txs, members, k, room);
  }

  lemma {:induction false} StagesReadSequentially(
    sv: Services, rd: Reader, vm: VmState, txs: seq<Tx>, stages: seq<Planner.Stage>, room: nat)
    requires StagesCompatible(rd.base, txs, stages) && (forall i :: 0 <= i < |txs| ==> DistinctKeys(txs[i]))
    requires H.Valid(vm.history) && CheckStable(rd.base, vm.history, room) && |OrderOf(stages)| <= room
    requires StagesStill(sv, rd, vm, txs, stages)
    ensures Alike(RunStagesReading(sv, rd, vm, txs, stages), SendStagesReading(sv, rd, vm, txs, stages))
    ensures HistoryReady(rd.base, RunStagesReading(sv, rd, vm, txs, stages), room - |OrderOf(stages)|)
    decreases |stages|
  {
    if stages != [] {
      var n := |stages| - 1;
      var init, members := stages[..n], stages[n].indexes;
      TidyPrefix(stages, n);
      OrderOfPrefix(stages, n);
      PrefixStill(sv, rd, vm, txs, stages, n);
      StagesReadSequentially(sv, rd, vm, txs, init, room);
      LastReadsSequentially(
        sv, rd, RunStagesReading(sv, rd, vm, txs, init), SendStagesReading(sv, rd, vm, txs, init), txs, members, n,
        room - |OrderOf(init)|);
    }
  }

  lemma LastReadsSequentially(
    sv: Services, rd: Reader, run: BatchRun, other: BatchRun, txs: seq<Tx>, members: seq<nat>, k: nat, room: nat)
    requires InRange(txs, members) && AllCompatible(rd.base, txs, members)
    requires forall i :: 0 <= i < |txs| ==> DistinctKeys(txs[i])
    requires Alike(run, other) && HistoryReady(rd.base, run, room) && |members| <= room
    requires StageStill(sv, rd, run, txs, members)
    ensures
      var x := if run.status.Finished? then RunStageReading(sv, rd, run, txs, members, k) else run;
      var y := if other.status.Finished? then SendStageReading(sv, rd, other, txs, members, k) else other;
      Alike(x, y) && HistoryReady(rd.base, x, room - |members|)
  {
    if run.status.Finished? {
      StageReadsSequentially(sv, rd, run, other, txs, members, k);
      StageReadingKeepsHistory(sv, rd, run, txs, members, k, room);
    }
  }

  lemma PrefixStill(sv: Services, rd: Reader, vm: VmState, txs: seq<Tx>, stages: seq<Planner.Stage>, n: nat)
    requires StagesInRange(txs, stages) && n <= |stages| && StagesStill(sv, rd, vm, txs, stages)
    ensures StagesInRange(txs, stages[..n]) && StagesStill(sv, rd, vm, txs, stages[..n])
  {
    forall k | 0 <= k < n
      ensures StageStill(sv, rd, RunStagesReading(sv, rd, vm, txs, stages[..n][..k]), txs, stages[..n][k].indexes)
    {
      assert stages[..n][..k] == stages[..k];
    }
  }

  /** Parallelism is unobservable to transactions that read the caches, too: a
      planned batch ends with the status, the results and the whole machine of
      sending its transactions one at a time in plan order with the same warm-ups,
      if at every stage reached the caches are settled wherever a member looks and
      no member writes a sysvar or the programdata of a program a later one uses. */
  lemma BatchReadsSequentially(sv: Services, rd: Reader, vm: VmState, txs: seq<Tx>)
    requires H.Valid(vm.history) && CheckStable(rd.base, vm.history, |txs|)
    requires forall i :: 0 <= i < |txs| ==> DistinctKeys(txs[i])
    requires rd.base.sigverify ==> RepeatsConflict(rd.base, txs)
    ensures StagesInRange(txs, PlanFor(rd.base, txs))
    ensures var stages := PlanFor(rd.base, txs);
            StagesStill(sv, rd, vm, txs, stages) ==>
              Alike(RunStagesReading(sv, rd, vm, txs, stages), SendStagesReading(sv, rd, vm, txs, stages))
  {
    PlanIsCompatible(rd.base, txs);
    ListsLength(OrderOf(PlanFor(rd.base, txs)), 0, |txs|);
    if StagesStill(sv, rd, vm, txs, PlanFor(rd.base, txs)) {
      StagesReadSequentially(sv, rd, vm, txs, PlanFor(rd.base, txs), |txs|);
    }
  }
}
