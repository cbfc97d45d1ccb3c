/** A machine on which the order of transactions decides which of them are
    refused. It holds a program at 2 and, at 4, an upgradeable program that
    names 3 as its programdata; 4 is in the overlay or only at the source.
    Closing the program at 2 makes the store load every program it holds, so
    that it fails once 3 has been emptied and 4 is in the overlay. */
module Witness {
  import opened Types
  import opened Overlay
  import opened Store
  import opened Partition
  import opened TimeTravel
  import opened View
  import opened Warming
  import opened Lifecycle
  import opened Planner
  import opened Machine
  import opened StageRun
  import opened InputOrder
  import opened Inversion
  import opened Batch
  import opened Serializability
  import opened Sequential
  import Placement
  import H = History

  const PLAIN: Account := Account(1, DEFAULT_ADDRESS, false, 0, [])
  const CLOSABLE: Account := Account(1, BPF_LOADER_ID, true, 0, [])
  const UPGRADEABLE: Account := Account(1, BPF_LOADER_UPGRADEABLE_ID, true, 0, [])
  const PROGRAMDATA: Account :=
    Account(1, BPF_LOADER_UPGRADEABLE_ID, false, 0, [3] + Zeros(PROGRAMDATA_METADATA_SIZE - 1))

  function Zeros(n: nat): seq<byte> {
    seq(n, _ => 0)
  }

  function AtSource(a: Address): Option<Account> {
    if a == 4 then Some(UPGRADEABLE) else None
  }

  function AllAtSource(keys: seq<Address>): seq<Option<Account>> {
    seq(|keys|, i requires 0 <= i < |keys| => AtSource(keys[i]))
  }

  const SERVICES: Services :=
    Services(
      (a: Address) => Ok(AtSource(a)), (keys: seq<Address>) => Ok(AllAtSource(keys)),
      (_, _) => true, _ => 0, _ => Some(3), (_, _) => true, {})

  /** The first transaction only reads 4, the second closes the program at 2,
      the third empties 3. */
  const TXS: seq<Tx> := [
    Tx(0, [KeyMeta(1, true), KeyMeta(4, false)], 2, [], []),
    Tx(1, [KeyMeta(1, true), KeyMeta(2, true)], 2, [], []),
    Tx(2, [KeyMeta(3, true)], 1, [], [])]

  function Outputs(tx: Tx): seq<Account> {
    if tx.signature == 1 then [PLAIN, PLAIN] else if tx.signature == 2 then [PLAIN] else []
  }

  const EXECUTOR: Executor :=
    Executor({}, false, (_, _) => None, (_, _) => None, (tx, _) => Ran(None, Outputs(tx), []))

  datatype World = World(sv: Services, ex: Executor, txs: seq<Tx>)

  const WORLD: World := World(SERVICES, EXECUTOR, TXS)

  function ImageOf(loader: Address): ProgramEntry {
    ProgramEntry.Image(Executable(loader, []))
  }

  const HELD: map<Address, Account> := map[CLOCK_ID := PLAIN, 2 := CLOSABLE, 3 := PROGRAMDATA]

  const LOADED: map<Address, ProgramEntry> := map[2 := ImageOf(BPF_LOADER_ID)]

  /** The machine, with or without 4 in its overlay. */
  function Initial(known: bool): VmState {
    VmState(
      StoreState(
        CacheDb(if known then HELD[4 := UPGRADEABLE] else HELD, {}), [],
        ProgramCache(0, if known then LOADED[4 := ImageOf(BPF_LOADER_UPGRADEABLE_ID)] else LOADED),
        map[CLOCK_ID := []]),
      H.WithCapacity(0))
  }

  /** The accounts a run of the transactions can reach. */
  ghost predicate At(s: StoreState, known: bool, data: Account, closable: Account) {
    && s.db.removed == {} && s.sysvars == map[CLOCK_ID := []]
    && s.db.inner.Keys <= {CLOCK_ID, 1, 2, 3, 4} && {CLOCK_ID, 2, 3} <= s.db.inner.Keys
    && s.db.inner[CLOCK_ID] == PLAIN && (1 in s.db.inner ==> s.db.inner[1] == PLAIN)
    && s.db.inner[2] == closable && s.db.inner[3] == data
    && (4 in s.db.inner <==> known) && (known ==> s.db.inner[4] == UPGRADEABLE && 4 in s.programs.entries)
  }

  /** What each transaction writes, whatever it sees. */
  function Written(i: nat): Delta {
    if i == 1 then [(1, PLAIN), (2, PLAIN)] else if i == 2 then [(3, PLAIN)] else []
  }

  lemma DeltaIsWritten(w: World, i: nat, view: AccountView, seen: bool)
    requires w == WORLD && i < 3
    ensures var d := TransactDetached(w.ex, w.txs[i], view, seen);
            d.included && !d.fatal && d.postAccounts == Written(i)
  {
    var keys, outputs := w.txs[i].keys, Outputs(w.txs[i]);
    if i == 1 {
      assert PostAccounts(w.ex, keys[1..], outputs[1..]) == [(2, PLAIN)];
    }
  }

  // ----- One account at a time -----

  lemma AddPlain(w: World, s: StoreState, a: Address)
    requires w == WORLD && !IsManagedSysvar(a) && !HadProgram(s, a)
    ensures AddAccount(w.sv, s, a, PLAIN) == Attempt(JournaledWrite(s, a, Some(PLAIN)), true)
  {}

  /** Closing the program at 2 is refused exactly when 4 is held and 3 is empty. */
  lemma CloseProgram(w: World, s: StoreState, known: bool, data: Account)
    requires w == WORLD && At(s, known, data, CLOSABLE) && data in {PLAIN, PROGRAMDATA}
    ensures var t := AddAccount(w.sv, s, 2, PLAIN);
            && t.ok == !(known && data == PLAIN)
            && (t.ok ==> At(t.state, known, data, PLAIN))
  {
    var s1 := JournaledWrite(s, 2, Some(PLAIN));
    assert HadProgram(s, 2) && AddAccount(w.sv, s, 2, PLAIN) == RebuildPrograms(w.sv, s1);
    assert ProgramIds(s1.db) == if known then {4} else {};
  }

  /** Whether the store still takes what transaction `i` writes. */
  predicate Taken(i: nat, known: bool, data: Account) {
    !(i == 1 && known && data == PLAIN)
  }

  ghost predicate Reached(s: StoreState, known: bool, data: Account, closable: Account) {
    At(s, known, data, closable) && data in {PLAIN, PROGRAMDATA} && closable in {PLAIN, CLOSABLE}
  }

  lemma WrittenIsPartitioned(i: nat)
    ensures Partitioned(Written(i)) == Written(i)
  {
    var xs := Written(i);
    if i == 1 {
      assert PartitionFrom(xs, 0, 2) == xs;
      assert PartitionFrom(xs, 0, 1) == xs;
    } else if i == 2 {
      assert PartitionFrom(xs, 0, 1) == xs;
    }
  }

  lemma WritePlain(w: World, s: StoreState, known: bool, data: Account, closable: Account, a: Address)
    requires w == WORLD && Reached(s, known, data, closable) && a in {1, 3}
    ensures AddAccount(w.sv, s, a, PLAIN) == Attempt(JournaledWrite(s, a, Some(PLAIN)), true)
    ensures Reached(JournaledWrite(s, a, Some(PLAIN)), known, if a == 3 then PLAIN else data, closable)
  {
    AddPlain(w, s, a);
    assert JournaledWrite(s, a, Some(PLAIN)).db.removed == {};
  }

  lemma AddOne(w: World, s: StoreState, x: (Address, Account))
    requires w == WORLD
    ensures AddAll(w.sv, s, [x]) == AddAccount(w.sv, s, x.0, x.1)
  {
    assert |[x][1..]| == 0;
  }

  lemma AddTwo(w: World, s: StoreState, x: (Address, Account), y: (Address, Account))
    requires w == WORLD && AddAccount(w.sv, s, x.0, x.1).ok
    ensures AddAll(w.sv, s, [x, y]) == AddAccount(w.sv, AddAccount(w.sv, s, x.0, x.1).state, y.0, y.1)
  {
    assert [x, y][1..] == [y];
    AddOne(w, AddAccount(w.sv, s, x.0, x.1).state, y);
  }

  lemma SyncWritten(w: World, s: StoreState, known: bool, data: Account, closable: Account, i: nat)
    requires w == WORLD && Reached(s, known, data, closable) && i < 3 && (i == 1 ==> closable == CLOSABLE)
    ensures var t := SyncAccounts(w.sv, s, Written(i));
            && t.ok == Taken(i, known, data)
            && (t.ok ==> Reached(t.state, known, if i == 2 then PLAIN else data, if i == 1 then PLAIN else closable))
  {
    WrittenIsPartitioned(i);
    if i == 1 {
      WritePlain(w, s, known, data, closable, 1);
      AddTwo(w, s, (1, PLAIN), (2, PLAIN));
      CloseProgram(w, JournaledWrite(s, 1, Some(PLAIN)), known, data);
    } else if i == 2 {
      WritePlain(w, s, known, data, closable, 3);
      AddOne(w, s, (3, PLAIN));
    }
  }

  /** Applying what transaction `i` did on any snapshot. */
  lemma ApplyWritten(w: World, snapshot: VmState, vm: VmState, known: bool, data: Account, closable: Account, i: nat)
    requires w == WORLD && Reached(vm.accounts, known, data, closable) && i < 3 && (i == 1 ==> closable == CLOSABLE)
    ensures var applied := ApplyCommitDelta(w.sv, vm, DeltaOf(LiveOutcome(w.sv, w.ex, snapshot, w.txs[i]), false));
            && applied.ok == Taken(i, known, data)
            && (applied.ok ==>
                  && Reached(
                       applied.vm.accounts, known, if i == 2 then PLAIN else data, if i == 1 then PLAIN else closable)
                  && applied.vm.history == vm.history)
  {
    DeltaIsWritten(w, i, LiveView(w.sv, w.ex, snapshot, w.txs[i]), H.Check(snapshot.history, w.txs[i].signature));
    SyncWritten(w, vm.accounts, known, data, closable, i);
  }

  lemma SendWritten(w: World, vm: VmState, known: bool, data: Account, closable: Account, i: nat)
    requires w == WORLD && Reached(vm.accounts, known, data, closable) && i < 3 && (i == 1 ==> closable == CLOSABLE)
    requires vm.history == H.WithCapacity(0)
    ensures var sent := SendLive(w.sv, w.ex, vm, w.txs[i]);
            && sent.staged == Taken(i, known, data) && sent.vm.history == vm.history
            && (if sent.staged then
                  Reached(sent.vm.accounts, known, if i == 2 then PLAIN else data, if i == 1 then PLAIN else closable)
                else sent.vm.accounts.db == vm.accounts.db)
  {
    ApplyWritten(w, vm, vm, known, data, closable, i);
    SendIsApply(w.sv, w.ex, vm, w.txs[i]);
    StageCanBeRolledBack(w.sv, vm.accounts, DeltaOf(LiveOutcome(w.sv, w.ex, vm, w.txs[i]), false).postAccounts);
  }

  // ----- The plan -----

  lemma LocksAre(w: World)
    requires w == WORLD
    ensures LocksOf(w.ex, w.txs[0]) == LockSet({4}, {1})
    ensures LocksOf(w.ex, w.txs[1]) == LockSet({}, {1, 2})
    ensures LocksOf(w.ex, w.txs[2]) == LockSet({}, {3})
  {
    assert w.txs[0].keys[0] == KeyMeta(1, true) && w.txs[0].keys[1] == KeyMeta(4, false);
    assert w.txs[1].keys[0] == KeyMeta(1, true) && w.txs[1].keys[1] == KeyMeta(2, true);
    assert w.txs[2].keys[0] == KeyMeta(3, true);
  }

  ghost predicate Splits(stages: seq<Planner.Stage>) {
    |stages| == 2 && stages[0].indexes == [0, 2] && stages[1].indexes == [1]
  }

  /** The third transaction joins the first: both stages are free and equally light. */
  lemma PlanIs(w: World)
    requires w == WORLD
    ensures Splits(PlanFor(w.ex, w.txs))
  {
    LocksAre(w);
    var locks := AllLocks(w.ex, w.txs);
    assert PlanOf(locks, 1) == [Planner.Stage([0], locks[0])];
    assert 1 in locks[0].writable * locks[1].writable;
    Placement.SecondOpens(locks[0], locks[1]);
    assert PlanOf(locks, 2) == [Planner.Stage([0], locks[0]), Planner.Stage([1], locks[1])];
    ThirdIsFree(locks[0], locks[1], locks[2]);
    ThirdJoins(locks[0], locks[1], locks[2]);
  }

  lemma ThirdIsFree(x: LockSet, y: LockSet, z: LockSet)
    requires x == LockSet({4}, {1}) && y == LockSet({}, {1, 2}) && z == LockSet({}, {3})
    ensures !Conflicts(x, z) && !Conflicts(y, z) && Weight(x) == Weight(y)
  {}

  lemma ThirdJoins(x: LockSet, y: LockSet, z: LockSet)
    requires !Conflicts(x, z) && !Conflicts(y, z) && Weight(x) == Weight(y)
    ensures var stages := [Planner.Stage([0], x), Planner.Stage([1], y)];
            Place(stages, 2, z) == [Planner.Stage([0, 2], Extend(x, z)), Planner.Stage([1], y)]
  {
    var stages := [Planner.Stage([0], x), Planner.Stage([1], y)];
    assert BestFit(stages, z, 1) == Some(0);
    assert [0] + [2] == [0, 2];
  }

  lemma OnlyFirstTwoConflict(ex: Executor, txs: seq<Tx>, stages: seq<Planner.Stage>)
    requires |txs| == 3 && Splits(stages)
    requires !Conflicts(LocksOf(ex, txs[0]), LocksOf(ex, txs[2]))
    requires !Conflicts(LocksOf(ex, txs[1]), LocksOf(ex, txs[2]))
    ensures NoReversal(ex, txs, stages)
  {}

  lemma PlanKeepsConflictOrder(w: World)
    requires w == WORLD
    ensures NoReversal(w.ex, w.txs, PlanFor(w.ex, w.txs))
  {
    PlanIs(w);
    LocksAre(w);
    ThirdIsFree(LocksOf(w.ex, w.txs[0]), LocksOf(w.ex, w.txs[1]), LocksOf(w.ex, w.txs[2]));
    OnlyFirstTwoConflict(w.ex, w.txs, PlanFor(w.ex, w.txs));
  }

  // ----- The batch -----

  /** The setting with the machine it starts from. */
  ghost predicate Begins(w: World, vm: VmState, known: bool) {
    w == WORLD && vm == Initial(known)
  }

  /** All that matters of it from here on. */
  ghost predicate Poised(w: World, vm: VmState, known: bool) {
    && w == WORLD && Reached(vm.accounts, known, PROGRAMDATA, CLOSABLE) && 2 in vm.accounts.programs.entries
    && vm.history == H.WithCapacity(0)
  }

  lemma InitialIsReady(w: World, vm: VmState, known: bool)
    requires Begins(w, vm, known)
    ensures Ready(w.sv, w.ex, vm.history, w.txs) && Poised(w, vm, known)
  {}

  lemma ProgramsOfInitial(w: World, vm: VmState, known: bool)
    requires Begins(w, vm, known)
    ensures var s := vm.accounts;
            && ProgramIds(s.db) == s.programs.entries.Keys
            && (forall a :: a in ProgramIds(s.db) ==>
                  LoadProgram(w.sv, s.db, s.sysvars, s.db.inner[a]) == Ok(s.programs.entries[a]))
  {
    assert PROGRAMDATA.data[PROGRAMDATA_METADATA_SIZE..] == [];
  }

  lemma InitialIsCoherent(w: World, vm: VmState, known: bool)
    requires Begins(w, vm, known)
    ensures Coherent(w.sv, vm.accounts)
  {
    ProgramsOfInitial(w, vm, known);
    InitialIsReady(w, vm, known);
    OnlyClock(w.sv, vm.accounts.db);
    LoadedIsRebuilt(w.sv, vm.accounts);
  }

  lemma OnlyClock(sv: Services, db: CacheDb)
    requires CLOCK_ID in db.inner && db.inner[CLOCK_ID] == PLAIN && sv.sysvarParses(CLOCK_ID, [])
    requires db.inner.Keys <= {CLOCK_ID, 1, 2, 3, 4}
    ensures SysvarsOf(sv, db) == map[CLOCK_ID := []]
  {}

  lemma LoadedIsRebuilt(sv: Services, s: StoreState)
    requires sv.builtins == {} && s.sysvars == SysvarsOf(sv, s.db) && Clock(sv, s.sysvars) == Some(s.programs.slot)
    requires ProgramIds(s.db) == s.programs.entries.Keys
    requires forall a :: a in ProgramIds(s.db) ==>
               LoadProgram(sv, s.db, s.sysvars, s.db.inner[a]) == Ok(s.programs.entries[a])
    ensures Coherent(sv, s)
  {
    assert sv.builtins * s.db.inner.Keys == {};
    assert Rebuilt(sv, s).entries == s.programs.entries;
  }

  lemma FirstReadSet(w: World)
    requires w == WORLD
    ensures InRange(w.txs, [0, 2]) && ReadSet(w.txs, [0, 2]) == [1, 4, 3]
  {
    assert [0, 2][..1] == [0] && |[0][..0]| == 0;
    assert StaticKeys(w.txs[0]) == [1, 4] && StaticKeys(w.txs[2]) == [3];
    assert AppendNew([], [1, 4]) == AppendNew([1], [4]) by { assert [1, 4][1..] == [4] && [] + [1] == [1]; }
    assert AppendNew([1], [4]) == [1, 4];
    assert AppendNew([1, 4], [3]) == [1, 4, 3];
  }

  lemma {:induction false} LoadableLoads(sv: Services, s: StoreState, ids: seq<Address>)
    requires forall a :: a in ids ==> a in s.db.inner && LoadProgram(sv, s.db, s.sysvars, s.db.inner[a]).Ok?
    ensures LoadEach(sv, s, ids).ok
    decreases |ids|
  {
    if ids != [] {
      var entry := LoadProgram(sv, s.db, s.sysvars, s.db.inner[ids[0]]).value;
      LoadableLoads(sv, Replenish(s, ids[0], entry), ids[1..]);
    }
  }

  /** Caching the keys of a list brings in 4 if it is among them. */
  lemma PrewarmBrings(w: World, s: StoreState, known: bool, keys: seq<Address>)
    requires w == WORLD && Reached(s, known, PROGRAMDATA, CLOSABLE) && 4 in keys && 2 !in keys
    requires 2 in s.programs.entries
    ensures Prewarm(w.sv, s, keys).ok
    ensures var t := Prewarm(w.sv, s, keys).state;
            && t.programs == s.programs && t.sysvars == s.sysvars && t.db.removed == {}
            && t.db.inner == s.db.inner[4 := UPGRADEABLE]
  {
    BatchAgreesHere(w);
    PrewarmTransparent(w.sv, s, keys);
    PrewarmExtends(w.sv, s, keys);
  }

  lemma BatchAgreesHere(w: World)
    requires w == WORLD
    ensures BatchAgrees(w.sv)
  {}

  lemma WarmBrings(w: World, s: StoreState, known: bool, keys: seq<Address>)
    requires w == WORLD && Reached(s, known, PROGRAMDATA, CLOSABLE) && 4 in keys && 2 !in keys
    requires 2 in s.programs.entries
    ensures var warmed := Warm(w.sv, s, keys);
            warmed.ok && Reached(warmed.state, true, PROGRAMDATA, CLOSABLE)
  {
    PrewarmBrings(w, s, known, keys);
    var t := Prewarm(w.sv, s, keys).state;
    UnresolvedExact(t, keys);
    UpgradeableLoads(w, t);
    assert forall a :: a in Unresolved(t, keys) ==> a == 4;
    LoadableLoads(w.sv, t, Unresolved(t, keys));
    LoadEachLoads(w.sv, t, Unresolved(t, keys));
  }

  lemma UpgradeableLoads(w: World, t: StoreState)
    requires w == WORLD && t.sysvars == map[CLOCK_ID := []] && 3 in t.db.inner && t.db.inner[3] == PROGRAMDATA
    ensures LoadProgram(w.sv, t.db, t.sysvars, UPGRADEABLE).Ok?
  {}

  lemma FirstStage(w: World, vm: VmState, known: bool)
    requires Poised(w, vm, known)
    ensures InRange(w.txs, [0, 2])
    ensures var run := RunStage(w.sv, w.ex, BatchRun(vm, map[], {}, Finished, {}), w.txs, [0, 2], 0);
            && run.status.Finished? && run.refused == {} && run.vm.history == H.WithCapacity(0)
            && Reached(run.vm.accounts, true, PLAIN, CLOSABLE)
  {
    FirstReadSet(w);
    WarmBrings(w, vm.accounts, known, [1, 4, 3]);
    FirstMerge(w, WarmUp(w.sv, vm, w.txs, [0, 2]).vm);
  }

  lemma FirstMerge(w: World, vm: VmState)
    requires w == WORLD && Reached(vm.accounts, true, PROGRAMDATA, CLOSABLE) && vm.history == H.WithCapacity(0)
    ensures InRange(w.txs, [0, 2])
    ensures var merged := MergeLive(w.sv, w.ex, vm, vm, w.txs, [0, 2]);
            merged.ok && merged.vm.history == vm.history && Reached(merged.vm.accounts, true, PLAIN, CLOSABLE)
  {
    ApplyWritten(w, vm, vm, true, PROGRAMDATA, CLOSABLE, 0);
    var next := ApplyCommitDelta(w.sv, vm, DeltaOf(LiveOutcome(w.sv, w.ex, vm, w.txs[0]), false)).vm;
    ApplyWritten(w, vm, next, true, PROGRAMDATA, CLOSABLE, 2);
    MergeTwo(w.sv, w.ex, vm, w.txs, 0, 2);
  }

  lemma MergeTwo(sv: Services, ex: Executor, vm: VmState, txs: seq<Tx>, i: nat, j: nat)
    requires i < |txs| && j < |txs|
    ensures InRange(txs, [i, j])
    ensures var first := ApplyCommitDelta(sv, vm, DeltaOf(LiveOutcome(sv, ex, vm, txs[i]), vm.history.max != 0));
            var second := ApplyCommitDelta(sv, first.vm, DeltaOf(LiveOutcome(sv, ex, vm, txs[j]), vm.history.max != 0));
            MergeLive(sv, ex, vm, vm, txs, [i, j]) == if first.ok then second else first
  {
    assert [i, j][1..] == [j];
    var first := ApplyCommitDelta(sv, vm, DeltaOf(LiveOutcome(sv, ex, vm, txs[i]), vm.history.max != 0));
    MergeOne(sv, ex, vm, first.vm, txs, j);
  }

  lemma MergeOne(sv: Services, ex: Executor, snapshot: VmState, vm: VmState, txs: seq<Tx>, j: nat)
    requires j < |txs|
    ensures MergeLive(sv, ex, snapshot, vm, txs, [j])
            == ApplyCommitDelta(sv, vm, DeltaOf(LiveOutcome(sv, ex, snapshot, txs[j]), snapshot.history.max != 0))
  {
    assert |[j][1..]| == 0;
  }

  lemma SecondStage(w: World, first: BatchRun)
    requires w == WORLD && first.status.Finished? && first.refused == {} && first.vm.history == H.WithCapacity(0)
    requires Reached(first.vm.accounts, true, PLAIN, CLOSABLE)
    ensures InRange(w.txs, [1])
    ensures var run := RunStage(w.sv, w.ex, first, w.txs, [1], 1);
            run.status.Finished? && run.refused == {1} && Read(w.sv, run.vm.accounts.db, 2) == Ok(Some(CLOSABLE))
  {
    SendWritten(w, first.vm, true, PLAIN, CLOSABLE, 1);
  }

  lemma TwoStages(sv: Services, ex: Executor, vm: VmState, txs: seq<Tx>, stages: seq<Planner.Stage>, first: BatchRun)
    requires |stages| == 2 && StagesInRange(txs, stages) && first.status.Finished?
    requires first == RunStage(sv, ex, BatchRun(vm, map[], {}, Finished, {}), txs, stages[0].indexes, 0)
    ensures RunStages(sv, ex, vm, txs, stages) == RunStage(sv, ex, first, txs, stages[1].indexes, 1)
  {
    var one := stages[..1];
    assert |one[..0]| == 0 && one[0] == stages[0];
    assert RunStages(sv, ex, vm, txs, one) ==
      RunStage(sv, ex, BatchRun(vm, map[], {}, Finished, {}), txs, one[0].indexes, 0);
  }

  lemma SplitsInRange(txs: seq<Tx>, stages: seq<Planner.Stage>)
    requires |txs| == 3 && Splits(stages)
    ensures StagesInRange(txs, stages)
  {}

  /** Either way the batch finishes with the second transaction refused. */
  lemma BatchRefuses(w: World, vm: VmState, known: bool, stages: seq<Planner.Stage>)
    requires Poised(w, vm, known) && Splits(stages)
    ensures StagesInRange(w.txs, stages)
    ensures var run := RunStages(w.sv, w.ex, vm, w.txs, stages);
            run.status.Finished? && run.refused == {1} && Read(w.sv, run.vm.accounts.db, 2) == Ok(Some(CLOSABLE))
  {
    SplitsInRange(w.txs, stages);
    FirstStage(w, vm, known);
    var first := RunStage(w.sv, w.ex, BatchRun(vm, map[], {}, Finished, {}), w.txs, stages[0].indexes, 0);
    SecondStage(w, first);
    TwoStages(w.sv, w.ex, vm, w.txs, stages, first);
  }

  // ----- The sends -----

  lemma SendFirst(sv: Services, ex: Executor, vm: VmState, txs: seq<Tx>, order: seq<nat>)
    requires order != [] && InRange(txs, order)
    ensures var sent := SendLive(sv, ex, vm, txs[order[0]]);
            var sends, rest := SendEach(sv, ex, vm, txs, order), SendEach(sv, ex, sent.vm, txs, order[1..]);
            sends.vm == rest.vm && (sent.staged ==> sends.refused == rest.refused)
  {}

  lemma SendThree(sv: Services, ex: Executor, vm: VmState, txs: seq<Tx>, order: seq<nat>)
    requires |order| == 3 && InRange(txs, order)
    ensures var first := SendLive(sv, ex, vm, txs[order[0]]);
            var second := SendLive(sv, ex, first.vm, txs[order[1]]);
            var third := SendLive(sv, ex, second.vm, txs[order[2]]);
            var sends := SendEach(sv, ex, vm, txs, order);
            sends.vm == third.vm && (first.staged && second.staged && third.staged ==> sends.refused == {})
  {
    var two, one := order[1..], order[2..];
    assert two[1..] == one && |one[1..]| == 0;
    SendFirst(sv, ex, vm, txs, order);
    var vm1 := SendLive(sv, ex, vm, txs[order[0]]).vm;
    SendFirst(sv, ex, vm1, txs, two);
    SendFirst(sv, ex, SendLive(sv, ex, vm1, txs[order[1]]).vm, txs, one);
  }

  /** A machine on the way, with the history disabled. */
  ghost predicate OnTheWay(w: World, vm: VmState, known: bool, data: Account, closable: Account) {
    w == WORLD && Reached(vm.accounts, known, data, closable) && vm.history == H.WithCapacity(0)
  }

  lemma SendRead(w: World, vm: VmState, known: bool, data: Account, closable: Account)
    requires OnTheWay(w, vm, known, data, closable)
    ensures var sent := SendLive(w.sv, w.ex, vm, w.txs[0]);
            sent.staged && OnTheWay(w, sent.vm, known, data, closable)
  {
    SendWritten(w, vm, known, data, closable, 0);
  }

  lemma SendClose(w: World, vm: VmState, known: bool, data: Account)
    requires OnTheWay(w, vm, known, data, CLOSABLE) && !(known && data == PLAIN)
    ensures var sent := SendLive(w.sv, w.ex, vm, w.txs[1]);
            sent.staged && OnTheWay(w, sent.vm, known, data, PLAIN)
  {
    SendWritten(w, vm, known, data, CLOSABLE, 1);
  }

  lemma SendEmpty(w: World, vm: VmState, known: bool, data: Account, closable: Account)
    requires OnTheWay(w, vm, known, data, closable)
    ensures var sent := SendLive(w.sv, w.ex, vm, w.txs[2]);
            sent.staged && OnTheWay(w, sent.vm, known, PLAIN, closable)
  {
    SendWritten(w, vm, known, data, closable, 2);
  }

  lemma ReadsClosed(w: World, vm: VmState, known: bool, data: Account)
    requires OnTheWay(w, vm, known, data, PLAIN)
    ensures Read(w.sv, vm.accounts.db, 2) == Ok(Some(PLAIN))
  {}

  /** Three sends, all staged, the last of which leaves the machine at `end`. */
  ghost predicate Turns(sv: Services, ex: Executor, vm: VmState, x: Tx, y: Tx, z: Tx, end: VmState) {
    var first := SendLive(sv, ex, vm, x);
    var second := SendLive(sv, ex, first.vm, y);
    var third := SendLive(sv, ex, second.vm, z);
    first.staged && second.staged && third.staged && third.vm == end
  }

  lemma TurnsAreSends(sv: Services, ex: Executor, vm: VmState, txs: seq<Tx>, order: seq<nat>, end: VmState)
    requires |order| == 3 && InRange(txs, order)
    requires Turns(sv, ex, vm, txs[order[0]], txs[order[1]], txs[order[2]], end)
    ensures SendEach(sv, ex, vm, txs, order).refused == {} && SendEach(sv, ex, vm, txs, order).vm == end
  {
    SendThree(sv, ex, vm, txs, order);
  }

  /** With 4 in the overlay, sends in input order stage all three. */
  lemma InputOrderTurns(w: World, vm: VmState) returns (end: VmState)
    requires Poised(w, vm, true)
    ensures Turns(w.sv, w.ex, vm, w.txs[0], w.txs[1], w.txs[2], end)
    ensures Read(w.sv, end.accounts.db, 2) == Ok(Some(PLAIN))
  {
    SendRead(w, vm, true, PROGRAMDATA, CLOSABLE);
    var vm1 := SendLive(w.sv, w.ex, vm, w.txs[0]).vm;
    SendClose(w, vm1, true, PROGRAMDATA);
    var vm2 := SendLive(w.sv, w.ex, vm1, w.txs[1]).vm;
    SendEmpty(w, vm2, true, PROGRAMDATA, PLAIN);
    end := SendLive(w.sv, w.ex, vm2, w.txs[2]).vm;
    ReadsClosed(w, end, true, PLAIN);
  }

  /** With 4 at the source only, sends in plan order stage all three. */
  lemma PlanOrderTurns(w: World, vm: VmState) returns (end: VmState)
    requires Poised(w, vm, false)
    ensures Turns(w.sv, w.ex, vm, w.txs[0], w.txs[2], w.txs[1], end)
    ensures Read(w.sv, end.accounts.db, 2) == Ok(Some(PLAIN))
  {
    SendRead(w, vm, false, PROGRAMDATA, CLOSABLE);
    var vm1 := SendLive(w.sv, w.ex, vm, w.txs[0]).vm;
    SendEmpty(w, vm1, false, PROGRAMDATA, CLOSABLE);
    var vm2 := SendLive(w.sv, w.ex, vm1, w.txs[2]).vm;
    SendClose(w, vm2, false, PLAIN);
    end := SendLive(w.sv, w.ex, vm2, w.txs[1]).vm;
    ReadsClosed(w, end, false, PLAIN);
  }

  lemma InputOrderSends(w: World, vm: VmState)
    requires Poised(w, vm, true)
    ensures InRange(w.txs, Range(0, |w.txs|))
    ensures var sends := SendEach(w.sv, w.ex, vm, w.txs, Range(0, |w.txs|));
            sends.refused == {} && Read(w.sv, sends.vm.accounts.db, 2) == Ok(Some(PLAIN))
  {
    var end := InputOrderTurns(w, vm);
    RangeAt(0, |w.txs|);
    TurnsAreSends(w.sv, w.ex, vm, w.txs, Range(0, |w.txs|), end);
  }

  lemma PlanOrderSends(w: World, vm: VmState, stages: seq<Planner.Stage>)
    requires Poised(w, vm, false) && Splits(stages)
    ensures InRange(w.txs, OrderOf(stages))
    ensures var sends := SendEach(w.sv, w.ex, vm, w.txs, OrderOf(stages));
            sends.refused == {} && Read(w.sv, sends.vm.accounts.db, 2) == Ok(Some(PLAIN))
  {
    var end := PlanOrderTurns(w, vm);
    OrderOfTwo(stages);
    TurnsAreSends(w.sv, w.ex, vm, w.txs, OrderOf(stages), end);
  }

  lemma OrderOfTwo(stages: seq<Planner.Stage>)
    requires |stages| == 2
    ensures OrderOf(stages) == stages[0].indexes + stages[1].indexes
  {
    var one := stages[..1];
    assert |one[..0]| == 0 && one[0] == stages[0];
    assert OrderOf(one) == stages[0].indexes;
  }

  // ----- What the order decides -----

  /** A batch whose plan reverses no conflicting pair, on a coherent machine,
      refuses a transaction that sends in input order stage. */
  lemma OrderDecidesRefusals() returns (w: World, vm: VmState)
    ensures Begins(w, vm, true) && Ready(w.sv, w.ex, vm.history, w.txs) && Coherent(w.sv, vm.accounts)
    ensures NoReversal(w.ex, w.txs, PlanFor(w.ex, w.txs))
    ensures StagesInRange(w.txs, PlanFor(w.ex, w.txs)) && InRange(w.txs, Range(0, |w.txs|))
    ensures var run := RunStages(w.sv, w.ex, vm, w.txs, PlanFor(w.ex, w.txs));
            var sends := SendEach(w.sv, w.ex, vm, w.txs, Range(0, |w.txs|));
            && run.status.Finished? && run.refused == {1} && sends.refused == {}
            && Read(w.sv, run.vm.accounts.db, 2) != Read(w.sv, sends.vm.accounts.db, 2)
  {
    w, vm := WORLD, Initial(true);
    InitialIsReady(w, vm, true);
    InitialIsCoherent(w, vm, true);
    PlanKeepsConflictOrder(w);
    PlanIs(w);
    BatchRefuses(w, vm, true, PlanFor(w.ex, w.txs));
    InputOrderSends(w, vm);
  }

  /** A batch is not plan-order sends: the warm-up of a stage makes it refuse a
      transaction that sends in the very same order stage. */
  lemma WarmUpsDecideRefusals() returns (w: World, vm: VmState)
    ensures Begins(w, vm, false) && Ready(w.sv, w.ex, vm.history, w.txs) && Coherent(w.sv, vm.accounts)
    ensures StagesInRange(w.txs, PlanFor(w.ex, w.txs)) && InRange(w.txs, OrderOf(PlanFor(w.ex, w.txs)))
    ensures var run := RunStages(w.sv, w.ex, vm, w.txs, PlanFor(w.ex, w.txs));
            var sends := SendEach(w.sv, w.ex, vm, w.txs, OrderOf(PlanFor(w.ex, w.txs)));
            && run.status.Finished? && run.refused == {1} && sends.refused == {}
            && Read(w.sv, run.vm.accounts.db, 2) != Read(w.sv, sends.vm.accounts.db, 2)
  {
    w, vm := WORLD, Initial(false);
    InitialIsReady(w, vm, false);
    InitialIsCoherent(w, vm, false);
    PlanIs(w);
    BatchRefuses(w, vm, false, PlanFor(w.ex, w.txs));
    PlanOrderSends(w, vm, PlanFor(w.ex, w.txs));
  }

  /** Two outcomes that do not conflict merge in one order and panic in the other. */
  lemma OrderDecidesPanic() returns (w: World, vm: VmState)
    ensures Begins(w, vm, true)
    ensures InRange(w.txs, [1, 2]) && InRange(w.txs, [2, 1]) && PairwiseFree(w.ex, w.txs, [1, 2])
    ensures MergeLive(w.sv, w.ex, vm, vm, w.txs, [1, 2]).ok && !MergeLive(w.sv, w.ex, vm, vm, w.txs, [2, 1]).ok
  {
    w, vm := WORLD, Initial(true);
    InitialIsReady(w, vm, true);
    LastTwoAreFree(w);
    CloseThenEmpty(w, vm);
    EmptyThenClose(w, vm);
  }

  lemma LastTwoAreFree(w: World)
    requires w == WORLD
    ensures InRange(w.txs, [1, 2]) && PairwiseFree(w.ex, w.txs, [1, 2])
  {
    LocksAre(w);
    ThirdIsFree(LocksOf(w.ex, w.txs[0]), LocksOf(w.ex, w.txs[1]), LocksOf(w.ex, w.txs[2]));
    PairIsFree(w.ex, w.txs, 1, 2);
  }

  lemma PairIsFree(ex: Executor, txs: seq<Tx>, i: nat, j: nat)
    requires i < |txs| && j < |txs| && i != j && !Conflicts(LocksOf(ex, txs[i]), LocksOf(ex, txs[j]))
    ensures InRange(txs, [i, j]) && PairwiseFree(ex, txs, [i, j])
  {
    ConflictsSymmetric(LocksOf(ex, txs[i]), LocksOf(ex, txs[j]));
  }

  lemma CloseThenEmpty(w: World, vm: VmState)
    requires w == WORLD && Reached(vm.accounts, true, PROGRAMDATA, CLOSABLE) && vm.history == H.WithCapacity(0)
    ensures InRange(w.txs, [1, 2]) && MergeLive(w.sv, w.ex, vm, vm, w.txs, [1, 2]).ok
  {
    ApplyWritten(w, vm, vm, true, PROGRAMDATA, CLOSABLE, 1);
    var next := ApplyCommitDelta(w.sv, vm, DeltaOf(LiveOutcome(w.sv, w.ex, vm, w.txs[1]), false)).vm;
    ApplyWritten(w, vm, next, true, PROGRAMDATA, PLAIN, 2);
    MergeTwo(w.sv, w.ex, vm, w.txs, 1, 2);
  }

  lemma EmptyThenClose(w: World, vm: VmState)
    requires w == WORLD && Reached(vm.accounts, true, PROGRAMDATA, CLOSABLE) && vm.history == H.WithCapacity(0)
    ensures InRange(w.txs, [2, 1]) && !MergeLive(w.sv, w.ex, vm, vm, w.txs, [2, 1]).ok
  {
    ApplyWritten(w, vm, vm, true, PROGRAMDATA, CLOSABLE, 2);
    var next := ApplyCommitDelta(w.sv, vm, DeltaOf(LiveOutcome(w.sv, w.ex, vm, w.txs[2]), false)).vm;
    ApplyWritten(w, vm, next, true, PLAIN, CLOSABLE, 1);
    MergeTwo(w.sv, w.ex, vm, w.txs, 2, 1);
  }

  /** A warm-up changes the program cache when the source holds a program the
      overlay did not know. */
  lemma WarmUpLoadsSourceProgram() returns (w: World, vm: VmState)
    ensures Begins(w, vm, false) && BatchAgrees(w.sv) && Coherent(w.sv, vm.accounts)
    ensures var s, warmed := vm.accounts, Warm(w.sv, vm.accounts, [4]);
            warmed.ok && SourceProgram(w.sv, s.db, 4) && 4 !in s.programs.entries && 4 in warmed.state.programs.entries
  {
    w, vm := WORLD, Initial(false);
    InitialIsReady(w, vm, false);
    InitialIsCoherent(w, vm, false);
    WarmBrings(w, vm.accounts, false, [4]);
  }
}
