/** A batch against the source's own sends, without its warm-ups: what they have
    in common when they refuse the same transactions, when nothing is refused,
    and exactly which plans amount to input order. */
module LiveOrder {
  import opened Types
  import opened Overlay
  import opened Store
  import opened Partition
  import opened TimeTravel
  import opened View
  import opened Warming
  import opened Lifecycle
  import opened Planner
  import opened Machine
  import opened StageRun
  import opened Commute
  import opened InputOrder
  import opened Inversion
  import opened Batch
  import opened Serializability
  import opened Sequential
  import opened Schedule
  import H = History

  // ----- Sends follow the reference machine -----

  lemma {:induction false} SendEachTracks(
    sv: Services, ex: Executor, vm: VmState, f: FlatState, txs: seq<Tx>, order: seq<nat>)
    requires InRange(txs, order) && NoRepeats(order) && Tracks(sv, vm, f)
    requires forall i :: 0 <= i < |txs| ==> DistinctKeys(txs[i])
    ensures SendsTrack(sv, ex, f, txs, order, SendEach(sv, ex, vm, txs, order))
    decreases |order|
  {
    if order != [] {
      var sent := SendLive(sv, ex, vm, txs[order[0]]);
      var f1 := if sent.staged then Send(sv, ex, f, txs[order[0]]) else f;
      SendTracks(sv, ex, vm, f, txs[order[0]]);
      SendEachTracks(sv, ex, sent.vm, f1, txs, order[1..]);
      FirstSendTracks(sv, ex, f, f1, txs, order, sent, SendEach(sv, ex, sent.vm, txs, order[1..]));
    }
  }

  /** The sends are the reference run in this order with their own refusals. */
  ghost predicate SendsTrack(sv: Services, ex: Executor, f: FlatState, txs: seq<Tx>, order: seq<nat>, sends: Sequel)
    requires InRange(txs, order)
  {
    && sends.refused <= (set i | i in order)
    && Tracks(sv, sends.vm, Serial(sv, ex, f, txs, order, sends.refused))
    && sends.results == SerialResults(sv, ex, f, txs, order, sends.refused)
  }

  lemma FirstSendTracks(
    sv: Services, ex: Executor, f: FlatState, f1: FlatState, txs: seq<Tx>, order: seq<nat>, sent: Sent, rest: Sequel)
    requires order != [] && InRange(txs, order) && NoRepeats(order)
    requires f1 == if sent.staged then Send(sv, ex, f, txs[order[0]]) else f
    requires sent.result == ResultOf(Outcome(sv, ex, f, txs[order[0]])) && SendsTrack(sv, ex, f1, txs, order[1..], rest)
    ensures var m := order[0];
            var refused := if sent.staged then rest.refused else rest.refused + {m};
            SendsTrack(sv, ex, f, txs, order, Sequel(rest.vm, rest.results[m := sent.result], refused))
  {
    var m, tail := order[0], order[1..];
    var refused := if sent.staged then rest.refused else rest.refused + {m};
    assert order == [m] + tail;
    assert m !in tail;
    assert Step(sv, ex, f, txs, m, refused) == f1;
    RefusedElsewhere(sv, ex, f1, txs, tail, rest.refused, refused);
  }

  ghost predicate SameReads(sv: Services, x: VmState, y: VmState) {
    forall a: Address :: Read(sv, x.accounts.db, a) == Read(sv, y.accounts.db, a)
  }

  lemma SameKnownSameReads(sv: Services, x: VmState, y: VmState, known: map<Address, Option<Account>>)
    requires Refines(sv, x.accounts.db, known) && Refines(sv, y.accounts.db, known)
    ensures SameReads(sv, x, y)
  {
    forall a: Address ensures Read(sv, x.accounts.db, a) == Read(sv, y.accounts.db, a) {
      assert Read(sv, x.accounts.db, a) == ReadFlat(sv, known, a);
    }
  }

  /** A finished batch leaves the accounts, the history and the results of sending
      its transactions one at a time in plan order, without any warm-up, whenever
      both refuse the same ones. */
  lemma BatchMatchesPlanSends(sv: Services, ex: Executor, vm: VmState, txs: seq<Tx>)
    requires Ready(sv, ex, vm.history, txs)
    ensures StagesInRange(txs, PlanFor(ex, txs)) && InRange(txs, OrderOf(PlanFor(ex, txs)))
    ensures var run := RunStages(sv, ex, vm, txs, PlanFor(ex, txs));
            var sends := SendEach(sv, ex, vm, txs, OrderOf(PlanFor(ex, txs)));
            run.status.Finished? && run.refused == sends.refused ==>
              SameReads(sv, run.vm, sends.vm) && run.vm.history == sends.vm.history && run.results == sends.results
  {
    PlanOrderSerializable(sv, ex, vm, txs);
    PlanIsCompatible(ex, txs);
    var order := OrderOf(PlanFor(ex, txs));
    var run := RunStages(sv, ex, vm, txs, PlanFor(ex, txs));
    TracksInitially(sv, vm);
    SendEachTracks(sv, ex, vm, Start(vm), txs, order);
    if run.status.Finished? && run.refused == SendEach(sv, ex, vm, txs, order).refused {
      SameKnownSameReads(
        sv, run.vm, SendEach(sv, ex, vm, txs, order).vm, Serial(sv, ex, Start(vm), txs, order, run.refused).known);
    }
  }

  /** When warming up a stage fails, the same holds of the stages before it. */
  lemma FailureMatchesPrefixSends(sv: Services, ex: Executor, vm: VmState, txs: seq<Tx>)
    requires Ready(sv, ex, vm.history, txs)
    ensures StagesInRange(txs, PlanFor(ex, txs))
    ensures var run, stages := RunStages(sv, ex, vm, txs, PlanFor(ex, txs)), PlanFor(ex, txs);
            run.status.SourceFailed? ==>
              && run.status.stage < |stages| && InRange(txs, OrderOf(stages[..run.status.stage]))
              && var sends := SendEach(sv, ex, vm, txs, OrderOf(stages[..run.status.stage]));
                 run.refused == sends.refused ==>
                   SameReads(sv, run.vm, sends.vm) && run.vm.history == sends.vm.history && run.results == sends.results
  {
    FailureShowsPrefix(sv, ex, vm, txs);
    var run, stages := RunStages(sv, ex, vm, txs, PlanFor(ex, txs)), PlanFor(ex, txs);
    if run.status.SourceFailed? {
      var order := OrderOf(stages[..run.status.stage]);
      PlanIsCompatible(ex, txs);
      PrefixHasNoRepeats(stages, |txs|, run.status.stage);
      TracksInitially(sv, vm);
      SendEachTracks(sv, ex, vm, Start(vm), txs, order);
      if run.refused == SendEach(sv, ex, vm, txs, order).refused {
        SameKnownSameReads(
          sv, run.vm, SendEach(sv, ex, vm, txs, order).vm, Serial(sv, ex, Start(vm), txs, order, run.refused).known);
      }
    }
  }

  lemma PrefixHasNoRepeats(stages: seq<Planner.Stage>, n: nat, k: nat)
    requires Lists(OrderOf(stages), 0, n) && k <= |stages|
    ensures NoRepeats(OrderOf(stages[..k]))
  {
    OrderOfPrefix(stages, k);
  }

  /** When the plan reverses no conflicting pair, the batch leaves the accounts and
      the results of sending its transactions in input order, whenever both refuse
      the same ones; and the history answers alike if it has room and repeated
      signatures conflict. */
  lemma BatchMatchesInputSends(sv: Services, ex: Executor, vm: VmState, txs: seq<Tx>)
    requires Ready(sv, ex, vm.history, txs) && NoReversal(ex, txs, PlanFor(ex, txs))
    ensures StagesInRange(txs, PlanFor(ex, txs)) && InRange(txs, Range(0, |txs|))
    ensures var run := RunStages(sv, ex, vm, txs, PlanFor(ex, txs));
            var sends := SendEach(sv, ex, vm, txs, Range(0, |txs|));
            run.status.Finished? && run.refused == sends.refused ==>
              && SameReads(sv, run.vm, sends.vm) && run.results == sends.results
              && (Roomy(vm.history, |txs|) && RepeatsConflict(ex, txs) ==>
                    SameLookups(run.vm.history, sends.vm.history))
  {
    BatchInInputOrder(sv, ex, vm, txs);
    var run := RunStages(sv, ex, vm, txs, PlanFor(ex, txs));
    var input := Range(0, |txs|);
    RangeAt(0, |txs|);
    TracksInitially(sv, vm);
    SendEachTracks(sv, ex, vm, Start(vm), txs, input);
    if run.status.Finished? && run.refused == SendEach(sv, ex, vm, txs, input).refused {
      SameKnownSameReads(
        sv, run.vm, SendEach(sv, ex, vm, txs, input).vm, Serial(sv, ex, Start(vm), txs, input, run.refused).known);
    }
  }

  // ----- When nothing is refused -----

  /** An account that cannot make its sync fail: no program, and if a sysvar, one that parses. */
  predicate HarmlessAccount(sv: Services, x: (Address, Account)) {
    !x.1.executable && (IsManagedSysvar(x.0) && x.1.lamports != 0 ==> sv.sysvarParses(x.0, x.1.data))
  }

  /** Whatever it sees, the transaction writes harmless accounts only. */
  ghost predicate Harmless(sv: Services, ex: Executor, tx: Tx) {
    forall view: AccountView, seen: bool ::
      forall x :: x in TransactDetached(ex, tx, view, seen).postAccounts ==> HarmlessAccount(sv, x)
  }

  predicate NoProgramAt(sv: Services, db: CacheDb, a: Address) {
    var found := Read(sv, db, a);
    found.Ok? && found.value.Some? ==> !IsCachedProgram(a, found.value.value)
  }

  /** No transaction of the batch may write where a program is. */
  ghost predicate SparesPrograms(sv: Services, ex: Executor, db: CacheDb, txs: seq<Tx>) {
    forall i, a :: 0 <= i < |txs| && a in LocksOf(ex, txs[i]).writable ==> NoProgramAt(sv, db, a)
  }

  lemma HarmlessAdd(sv: Services, s: StoreState, x: (Address, Account), b: Address)
    requires HarmlessAccount(sv, x) && NoProgramAt(sv, s.db, x.0)
    ensures var t := AddAccount(sv, s, x.0, x.1);
            t.ok && (NoProgramAt(sv, s.db, b) ==> NoProgramAt(sv, t.state.db, b))
  {
    var t := AddAccount(sv, s, x.0, x.1);
    assert !HasProgram(x.0, x.1) && !HadProgram(s, x.0);
    assert t.state.db == Write(s.db, x.0, Stored(x.1));
  }

  lemma {:induction false} HarmlessAddAll(sv: Services, s: StoreState, xs: Delta, b: Address)
    requires forall x :: x in xs ==> HarmlessAccount(sv, x) && NoProgramAt(sv, s.db, x.0)
    ensures var t := AddAll(sv, s, xs);
            t.ok && (NoProgramAt(sv, s.db, b) ==> NoProgramAt(sv, t.state.db, b))
    decreases |xs|
  {
    if xs != [] {
      assert xs[0] in xs;
      HarmlessAdd(sv, s, xs[0], b);
      var t := AddAccount(sv, s, xs[0].0, xs[0].1).state;
      forall x | x in xs[1..] ensures HarmlessAccount(sv, x) && NoProgramAt(sv, t.db, x.0) {
        assert x in xs;
        HarmlessAdd(sv, s, xs[0], x.0);
      }
      HarmlessAddAll(sv, t, xs[1..], b);
    }
  }

  lemma HarmlessSync(sv: Services, s: StoreState, delta: Delta, b: Address)
    requires forall x :: x in delta ==> HarmlessAccount(sv, x) && NoProgramAt(sv, s.db, x.0)
    ensures var t := SyncAccounts(sv, s, delta);
            t.ok && (NoProgramAt(sv, s.db, b) ==> NoProgramAt(sv, t.state.db, b))
  {
    PartitionedSound(delta);
    SameElements(Partitioned(delta), delta);
    HarmlessAddAll(sv, s, Partitioned(delta), b);
  }

  /** The delta of a harmless transaction, computed anywhere, can be applied. */
  lemma HarmlessDelta(sv: Services, ex: Executor, tx: Tx, view: AccountView, seen: bool, s: StoreState, enabled: bool)
    requires Harmless(sv, ex, tx) && forall a :: a in LocksOf(ex, tx).writable ==> NoProgramAt(sv, s.db, a)
    ensures forall x :: x in DeltaOf(TransactDetached(ex, tx, view, seen), enabled).postAccounts ==>
              HarmlessAccount(sv, x) && NoProgramAt(sv, s.db, x.0)
  {
    var d := TransactDetached(ex, tx, view, seen);
    var delta := DeltaOf(d, enabled).postAccounts;
    OutcomeWritesLocked(ex, tx, view, seen, enabled);
    forall x | x in delta ensures HarmlessAccount(sv, x) && NoProgramAt(sv, s.db, x.0) {
      assert x in d.postAccounts;
      var k :| 0 <= k < |delta| && delta[k] == x;
      assert x.0 in Addresses(delta);
    }
  }

  /** The batch on a machine where nothing can be refused. */
  ghost predicate Safe(sv: Services, ex: Executor, db: CacheDb, txs: seq<Tx>) {
    (forall i :: 0 <= i < |txs| ==> Harmless(sv, ex, txs[i])) && SparesPrograms(sv, ex, db, txs)
  }

  lemma SafeApply(
    sv: Services, ex: Executor, vm: VmState, txs: seq<Tx>, i: nat, view: AccountView, seen: bool, enabled: bool)
    requires i < |txs| && Safe(sv, ex, vm.accounts.db, txs)
    ensures var applied := ApplyCommitDelta(sv, vm, DeltaOf(TransactDetached(ex, txs[i], view, seen), enabled));
            && applied.ok && Safe(sv, ex, applied.vm.accounts.db, txs)
            && (forall b :: NoProgramAt(sv, vm.accounts.db, b) ==> NoProgramAt(sv, applied.vm.accounts.db, b))
  {
    var delta := DeltaOf(TransactDetached(ex, txs[i], view, seen), enabled);
    var applied := ApplyCommitDelta(sv, vm, delta);
    HarmlessDelta(sv, ex, txs[i], view, seen, vm.accounts, enabled);
    forall b ensures applied.ok && (NoProgramAt(sv, vm.accounts.db, b) ==> NoProgramAt(sv, applied.vm.accounts.db, b)) {
      HarmlessSync(sv, vm.accounts, delta.postAccounts, b);
    }
    HarmlessSync(sv, vm.accounts, delta.postAccounts, 0);
  }

  lemma SafeSend(sv: Services, ex: Executor, vm: VmState, txs: seq<Tx>, i: nat)
    requires i < |txs| && Safe(sv, ex, vm.accounts.db, txs)
    ensures var sent := SendLive(sv, ex, vm, txs[i]);
            && sent.staged && Safe(sv, ex, sent.vm.accounts.db, txs)
            && (forall b :: NoProgramAt(sv, vm.accounts.db, b) ==> NoProgramAt(sv, sent.vm.accounts.db, b))
  {
    SendIsApply(sv, ex, vm, txs[i]);
    SafeApply(
      sv, ex, vm, txs, i, LiveView(sv, ex, vm, txs[i]), H.Check(vm.history, txs[i].signature), vm.history.max != 0);
  }

  /** Sent in any order, none is refused. */
  lemma {:induction false} SafeSendEach(sv: Services, ex: Executor, vm: VmState, txs: seq<Tx>, order: seq<nat>)
    requires InRange(txs, order) && Safe(sv, ex, vm.accounts.db, txs)
    ensures SendEach(sv, ex, vm, txs, order).refused == {}
    decreases |order|
  {
    if order != [] {
      SafeSend(sv, ex, vm, txs, order[0]);
      SafeSendEach(sv, ex, SendLive(sv, ex, vm, txs[order[0]]).vm, txs, order[1..]);
    }
  }

  /** Merged in any order, from any snapshot, all are accepted. */
  lemma {:induction false} SafeMerge(
    sv: Services, ex: Executor, snapshot: VmState, vm: VmState, txs: seq<Tx>, members: seq<nat>)
    requires InRange(txs, members) && Safe(sv, ex, vm.accounts.db, txs)
    ensures var merged := MergeLive(sv, ex, snapshot, vm, txs, members);
            && merged.ok && Safe(sv, ex, merged.vm.accounts.db, txs)
            && (forall b :: NoProgramAt(sv, vm.accounts.db, b) ==> NoProgramAt(sv, merged.vm.accounts.db, b))
    decreases |members|
  {
    if members != [] {
      var tx, enabled := txs[members[0]], snapshot.history.max != 0;
      var view, seen := LiveView(sv, ex, snapshot, tx), H.Check(snapshot.history, tx.signature);
      SafeApply(sv, ex, vm, txs, members[0], view, seen, enabled);
      var next := ApplyCommitDelta(sv, vm, DeltaOf(TransactDetached(ex, tx, view, seen), enabled)).vm;
      SafeMerge(sv, ex, snapshot, next, txs, members[1..]);
    }
  }

  /** So, where none writes a program, a conflict-free stage is merged in any
      order, and every order leaves every address reading the same. */
  lemma SafeMergeOrderIsInvisible(
    sv: Services, ex: Executor, snapshot: VmState, txs: seq<Tx>, xs: seq<nat>, ys: seq<nat>)
    requires InRange(txs, xs) && InRange(txs, ys) && PairwiseFree(ex, txs, ys) && multiset(xs) == multiset(ys)
    requires (forall i :: 0 <= i < |txs| ==> DistinctKeys(txs[i])) && Safe(sv, ex, snapshot.accounts.db, txs)
    ensures var x, y := MergeLive(sv, ex, snapshot, snapshot, txs, xs), MergeLive(sv, ex, snapshot, snapshot, txs, ys);
            x.ok && y.ok && SameReads(sv, x.vm, y.vm)
  {
    SafeMerge(sv, ex, snapshot, snapshot, txs, xs);
    SafeMerge(sv, ex, snapshot, snapshot, txs, ys);
    MergeOrderIsInvisible(sv, ex, snapshot, txs, xs, ys);
  }

  lemma SafeWarmUp(sv: Services, ex: Executor, vm: VmState, txs: seq<Tx>, members: seq<nat>)
    requires InRange(txs, members) && BatchAgrees(sv)
    ensures var warmed := WarmUp(sv, vm, txs, members).vm;
            forall b :: NoProgramAt(sv, vm.accounts.db, b) <==> NoProgramAt(sv, warmed.accounts.db, b)
  {
    var f := Start(vm);
    TracksInitially(sv, vm);
    WarmUpTracks(sv, vm, f, txs, members);
    forall b
      ensures NoProgramAt(sv, vm.accounts.db, b) <==> NoProgramAt(sv, WarmUp(sv, vm, txs, members).vm.accounts.db, b)
    {
      assert Read(sv, vm.accounts.db, b) == ReadFlat(sv, f.known, b);
    }
  }

  lemma SafeStage(sv: Services, ex: Executor, run: BatchRun, txs: seq<Tx>, members: seq<nat>, k: nat)
    requires InRange(txs, members) && BatchAgrees(sv) && Safe(sv, ex, run.vm.accounts.db, txs)
    requires run.refused == {} && run.status.Finished?
    ensures var next := RunStage(sv, ex, run, txs, members, k);
            && next.refused == {} && !next.status.MergePanicked? && Safe(sv, ex, next.vm.accounts.db, txs)
            && (forall b :: NoProgramAt(sv, run.vm.accounts.db, b) ==> NoProgramAt(sv, next.vm.accounts.db, b))
  {
    if |members| == 1 {
      SafeSend(sv, ex, run.vm, txs, members[0]);
    } else {
      SafeWarmUp(sv, ex, run.vm, txs, members);
      var warmed := WarmUp(sv, run.vm, txs, members);
      SafeMerge(sv, ex, warmed.vm, warmed.vm, txs, members);
    }
  }

  lemma {:induction false} SafeStages(sv: Services, ex: Executor, vm: VmState, txs: seq<Tx>, stages: seq<Planner.Stage>)
    requires StagesInRange(txs, stages) && BatchAgrees(sv) && Safe(sv, ex, vm.accounts.db, txs)
    ensures var run := RunStages(sv, ex, vm, txs, stages);
            && run.refused == {} && !run.status.MergePanicked? && Safe(sv, ex, run.vm.accounts.db, txs)
            && (forall b :: NoProgramAt(sv, vm.accounts.db, b) ==> NoProgramAt(sv, run.vm.accounts.db, b))
    decreases |stages|
  {
    if stages != [] {
      var n := |stages| - 1;
      SafeStages(sv, ex, vm, txs, stages[..n]);
      var before := RunStages(sv, ex, vm, txs, stages[..n]);
      if before.status.Finished? {
        SafeStage(sv, ex, before, txs, stages[n].indexes, n);
      }
    }
  }

  /** If all transactions write plain accounts where no program is, nothing is
      refused, in the batch or by sends in any order, and no merge panics. So a
      finished batch leaves the accounts, history and results of plan-order sends
      and, without a reversal, the accounts and results of input-order sends. */
  lemma SafeBatch(sv: Services, ex: Executor, vm: VmState, txs: seq<Tx>)
    requires Ready(sv, ex, vm.history, txs) && Safe(sv, ex, vm.accounts.db, txs)
    ensures StagesInRange(txs, PlanFor(ex, txs))
    ensures InRange(txs, OrderOf(PlanFor(ex, txs))) && InRange(txs, Range(0, |txs|))
    ensures var run := RunStages(sv, ex, vm, txs, PlanFor(ex, txs));
            var planned := SendEach(sv, ex, vm, txs, OrderOf(PlanFor(ex, txs)));
            var listed := SendEach(sv, ex, vm, txs, Range(0, |txs|));
            && !run.status.MergePanicked? && run.refused == planned.refused == listed.refused == {}
            && (run.status.Finished? ==>
                  SameReads(sv, run.vm, planned.vm) && run.vm.history ==
                    planned.vm.history && run.results == planned.results)
            && (run.status.Finished? && NoReversal(ex, txs, PlanFor(ex, txs)) ==>
                  SameReads(sv, run.vm, listed.vm) && run.results == listed.results)
  {
    BatchMatchesPlanSends(sv, ex, vm, txs);
    RangeAt(0, |txs|);
    SafeStages(sv, ex, vm, txs, PlanFor(ex, txs));
    SafeSendEach(sv, ex, vm, txs, OrderOf(PlanFor(ex, txs)));
    SafeSendEach(sv, ex, vm, txs, Range(0, |txs|));
    if NoReversal(ex, txs, PlanFor(ex, txs)) {
      BatchMatchesInputSends(sv, ex, vm, txs);
    }
  }

  // ----- Exactly the plans that amount to input order -----

  /** On every machine and for every behaviour of the transactions (or only for
      those that cannot be refused), a finished batch leaves the accounts and the
      results of sends in input order, if both refuse the same ones. */
  ghost predicate AlwaysListed(reserved: set<Address>, txs: seq<Tx>, onlySafe: bool)
    requires InRange(txs, Range(0, |txs|))
  {
    forall sv: Services, ex: Executor, vm: VmState ::
      ex.reserved == reserved && Ready(sv, ex, vm.history, txs) && (onlySafe ==> Safe(sv, ex, vm.accounts.db, txs)) ==>
        StagesInRange(txs, PlanFor(ex, txs)) && ShowsListed(sv, ex, vm, txs)
  }

  ghost predicate ShowsListed(sv: Services, ex: Executor, vm: VmState, txs: seq<Tx>)
    requires StagesInRange(txs, PlanFor(ex, txs)) && InRange(txs, Range(0, |txs|))
  {
    var run, listed := RunStages(sv, ex, vm, txs, PlanFor(ex, txs)), SendEach(sv, ex, vm, txs, Range(0, |txs|));
    run.status.Finished? && run.refused == listed.refused ==>
      SameReads(sv, run.vm, listed.vm) && run.results == listed.results
  }

  /** A machine that holds nothing. */
  const EMPTY_VM: VmState :=
    VmState(StoreState(CacheDb(map[], {}), [], ProgramCache(0, map[]), map[]), H.WithCapacity(0))

  lemma PlanNeedsOnlyLocks(ex: Executor, ex': Executor, txs: seq<Tx>)
    requires ex.reserved == ex'.reserved
    ensures PlanFor(ex, txs) == PlanFor(ex', txs)
    ensures NoReversal(ex, txs, PlanFor(ex, txs)) <==> NoReversal(ex', txs, PlanFor(ex, txs))
  {
    forall i | 0 <= i < |txs| ensures LocksOf(ex, txs[i]) == LocksOf(ex', txs[i]) {
      SameLocks(ex, ex', txs[i]);
    }
    assert AllLocks(ex, txs) == AllLocks(ex', txs);
  }

  // The probe of a reversed pair, on the machine that holds nothing

  lemma {:induction false} NothingToCache(s: StoreState, keys: seq<Address>, got: seq<Option<Account>>)
    requires forall i :: 0 <= i < |got| ==> got[i] == None
    ensures CacheHits(s, keys, got) == s
    decreases |keys|
  {
    if keys != [] && got != [] {
      NothingToCache(s, keys[1..], got[1..]);
    }
  }

  /** Without programs, and with a source that knows nothing, a warm-up does nothing. */
  lemma EmptyWarmUp(vm: VmState, txs: seq<Tx>, members: seq<nat>)
    requires InRange(txs, members) && forall b :: NoProgramAt(EMPTY_SERVICES, vm.accounts.db, b)
    ensures WarmUp(EMPTY_SERVICES, vm, txs, members) == Applied(vm, true)
  {
    var s, keys := vm.accounts, ReadSet(txs, members);
    var missing := Missing(s.db, keys);
    NothingToCache(s, missing, seq(|missing|, _ => None));
    assert Prewarm(EMPTY_SERVICES, s, keys) == Attempt(s, true);
    UnresolvedExact(s, keys);
    forall a ensures a !in Unresolved(s, keys) {
      assert NoProgramAt(EMPTY_SERVICES, s.db, a);
    }
    SomeMember(Unresolved(s, keys));
  }

  lemma SomeMember(xs: seq<Address>)
    ensures xs == [] || exists a :: a in xs
  {
    if xs != [] {
      assert xs[0] in xs;
    }
  }

  lemma {:induction false} EmptyRunFinishes(ex: Executor, vm: VmState, txs: seq<Tx>, stages: seq<Planner.Stage>)
    requires StagesInRange(txs, stages) && Safe(EMPTY_SERVICES, ex, vm.accounts.db, txs)
    requires forall b :: NoProgramAt(EMPTY_SERVICES, vm.accounts.db, b)
    ensures RunStages(EMPTY_SERVICES, ex, vm, txs, stages).status.Finished?
    decreases |stages|
  {
    if stages != [] {
      var n := |stages| - 1;
      EmptyRunFinishes(ex, vm, txs, stages[..n]);
      SafeStages(EMPTY_SERVICES, ex, vm, txs, stages[..n]);
      var before := RunStages(EMPTY_SERVICES, ex, vm, txs, stages[..n]);
      if |stages[n].indexes| != 1 {
        EmptyWarmUp(before.vm, txs, stages[n].indexes);
        SafeMerge(EMPTY_SERVICES, ex, before.vm, before.vm, txs, stages[n].indexes);
      }
    }
  }

  lemma {:induction false} PostAccountsAreOutputs(ex: Executor, keys: seq<KeyMeta>, accounts: seq<Account>)
    ensures forall x :: x in PostAccounts(ex, keys, accounts) ==> x.1 in accounts
    decreases |keys|
  {
    if keys != [] && accounts != [] {
      PostAccountsAreOutputs(ex, keys[1..], accounts[1..]);
    }
  }

  lemma ProbeIsHarmless(reserved: set<Address>, writer: Tx, reader: Tx, a: Address, tx: Tx)
    ensures Harmless(EMPTY_SERVICES, Probe(reserved, writer, reader, a), tx)
  {
    var ex := Probe(reserved, writer, reader, a);
    forall view: AccountView, seen: bool
      ensures forall x :: x in TransactDetached(ex, tx, view, seen).postAccounts ==> HarmlessAccount(EMPTY_SERVICES, x)
    {
      PostAccountsAreOutputs(ex, tx.keys, ex.run(tx, view).accounts);
      var n := CountIn(view, a);
      assert forall account :: account in ex.run(tx, view).accounts ==> account == Counter(n + 1);
    }
  }

  /** The results of a batch that cannot be refused, and of its sends, on the reference machine. */
  lemma SafeResults(sv: Services, ex: Executor, vm: VmState, txs: seq<Tx>)
    requires Ready(sv, ex, vm.history, txs) && Safe(sv, ex, vm.accounts.db, txs)
    ensures StagesInRange(txs, PlanFor(ex, txs)) && InRange(txs, OrderOf(PlanFor(ex, txs)))
    ensures InRange(txs, Range(0, |txs|))
    ensures var run := RunStages(sv, ex, vm, txs, PlanFor(ex, txs));
            && run.refused == {}
            && (run.status.Finished? ==>
                  run.results == SerialResults(sv, ex, Start(vm), txs, OrderOf(PlanFor(ex, txs)), {}))
    ensures var listed := SendEach(sv, ex, vm, txs, Range(0, |txs|));
            listed.refused == {} && listed.results == SerialResults(sv, ex, Start(vm), txs, Range(0, |txs|), {})
  {
    SafeBatch(sv, ex, vm, txs);
    PlanOrderSerializable(sv, ex, vm, txs);
    RangeAt(0, |txs|);
    TracksInitially(sv, vm);
    SendEachTracks(sv, ex, vm, Start(vm), txs, Range(0, |txs|));
  }

  lemma EmptyVmIsReady(ex: Executor, txs: seq<Tx>)
    requires !ex.sigverify && forall i :: 0 <= i < |txs| ==>
               DistinctKeys(txs[i]) && Harmless(EMPTY_SERVICES, ex, txs[i])
    ensures Start(EMPTY_VM) == FRESH && Ready(EMPTY_SERVICES, ex, EMPTY_VM.history, txs)
    ensures Safe(EMPTY_SERVICES, ex, EMPTY_VM.accounts.db, txs)
    ensures forall b :: NoProgramAt(EMPTY_SERVICES, EMPTY_VM.accounts.db, b)
  {}

  lemma ListedRefuted(sv: Services, ex: Executor, vm: VmState, txs: seq<Tx>)
    requires Ready(sv, ex, vm.history, txs) && Safe(sv, ex, vm.accounts.db, txs)
    requires StagesInRange(txs, PlanFor(ex, txs)) && InRange(txs, Range(0, |txs|)) && !ShowsListed(sv, ex, vm, txs)
    ensures !AlwaysListed(ex.reserved, txs, true) && !AlwaysListed(ex.reserved, txs, false)
  {}

  lemma ProbeRefutes(probe: Executor, txs: seq<Tx>)
    requires forall i :: 0 <= i < |txs| ==> DistinctKeys(txs[i]) && Harmless(EMPTY_SERVICES, probe, txs[i])
    requires !probe.sigverify && InRange(txs, OrderOf(PlanFor(probe, txs))) && InRange(txs, Range(0, |txs|))
    requires SerialResults(EMPTY_SERVICES, probe, FRESH, txs, Range(0, |txs|), {})
             != SerialResults(EMPTY_SERVICES, probe, FRESH, txs, OrderOf(PlanFor(probe, txs)), {})
    ensures !AlwaysListed(probe.reserved, txs, true) && !AlwaysListed(probe.reserved, txs, false)
  {
    EmptyVmIsReady(probe, txs);
    SafeResults(EMPTY_SERVICES, probe, EMPTY_VM, txs);
    EmptyRunFinishes(probe, EMPTY_VM, txs, PlanFor(probe, txs));
    ListedRefuted(EMPTY_SERVICES, probe, EMPTY_VM, txs);
  }

  /** Transactions with the locks of the batch that notice a reversed pair. */
  lemma {:induction false} ReversedPairProbe(ex: Executor, txs: seq<Tx>, order: seq<nat>, p: nat, q: nat)
    returns (probe: Executor)
    requires InRange(txs, order) && Lists(order, 0, |txs|) && p < q < |order| && order[q] < order[p]
    requires Conflicts(LocksOf(ex, txs[order[p]]), LocksOf(ex, txs[order[q]]))
    ensures probe.reserved == ex.reserved && !probe.sigverify && InRange(txs, Range(0, |txs|))
    ensures forall i :: 0 <= i < |txs| ==> Harmless(EMPTY_SERVICES, probe, txs[i])
    ensures SerialResults(EMPTY_SERVICES, probe, FRESH, txs, Range(0, |txs|), {})
            != SerialResults(EMPTY_SERVICES, probe, FRESH, txs, order, {})
  {
    var n, i, j := |txs|, order[q], order[p];
    RangeAt(0, n);
    ConflictsSymmetric(LocksOf(ex, txs[i]), LocksOf(ex, txs[j]));
    RangePrecedes(n, i, j);
    probe := InversionIsVisible(ex, txs, Range(0, n), order, i, j);
    AnyProbeIsHarmless(ex.reserved, probe, txs);
  }

  lemma {:induction false} ReversalProbe(ex: Executor, txs: seq<Tx>) returns (probe: Executor)
    requires !NoReversal(ex, txs, PlanFor(ex, txs))
    ensures InRange(txs, OrderOf(PlanFor(ex, txs))) && InRange(txs, Range(0, |txs|))
    ensures probe.reserved == ex.reserved && !probe.sigverify
    ensures forall i :: 0 <= i < |txs| ==> Harmless(EMPTY_SERVICES, probe, txs[i])
    ensures SerialResults(EMPTY_SERVICES, probe, FRESH, txs, Range(0, |txs|), {})
            != SerialResults(EMPTY_SERVICES, probe, FRESH, txs, OrderOf(PlanFor(ex, txs)), {})
  {
    PlanIsConflictFree(ex, txs);
    var p, q := ReversalInOrder(ex, txs, PlanFor(ex, txs));
    probe := ReversedPairProbe(ex, txs, OrderOf(PlanFor(ex, txs)), p, q);
  }

  lemma AnyProbeIsHarmless(reserved: set<Address>, probe: Executor, txs: seq<Tx>)
    requires exists writer, reader, a :: probe == Probe(reserved, writer, reader, a)
    ensures probe.reserved == reserved && !probe.sigverify
    ensures forall i :: 0 <= i < |txs| ==> Harmless(EMPTY_SERVICES, probe, txs[i])
  {
    var writer, reader, a :| probe == Probe(reserved, writer, reader, a);
    forall i | 0 <= i < |txs| ensures Harmless(EMPTY_SERVICES, probe, txs[i]) {
      ProbeIsHarmless(reserved, writer, reader, a, txs[i]);
    }
  }

  lemma {:induction false} ReversalShows(ex: Executor, txs: seq<Tx>)
    requires (forall i :: 0 <= i < |txs| ==> DistinctKeys(txs[i])) && !NoReversal(ex, txs, PlanFor(ex, txs))
    ensures InRange(txs, Range(0, |txs|))
    ensures !AlwaysListed(ex.reserved, txs, true) && !AlwaysListed(ex.reserved, txs, false)
  {
    var probe := ReversalProbe(ex, txs);
    PlanNeedsOnlyLocks(ex, probe, txs);
    ProbeRefutes(probe, txs);
  }

  lemma {:induction false} NoReversalIsListed(ex: Executor, txs: seq<Tx>, onlySafe: bool)
    requires NoReversal(ex, txs, PlanFor(ex, txs)) && InRange(txs, Range(0, |txs|))
    ensures AlwaysListed(ex.reserved, txs, onlySafe)
  {
    forall sv: Services, ex': Executor, vm: VmState
      | ex'.reserved == ex.reserved && Ready(sv, ex', vm.history, txs)
        && (onlySafe ==> Safe(sv, ex', vm.accounts.db, txs))
      ensures StagesInRange(txs, PlanFor(ex', txs)) && ShowsListed(sv, ex', vm, txs)
    {
      KeptPlanShows(sv, ex, ex', vm, txs);
    }
  }

  lemma {:induction false} KeptPlanShows(sv: Services, ex: Executor, ex': Executor, vm: VmState, txs: seq<Tx>)
    requires NoReversal(ex, txs, PlanFor(ex, txs)) && InRange(txs, Range(0, |txs|))
    requires ex'.reserved == ex.reserved && Ready(sv, ex', vm.history, txs)
    ensures StagesInRange(txs, PlanFor(ex', txs)) && ShowsListed(sv, ex', vm, txs)
  {
    PlanNeedsOnlyLocks(ex, ex', txs);
    BatchMatchesInputSends(sv, ex', vm, txs);
  }

  /** Exactly the plans that reverse no conflicting pair make every batch leave
      what sends in input order leave, refusals permitting; and a reversal
      already shows on transactions that cannot be refused. */
  lemma {:induction false} ListedExactly(ex: Executor, txs: seq<Tx>, onlySafe: bool)
    requires forall i :: 0 <= i < |txs| ==> DistinctKeys(txs[i])
    ensures InRange(txs, Range(0, |txs|))
    ensures AlwaysListed(ex.reserved, txs, onlySafe) <==> NoReversal(ex, txs, PlanFor(ex, txs))
  {
    RangeAt(0, |txs|);
    if NoReversal(ex, txs, PlanFor(ex, txs)) {
      NoReversalIsListed(ex, txs, onlySafe);
    } else {
      ReversalShows(ex, txs);
    }
  }

  // ----- Sends in any other order -----

  /** On every machine and for every behaviour, sends in this order leave the
      accounts and the results of sends in input order, if both refuse the same. */
  ghost predicate AlwaysAsListed(reserved: set<Address>, txs: seq<Tx>, order: seq<nat>)
    requires InRange(txs, order) && InRange(txs, Range(0, |txs|))
  {
    forall sv: Services, ex: Executor, vm: VmState :: ex.reserved == reserved && Ready(sv, ex, vm.history, txs) ==>
      SentAsListed(sv, ex, vm, txs, order)
  }

  ghost predicate SentAsListed(sv: Services, ex: Executor, vm: VmState, txs: seq<Tx>, order: seq<nat>)
    requires InRange(txs, order) && InRange(txs, Range(0, |txs|))
  {
    var sends, listed := SendEach(sv, ex, vm, txs, order), SendEach(sv, ex, vm, txs, Range(0, |txs|));
    sends.refused == listed.refused ==> SameReads(sv, sends.vm, listed.vm) && sends.results == listed.results
  }

  lemma KeptOrderSendsAlike(sv: Services, ex: Executor, vm: VmState, txs: seq<Tx>, order: seq<nat>)
    requires InRange(txs, order) && Lists(order, 0, |txs|) && KeepsConflictOrder(ex, txs, order)
    requires Ready(sv, ex, vm.history, txs)
    ensures InRange(txs, Range(0, |txs|)) && SentAsListed(sv, ex, vm, txs, order)
  {
    RangeAt(0, |txs|);
    TracksInitially(sv, vm);
    SendEachTracks(sv, ex, vm, Start(vm), txs, order);
    SendEachTracks(sv, ex, vm, Start(vm), txs, Range(0, |txs|));
    var sends, listed := SendEach(sv, ex, vm, txs, order), SendEach(sv, ex, vm, txs, Range(0, |txs|));
    if sends.refused == listed.refused {
      ShownInInputOrder(sv, ex, Start(vm), txs, order, sends.refused);
      SameKnownSameReads(
        sv, sends.vm, listed.vm, Serial(sv, ex, Start(vm), txs, Range(0, |txs|), sends.refused).known);
    }
  }

  lemma SafeSendResults(sv: Services, ex: Executor, vm: VmState, txs: seq<Tx>, order: seq<nat>)
    requires Ready(sv, ex, vm.history, txs) && Safe(sv, ex, vm.accounts.db, txs)
    requires InRange(txs, order) && NoRepeats(order)
    ensures var sends := SendEach(sv, ex, vm, txs, order);
            sends.refused == {} && sends.results == SerialResults(sv, ex, Start(vm), txs, order, {})
  {
    SafeSendEach(sv, ex, vm, txs, order);
    TracksInitially(sv, vm);
    SendEachTracks(sv, ex, vm, Start(vm), txs, order);
  }

  lemma {:induction false} ReversedPairShows(ex: Executor, txs: seq<Tx>, order: seq<nat>, p: nat, q: nat)
    requires forall i :: 0 <= i < |txs| ==> DistinctKeys(txs[i])
    requires InRange(txs, order) && Lists(order, 0, |txs|) && p < q < |order| && order[q] < order[p]
    requires Conflicts(LocksOf(ex, txs[order[p]]), LocksOf(ex, txs[order[q]]))
    ensures InRange(txs, Range(0, |txs|)) && !AlwaysAsListed(ex.reserved, txs, order)
  {
    var probe := ReversedPairProbe(ex, txs, order, p, q);
    EmptyVmIsReady(probe, txs);
    SafeSendsRefute(EMPTY_SERVICES, probe, EMPTY_VM, txs, order);
  }

  lemma SafeSendsRefute(sv: Services, ex: Executor, vm: VmState, txs: seq<Tx>, order: seq<nat>)
    requires Ready(sv, ex, vm.history, txs) && Safe(sv, ex, vm.accounts.db, txs)
    requires InRange(txs, order) && NoRepeats(order) && InRange(txs, Range(0, |txs|))
    requires SerialResults(sv, ex, Start(vm), txs, Range(0, |txs|), {})
             != SerialResults(sv, ex, Start(vm), txs, order, {})
    ensures !AlwaysAsListed(ex.reserved, txs, order)
  {
    RangeAt(0, |txs|);
    SafeSendResults(sv, ex, vm, txs, order);
    SafeSendResults(sv, ex, vm, txs, Range(0, |txs|));
    AsListedRefuted(sv, ex, vm, txs, order);
  }

  lemma AsListedRefuted(sv: Services, ex: Executor, vm: VmState, txs: seq<Tx>, order: seq<nat>)
    requires InRange(txs, order) && InRange(txs, Range(0, |txs|)) && Ready(sv, ex, vm.history, txs)
    requires !SentAsListed(sv, ex, vm, txs, order)
    ensures !AlwaysAsListed(ex.reserved, txs, order)
  {}

  lemma KeptOrderIsListed(ex: Executor, txs: seq<Tx>, order: seq<nat>)
    requires InRange(txs, order) && Lists(order, 0, |txs|) && KeepsConflictOrder(ex, txs, order)
    ensures InRange(txs, Range(0, |txs|)) && AlwaysAsListed(ex.reserved, txs, order)
  {
    RangeAt(0, |txs|);
    forall sv: Services, ex': Executor, vm: VmState | ex'.reserved == ex.reserved && Ready(sv, ex', vm.history, txs)
      ensures SentAsListed(sv, ex', vm, txs, order)
    {
      ConflictOrderNeedsOnlyLocks(ex, ex', txs, order);
      KeptOrderSendsAlike(sv, ex', vm, txs, order);
    }
  }

  /** Exactly the orders that reverse no conflicting pair are input order, for
      every machine and every behaviour, refusals permitting. */
  lemma OrdersExactly(ex: Executor, txs: seq<Tx>, order: seq<nat>)
    requires (forall i :: 0 <= i < |txs| ==> DistinctKeys(txs[i])) && InRange(txs, order) && Lists(order, 0, |txs|)
    ensures InRange(txs, Range(0, |txs|))
    ensures AlwaysAsListed(ex.reserved, txs, order) <==> KeepsConflictOrder(ex, txs, order)
  {
    RangeAt(0, |txs|);
    if KeepsConflictOrder(ex, txs, order) {
      KeptOrderIsListed(ex, txs, order);
    } else {
      var p, q :| 0 <= p < q < |order| && order[q] < order[p]
        && Conflicts(LocksOf(ex, txs[order[p]]), LocksOf(ex, txs[order[q]]));
      ReversedPairShows(ex, txs, order, p, q);
    }
  }
}
