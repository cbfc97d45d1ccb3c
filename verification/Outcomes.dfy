/** What a caller gets back and what a transaction leaves behind, told from what
    the runtime reported for it. */
module Outcomes {
  import opened Types
  import opened Overlay
  import opened Store
  import opened Partition
  import opened TimeTravel
  import opened View
  import opened Lifecycle
  import opened Planner
  import opened Machine
  import opened StageRun
  import opened Inversion
  import opened Batch
  import opened Serializability
  import opened Sequential
  import opened Placement
  import Lru
  import H = History

  /** The runtime is asked to execute the transaction at all. */
  predicate Executes(ex: Executor, tx: Tx, view: AccountView, seen: bool) {
    ex.admit(tx, view).None? && !(ex.sigverify && seen)
  }

  /** The transaction is executed, and the runtime reports accounts for it. */
  predicate Runs(ex: Executor, tx: Tx, view: AccountView, seen: bool) {
    Executes(ex, tx, view, seen) && ex.run(tx, view).Ran?
  }

  /** The result the caller of a transaction is due, given what it could see and
      whether its signature was in the history. */
  ghost predicate Due(ex: Executor, tx: Tx, view: AccountView, seen: bool, result: TransactionResult) {
    && (ex.admit(tx, view).Some? ==>
          var r := ex.admit(tx, view).value; result == Failed(r.err, r.meta))
    && (ex.admit(tx, view).None? && ex.sigverify && seen ==>
          result == Failed(AlreadyProcessed, TransactionMetadata(0, [])))
    && (Executes(ex, tx, view, seen) && ex.run(tx, view).Bailed? ==>
          var r := ex.run(tx, view).rejection; result == Failed(r.err, r.meta))
    && (Runs(ex, tx, view, seen) ==>
          var meta := TransactionMetadata(tx.signature, ex.run(tx, view).details);
          && (result == Succeeded(meta) <==> ex.run(tx, view).status == None)
          && forall e :: result == Failed(e, meta) <==> ex.run(tx, view).status == Some(e))
  }

  lemma OutcomeIsDue(ex: Executor, tx: Tx, view: AccountView, seen: bool)
    ensures Due(ex, tx, view, seen, ResultOf(TransactDetached(ex, tx, view, seen)))
    ensures TransactDetached(ex, tx, view, seen).included <==> Runs(ex, tx, view, seen)
  {}

  /** Sending a transaction returns the result it is due. */
  lemma SendReturnsDue(sv: Services, ex: Executor, vm: VmState, tx: Tx)
    ensures var view, seen := LiveView(sv, ex, vm, tx), H.Check(vm.history, tx.signature);
            Due(ex, tx, view, seen, SendLive(sv, ex, vm, tx).result)
  {
    OutcomeIsDue(ex, tx, LiveView(sv, ex, vm, tx), H.Check(vm.history, tx.signature));
    SendIsApply(sv, ex, vm, tx);
  }

  // ----- The results of a batch -----

  lemma {:induction false} SerialResultAt(
    sv: Services, ex: Executor, f: FlatState, txs: seq<Tx>, order: seq<nat>, refused: set<nat>, p: nat)
    requires InRange(txs, order) && NoRepeats(order) && p < |order|
    ensures InRange(txs, order[..p])
    ensures var turn := Serial(sv, ex, f, txs, order[..p], refused);
            var results := SerialResults(sv, ex, f, txs, order, refused);
            order[p] in results && results[order[p]] == ResultOf(Outcome(sv, ex, turn, txs[order[p]]))
    decreases |order|
  {
    if p > 0 {
      var next := Step(sv, ex, f, txs, order[0], refused);
      assert order[1..][p - 1] == order[p] && order[..p][1..] == order[1..][..p - 1];
      SerialResultAt(sv, ex, next, txs, order[1..], refused, p - 1);
    } else {
      assert |order[..p]| == 0;
    }
  }

  /** Every transaction of a finished batch gets the result it is due at its turn
      in plan order, on the accounts and the history its predecessors left. */
  lemma BatchReturnsDue(sv: Services, ex: Executor, vm: VmState, txs: seq<Tx>, p: nat)
    requires Ready(sv, ex, vm.history, txs) && p < |OrderOf(PlanFor(ex, txs))|
    ensures StagesInRange(txs, PlanFor(ex, txs)) && InRange(txs, OrderOf(PlanFor(ex, txs)))
    ensures var order, run := OrderOf(PlanFor(ex, txs)), RunStages(sv, ex, vm, txs, PlanFor(ex, txs));
            var tx, turn := txs[order[p]], Serial(sv, ex, Start(vm), txs, order[..p], run.refused);
            var view, seen := Observe(sv, ex, turn.known, tx), H.Check(turn.history, tx.signature);
            run.status.Finished? ==> order[p] in run.results && Due(ex, tx, view, seen, run.results[order[p]])
  {
    PlanOrderSerializable(sv, ex, vm, txs);
    PlanIsCompatible(ex, txs);
    var order, run := OrderOf(PlanFor(ex, txs)), RunStages(sv, ex, vm, txs, PlanFor(ex, txs));
    var tx, turn := txs[order[p]], Serial(sv, ex, Start(vm), txs, order[..p], run.refused);
    SerialResultAt(sv, ex, Start(vm), txs, order, run.refused, p);
    OutcomeIsDue(ex, tx, Observe(sv, ex, turn.known, tx), H.Check(turn.history, tx.signature));
  }

  // ----- What a transaction writes -----

  /** The runtime reported an account for key `i`, and the key may be written. */
  predicate Reported(ex: Executor, keys: seq<KeyMeta>, accounts: seq<Account>, i: int) {
    0 <= i < |keys| && i < |accounts| && keys[i].writable && keys[i].address !in ex.reserved
  }

  /** The post-execution accounts are exactly the reported accounts of the
      writable keys, each with its own key. */
  lemma {:induction false} PostAccountsExactly(
    ex: Executor, keys: seq<KeyMeta>, accounts: seq<Account>, x: (Address, Account))
    ensures x in PostAccounts(ex, keys, accounts) <==>
            exists i :: Reported(ex, keys, accounts, i) && x == (keys[i].address, accounts[i])
    decreases |keys|
  {
    if keys != [] && accounts != [] {
      var ks, rest := keys[1..], accounts[1..];
      PostAccountsExactly(ex, ks, rest, x);
      if i :| Reported(ex, ks, rest, i) && x == (ks[i].address, rest[i]) {
        assert keys[i + 1] == ks[i] && accounts[i + 1] == rest[i];
        assert Reported(ex, keys, accounts, i + 1);
      }
      if i :| Reported(ex, keys, accounts, i) && x == (keys[i].address, accounts[i]) {
        assert i > 0 ==> ks[i - 1] == keys[i] && rest[i - 1] == accounts[i] && Reported(ex, ks, rest, i - 1);
      }
      assert Reported(ex, keys, accounts, 0) <==> IsWritable(ex, keys[0]);
    }
  }

  /** What an address reads after the reported accounts are written, where it read
      `before`: the account of its key, absent with no lamports, or as before. */
  ghost predicate ReadsWritten(
    ex: Executor, keys: seq<KeyMeta>, accounts: seq<Account>, a: Address, before: Loaded, after: Loaded)
  {
    && (forall i :: Reported(ex, keys, accounts, i) && keys[i].address == a ==>
          after == Ok(if accounts[i].lamports == 0 then None else Some(accounts[i])))
    && ((forall i :: Reported(ex, keys, accounts, i) ==> keys[i].address != a) ==> after == before)
  }

  lemma OverwriteReads(
    sv: Services, ex: Executor, keys: seq<KeyMeta>, accounts: seq<Account>, known: map<Address, Option<Account>>,
    a: Address)
    requires forall i, j :: 0 <= i < j < |keys| ==> keys[i].address != keys[j].address
    ensures var known' := Overwrite(known, PostAccounts(ex, keys, accounts));
            ReadsWritten(ex, keys, accounts, a, ReadFlat(sv, known, a), ReadFlat(sv, known', a))
  {
    var delta := PostAccounts(ex, keys, accounts);
    PostAccountsDistinct(ex, keys, accounts);
    OverwriteAt(known, delta);
    forall i | Reported(ex, keys, accounts, i) && keys[i].address == a
      ensures ReadFlat(sv, Overwrite(known, delta), a) ==
              Ok(if accounts[i].lamports == 0 then None else Some(accounts[i]))
    {
      PostAccountsExactly(ex, keys, accounts, (a, accounts[i]));
      var q :| 0 <= q < |delta| && delta[q] == (a, accounts[i]);
      assert delta[q].0 in Addresses(delta);
    }
    if forall i :: Reported(ex, keys, accounts, i) ==> keys[i].address != a {
      forall q | 0 <= q < |delta| ensures delta[q].0 != a {
        assert delta[q] in delta;
        PostAccountsExactly(ex, keys, accounts, delta[q]);
      }
      OverwriteElsewhere(sv, known, delta, a);
    }
  }

  /** A transaction that ran and was not refused leaves each account it may write
      as the runtime reported it, every other address as it was, and its result in
      the history. Any other leaves reads and history alone; one that did not run
      leaves the whole machine alone. */
  lemma SendLeaves(sv: Services, ex: Executor, vm: VmState, tx: Tx)
    requires DistinctKeys(tx)
    ensures var view, seen := LiveView(sv, ex, vm, tx), H.Check(vm.history, tx.signature);
            var sent := SendLive(sv, ex, vm, tx);
            if Runs(ex, tx, view, seen) && sent.staged then
              && (forall a: Address ::
                    ReadsWritten(ex, tx.keys, ex.run(tx, view).accounts, a,
                                 Read(sv, vm.accounts.db, a), Read(sv, sent.vm.accounts.db, a)))
              && sent.vm.history == H.Insert(vm.history, tx.signature, sent.result)
            else
              && (forall a: Address :: Read(sv, sent.vm.accounts.db, a) == Read(sv, vm.accounts.db, a))
              && sent.vm.history == vm.history
              && (!Runs(ex, tx, view, seen) ==> sent.vm == vm)
  {
    var view, seen, sent := LiveView(sv, ex, vm, tx), H.Check(vm.history, tx.signature), SendLive(sv, ex, vm, tx);
    var f := Start(vm);
    TracksInitially(sv, vm);
    SendTracks(sv, ex, vm, f, tx);
    SameOutcome(sv, ex, vm, f, tx);
    assert forall a: Address :: Read(sv, vm.accounts.db, a) == ReadFlat(sv, f.known, a);
    if Runs(ex, tx, view, seen) && sent.staged {
      forall a: Address
        ensures ReadsWritten(ex, tx.keys, ex.run(tx, view).accounts, a,
                             Read(sv, vm.accounts.db, a), Read(sv, sent.vm.accounts.db, a))
      {
        OverwriteReads(sv, ex, tx.keys, ex.run(tx, view).accounts, f.known, a);
      }
    } else if !Runs(ex, tx, view, seen) {
      IdleSend(sv, ex, vm, tx);
    }
  }

  lemma IdleSend(sv: Services, ex: Executor, vm: VmState, tx: Tx)
    requires !Runs(ex, tx, LiveView(sv, ex, vm, tx), H.Check(vm.history, tx.signature))
    ensures SendLive(sv, ex, vm, tx).vm == vm
  {
    assert Partitioned([]) == [];
  }

  /** With signatures verified and a history that is kept, whatever carries the
      signature of a transaction that ran is rejected right after it. */
  lemma SecondSendIsRejected(sv: Services, ex: Executor, vm: VmState, tx: Tx, again: Tx)
    requires DistinctKeys(tx) && ex.sigverify && H.Valid(vm.history) && vm.history.max != 0
    requires again.signature == tx.signature && SendLive(sv, ex, vm, tx).staged
    requires Runs(ex, tx, LiveView(sv, ex, vm, tx), H.Check(vm.history, tx.signature))
    ensures var sent := SendLive(sv, ex, vm, tx);
            var second := SendLive(sv, ex, sent.vm, again);
            && second.result.Failed? && second.vm == sent.vm
            && (ex.admit(again, LiveView(sv, ex, sent.vm, again)).None? ==> second.result.err == AlreadyProcessed)
            && H.Get(sent.vm.history, tx.signature) == Some(sent.result)
  {
    var sent := SendLive(sv, ex, vm, tx);
    SendLeaves(sv, ex, vm, tx);
    assert Lru.IndexOf(sent.vm.history.entries, tx.signature) == 0;
    SendReturnsDue(sv, ex, sent.vm, again);
    IdleSend(sv, ex, sent.vm, again);
  }

  // ----- What a batch leaves -----

  /** No transaction of the list that is not refused may write the address. */
  ghost predicate NoneWrites(ex: Executor, txs: seq<Tx>, order: seq<nat>, refused: set<nat>, a: Address)
    requires InRange(txs, order)
  {
    forall q :: 0 <= q < |order| && order[q] !in refused ==> !Writes(ex, txs[order[q]], a)
  }

  lemma {:induction false} SerialElsewhere(
    sv: Services, ex: Executor, f: FlatState, txs: seq<Tx>, order: seq<nat>, refused: set<nat>, a: Address)
    requires InRange(txs, order) && NoneWrites(ex, txs, order, refused, a)
    ensures ReadFlat(sv, Serial(sv, ex, f, txs, order, refused).known, a) == ReadFlat(sv, f.known, a)
    decreases |order|
  {
    if order != [] {
      var tx := txs[order[0]];
      if order[0] !in refused {
        var view, seen := Observe(sv, ex, f.known, tx), H.Check(f.history, tx.signature);
        OutcomeWritesLocked(ex, tx, view, seen, f.history.max != 0);
        LocksExactly(ex, tx, a);
        OverwriteElsewhere(sv, f.known, DeltaOf(Outcome(sv, ex, f, tx), f.history.max != 0).postAccounts, a);
      }
      assert NoneWrites(ex, txs, order[1..], refused, a);
      SerialElsewhere(sv, ex, Step(sv, ex, f, txs, order[0], refused), txs, order[1..], refused, a);
    }
  }

  lemma LastWriterShows(
    sv: Services, ex: Executor, f: FlatState, txs: seq<Tx>, order: seq<nat>, refused: set<nat>, p: nat, a: Address)
    requires InRange(txs, order) && p < |order| && order[p] !in refused && DistinctKeys(txs[order[p]])
    requires InRange(txs, order[..p]) && InRange(txs, order[p + 1..]) && NoneWrites(ex, txs, order[p + 1..], refused, a)
    ensures var tx, turn := txs[order[p]], Serial(sv, ex, f, txs, order[..p], refused);
            var view, seen := Observe(sv, ex, turn.known, tx), H.Check(turn.history, tx.signature);
            Runs(ex, tx, view, seen) ==>
              ReadsWritten(ex, tx.keys, ex.run(tx, view).accounts, a, ReadFlat(sv, turn.known, a),
                           ReadFlat(sv, Serial(sv, ex, f, txs, order, refused).known, a))
  {
    var tx, turn := txs[order[p]], Serial(sv, ex, f, txs, order[..p], refused);
    var view, seen := Observe(sv, ex, turn.known, tx), H.Check(turn.history, tx.signature);
    var rest := order[p..];
    assert order == order[..p] + rest && rest[0] == order[p] && rest[1..] == order[p + 1..];
    SerialOfConcat(sv, ex, f, txs, order[..p], rest, refused);
    SerialElsewhere(sv, ex, Step(sv, ex, turn, txs, order[p], refused), txs, order[p + 1..], refused, a);
    if Runs(ex, tx, view, seen) {
      OverwriteReads(sv, ex, tx.keys, ex.run(tx, view).accounts, turn.known, a);
    }
  }

  /** After a finished batch, an address nobody later in plan order may write reads
      as the runtime reported it for transaction `p`, which ran and was not refused;
      and an address nobody at all may write reads as before the batch. */
  lemma BatchLeaves(sv: Services, ex: Executor, vm: VmState, txs: seq<Tx>, p: nat, a: Address)
    requires Ready(sv, ex, vm.history, txs) && p < |OrderOf(PlanFor(ex, txs))|
    ensures StagesInRange(txs, PlanFor(ex, txs)) && InRange(txs, OrderOf(PlanFor(ex, txs)))
    ensures var order, run := OrderOf(PlanFor(ex, txs)), RunStages(sv, ex, vm, txs, PlanFor(ex, txs));
            var tx, turn := txs[order[p]], Serial(sv, ex, Start(vm), txs, order[..p], run.refused);
            var view, seen := Observe(sv, ex, turn.known, tx), H.Check(turn.history, tx.signature);
            var after := Read(sv, run.vm.accounts.db, a);
            run.status.Finished? ==>
              && (NoneWrites(ex, txs, order, run.refused, a) ==> after == Read(sv, vm.accounts.db, a))
              && (order[p] !in run.refused && Runs(ex, tx, view, seen)
                  && NoneWrites(ex, txs, order[p + 1..], run.refused, a) ==>
                    ReadsWritten(ex, tx.keys, ex.run(tx, view).accounts, a, ReadFlat(sv, turn.known, a), after))
  {
    PlanOrderSerializable(sv, ex, vm, txs);
    var order, run := OrderOf(PlanFor(ex, txs)), RunStages(sv, ex, vm, txs, PlanFor(ex, txs));
    if run.status.Finished? {
      TracksInitially(sv, vm);
      assert Read(sv, vm.accounts.db, a) == ReadFlat(sv, Start(vm).known, a);
      assert Read(sv, run.vm.accounts.db, a) ==
             ReadFlat(sv, Serial(sv, ex, Start(vm), txs, order, run.refused).known, a);
      if NoneWrites(ex, txs, order, run.refused, a) {
        SerialElsewhere(sv, ex, Start(vm), txs, order, run.refused, a);
      }
      if order[p] !in run.refused && NoneWrites(ex, txs, order[p + 1..], run.refused, a) {
        LastWriterShows(sv, ex, Start(vm), txs, order, run.refused, p, a);
      }
    }
  }

  // ----- What a sink is shown -----

  /** The changes of a staged transaction are, in the order of its accounts, what
      each address read before staging and reads now; no other address changed. */
  lemma SinkSeesChanges(sv: Services, vm: VmState, d: DetachedTx)
    requires Lifecycle.Stage(sv, vm, d).Live? && Distinct(d.postAccounts)
    ensures var live := Lifecycle.Stage(sv, vm, d);
            var delta, changes := if d.included then d.postAccounts else [], live.staged.changes;
            && |changes| == |delta|
            && (forall k :: 0 <= k < |changes| ==>
                  && changes[k].address == delta[k].0
                  && changes[k].before == GetAccount(sv, vm.accounts.db, delta[k].0)
                  && changes[k].after == GetAccount(sv, live.vm.accounts.db, delta[k].0))
            && (forall a: Address :: a !in Addresses(delta) ==>
                  Read(sv, live.vm.accounts.db, a) == Read(sv, vm.accounts.db, a))
  {
    var live := Lifecycle.Stage(sv, vm, d);
    var delta, db, db' := if d.included then d.postAccounts else [], vm.accounts.db, live.vm.accounts.db;
    SyncOverwrites(sv, vm.accounts, delta);
    OverwriteAt(Flatten(db), delta);
    forall k | 0 <= k < |delta| ensures live.staged.changes[k].after == GetAccount(sv, db', delta[k].0) {
      assert delta[k].0 in Addresses(delta);
      assert Read(sv, db', delta[k].0) == ReadFlat(sv, Flatten(db'), delta[k].0);
    }
    forall a: Address | a !in Addresses(delta) ensures Read(sv, db', a) == Read(sv, db, a) {
      OverwriteElsewhere(sv, Flatten(db), delta, a);
      assert Read(sv, db', a) == ReadFlat(sv, Flatten(db'), a) && Read(sv, db, a) == ReadFlat(sv, Flatten(db), a);
    }
  }

  // ----- What a transaction sees, and when it is staged -----

  /** An execution sees exactly the accounts the transaction names or looks keys up
      in, and the reserved ones, as the machine reads them. */
  lemma SeesExactly(sv: Services, ex: Executor, vm: VmState, tx: Tx, a: Address)
    ensures a in LiveView(sv, ex, vm, tx) <==> Uses(tx, a) || a in ex.reserved
    ensures a in LiveView(sv, ex, vm, tx) ==> LiveView(sv, ex, vm, tx)[a] == Read(sv, vm.accounts.db, a)
  {
    LocksExactly(ex, tx, a);
  }

  /** The transaction is rejected with the mark that nothing must be staged. */
  predicate FatallyRejected(ex: Executor, tx: Tx, view: AccountView, seen: bool) {
    || (ex.admit(tx, view).Some? && ex.admit(tx, view).value.fatal)
    || (Executes(ex, tx, view, seen) && ex.run(tx, view).Bailed? && ex.run(tx, view).rejection.fatal)
  }

  /** A transaction is staged unless it is fatally rejected or the store refuses
      the accounts it would write. */
  lemma StagesExactly(sv: Services, ex: Executor, vm: VmState, tx: Tx)
    ensures var view, seen := LiveView(sv, ex, vm, tx), H.Check(vm.history, tx.signature);
            Lifecycle.Stage(sv, vm, LiveOutcome(sv, ex, vm, tx)).Live? <==>
            && !FatallyRejected(ex, tx, view, seen)
            && (Runs(ex, tx, view, seen) ==>
                  SyncAccounts(sv, vm.accounts, PostAccounts(ex, tx.keys, ex.run(tx, view).accounts)).ok)
  {
    assert Partitioned([]) == [];
  }
}
