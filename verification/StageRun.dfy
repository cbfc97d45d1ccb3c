/** Serial runs of the reference machine: running a conflict-free stage on one
    snapshot is a serial run. */
module StageRun {
  import opened Types
  import opened Overlay
  import opened Store
  import opened Partition
  import opened View
  import opened Lifecycle
  import opened Planner
  import opened Machine
  import Lru
  import H = History

  // ----- History while nothing is evicted -----

  /** The history can take `n` more entries without evicting any. */
  predicate Roomy(h: H.HistoryState, n: nat) {
    h.max != 0 ==> |h.entries| + n <= h.max
  }

  lemma RecordKeepsOthers(h: H.HistoryState, sig: Signature, result: TransactionResult, other: Signature)
    requires H.Valid(h) && Roomy(h, 1)
    ensures var g := H.Insert(h, sig, result);
            && H.Valid(g)
            && (other != sig ==> H.Get(g, other) == H.Get(h, other))
            && (h.max != 0 ==> H.Get(g, sig) == Some(result))
            && |g.entries| == (if h.max == 0 || Lru.Contains(h.entries, sig) then |h.entries| else |h.entries| + 1)
  {
    H.StepKeepsValid(h, H.Record(sig, result));
    if h.max != 0 {
      var g := H.Insert(h, sig, result);
      var w := Lru.Without(h.entries, sig);
      assert g.entries == [(sig, result)] + w;
      assert Lru.IndexOf(g.entries, sig) == 0;
      if other != sig {
        Lru.IndexInWithout(h.entries, sig, other);
        Lru.IndexBehind((sig, result), w, other);
      }
    }
  }

  /** Recording an outcome leaves room for the rest and, for any other
      signature, leaves the history check as it was. */
  lemma SettleKeepsHistory(f: FlatState, d: DetachedTx, n: nat, other: Signature)
    requires H.Valid(f.history) && Roomy(f.history, n + 1)
    requires d.included ==> d.meta.signature != other
    ensures var g := Settle(f, d).history;
            && H.Valid(g) && Roomy(g, n) && g.max == f.history.max
            && H.Check(g, other) == H.Check(f.history, other)
  {
    if d.included {
      RecordKeepsOthers(f.history, d.meta.signature, ResultOf(d), other);
    }
  }

  // ----- Outcomes that do not disturb each other -----

  lemma {:induction false} OverwriteElsewhere(
    sv: Services, known: map<Address, Option<Account>>, delta: Delta, a: Address)
    requires a !in Addresses(delta)
    ensures ReadFlat(sv, Overwrite(known, delta), a) == ReadFlat(sv, known, a)
    decreases |delta|
  {
    if delta != [] {
      AddressesOfTail(delta);
      OverwriteElsewhere(sv, known[delta[0].0 := Stored(delta[0].1)], delta[1..], a);
    }
  }

  lemma SettleKeepsOutcome(sv: Services, ex: Executor, f: FlatState, d: DetachedTx, tx: Tx)
    requires Addresses(DeltaOf(d, f.history.max != 0).postAccounts) !! Observed(ex, tx)
    requires ex.sigverify ==> H.Check(Settle(f, d).history, tx.signature) == H.Check(f.history, tx.signature)
    ensures Outcome(sv, ex, Settle(f, d), tx) == Outcome(sv, ex, f, tx)
  {
    var delta := DeltaOf(d, f.history.max != 0).postAccounts;
    forall a | a in Observed(ex, tx) ensures ReadFlat(sv, Settle(f, d).known, a) == ReadFlat(sv, f.known, a) {
      OverwriteElsewhere(sv, f.known, delta, a);
    }
    assert Observe(sv, ex, Settle(f, d).known, tx) == Observe(sv, ex, f.known, tx);
  }

  /** What the history check needs of a set of transactions run together:
      either it is off, or nothing is evicted and no signature repeats. */
  predicate CheckStable(ex: Executor, h: H.HistoryState, n: nat) {
    ex.sigverify ==> Roomy(h, n)
  }

  predicate Compatible(ex: Executor, x: Tx, y: Tx) {
    && !Conflicts(LocksOf(ex, x), LocksOf(ex, y))
    && (ex.sigverify ==> x.signature != y.signature)
  }

  /** Transactions with the same signature conflict (they share a writable fee payer). */
  ghost predicate RepeatsConflict(ex: Executor, txs: seq<Tx>) {
    forall i, j :: 0 <= i < j < |txs| && txs[i].signature == txs[j].signature ==>
      Conflicts(LocksOf(ex, txs[i]), LocksOf(ex, txs[j]))
  }

  ghost predicate PairwiseFree(ex: Executor, txs: seq<Tx>, members: seq<nat>)
    requires InRange(txs, members)
  {
    forall p, q :: 0 <= p < |members| && 0 <= q < |members| && p != q ==>
      members[p] != members[q] && !Conflicts(LocksOf(ex, txs[members[p]]), LocksOf(ex, txs[members[q]]))
  }

  /** An outcome computed anywhere by a compatible transaction leaves the
      outcome of another as it was. */
  lemma CompatibleKeepsOutcome(
    sv: Services, ex: Executor, f: FlatState, writer: Tx, view: AccountView, seen: bool, tx: Tx, n: nat)
    requires Compatible(ex, writer, tx)
    requires H.Valid(f.history) && CheckStable(ex, f.history, n + 1)
    ensures var d := TransactDetached(ex, writer, view, seen);
            && Outcome(sv, ex, Settle(f, d), tx) == Outcome(sv, ex, f, tx)
            && H.Valid(Settle(f, d).history) && CheckStable(ex, Settle(f, d).history, n)
  {
    var d := TransactDetached(ex, writer, view, seen);
    OutcomeWritesLocked(ex, writer, view, seen, f.history.max != 0);
    ConflictFreeMeansUnobserved(ex, writer, tx);
    if ex.sigverify {
      SettleKeepsHistory(f, d, n, tx.signature);
    } else if d.included {
      H.StepKeepsValid(f.history, H.Record(d.meta.signature, ResultOf(d)));
    }
    SettleKeepsOutcome(sv, ex, f, d, tx);
  }

  // ----- A stage on one snapshot is a serial run -----

  /** Settles, in order, the outcomes all members had on the snapshot. */
  function Merge(
    sv: Services, ex: Executor, snapshot: FlatState, f: FlatState, txs: seq<Tx>, members: seq<nat>): FlatState
    requires InRange(txs, members)
    decreases |members|
  {
    if members == [] then f
    else Merge(sv, ex, snapshot, Settle(f, Outcome(sv, ex, snapshot, txs[members[0]])), txs, members[1..])
  }

  function SnapshotResults(
    sv: Services, ex: Executor, snapshot: FlatState, txs: seq<Tx>, members: seq<nat>): map<nat, TransactionResult>
    requires InRange(txs, members)
  {
    map i | i in members :: ResultOf(Outcome(sv, ex, snapshot, txs[i]))
  }

  ghost predicate AllCompatible(ex: Executor, txs: seq<Tx>, members: seq<nat>)
    requires InRange(txs, members)
  {
    forall p, q :: 0 <= p < q < |members| ==>
      members[p] != members[q] && Compatible(ex, txs[members[p]], txs[members[q]])
  }

  ghost predicate OutcomesAgree(sv: Services, ex: Executor, f: FlatState, g: FlatState, txs: seq<Tx>, members: seq<nat>)
    requires InRange(txs, members)
  {
    forall p :: 0 <= p < |members| ==> Outcome(sv, ex, f, txs[members[p]]) == Outcome(sv, ex, g, txs[members[p]])
  }

  /** Everything `MergeIsSerial` needs survives sending the first member. */
  lemma SendKeepsAgreement(
    sv: Services, ex: Executor, snapshot: FlatState, f: FlatState, txs: seq<Tx>, members: seq<nat>)
    requires members != [] && InRange(txs, members) && AllCompatible(ex, txs, members)
    requires OutcomesAgree(sv, ex, f, snapshot, txs, members)
    requires H.Valid(f.history) && CheckStable(ex, f.history, |members|)
    ensures var g, rest := Send(sv, ex, f, txs[members[0]]), members[1..];
            && AllCompatible(ex, txs, rest)
            && OutcomesAgree(sv, ex, g, snapshot, txs, rest)
            && H.Valid(g.history) && CheckStable(ex, g.history, |rest|)
  {
    var head, rest := txs[members[0]], members[1..];
    var g := Send(sv, ex, f, head);
    forall p | 0 <= p < |rest| ensures Outcome(sv, ex, g, txs[rest[p]]) == Outcome(sv, ex, snapshot, txs[rest[p]]) {
      assert rest[p] == members[p + 1];
      CompatibleKeepsOutcome(
        sv, ex, f, head, Observe(sv, ex, f.known, head), H.Check(f.history, head.signature), txs[rest[p]], |rest|);
    }
    SendKeepsHistory(sv, ex, f, head, |rest|);
  }

  /** A conflict-free stage run on one snapshot and merged in order ends in the
      state of a serial run. */
  lemma {:induction false} MergeIsSerial(
    sv: Services, ex: Executor, snapshot: FlatState, f: FlatState, txs: seq<Tx>, members: seq<nat>, refused: set<nat>)
    requires InRange(txs, members) && AllCompatible(ex, txs, members)
    requires OutcomesAgree(sv, ex, f, snapshot, txs, members)
    requires H.Valid(f.history) && CheckStable(ex, f.history, |members|)
    requires forall i :: i in members ==> i !in refused
    ensures Serial(sv, ex, f, txs, members, refused) == Merge(sv, ex, snapshot, f, txs, members)
    decreases |members|
  {
    if members != [] {
      SendKeepsAgreement(sv, ex, snapshot, f, txs, members);
      assert members[0] in members;
      MergeIsSerial(sv, ex, snapshot, Step(sv, ex, f, txs, members[0], refused), txs, members[1..], refused);
    }
  }

  /** And its members get the results of that serial run. */
  lemma {:induction false} SnapshotResultsAreSerial(
    sv: Services, ex: Executor, snapshot: FlatState, f: FlatState, txs: seq<Tx>, members: seq<nat>, refused: set<nat>)
    requires InRange(txs, members) && AllCompatible(ex, txs, members)
    requires OutcomesAgree(sv, ex, f, snapshot, txs, members)
    requires H.Valid(f.history) && CheckStable(ex, f.history, |members|)
    requires forall i :: i in members ==> i !in refused
    ensures SerialResults(sv, ex, f, txs, members, refused) == SnapshotResults(sv, ex, snapshot, txs, members)
    decreases |members|
  {
    if members != [] {
      SendKeepsAgreement(sv, ex, snapshot, f, txs, members);
      assert members[0] in members;
      SnapshotResultsAreSerial(sv, ex, snapshot, Step(sv, ex, f, txs, members[0], refused), txs, members[1..], refused);
      SnapshotResultsOfCons(sv, ex, snapshot, txs, members);
    }
  }

  lemma SnapshotResultsOfCons(sv: Services, ex: Executor, snapshot: FlatState, txs: seq<Tx>, members: seq<nat>)
    requires members != [] && InRange(txs, members)
    ensures SnapshotResults(sv, ex, snapshot, txs, members) ==
            SnapshotResults(sv, ex, snapshot, txs, members[1..])
              [members[0] := ResultOf(Outcome(sv, ex, snapshot, txs[members[0]]))]
  {
    assert members == [members[0]] + members[1..];
  }

  lemma SendKeepsHistory(sv: Services, ex: Executor, f: FlatState, tx: Tx, n: nat)
    requires H.Valid(f.history)
    ensures var g := Send(sv, ex, f, tx);
            && H.Valid(g.history) && g.history.max == f.history.max
            && (Roomy(f.history, n + 1) ==> Roomy(g.history, n))
            && (CheckStable(ex, f.history, n + 1) ==> CheckStable(ex, g.history, n))
  {
    var d := Outcome(sv, ex, f, tx);
    if d.included {
      H.StepKeepsValid(f.history, H.Record(d.meta.signature, ResultOf(d)));
      if Roomy(f.history, n + 1) {
        RecordKeepsOthers(f.history, d.meta.signature, ResultOf(d), 0);
      }
    }
  }

  lemma StepKeepsHistory(sv: Services, ex: Executor, f: FlatState, txs: seq<Tx>, i: nat, refused: set<nat>, n: nat)
    requires i < |txs| && H.Valid(f.history)
    ensures var g := Step(sv, ex, f, txs, i, refused);
            && H.Valid(g.history) && g.history.max == f.history.max
            && (Roomy(f.history, n + 1) ==> Roomy(g.history, n))
            && (CheckStable(ex, f.history, n + 1) ==> CheckStable(ex, g.history, n))
  {
    SendKeepsHistory(sv, ex, f, txs[i], n);
  }

  /** Only the refusals among the transactions that run matter. */
  lemma {:induction false} RefusedElsewhere(
    sv: Services, ex: Executor, f: FlatState, txs: seq<Tx>, order: seq<nat>, refused: set<nat>, refused': set<nat>)
    requires InRange(txs, order) && forall i :: i in order ==> (i in refused <==> i in refused')
    ensures Serial(sv, ex, f, txs, order, refused) == Serial(sv, ex, f, txs, order, refused')
    ensures SerialResults(sv, ex, f, txs, order, refused) == SerialResults(sv, ex, f, txs, order, refused')
    decreases |order|
  {
    if order != [] {
      assert order[0] in order;
      assert Step(sv, ex, f, txs, order[0], refused) == Step(sv, ex, f, txs, order[0], refused');
      RefusedElsewhere(sv, ex, Step(sv, ex, f, txs, order[0], refused), txs, order[1..], refused, refused');
    }
  }

  // ----- Joining serial runs -----

  lemma {:induction false} SerialOfConcat(
    sv: Services, ex: Executor, f: FlatState, txs: seq<Tx>, first: seq<nat>, second: seq<nat>, refused: set<nat>)
    requires InRange(txs, first) && InRange(txs, second)
    ensures InRange(txs, first + second)
    ensures Serial(sv, ex, f, txs, first + second, refused) ==
              Serial(sv, ex, Serial(sv, ex, f, txs, first, refused), txs, second, refused)
    decreases |first|
  {
    if first == [] {
      assert first + second == second;
    } else {
      assert (first + second)[1..] == first[1..] + second;
      SerialOfConcat(sv, ex, Step(sv, ex, f, txs, first[0], refused), txs, first[1..], second, refused);
    }
  }

  lemma UpdateBeforeUnion(m: map<nat, TransactionResult>, n: map<nat, TransactionResult>, i: nat, r: TransactionResult)
    requires i !in n
    ensures (m + n)[i := r] == m[i := r] + n
  {}

  lemma {:induction false} ResultsOfConcat(
    sv: Services, ex: Executor, f: FlatState, txs: seq<Tx>, first: seq<nat>, second: seq<nat>, refused: set<nat>)
    requires InRange(txs, first) && InRange(txs, second) && InRange(txs, first + second)
    requires forall i :: i in first ==> i !in second
    ensures SerialResults(sv, ex, f, txs, first + second, refused) ==
            SerialResults(sv, ex, f, txs, first, refused) +
            SerialResults(sv, ex, Serial(sv, ex, f, txs, first, refused), txs, second, refused)
    decreases |first|
  {
    if first == [] {
      assert first + second == second;
    } else {
      assert (first + second)[1..] == first[1..] + second;
      ResultsOfConcat(sv, ex, Step(sv, ex, f, txs, first[0], refused), txs, first[1..], second, refused);
      ResultKeys(sv, ex, Serial(sv, ex, f, txs, first, refused), txs, second, refused);
      UpdateBeforeUnion(
        SerialResults(sv, ex, Step(sv, ex, f, txs, first[0], refused), txs, first[1..], refused),
        SerialResults(sv, ex, Serial(sv, ex, f, txs, first, refused), txs, second, refused),
        first[0], ResultOf(Outcome(sv, ex, f, txs[first[0]])));
    }
  }

  lemma {:induction false} ResultKeys(
    sv: Services, ex: Executor, f: FlatState, txs: seq<Tx>, order: seq<nat>, refused: set<nat>)
    requires InRange(txs, order)
    ensures SerialResults(sv, ex, f, txs, order, refused).Keys == set i | i in order
    decreases |order|
  {
    if order != [] {
      ResultKeys(sv, ex, Step(sv, ex, f, txs, order[0], refused), txs, order[1..], refused);
      assert order == [order[0]] + order[1..];
    }
  }
}
