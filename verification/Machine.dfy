/** Executing one transaction, and the reference machine: transactions run one
    at a time on a flat account map. */
module Machine {
  import opened Types
  import opened Overlay
  import opened Partition
  import opened View
  import opened Lifecycle
  import opened Planner
  import H = History

  datatype KeyMeta = KeyMeta(address: Address, writable: bool)

  /** A transaction with its resolved account keys; the first `numStatic` of
      them are the static keys of its message. */
  datatype Tx = Tx(signature: Signature, keys: seq<KeyMeta>, numStatic: nat, lookups: seq<Address>, body: seq<byte>)

  datatype Rejection = Rejection(err: TransactionError, fatal: bool, meta: TransactionMetadata)

  /** What the program runtime reports: a rejection before execution, or a
      status with the post-state of every account key. */
  datatype RunOutcome =
    | Bailed(rejection: Rejection)
    | Ran(status: Option<TransactionError>, accounts: seq<Account>, details: seq<byte>)

  datatype SanitizeError = BadTransaction(err: TransactionError) | SourceDown(pubkey: Address, cause: SourceError)

  type AccountView = map<Address, Loaded>

  /** The parts of execution the model does not look into. Each sees only the
      accounts a transaction locks and the reserved accounts, which no
      transaction can write. `admit` stands for the checks made before the
      history is consulted, `run` for everything after. */
  datatype Executor = Executor(
    reserved: set<Address>,
    sigverify: bool,
    sanitize: (Tx, AccountView) -> Option<SanitizeError>,
    admit: (Tx, AccountView) -> Option<Rejection>,
    run: (Tx, AccountView) -> RunOutcome)

  /** `message.is_writable`: reserved accounts are never writable. */
  predicate IsWritable(ex: Executor, key: KeyMeta) {
    key.writable && key.address !in ex.reserved
  }

  function LocksOf(ex: Executor, tx: Tx): LockSet {
    LockSet(
      (set i | 0 <= i < |tx.keys| && !IsWritable(ex, tx.keys[i]) :: tx.keys[i].address) + (set a | a in tx.lookups),
      set i | 0 <= i < |tx.keys| && IsWritable(ex, tx.keys[i]) :: tx.keys[i].address)
  }

  /** The accounts execution may look at. */
  function Observed(ex: Executor, tx: Tx): set<Address> {
    LocksOf(ex, tx).readonly + LocksOf(ex, tx).writable + ex.reserved
  }

  ghost predicate DistinctKeys(tx: Tx) {
    forall i, j :: 0 <= i < j < |tx.keys| ==> tx.keys[i].address != tx.keys[j].address
  }

  /** Post-execution accounts, keeping only the writable keys. */
  function PostAccounts(ex: Executor, keys: seq<KeyMeta>, accounts: seq<Account>): Delta
    decreases |keys|
  {
    if keys == [] || accounts == [] then []
    else
      (if IsWritable(ex, keys[0]) then [(keys[0].address, accounts[0])] else []) +
      PostAccounts(ex, keys[1..], accounts[1..])
  }

  function RejectedTx(r: Rejection): DetachedTx {
    DetachedTx(r.meta, [], Some(r.err), false, r.fatal)
  }

  /** One readonly execution. `seen` is the answer of the history check. */
  function TransactDetached(ex: Executor, tx: Tx, view: AccountView, seen: bool): DetachedTx {
    match ex.admit(tx, view)
    case Some(r) => RejectedTx(r)
    case None =>
      if ex.sigverify && seen then RejectedTx(Rejection(AlreadyProcessed, false, TransactionMetadata(0, [])))
      else
        match ex.run(tx, view)
        case Bailed(r) => RejectedTx(r)
        case Ran(status, accounts, details) =>
          DetachedTx(
            TransactionMetadata(tx.signature, details), PostAccounts(ex, tx.keys, accounts), status, true, false)
  }

  // ----- What an outcome can write -----

  lemma {:induction false} PostAccountsWritable(ex: Executor, keys: seq<KeyMeta>, accounts: seq<Account>)
    ensures forall x :: x in PostAccounts(ex, keys, accounts) ==>
              exists i :: 0 <= i < |keys| && IsWritable(ex, keys[i]) && keys[i].address == x.0
    decreases |keys|
  {
    if keys != [] && accounts != [] {
      PostAccountsWritable(ex, keys[1..], accounts[1..]);
      forall x | x in PostAccounts(ex, keys, accounts)
        ensures exists i :: 0 <= i < |keys| && IsWritable(ex, keys[i]) && keys[i].address == x.0
      {
        if x in PostAccounts(ex, keys[1..], accounts[1..]) {
          var i :| 0 <= i < |keys[1..]| && IsWritable(ex, keys[1..][i]) && keys[1..][i].address == x.0;
          assert keys[i + 1] == keys[1..][i];
        } else {
          assert IsWritable(ex, keys[0]) && keys[0].address == x.0;
        }
      }
    }
  }

  lemma {:induction false} PostAccountsDistinct(ex: Executor, keys: seq<KeyMeta>, accounts: seq<Account>)
    requires forall i, j :: 0 <= i < j < |keys| ==> keys[i].address != keys[j].address
    ensures Distinct(PostAccounts(ex, keys, accounts))
    decreases |keys|
  {
    if keys != [] && accounts != [] {
      var rest := PostAccounts(ex, keys[1..], accounts[1..]);
      PostAccountsDistinct(ex, keys[1..], accounts[1..]);
      PostAccountsWritable(ex, keys[1..], accounts[1..]);
      forall j | 0 <= j < |rest| ensures rest[j].0 != keys[0].address {
        assert rest[j] in rest;
        var i :| 0 <= i < |keys[1..]| && IsWritable(ex, keys[1..][i]) && keys[1..][i].address == rest[j].0;
        assert keys[i + 1] == keys[1..][i];
      }
    }
  }

  /** An outcome writes only accounts its transaction holds writable, each at
      most once; a fatal outcome is never included. */
  lemma OutcomeWritesLocked(ex: Executor, tx: Tx, view: AccountView, seen: bool, historyEnabled: bool)
    ensures var d := TransactDetached(ex, tx, view, seen);
            && Addresses(DeltaOf(d, historyEnabled).postAccounts) <= LocksOf(ex, tx).writable
            && (DistinctKeys(tx) ==> Distinct(DeltaOf(d, historyEnabled).postAccounts))
            && (d.fatal ==> !d.included)
            && (d.included ==> d.meta.signature == tx.signature)
  {
    var d := TransactDetached(ex, tx, view, seen);
    if d.included {
      var accounts := ex.run(tx, view).accounts;
      PostAccountsWritable(ex, tx.keys, accounts);
      if DistinctKeys(tx) {
        PostAccountsDistinct(ex, tx.keys, accounts);
      }
      forall a | a in Addresses(d.postAccounts) ensures a in LocksOf(ex, tx).writable {
        var k :| 0 <= k < |d.postAccounts| && d.postAccounts[k].0 == a;
        assert d.postAccounts[k] in d.postAccounts;
      }
    }
  }

  lemma ConflictFreeMeansUnobserved(ex: Executor, writer: Tx, reader: Tx)
    requires !Conflicts(LocksOf(ex, writer), LocksOf(ex, reader))
    ensures LocksOf(ex, writer).writable !! Observed(ex, reader)
  {
    var w, r := LocksOf(ex, writer), LocksOf(ex, reader);
    forall a | a in w.writable ensures a !in Observed(ex, reader) {
      assert a !in w.writable * r.readonly && a !in w.writable * r.writable;
    }
  }

  // ----- The reference machine -----

  /** Every account written or read so far, and the history. */
  datatype FlatState = FlatState(known: map<Address, Option<Account>>, history: H.HistoryState)

  function Observe(sv: Services, ex: Executor, known: map<Address, Option<Account>>, tx: Tx): AccountView {
    map a | a in Observed(ex, tx) :: ReadFlat(sv, known, a)
  }

  function Outcome(sv: Services, ex: Executor, f: FlatState, tx: Tx): DetachedTx {
    TransactDetached(ex, tx, Observe(sv, ex, f.known, tx), H.Check(f.history, tx.signature))
  }

  /** Applies the effects of an outcome. */
  function Settle(f: FlatState, d: DetachedTx): FlatState {
    var delta := DeltaOf(d, f.history.max != 0);
    FlatState(Overwrite(f.known, delta.postAccounts), RecordEntry(f.history, delta.historyEntry))
  }

  function Send(sv: Services, ex: Executor, f: FlatState, tx: Tx): FlatState {
    Settle(f, Outcome(sv, ex, f, tx))
  }

  predicate InRange(txs: seq<Tx>, order: seq<nat>) {
    forall p :: 0 <= p < |order| ==> order[p] < |txs|
  }

  /** One transaction of a run. A refused one has a result but no effect. */
  function Step(sv: Services, ex: Executor, f: FlatState, txs: seq<Tx>, i: nat, refused: set<nat>): FlatState
    requires i < |txs|
  {
    if i in refused then f else Send(sv, ex, f, txs[i])
  }

  /** The state after running transactions one at a time in the given order. */
  function Serial(sv: Services, ex: Executor, f: FlatState, txs: seq<Tx>, order: seq<nat>, refused: set<nat>): FlatState
    requires InRange(txs, order)
    decreases |order|
  {
    if order == [] then f else Serial(sv, ex, Step(sv, ex, f, txs, order[0], refused), txs, order[1..], refused)
  }

  /** The result each transaction gets in such a run. */
  function SerialResults(
    sv: Services, ex: Executor, f: FlatState, txs: seq<Tx>, order: seq<nat>,
    refused: set<nat>): map<nat, TransactionResult>
    requires InRange(txs, order)
    decreases |order|
  {
    if order == [] then map[]
    else
      SerialResults(sv, ex, Step(sv, ex, f, txs, order[0], refused), txs, order[1..], refused)
        [order[0] := ResultOf(Outcome(sv, ex, f, txs[order[0]]))]
  }
}
