/** Reversing a conflicting pair can always be noticed: transactions with the
    same locks exist whose results tell the two orders apart. */
module Inversion {
  import opened Types
  import opened Overlay
  import opened Store
  import opened Partition
  import opened View
  import opened Lifecycle
  import opened Planner
  import opened Machine
  import opened StageRun
  import opened InputOrder
  import H = History

  function Tally(n: nat): seq<byte> {
    seq(n, _ => 0)
  }

  function Copies(n: nat, account: Account): seq<Account> {
    seq(n, _ => account)
  }

  /** An account that stands for a count: the length of its data. */
  function Counter(n: nat): Account {
    Account(1, DEFAULT_ADDRESS, false, 0, Tally(n))
  }

  /** A source that knows no account; any sysvar parses. */
  const EMPTY_SERVICES: Services :=
    Services(_ => Ok(None), keys => Ok(seq(|keys|, _ => None)), (_, _) => true, _ => 0, _ => None, (_, _) => false, {})

  const FRESH: FlatState := FlatState(map[], H.WithCapacity(0))

  function CountIn(view: AccountView, a: Address): nat {
    if a in view && view[a].Ok? && view[a].value.Some? then |view[a].value.value.data| else 0
  }

  /** Every copy of the writer reports the count at `a` and raises it on all
      accounts it may write; every copy of the reader reports it; nobody else
      does anything. The two may be the same transaction. */
  function Probe(reserved: set<Address>, writer: Tx, reader: Tx, a: Address): Executor {
    Executor(reserved, false, (_, _) => None, (_, _) => None,
      (tx: Tx, view: AccountView) =>
        var n := CountIn(view, a);
        if tx == writer then Ran(None, Copies(|tx.keys|, Counter(n + 1)), Tally(n))
        else if tx == reader then Ran(None, [], Tally(n))
        else Ran(None, [], []))
  }

  function CountAt(f: FlatState, a: Address): nat {
    if a in f.known && f.known[a].Some? then |f.known[a].value.data| else 0
  }

  /** The account is unknown or holds a count, and the history is disabled. */
  ghost predicate ProbeState(f: FlatState, a: Address) {
    f.history == H.WithCapacity(0) && (a in f.known ==> f.known[a] == Some(Counter(CountAt(f, a))))
  }

  // ----- What one transaction of the probe does -----

  lemma {:induction false} OverwriteWithOne(
    known: map<Address, Option<Account>>, delta: Delta, a: Address, account: Account)
    requires (forall x :: x in delta ==> x.1 == account) && account.lamports != 0
    ensures var known' := Overwrite(known, delta);
            if a in Addresses(delta) then a in known' && known'[a] == Some(account)
            else (a in known' <==> a in known) && (a in known ==> known'[a] == known[a])
    decreases |delta|
  {
    if delta != [] {
      AddressesOfTail(delta);
      assert delta[0] in delta;
      OverwriteWithOne(known[delta[0].0 := Stored(delta[0].1)], delta[1..], a, account);
    }
  }

  lemma {:induction false} PostAccountsOfOne(ex: Executor, keys: seq<KeyMeta>, account: Account, n: nat)
    requires n == |keys|
    ensures var delta := PostAccounts(ex, keys, Copies(n, account));
            && (forall x :: x in delta ==> x.1 == account)
            && (forall i :: 0 <= i < |keys| && IsWritable(ex, keys[i]) ==> keys[i].address in Addresses(delta))
    decreases n
  {
    if n > 0 {
      var copies := Copies(n, account);
      assert copies[1..] == Copies(n - 1, account);
      PostAccountsOfOne(ex, keys[1..], account, n - 1);
      var rest := PostAccounts(ex, keys[1..], copies[1..]);
      var delta := PostAccounts(ex, keys, copies);
      forall i | 0 <= i < |keys| && IsWritable(ex, keys[i]) ensures keys[i].address in Addresses(delta) {
        if i == 0 {
          assert delta[0].0 == keys[0].address;
        } else {
          assert keys[1..][i - 1] == keys[i];
          var q :| 0 <= q < |rest| && rest[q].0 == keys[i].address;
          assert delta[|delta| - |rest| + q] == rest[q];
        }
      }
    }
  }

  lemma WriterDelta(ex: Executor, writer: Tx, a: Address, account: Account)
    requires a in LocksOf(ex, writer).writable
    ensures var delta := PostAccounts(ex, writer.keys, Copies(|writer.keys|, account));
            a in Addresses(delta) && forall x :: x in delta ==> x.1 == account
  {
    PostAccountsOfOne(ex, writer.keys, account, |writer.keys|);
  }

  lemma CountSeen(sv: Services, ex: Executor, f: FlatState, a: Address, tx: Tx)
    requires sv == EMPTY_SERVICES && ProbeState(f, a) && a in Observed(ex, tx)
    ensures CountIn(Observe(sv, ex, f.known, tx), a) == CountAt(f, a)
  {
    var view := Observe(sv, ex, f.known, tx);
    assert a in view && view[a] == ReadFlat(sv, f.known, a);
  }

  lemma WriterStep(reserved: set<Address>, f: FlatState, writer: Tx, reader: Tx, a: Address)
    requires a in LocksOf(Probe(reserved, writer, reader, a), writer).writable && ProbeState(f, a)
    ensures var g := Send(EMPTY_SERVICES, Probe(reserved, writer, reader, a), f, writer);
            ProbeState(g, a) && CountAt(g, a) == CountAt(f, a) + 1
  {
    var ex, next := Probe(reserved, writer, reader, a), Counter(CountAt(f, a) + 1);
    var delta := PostAccounts(ex, writer.keys, Copies(|writer.keys|, next));
    WriterSends(reserved, f, writer, reader, a);
    WriterDelta(ex, writer, a, next);
    OverwriteWithOne(f.known, delta, a, next);
  }

  lemma WriterSends(reserved: set<Address>, f: FlatState, writer: Tx, reader: Tx, a: Address)
    requires a in LocksOf(Probe(reserved, writer, reader, a), writer).writable && ProbeState(f, a)
    ensures var ex, next := Probe(reserved, writer, reader, a), Counter(CountAt(f, a) + 1);
            Send(EMPTY_SERVICES, ex, f, writer) ==
              FlatState(Overwrite(f.known, PostAccounts(ex, writer.keys, Copies(|writer.keys|, next))), f.history)
  {
    var ex, n := Probe(reserved, writer, reader, a), CountAt(f, a);
    CountSeen(EMPTY_SERVICES, ex, f, a, writer);
    assert ex.run(writer, Observe(EMPTY_SERVICES, ex, f.known, writer)) ==
           Ran(None, Copies(|writer.keys|, Counter(n + 1)), Tally(n));
  }

  lemma OtherStep(reserved: set<Address>, f: FlatState, writer: Tx, reader: Tx, a: Address, tx: Tx)
    requires tx != writer && ProbeState(f, a)
    ensures Send(EMPTY_SERVICES, Probe(reserved, writer, reader, a), f, tx) == f
  {
    var d := Outcome(EMPTY_SERVICES, Probe(reserved, writer, reader, a), f, tx);
    assert d.postAccounts == [];
    assert Settle(f, d).known == f.known;
  }

  /** Only the writer's copies raise the count. */
  lemma ProbeStep(reserved: set<Address>, f: FlatState, writer: Tx, reader: Tx, a: Address, tx: Tx)
    requires a in LocksOf(Probe(reserved, writer, reader, a), writer).writable && ProbeState(f, a)
    ensures var g := Send(EMPTY_SERVICES, Probe(reserved, writer, reader, a), f, tx);
            ProbeState(g, a) && CountAt(g, a) == CountAt(f, a) + if tx == writer then 1 else 0
  {
    if tx == writer {
      WriterStep(reserved, f, writer, reader, a);
    } else {
      OtherStep(reserved, f, writer, reader, a, tx);
    }
  }

  lemma ProbeReports(reserved: set<Address>, f: FlatState, writer: Tx, reader: Tx, a: Address, tx: Tx)
    requires ProbeState(f, a) && (tx == writer || tx == reader)
    requires a in Observed(Probe(reserved, writer, reader, a), tx)
    ensures |ResultOf(Outcome(EMPTY_SERVICES, Probe(reserved, writer, reader, a), f, tx)).meta.details| == CountAt(f, a)
  {
    CountSeen(EMPTY_SERVICES, Probe(reserved, writer, reader, a), f, a, tx);
  }

  // ----- What a run of the probe reports -----

  /** The copies of a transaction among the first `p` of an order. */
  function CopiesBefore(txs: seq<Tx>, order: seq<nat>, p: nat, writer: Tx): nat
    requires InRange(txs, order) && p <= |order|
  {
    if p == 0 then 0 else CopiesBefore(txs, order, p - 1, writer) + if txs[order[p - 1]] == writer then 1 else 0
  }

  lemma {:induction false} CopiesOfTail(txs: seq<Tx>, order: seq<nat>, p: nat, writer: Tx)
    requires InRange(txs, order) && 1 <= p <= |order|
    ensures InRange(txs, order[1..])
    ensures CopiesBefore(txs, order, p, writer) ==
            (if txs[order[0]] == writer then 1 else 0) + CopiesBefore(txs, order[1..], p - 1, writer)
    decreases p
  {
    if p > 1 {
      CopiesOfTail(txs, order, p - 1, writer);
      assert order[1..][p - 2] == order[p - 1];
    }
  }

  lemma {:induction false} CopiesGrow(txs: seq<Tx>, order: seq<nat>, p: nat, q: nat, writer: Tx)
    requires InRange(txs, order) && p < q <= |order|
    ensures CopiesBefore(txs, order, p, writer) + (if txs[order[p]] == writer then 1 else 0)
            <= CopiesBefore(txs, order, q, writer)
    decreases q
  {
    if p + 1 < q {
      CopiesGrow(txs, order, p, q - 1, writer);
    }
  }

  lemma LaterResultStays(sv: Services, ex: Executor, f: FlatState, txs: seq<Tx>, order: seq<nat>, r: nat)
    requires order != [] && InRange(txs, order) && order[0] != r
    ensures var later := SerialResults(sv, ex, Send(sv, ex, f, txs[order[0]]), txs, order[1..], {});
            var results := SerialResults(sv, ex, f, txs, order, {});
            (r in results <==> r in later) && (r in later ==> results[r] == later[r])
  {}

  ghost predicate NoRepeats(order: seq<nat>) {
    forall p, q :: 0 <= p < q < |order| ==> order[p] != order[q]
  }

  /** Every copy of the writer or the reader reports the copies of the writer
      that ran before it. */
  lemma {:induction false} ReportsCount(
    reserved: set<Address>, f: FlatState, txs: seq<Tx>, order: seq<nat>, writer: Tx, reader: Tx, a: Address, p: nat)
    requires InRange(txs, order) && NoRepeats(order) && p < |order| && ProbeState(f, a)
    requires a in LocksOf(Probe(reserved, writer, reader, a), writer).writable
    requires txs[order[p]] == writer || txs[order[p]] == reader
    requires a in Observed(Probe(reserved, writer, reader, a), txs[order[p]])
    ensures var results := SerialResults(EMPTY_SERVICES, Probe(reserved, writer, reader, a), f, txs, order, {});
            order[p] in results && |results[order[p]].meta.details| ==
              CountAt(f, a) + CopiesBefore(txs, order, p, writer)
    decreases |order|
  {
    var ex := Probe(reserved, writer, reader, a);
    if p == 0 {
      ProbeReports(reserved, f, writer, reader, a, txs[order[0]]);
    } else {
      assert order[1..][p - 1] == order[p] && order[0] != order[p];
      ProbeStep(reserved, f, writer, reader, a, txs[order[0]]);
      ReportsCount(reserved, Send(EMPTY_SERVICES, ex, f, txs[order[0]]), txs, order[1..], writer, reader, a, p - 1);
      LaterResultStays(EMPTY_SERVICES, ex, f, txs, order, order[p]);
      CopiesOfTail(txs, order, p, writer);
    }
  }

  // ----- Telling two orders apart -----

  /** Some account is written by one of two conflicting transactions and locked
      by the other. */
  lemma ConflictWitness(ex: Executor, x: Tx, y: Tx) returns (a: Address, xWrites: bool)
    requires Conflicts(LocksOf(ex, x), LocksOf(ex, y))
    ensures if xWrites then a in LocksOf(ex, x).writable && a in Observed(ex, y)
            else a in LocksOf(ex, y).writable && a in Observed(ex, x)
  {
    var lx, ly := LocksOf(ex, x), LocksOf(ex, y);
    if lx.writable * ly.writable != {} {
      a :| a in lx.writable * ly.writable; xWrites := true;
    } else if lx.writable * ly.readonly != {} {
      a :| a in lx.writable * ly.readonly; xWrites := true;
    } else {
      a :| a in lx.readonly * ly.writable; xWrites := false;
    }
  }

  lemma SameLocks(ex: Executor, ex': Executor, tx: Tx)
    requires ex.reserved == ex'.reserved
    ensures LocksOf(ex, tx) == LocksOf(ex', tx) && Observed(ex, tx) == Observed(ex', tx)
  {
    assert forall k :: IsWritable(ex, k) == IsWritable(ex', k);
    assert LocksOf(ex, tx).writable == LocksOf(ex', tx).writable;
    assert LocksOf(ex, tx).readonly == LocksOf(ex', tx).readonly;
  }

  /** The writer `w` runs before the reader `r` in one order and after it in the
      other: one of the two reports differently. */
  lemma ReaderOrWriterDiffers(
    reserved: set<Address>, txs: seq<Tx>, order: seq<nat>, order': seq<nat>, w: nat, r: nat, a: Address)
    requires InRange(txs, order) && InRange(txs, order') && NoRepeats(order) && NoRepeats(order')
    requires w < |txs| && r < |txs| && Precedes(order, w, r) && Precedes(order', r, w)
    requires a in LocksOf(Probe(reserved, txs[w], txs[r], a), txs[w]).writable
    requires a in Observed(Probe(reserved, txs[w], txs[r], a), txs[r])
    ensures var probe := Probe(reserved, txs[w], txs[r], a);
            SerialResults(EMPTY_SERVICES, probe, FRESH, txs, order, {}) !=
              SerialResults(EMPTY_SERVICES, probe, FRESH, txs, order', {})
  {
    var p, q :| 0 <= p < q < |order| && order[p] == w && order[q] == r;
    var q', p' :| 0 <= q' < p' < |order'| && order'[q'] == r && order'[p'] == w;
    ReportsCount(reserved, FRESH, txs, order, txs[w], txs[r], a, p);
    ReportsCount(reserved, FRESH, txs, order, txs[w], txs[r], a, q);
    ReportsCount(reserved, FRESH, txs, order', txs[w], txs[r], a, p');
    ReportsCount(reserved, FRESH, txs, order', txs[w], txs[r], a, q');
    CopiesGrow(txs, order, p, q, txs[w]);
    CopiesGrow(txs, order', q', p', txs[w]);
  }

  /** Two orders that disagree about a conflicting pair can be told apart by
      some behaviour of transactions with these very locks. */
  lemma InversionIsVisible(ex: Executor, txs: seq<Tx>, order: seq<nat>, order': seq<nat>, i: nat, j: nat)
    returns (probe: Executor)
    requires InRange(txs, order) && InRange(txs, order') && NoRepeats(order) && NoRepeats(order')
    requires i < |txs| && j < |txs| && Conflicts(LocksOf(ex, txs[i]), LocksOf(ex, txs[j]))
    requires Precedes(order, i, j) && Precedes(order', j, i)
    ensures exists writer, reader, a :: probe == Probe(ex.reserved, writer, reader, a)
    ensures SerialResults(EMPTY_SERVICES, probe, FRESH, txs, order, {}) !=
              SerialResults(EMPTY_SERVICES, probe, FRESH, txs, order', {})
  {
    var a, iWrites := ConflictWitness(ex, txs[i], txs[j]);
    var w, r := if iWrites then i else j, if iWrites then j else i;
    probe := Probe(ex.reserved, txs[w], txs[r], a);
    SameLocks(ex, probe, txs[w]);
    SameLocks(ex, probe, txs[r]);
    if iWrites {
      ReaderOrWriterDiffers(ex.reserved, txs, order, order', w, r, a);
    } else {
      ReaderOrWriterDiffers(ex.reserved, txs, order', order, w, r, a);
    }
  }

  // ----- Input order -----

  lemma {:induction false} RangeAt(k: nat, n: nat)
    requires k <= n
    ensures |Range(k, n)| == n - k && forall p :: 0 <= p < n - k ==> Range(k, n)[p] == k + p
    decreases n - k
  {
    if k < n { RangeAt(k + 1, n); }
  }

  lemma ConflictOrderNeedsOnlyLocks(ex: Executor, ex': Executor, txs: seq<Tx>, order: seq<nat>)
    requires ex.reserved == ex'.reserved && InRange(txs, order) && KeepsConflictOrder(ex, txs, order)
    ensures KeepsConflictOrder(ex', txs, order)
  {
    forall p, q | 0 <= p < q < |order| && order[q] < order[p]
      ensures !Conflicts(LocksOf(ex', txs[order[p]]), LocksOf(ex', txs[order[q]]))
    {
      SameLocks(ex, ex', txs[order[p]]);
      SameLocks(ex, ex', txs[order[q]]);
    }
  }

  lemma RangePrecedes(n: nat, i: nat, j: nat)
    requires i < j < n
    ensures Precedes(Range(0, n), i, j) && NoRepeats(Range(0, n))
  {
    RangeAt(0, n);
    assert Range(0, n)[i] == i && Range(0, n)[j] == j;
  }
}
