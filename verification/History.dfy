/** The bounded transaction history (history.rs): an LRU cache keyed by
    signature whose lookups never reorder it. */
module History {
  import opened Types
  import opened Lru
  import opened Ranking

  type Entry = (Signature, TransactionResult)

  /** `entries` is ordered most recent first. `cap` is the capacity of the LRU
      cache itself, `max` the configured one; they differ only while disabled. */
  datatype HistoryState = HistoryState(entries: seq<Entry>, cap: nat, max: nat)

  function Insert(h: HistoryState, sig: Signature, result: TransactionResult): HistoryState {
    if h.max == 0 then h else h.(entries := Put(h.entries, h.cap, sig, result))
  }

  predicate Check(h: HistoryState, sig: Signature) {
    h.max != 0 && Peek(h.entries, sig).Some?
  }

  function Get(h: HistoryState, sig: Signature): Option<TransactionResult> {
    if h.max == 0 then None else Peek(h.entries, sig)
  }

  function SetCapacity(h: HistoryState, n: nat): HistoryState {
    if n == 0 then HistoryState([], h.cap, 0)
    else HistoryState(if |h.entries| <= n then h.entries else h.entries[..n], n, n)
  }

  function WithCapacity(n: nat): HistoryState {
    HistoryState([], if n == 0 then 1 else n, n)
  }

  /** Signatures are distinct, the size is bounded, and a disabled history is empty. */
  ghost predicate Valid(h: HistoryState) {
    && NoDuplicates(h.entries)
    && (if h.max == 0 then h.entries == [] else h.cap == h.max && |h.entries| <= h.max)
  }

  // ----- Runs -----

  datatype HistoryOp =
    | Record(sig: Signature, result: TransactionResult)
    | Lookup(sig: Signature)
    | Resize(capacity: nat)

  function Apply(h: HistoryState, op: HistoryOp): HistoryState {
    match op
    case Record(sig, result) => Insert(h, sig, result)
    case Lookup(_) => h
    case Resize(n) => SetCapacity(h, n)
  }

  function Run(h: HistoryState, ops: seq<HistoryOp>): HistoryState
    decreases |ops|
  {
    if ops == [] then h else Apply(Run(h, ops[..|ops| - 1]), ops[|ops| - 1])
  }

  lemma StepKeepsValid(h: HistoryState, op: HistoryOp)
    requires Valid(h)
    ensures Valid(Apply(h, op))
  {
    if op.Record? {
      WithoutKeepsOrder(h.entries, op.sig);
      var w := Without(h.entries, op.sig);
      forall i | 0 <= i < |w| ensures w[i].0 != op.sig {
        assert IndexOf(w, op.sig) == |w|;
      }
    }
  }

  /** Whatever the capacity changes, the size stays within the capacity, no
      signature is stored twice and a disabled history stores nothing. */
  lemma {:induction false} RunKeepsValid(h: HistoryState, ops: seq<HistoryOp>)
    requires Valid(h)
    ensures Valid(Run(h, ops))
    decreases |ops|
  {
    if ops != [] {
      RunKeepsValid(h, ops[..|ops| - 1]);
      StepKeepsValid(Run(h, ops[..|ops| - 1]), ops[|ops| - 1]);
    }
  }

  // ----- What a lookup finds, over every run -----

  /** The capacity after a run that began at `cap`: the last one set. */
  function CapacityAfter(cap: nat, ops: seq<HistoryOp>): nat {
    if ops == [] then cap
    else
      match ops[|ops| - 1]
      case Resize(n) => n
      case Record(_, _) => CapacityAfter(cap, ops[..|ops| - 1])
      case Lookup(_) => CapacityAfter(cap, ops[..|ops| - 1])
  }

  function Recorded(ops: seq<HistoryOp>): set<Signature> {
    set i | 0 <= i < |ops| && ops[i].Record? :: ops[i].sig
  }

  /** The signatures recorded after operation `i`, up to operation `m`. */
  function Since(ops: seq<HistoryOp>, i: nat, m: nat): set<Signature>
    requires i < m <= |ops|
  {
    Recorded(ops[i + 1..m])
  }

  ghost predicate RoomAt(cap: nat, ops: seq<HistoryOp>, i: nat, m: nat)
    requires i < m <= |ops|
  {
    |Since(ops, i, m)| < CapacityAfter(cap, ops[..m])
  }

  /** At no time since operation `i` had as many signatures been recorded as the
      history had places; a capacity of zero leaves none. */
  ghost predicate Survives(cap: nat, ops: seq<HistoryOp>, i: nat)
    requires i < |ops|
  {
    forall m :: i < m <= |ops| ==> RoomAt(cap, ops, i, m)
  }

  /** Operation `i` is the last one to record the signature. */
  predicate IsLatest(ops: seq<HistoryOp>, i: int, sig: Signature, result: TransactionResult) {
    && 0 <= i < |ops| && ops[i] == Record(sig, result)
    && forall j :: i < j < |ops| && ops[j].Record? ==> ops[j].sig != sig
  }

  ghost predicate Remembered(cap: nat, ops: seq<HistoryOp>, sig: Signature, result: TransactionResult) {
    exists i :: IsLatest(ops, i, sig, result) && Survives(cap, ops, i)
  }

  function LastRecord(ops: seq<HistoryOp>, sig: Signature): (last: Option<nat>)
    ensures last.Some? ==> last.value < |ops| && ops[last.value].Record? && ops[last.value].sig == sig
    ensures last.Some? ==> IsLatest(ops, last.value, sig, ops[last.value].result)
    ensures last.None? ==> forall j :: 0 <= j < |ops| && ops[j].Record? ==> ops[j].sig != sig
  {
    if ops == [] then None
    else
      var n := |ops| - 1;
      if ops[n].Record? && ops[n].sig == sig then Some(n) else LastRecord(ops[..n], sig)
  }

  /** The store holds a signature exactly if its last record survives: with that
      result, behind exactly the signatures recorded since. */
  ghost predicate KeyAt(cap: nat, ops: seq<HistoryOp>, entries: seq<Entry>, sig: Signature) {
    var last := LastRecord(ops, sig);
    if last.Some? && Survives(cap, ops, last.value) then
      Holds(entries, sig, ops[last.value].result, Recorded(ops[last.value + 1..]))
    else !Contains(entries, sig)
  }

  /** The signature is stored, with this result and behind exactly these others. */
  ghost predicate Holds(entries: seq<Entry>, sig: Signature, result: TransactionResult, since: set<Signature>) {
    var p := IndexOf(entries, sig);
    p < |entries| && entries[p].1 == result && FrontKeys(entries, p) == since
  }

  lemma RecordedOfSnoc(ops: seq<HistoryOp>, op: HistoryOp)
    ensures Recorded(ops + [op]) == Recorded(ops) + if op.Record? then {op.sig} else {}
  {
    var all := ops + [op];
    assert all[|ops|] == op;
    forall sig | sig in Recorded(ops) ensures sig in Recorded(all) {
      var i :| 0 <= i < |ops| && ops[i].Record? && ops[i].sig == sig;
      assert all[i] == ops[i];
    }
    forall sig | sig in Recorded(all) ensures sig in Recorded(ops) || (op.Record? && sig == op.sig) {
      var i :| 0 <= i < |all| && all[i].Record? && all[i].sig == sig;
      assert i < |ops| ==> ops[i] == all[i];
    }
  }

  /** One more operation, seen from an earlier one. */
  lemma SinceStep(ops: seq<HistoryOp>, i: nat)
    requires i + 1 < |ops|
    ensures var n := |ops| - 1;
            Recorded(ops[i + 1..]) == Recorded(ops[..n][i + 1..]) + if ops[n].Record? then {ops[n].sig} else {}
  {
    var n := |ops| - 1;
    assert ops[i + 1..] == ops[..n][i + 1..] + [ops[n]];
    RecordedOfSnoc(ops[..n][i + 1..], ops[n]);
  }

  lemma RoomInPrefix(cap: nat, ops: seq<HistoryOp>, i: nat, m: nat, n: nat)
    requires i < m <= n <= |ops|
    ensures RoomAt(cap, ops[..n], i, m) <==> RoomAt(cap, ops, i, m)
  {
    assert ops[..n][i + 1..m] == ops[i + 1..m] && ops[..n][..m] == ops[..m];
  }

  lemma RoomNow(cap: nat, ops: seq<HistoryOp>, i: nat)
    requires i < |ops|
    ensures RoomAt(cap, ops, i, |ops|) <==> |Recorded(ops[i + 1..])| < CapacityAfter(cap, ops)
  {
    assert ops[i + 1..|ops|] == ops[i + 1..] && ops[..|ops|] == ops;
  }

  lemma SurvivesStep(cap: nat, ops: seq<HistoryOp>, i: nat)
    requires i + 1 < |ops|
    ensures Survives(cap, ops, i) <==> Survives(cap, ops[..|ops| - 1], i) && RoomAt(cap, ops, i, |ops|)
  {
    var n := |ops| - 1;
    forall m | i < m <= n ensures RoomAt(cap, ops[..n], i, m) <==> RoomAt(cap, ops, i, m) {
      RoomInPrefix(cap, ops, i, m, n);
    }
  }

  lemma NewRecordSurvives(cap: nat, ops: seq<HistoryOp>)
    requires ops != []
    ensures Recorded(ops[|ops|..]) == {}
    ensures Survives(cap, ops, |ops| - 1) <==> CapacityAfter(cap, ops) != 0
  {
    RoomNow(cap, ops, |ops| - 1);
    assert ops[|ops|..] == [];
    assert Survives(cap, ops, |ops| - 1) <==> RoomAt(cap, ops, |ops| - 1, |ops|);
  }

  /** An operation that does not record the signature, seen from its last record. */
  lemma LastStep(cap: nat, ops: seq<HistoryOp>, sig: Signature)
    requires ops != [] && (ops[|ops| - 1].Record? ==> ops[|ops| - 1].sig != sig)
    ensures var n := |ops| - 1;
            var last, op := LastRecord(ops, sig), ops[n];
            && LastRecord(ops[..n], sig) == last
            && (last.Some? ==>
                  && last.value < n && ops[..n][last.value] == ops[last.value]
                  && Recorded(ops[last.value + 1..]) ==
                       Recorded(ops[..n][last.value + 1..]) + (if op.Record? then {op.sig} else {})
                  && (Survives(cap, ops, last.value) <==>
                        Survives(cap, ops[..n], last.value)
                        && |Recorded(ops[last.value + 1..])| < CapacityAfter(cap, ops)))
  {
    var last := LastRecord(ops, sig);
    if last.Some? {
      SinceStep(ops, last.value);
      SurvivesStep(cap, ops, last.value);
      RoomNow(cap, ops, last.value);
    }
  }

  lemma LookupHoldsKey(cap: nat, ops: seq<HistoryOp>, entries: seq<Entry>, sig: Signature)
    requires ops != [] && ops[|ops| - 1].Lookup? && KeyAt(cap, ops[..|ops| - 1], entries, sig)
    ensures KeyAt(cap, ops, entries, sig)
  {
    LastStep(cap, ops, sig);
    var init, last := ops[..|ops| - 1], LastRecord(ops, sig);
    if last.Some? {
      RoomNow(cap, init, last.value);
      assert Survives(cap, init, last.value) ==> RoomAt(cap, init, last.value, |init|);
    }
  }

  lemma RecordHoldsOwn(cap: nat, ops: seq<HistoryOp>, h: HistoryState)
    requires ops != [] && ops[|ops| - 1].Record? && Valid(h) && h.max == CapacityAfter(cap, ops)
    ensures KeyAt(cap, ops, Apply(h, ops[|ops| - 1]).entries, ops[|ops| - 1].sig)
  {
    NewRecordSurvives(cap, ops);
    var op := ops[|ops| - 1];
    if h.max != 0 {
      var t := Apply(h, op).entries;
      assert t[0] == (op.sig, op.result) && IndexOf(t, op.sig) == 0;
      assert FrontKeys(t, 0) == {};
      assert Holds(t, op.sig, op.result, {});
    }
  }

  /** Recording pushes an entry back behind one more signature, or out. */
  lemma InsertMoves(h: HistoryState, e: Entry, sig: Signature, result: TransactionResult, since: set<Signature>)
    requires Valid(h) && e.0 != sig && Holds(h.entries, sig, result, since)
    ensures var t := Insert(h, e.0, e.1).entries;
            if |since + {e.0}| < h.max then Holds(t, sig, result, since + {e.0}) else !Contains(t, sig)
  {
    var t := [e] + Pushed(h.entries, h.cap, e.0);
    assert Insert(h, e.0, e.1).entries == t;
    PushedIsRanked(h.entries, h.cap, e, sig, result, since);
    if Contains(t, sig) {
      PushedIsDistinct(h.entries, h.cap, e);
      FrontKeysCount(t, IndexOf(t, sig));
    }
  }

  lemma InsertAddsOnly(h: HistoryState, e: Entry, sig: Signature)
    requires Valid(h) && e.0 != sig && !Contains(h.entries, sig)
    ensures !Contains(Insert(h, e.0, e.1).entries, sig)
  {
    if h.max != 0 {
      assert Insert(h, e.0, e.1).entries == [e] + Pushed(h.entries, h.cap, e.0);
      PushedAddsOnly(h.entries, h.cap, e, sig);
    }
  }

  lemma RecordHoldsOther(cap: nat, ops: seq<HistoryOp>, h: HistoryState, sig: Signature)
    requires ops != [] && ops[|ops| - 1].Record? && ops[|ops| - 1].sig != sig
    requires Valid(h) && h.max == CapacityAfter(cap, ops) && KeyAt(cap, ops[..|ops| - 1], h.entries, sig)
    ensures KeyAt(cap, ops, Apply(h, ops[|ops| - 1]).entries, sig)
  {
    LastStep(cap, ops, sig);
    var op, last := ops[|ops| - 1], LastRecord(ops, sig);
    if Contains(h.entries, sig) {
      var since := Recorded(ops[..|ops| - 1][last.value + 1..]);
      InsertMoves(h, (op.sig, op.result), sig, ops[last.value].result, since);
    } else {
      InsertAddsOnly(h, (op.sig, op.result), sig);
    }
  }

  /** Resizing keeps an entry exactly if there are places for those in front of it. */
  lemma ResizeMoves(h: HistoryState, n: nat, sig: Signature, result: TransactionResult, since: set<Signature>)
    requires Valid(h) && Holds(h.entries, sig, result, since)
    ensures var t := SetCapacity(h, n).entries;
            if |since| < n then Holds(t, sig, result, since) else !Contains(t, sig)
  {
    var entries, p := h.entries, IndexOf(h.entries, sig);
    FrontKeysCount(entries, p);
    if 0 < n < |entries| {
      IndexOfPrefix(entries, n, sig);
      assert p < n ==> entries[..n][..p] == entries[..p];
    }
  }

  lemma ResizeHoldsKey(cap: nat, ops: seq<HistoryOp>, h: HistoryState, sig: Signature)
    requires ops != [] && ops[|ops| - 1].Resize? && Valid(h) && KeyAt(cap, ops[..|ops| - 1], h.entries, sig)
    ensures KeyAt(cap, ops, Apply(h, ops[|ops| - 1]).entries, sig)
  {
    LastStep(cap, ops, sig);
    var n, last := ops[|ops| - 1].capacity, LastRecord(ops, sig);
    if Contains(h.entries, sig) {
      ResizeMoves(h, n, sig, ops[last.value].result, Recorded(ops[last.value + 1..]));
    } else if 0 < n < |h.entries| {
      IndexOfPrefix(h.entries, n, sig);
    }
  }

  /** A prefix sees the same positions as the whole. */
  lemma IndexOfPrefix(entries: seq<Entry>, n: nat, sig: Signature)
    requires n <= |entries| && NoDuplicates(entries)
    ensures IndexOf(entries[..n], sig) == if IndexOf(entries, sig) < n then IndexOf(entries, sig) else n
  {
    var p := IndexOf(entries, sig);
    if p < n {
      assert entries[..n][p].0 == sig;
      assert NoDuplicates(entries[..n]);
      IndexUnique(entries[..n], p);
    } else {
      assert forall i :: 0 <= i < n ==> entries[..n][i].0 != sig;
    }
  }

  lemma {:induction false} RunHoldsKey(cap: nat, ops: seq<HistoryOp>, sig: Signature)
    ensures var h := Run(WithCapacity(cap), ops);
            Valid(h) && h.max == CapacityAfter(cap, ops) && KeyAt(cap, ops, h.entries, sig)
    decreases |ops|
  {
    if ops != [] {
      var init, op := ops[..|ops| - 1], ops[|ops| - 1];
      var h := Run(WithCapacity(cap), init);
      RunHoldsKey(cap, init, sig);
      StepKeepsValid(h, op);
      match op
      case Lookup(_) => LookupHoldsKey(cap, ops, h.entries, sig);
      case Resize(_) => ResizeHoldsKey(cap, ops, h, sig);
      case Record(other, _) =>
        if other == sig { RecordHoldsOwn(cap, ops, h); } else { RecordHoldsOther(cap, ops, h, sig); }
    }
  }

  lemma RememberedIsLast(cap: nat, ops: seq<HistoryOp>, sig: Signature, result: TransactionResult)
    ensures Remembered(cap, ops, sig, result) <==>
            var last := LastRecord(ops, sig);
            last.Some? && ops[last.value].result == result && Survives(cap, ops, last.value)
  {
    if Remembered(cap, ops, sig, result) {
      var i :| IsLatest(ops, i, sig, result) && Survives(cap, ops, i);
      assert LastRecord(ops, sig) == Some(i);
    }
  }

  /** Over every run, resizes included: a lookup returns a result if and only if
      it is the latest recorded for the signature, and at every time since fewer
      other signatures had been recorded than the capacity was at that time. The
      duplicate check answers accordingly. */
  lemma FoundExactly(cap: nat, ops: seq<HistoryOp>, sig: Signature, result: TransactionResult)
    ensures var h := Run(WithCapacity(cap), ops);
            && (Get(h, sig) == Some(result) <==> Remembered(cap, ops, sig, result))
            && (Check(h, sig) <==> exists r :: Remembered(cap, ops, sig, r))
  {
    var h, last := Run(WithCapacity(cap), ops), LastRecord(ops, sig);
    RunHoldsKey(cap, ops, sig);
    RememberedIsLast(cap, ops, sig, result);
    if Check(h, sig) {
      RememberedIsLast(cap, ops, sig, ops[last.value].result);
    }
    forall r | Remembered(cap, ops, sig, r) ensures Check(h, sig) {
      RememberedIsLast(cap, ops, sig, r);
    }
  }

  /** The store is ordered by recency: an entry has in front of it exactly the
      signatures recorded after its own latest record. */
  lemma StoreIsRecent(cap: nat, ops: seq<HistoryOp>, p: nat)
    requires p < |Run(WithCapacity(cap), ops).entries|
    ensures var entries := Run(WithCapacity(cap), ops).entries;
            exists i :: && IsLatest(ops, i, entries[p].0, entries[p].1)
                        && FrontKeys(entries, p) == Recorded(ops[i + 1..]) && |Recorded(ops[i + 1..])| == p
  {
    var entries := Run(WithCapacity(cap), ops).entries;
    RunHoldsKey(cap, ops, entries[p].0);
    IndexUnique(entries, p);
    FrontKeysCount(entries, p);
    var i := LastRecord(ops, entries[p].0).value;
    assert IsLatest(ops, i, entries[p].0, entries[p].1);
  }

  // ----- Fixed capacity: the last k distinct signatures -----

  predicate FixedCapacity(ops: seq<HistoryOp>) {
    forall i :: 0 <= i < |ops| ==> !ops[i].Resize?
  }

  /** Operation `i` is the latest record, followed by fewer than `k` other signatures. */
  predicate AmongLast(ops: seq<HistoryOp>, i: int, sig: Signature, result: TransactionResult, k: nat) {
    IsLatest(ops, i, sig, result) && |Recorded(ops[i + 1..])| < k
  }

  lemma {:induction false} CapacityStays(cap: nat, ops: seq<HistoryOp>)
    requires FixedCapacity(ops)
    ensures CapacityAfter(cap, ops) == cap
  {
    if ops != [] {
      assert !ops[|ops| - 1].Resize?;
      CapacityStays(cap, ops[..|ops| - 1]);
    }
  }

  lemma RecordedGrows(ops: seq<HistoryOp>, i: nat, m: nat)
    requires i < m <= |ops|
    ensures |Since(ops, i, m)| <= |Recorded(ops[i + 1..])|
  {
    var part, whole := ops[i + 1..m], ops[i + 1..];
    forall sig | sig in Recorded(part) ensures sig in Recorded(whole) {
      var q :| 0 <= q < |part| && part[q].Record? && part[q].sig == sig;
      assert whole[q] == part[q];
    }
    SubsetNotLarger(Recorded(part), Recorded(whole));
  }

  lemma FixedSurvives(k: nat, ops: seq<HistoryOp>, i: nat)
    requires i < |ops| && FixedCapacity(ops)
    ensures Survives(k, ops, i) <==> |Recorded(ops[i + 1..])| < k
  {
    RoomNow(k, ops, i);
    CapacityStays(k, ops);
    assert Survives(k, ops, i) ==> RoomAt(k, ops, i, |ops|);
    if |Recorded(ops[i + 1..])| < k {
      forall m | i < m <= |ops| ensures RoomAt(k, ops, i, m) {
        CapacityStays(k, ops[..m]);
        RecordedGrows(ops, i, m);
      }
    }
  }

  /** At a fixed capacity k a lookup finds exactly the k most recently recorded
      distinct signatures, each with its latest result. Lookups leave no trace. */
  lemma LastKDistinct(k: nat, ops: seq<HistoryOp>, sig: Signature, result: TransactionResult)
    requires FixedCapacity(ops)
    ensures Get(Run(WithCapacity(k), ops), sig) == Some(result) <==> exists i :: AmongLast(ops, i, sig, result, k)
  {
    FoundExactly(k, ops, sig, result);
    if i :| IsLatest(ops, i, sig, result) && Survives(k, ops, i) {
      FixedSurvives(k, ops, i);
      assert AmongLast(ops, i, sig, result, k);
    }
    if i :| AmongLast(ops, i, sig, result, k) {
      FixedSurvives(k, ops, i);
    }
  }

  // ----- Passing through zero -----

  /** Two histories that behave alike from now on. */
  predicate Alike(g: HistoryState, h: HistoryState) {
    g.entries == h.entries && g.max == h.max && (g.max != 0 ==> g.cap == h.cap)
  }

  lemma {:induction false} RunOfConcat(h: HistoryState, first: seq<HistoryOp>, second: seq<HistoryOp>)
    ensures Run(h, first + second) == Run(Run(h, first), second)
    decreases |second|
  {
    if second == [] {
      assert first + second == first;
    } else {
      assert (first + second)[..|first + second| - 1] == first + second[..|second| - 1];
      RunOfConcat(h, first, second[..|second| - 1]);
    }
  }

  lemma {:induction false} AlikeRuns(g: HistoryState, h: HistoryState, ops: seq<HistoryOp>)
    requires Alike(g, h)
    ensures Alike(Run(g, ops), Run(h, ops))
    decreases |ops|
  {
    if ops != [] {
      AlikeRuns(g, h, ops[..|ops| - 1]);
    }
  }

  /** Passing through capacity zero forgets everything: what follows behaves as
      it would on a history created disabled. */
  lemma ZeroForgets(h: HistoryState, before: seq<HistoryOp>, after: seq<HistoryOp>)
    ensures Alike(Run(h, before + [Resize(0)] + after), Run(WithCapacity(0), after))
  {
    RunOfConcat(h, before + [Resize(0)], after);
    assert (before + [Resize(0)])[..|before|] == before;
    AlikeRuns(Run(h, before + [Resize(0)]), WithCapacity(0), after);
  }
}
