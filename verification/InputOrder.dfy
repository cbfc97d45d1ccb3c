/** Serial runs against input order: a run whose order reverses no conflicting
    pair shows what running in input order shows. */
module InputOrder {
  import opened Types
  import opened Planner
  import opened Machine
  import opened StageRun
  import opened Commute
  import H = History

  function Range(k: nat, n: nat): seq<nat>
    requires k <= n
    decreases n - k
  {
    if k == n then [] else [k] + Range(k + 1, n)
  }

  lemma {:induction false} RangeMembers(k: nat, n: nat)
    requires k <= n
    ensures forall p :: 0 <= p < |Range(k, n)| ==> k <= Range(k, n)[p] < n
    decreases n - k
  {
    if k < n { RangeMembers(k + 1, n); }
  }

  /** Whenever the order reverses a pair, the two are independent. */
  ghost predicate ReversesIndependent(ex: Executor, recording: bool, txs: seq<Tx>, order: seq<nat>)
    requires InRange(txs, order)
  {
    forall p, q :: 0 <= p < q < |order| && order[q] < order[p] ==>
      Independent(ex, recording, txs[order[p]], txs[order[q]])
  }

  /** An order that reverses only independent pairs, on a history that evicts
      nothing, is equivalent to input order: same accounts, same result for every
      transaction, same history lookups. */
  lemma {:induction false} InputOrderEquivalence(
    sv: Services, ex: Executor, f: FlatState, txs: seq<Tx>, order: seq<nat>, k: nat, refused: set<nat>)
    requires k <= |txs| && InRange(txs, order) && Lists(order, k, |txs|)
    requires ReversesIndependent(ex, Recording(f), txs, order)
    requires H.Valid(f.history) && Roomy(f.history, |order|)
    ensures InRange(txs, Range(k, |txs|))
    ensures SameRun(sv, ex, f, txs, order, Range(k, |txs|), refused)
    decreases |txs| - k
  {
    RangeMembers(k, |txs|);
    if k == |txs| {
      ListsLength(order, k, k);
      EquivalentToItself(sv, ex, f, txs, order, refused);
    } else {
      assert k in order;
      var p :| 0 <= p < |order| && order[p] == k;
      var rest := order[..p] + order[p + 1..];
      BringFirst(sv, ex, f, txs, order, k, p, refused);
      WithoutFirst(ex, Recording(f), txs, order, k, p);
      StepKeepsHistory(sv, ex, f, txs, k, refused, |rest|);
      InputOrderEquivalence(sv, ex, Step(sv, ex, f, txs, k, refused), txs, rest, k + 1, refused);
      JoinFirst(sv, ex, f, txs, order, k, rest, Range(k + 1, |txs|), refused);
    }
  }

  /** The smallest index of an order can be run first. */
  lemma BringFirst(
    sv: Services, ex: Executor, f: FlatState, txs: seq<Tx>, order: seq<nat>, k: nat, p: nat, refused: set<nat>)
    requires k < |txs| && InRange(txs, order) && Lists(order, k, |txs|)
    requires ReversesIndependent(ex, Recording(f), txs, order)
    requires H.Valid(f.history) && Roomy(f.history, |order|)
    requires p < |order| && order[p] == k
    ensures InRange(txs, [k] + (order[..p] + order[p + 1..]))
    ensures SameRun(sv, ex, f, txs, order, [k] + (order[..p] + order[p + 1..]), refused)
  {
    var before, after := order[..p], order[p + 1..];
    forall q | 0 <= q < |before| ensures before[q] != k && Independent(ex, Recording(f), txs[before[q]], txs[k]) {
      assert order[q] in order && order[q] != order[p];
    }
    assert order == before + ([k] + after);
    MoveToFront(sv, ex, f, txs, before, k, after, refused);
  }

  lemma JoinFirst(
    sv: Services, ex: Executor, f: FlatState, txs: seq<Tx>, order: seq<nat>, k: nat, rest: seq<nat>, sorted: seq<nat>,
    refused: set<nat>)
    requires k < |txs| && InRange(txs, order) && InRange(txs, rest) && InRange(txs, sorted) && InRange(txs, [k] + rest)
    requires SameRun(sv, ex, f, txs, order, [k] + rest, refused)
    requires SameRun(sv, ex, Step(sv, ex, f, txs, k, refused), txs, rest, sorted, refused)
    ensures InRange(txs, [k] + sorted) && SameRun(sv, ex, f, txs, order, [k] + sorted, refused)
  {
    Prepend(sv, ex, f, txs, k, rest, sorted, refused);
    SameRunTransitive(sv, ex, f, txs, order, [k] + rest, [k] + sorted, refused);
  }

  lemma WithoutFirst(ex: Executor, recording: bool, txs: seq<Tx>, order: seq<nat>, k: nat, p: nat)
    requires k < |txs| && InRange(txs, order) && Lists(order, k, |txs|)
    requires ReversesIndependent(ex, recording, txs, order)
    requires p < |order| && order[p] == k
    ensures var rest := order[..p] + order[p + 1..];
            InRange(txs, rest) && Lists(rest, k + 1, |txs|) && ReversesIndependent(ex, recording, txs, rest)
  {
    var rest := order[..p] + order[p + 1..];
    forall q | 0 <= q < |rest| ensures rest[q] == order[if q < p then q else q + 1] {}
    RestLists(order, k, |txs|, p);
  }

  lemma RestLists(order: seq<nat>, k: nat, n: nat, p: nat)
    requires k < n && Lists(order, k, n) && p < |order| && order[p] == k
    ensures Lists(order[..p] + order[p + 1..], k + 1, n)
  {
    var rest := order[..p] + order[p + 1..];
    forall q | 0 <= q < |rest| ensures rest[q] == order[if q < p then q else q + 1] {}
    forall i: nat ensures i in rest <==> k + 1 <= i < n {
      if i in rest {
        var q :| 0 <= q < |rest| && rest[q] == i;
        assert order[if q < p then q else q + 1] == i;
        assert i in order;
      }
      if k + 1 <= i < n {
        assert i in order;
        var q :| 0 <= q < |order| && order[q] == i;
        assert rest[if q < p then q else q - 1] == i;
      }
    }
  }

  // ----- Accounts and results alone -----

  /** Two orders that end with the same accounts and give the same results. */
  ghost predicate SameShown(
    sv: Services, ex: Executor, f: FlatState, txs: seq<Tx>, order: seq<nat>, order': seq<nat>, refused: set<nat>)
    requires InRange(txs, order) && InRange(txs, order')
  {
    && Serial(sv, ex, f, txs, order, refused).known == Serial(sv, ex, f, txs, order', refused).known
    && SerialResults(sv, ex, f, txs, order, refused) == SerialResults(sv, ex, f, txs, order', refused)
  }

  /** With signatures unverified the history has no influence. */
  lemma {:induction false} HistoryIsIdle(
    sv: Services, ex: Executor, f: FlatState, g: FlatState, txs: seq<Tx>, order: seq<nat>, refused: set<nat>)
    requires InRange(txs, order) && !ex.sigverify && f.known == g.known
    ensures Serial(sv, ex, f, txs, order, refused).known == Serial(sv, ex, g, txs, order, refused).known
    ensures SerialResults(sv, ex, f, txs, order, refused) == SerialResults(sv, ex, g, txs, order, refused)
    decreases |order|
  {
    if order != [] {
      var tx := txs[order[0]];
      assert Outcome(sv, ex, f, tx) == Outcome(sv, ex, g, tx);
      HistoryIsIdle(
        sv, ex, Step(sv, ex, f, txs, order[0], refused), Step(sv, ex, g, txs, order[0], refused), txs, order[1..],
        refused);
    }
  }

  /** The order reverses no conflicting pair. */
  ghost predicate KeepsConflictOrder(ex: Executor, txs: seq<Tx>, order: seq<nat>)
    requires InRange(txs, order)
  {
    forall p, q :: 0 <= p < q < |order| && order[q] < order[p] ==>
      !Conflicts(LocksOf(ex, txs[order[p]]), LocksOf(ex, txs[order[q]]))
  }

  lemma ReversedAreIndependent(ex: Executor, recording: bool, txs: seq<Tx>, order: seq<nat>)
    requires InRange(txs, order) && KeepsConflictOrder(ex, txs, order)
    requires ex.sigverify || recording ==> RepeatsConflict(ex, txs)
    ensures ReversesIndependent(ex, recording, txs, order)
  {
    forall p, q | 0 <= p < q < |order| && order[q] < order[p]
      ensures Independent(ex, recording, txs[order[p]], txs[order[q]])
    {
      ConflictsSymmetric(LocksOf(ex, txs[order[p]]), LocksOf(ex, txs[order[q]]));
    }
  }

  /** An order that reverses no conflicting pair shows the accounts and the
      results of input order. What the history may not do, evict or repeat a
      signature of independent transactions, is asked only if it is consulted. */
  lemma ShownInInputOrder(sv: Services, ex: Executor, f: FlatState, txs: seq<Tx>, order: seq<nat>, refused: set<nat>)
    requires InRange(txs, order) && Lists(order, 0, |txs|) && KeepsConflictOrder(ex, txs, order)
    requires H.Valid(f.history) && CheckStable(ex, f.history, |txs|) && (ex.sigverify ==> RepeatsConflict(ex, txs))
    ensures InRange(txs, Range(0, |txs|)) && SameShown(sv, ex, f, txs, order, Range(0, |txs|), refused)
  {
    var idle := f.(history := H.WithCapacity(0));
    var base := if ex.sigverify then f else idle;
    RangeMembers(0, |txs|);
    ListsLength(order, 0, |txs|);
    ReversedAreIndependent(ex, Recording(base), txs, order);
    InputOrderEquivalence(sv, ex, base, txs, order, 0, refused);
    if !ex.sigverify {
      HistoryIsIdle(sv, ex, f, idle, txs, order, refused);
      HistoryIsIdle(sv, ex, f, idle, txs, Range(0, |txs|), refused);
    }
  }

  /** When nothing is evicted and repeated signatures conflict, the history
      answers every lookup as after input order too. */
  lemma LookupsInInputOrder(sv: Services, ex: Executor, f: FlatState, txs: seq<Tx>, order: seq<nat>, refused: set<nat>)
    requires InRange(txs, order) && Lists(order, 0, |txs|) && KeepsConflictOrder(ex, txs, order)
    requires H.Valid(f.history) && Roomy(f.history, |txs|) && RepeatsConflict(ex, txs)
    ensures InRange(txs, Range(0, |txs|)) && SameRun(sv, ex, f, txs, order, Range(0, |txs|), refused)
  {
    ListsLength(order, 0, |txs|);
    ReversedAreIndependent(ex, Recording(f), txs, order);
    InputOrderEquivalence(sv, ex, f, txs, order, 0, refused);
  }
}
