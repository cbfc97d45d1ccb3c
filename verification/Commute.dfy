/** Reordering serial runs: conflict-free neighbours commute, and a transaction
    moves to the front past transactions independent of it. */
module Commute {
  import opened Types
  import opened Store
  import opened Partition
  import opened View
  import opened Lifecycle
  import opened Planner
  import opened Machine
  import opened StageRun
  import H = History

  /** Histories that answer every lookup alike and hold as many entries. */
  ghost predicate SameLookups(g: H.HistoryState, h: H.HistoryState) {
    && g.max == h.max && |g.entries| == |h.entries|
    && forall sig: Signature :: H.Get(g, sig) == H.Get(h, sig)
  }

  /** States with the same accounts whose histories answer alike. */
  ghost predicate Equivalent(f: FlatState, g: FlatState) {
    && f.known == g.known
    && H.Valid(f.history) && H.Valid(g.history) && SameLookups(f.history, g.history)
  }

  lemma RecordKeepsSameLookups(g: H.HistoryState, h: H.HistoryState, sig: Signature, result: TransactionResult)
    requires H.Valid(g) && H.Valid(h) && SameLookups(g, h) && Roomy(g, 1)
    ensures SameLookups(H.Insert(g, sig, result), H.Insert(h, sig, result))
    ensures H.Valid(H.Insert(g, sig, result)) && H.Valid(H.Insert(h, sig, result))
  {
    RecordKeepsOthers(g, sig, result, sig);
    RecordKeepsOthers(h, sig, result, sig);
    assert H.Get(g, sig) == H.Get(h, sig);
    forall other: Signature ensures H.Get(H.Insert(g, sig, result), other) == H.Get(H.Insert(h, sig, result), other) {
      RecordKeepsOthers(g, sig, result, other);
      RecordKeepsOthers(h, sig, result, other);
      assert H.Get(g, other) == H.Get(h, other);
    }
  }

  lemma SettleKeepsEquivalent(f: FlatState, g: FlatState, d: DetachedTx)
    requires Equivalent(f, g) && Roomy(f.history, 1)
    ensures Equivalent(Settle(f, d), Settle(g, d))
  {
    if d.included {
      RecordKeepsSameLookups(f.history, g.history, d.meta.signature, ResultOf(d));
    }
  }

  lemma EquivalentOutcomes(sv: Services, ex: Executor, f: FlatState, g: FlatState, tx: Tx)
    requires Equivalent(f, g)
    ensures Outcome(sv, ex, f, tx) == Outcome(sv, ex, g, tx)
  {
    assert H.Get(f.history, tx.signature) == H.Get(g.history, tx.signature);
  }

  lemma {:induction false} SerialKeepsEquivalent(
    sv: Services, ex: Executor, f: FlatState, g: FlatState, txs: seq<Tx>, order: seq<nat>, refused: set<nat>)
    requires InRange(txs, order) && Equivalent(f, g) && Roomy(f.history, |order|)
    ensures Equivalent(Serial(sv, ex, f, txs, order, refused), Serial(sv, ex, g, txs, order, refused))
    ensures SerialResults(sv, ex, f, txs, order, refused) == SerialResults(sv, ex, g, txs, order, refused)
    decreases |order|
  {
    if order != [] {
      var tx := txs[order[0]];
      EquivalentOutcomes(sv, ex, f, g, tx);
      SettleKeepsEquivalent(f, g, Outcome(sv, ex, f, tx));
      StepKeepsHistory(sv, ex, f, txs, order[0], refused, |order| - 1);
      SerialKeepsEquivalent(
        sv, ex, Step(sv, ex, f, txs, order[0], refused), Step(sv, ex, g, txs, order[0], refused), txs, order[1..],
        refused);
    }
  }

  // ----- Swapping neighbours -----

  lemma {:induction false} OverwritesCommute(known: map<Address, Option<Account>>, xs: Delta, ys: Delta)
    requires Addresses(xs) !! Addresses(ys)
    ensures Overwrite(Overwrite(known, xs), ys) == Overwrite(Overwrite(known, ys), xs)
    decreases |xs|
  {
    if xs != [] {
      AddressesOfTail(xs);
      var a, value := xs[0].0, Stored(xs[0].1);
      OverwritesCommute(known[a := value], xs[1..], ys);
      UpdateCommutes(known, a, value, ys);
    }
  }

  lemma {:induction false} UpdateCommutes(
    known: map<Address, Option<Account>>, a: Address, value: Option<Account>, ys: Delta)
    requires a !in Addresses(ys)
    ensures Overwrite(known[a := value], ys) == Overwrite(known, ys)[a := value]
    decreases |ys|
  {
    if ys != [] {
      AddressesOfTail(ys);
      assert known[a := value][ys[0].0 := Stored(ys[0].1)] == known[ys[0].0 := Stored(ys[0].1)][a := value];
      UpdateCommutes(known[ys[0].0 := Stored(ys[0].1)], a, value, ys[1..]);
    }
  }

  lemma RecordsCommute(h: H.HistoryState, s: Signature, r: TransactionResult, s': Signature, r': TransactionResult)
    requires H.Valid(h) && Roomy(h, 2) && s != s'
    ensures var g, g' := H.Insert(H.Insert(h, s, r), s', r'), H.Insert(H.Insert(h, s', r'), s, r);
            H.Valid(g) && H.Valid(g') && SameLookups(g, g')
  {
    var h1, h2 := H.Insert(h, s, r), H.Insert(h, s', r');
    forall other: Signature
      ensures H.Get(H.Insert(h1, s', r'), other) == H.Get(H.Insert(h2, s, r), other)
    {
      RecordKeepsOthers(h, s, r, other);
      RecordKeepsOthers(h, s', r', other);
      RecordKeepsOthers(h, s, r, s');
      RecordKeepsOthers(h, s', r', s);
      RecordKeepsOthers(h1, s', r', other);
      RecordKeepsOthers(h2, s, r, other);
      RecordKeepsOthers(h1, s', r', s);
      RecordKeepsOthers(h2, s, r, s');
    }
    RecordKeepsOthers(h, s, r, s');
    RecordKeepsOthers(h, s', r', s);
    RecordKeepsOthers(h1, s', r', s);
    RecordKeepsOthers(h2, s, r, s');
  }

  /** Two transactions that may trade places. Their signatures matter only if
      the history is consulted or kept. */
  predicate Independent(ex: Executor, recording: bool, x: Tx, y: Tx) {
    !Conflicts(LocksOf(ex, x), LocksOf(ex, y)) && (ex.sigverify || recording ==> x.signature != y.signature)
  }

  predicate Recording(f: FlatState) {
    f.history.max != 0
  }

  lemma IndependentDeltas(
    ex: Executor, x: Tx, vx: AccountView, sx: bool, y: Tx, vy: AccountView, sy: bool, enabled: bool)
    requires !Conflicts(LocksOf(ex, x), LocksOf(ex, y))
    ensures Addresses(DeltaOf(TransactDetached(ex, x, vx, sx), enabled).postAccounts) !!
            Addresses(DeltaOf(TransactDetached(ex, y, vy, sy), enabled).postAccounts)
  {
    OutcomeWritesLocked(ex, x, vx, sx, enabled);
    OutcomeWritesLocked(ex, y, vy, sy, enabled);
    ConflictFreeMeansUnobserved(ex, x, y);
  }

  lemma SettlesCommute(f: FlatState, d: DetachedTx, e: DetachedTx)
    requires H.Valid(f.history) && Roomy(f.history, 2)
    requires var enabled := f.history.max != 0;
             Addresses(DeltaOf(d, enabled).postAccounts) !! Addresses(DeltaOf(e, enabled).postAccounts)
    requires d.included && e.included && Recording(f) ==> d.meta.signature != e.meta.signature
    ensures Equivalent(Settle(Settle(f, d), e), Settle(Settle(f, e), d))
  {
    var enabled := f.history.max != 0;
    OverwritesCommute(f.known, DeltaOf(d, enabled).postAccounts, DeltaOf(e, enabled).postAccounts);
    if !Recording(f) {
      assert Settle(f, d).history == f.history && Settle(f, e).history == f.history;
    } else if d.included && e.included {
      RecordsCommute(f.history, d.meta.signature, ResultOf(d), e.meta.signature, ResultOf(e));
    } else if d.included {
      RecordKeepsOthers(f.history, d.meta.signature, ResultOf(d), 0);
    } else if e.included {
      RecordKeepsOthers(f.history, e.meta.signature, ResultOf(e), 0);
    }
  }

  /** Sending two independent transactions in either order gives equivalent
      states and gives each the same outcome. */
  lemma SendsCommute(sv: Services, ex: Executor, f: FlatState, x: Tx, y: Tx)
    requires Independent(ex, Recording(f), x, y) && H.Valid(f.history) && Roomy(f.history, 2)
    ensures Equivalent(Send(sv, ex, Send(sv, ex, f, x), y), Send(sv, ex, Send(sv, ex, f, y), x))
    ensures Outcome(sv, ex, Send(sv, ex, f, x), y) == Outcome(sv, ex, f, y)
    ensures Outcome(sv, ex, Send(sv, ex, f, y), x) == Outcome(sv, ex, f, x)
  {
    var vx, sx := Observe(sv, ex, f.known, x), H.Check(f.history, x.signature);
    var vy, sy := Observe(sv, ex, f.known, y), H.Check(f.history, y.signature);
    ConflictsSymmetric(LocksOf(ex, x), LocksOf(ex, y));
    CompatibleKeepsOutcome(sv, ex, f, x, vx, sx, y, 1);
    CompatibleKeepsOutcome(sv, ex, f, y, vy, sy, x, 1);
    IndependentDeltas(ex, x, vx, sx, y, vy, sy, f.history.max != 0);
    OutcomeWritesLocked(ex, x, vx, sx, true);
    OutcomeWritesLocked(ex, y, vy, sy, true);
    SettlesCommute(f, Outcome(sv, ex, f, x), Outcome(sv, ex, f, y));
  }

  /** The same when one of the two, or both, are refused. */
  lemma StepsCommute(sv: Services, ex: Executor, f: FlatState, txs: seq<Tx>, x: nat, y: nat, refused: set<nat>)
    requires x < |txs| && y < |txs| && Independent(ex, Recording(f), txs[x], txs[y]) && H.Valid(f.history)
    requires Roomy(f.history, 2)
    ensures Equivalent(
              Step(sv, ex, Step(sv, ex, f, txs, x, refused), txs, y, refused),
              Step(sv, ex, Step(sv, ex, f, txs, y, refused), txs, x, refused))
    ensures Outcome(sv, ex, Step(sv, ex, f, txs, x, refused), txs[y]) == Outcome(sv, ex, f, txs[y])
    ensures Outcome(sv, ex, Step(sv, ex, f, txs, y, refused), txs[x]) == Outcome(sv, ex, f, txs[x])
  {
    SendsCommute(sv, ex, f, txs[x], txs[y]);
    SendKeepsHistory(sv, ex, f, txs[x], 1);
    SendKeepsHistory(sv, ex, f, txs[y], 1);
  }

  lemma EquivalentTransitive(f: FlatState, g: FlatState, h: FlatState)
    requires Equivalent(f, g) && Equivalent(g, h)
    ensures Equivalent(f, h)
  {
    forall sig: Signature ensures H.Get(f.history, sig) == H.Get(h.history, sig) {
      assert H.Get(f.history, sig) == H.Get(g.history, sig);
    }
  }

  /** Two orders that end in equivalent states with the same results. */
  ghost predicate SameRun(
    sv: Services, ex: Executor, f: FlatState, txs: seq<Tx>, order: seq<nat>, order': seq<nat>, refused: set<nat>)
    requires InRange(txs, order) && InRange(txs, order')
  {
    && Equivalent(Serial(sv, ex, f, txs, order, refused), Serial(sv, ex, f, txs, order', refused))
    && SerialResults(sv, ex, f, txs, order, refused) == SerialResults(sv, ex, f, txs, order', refused)
  }

  lemma SameRunTransitive(
    sv: Services, ex: Executor, f: FlatState, txs: seq<Tx>, order: seq<nat>, mid: seq<nat>, order': seq<nat>,
    refused: set<nat>)
    requires InRange(txs, order) && InRange(txs, mid) && InRange(txs, order')
    requires SameRun(sv, ex, f, txs, order, mid, refused) && SameRun(sv, ex, f, txs, mid, order', refused)
    ensures SameRun(sv, ex, f, txs, order, order', refused)
  {
    EquivalentTransitive(
      Serial(
        sv, ex, f, txs, order, refused), Serial(sv, ex, f, txs, mid, refused), Serial(sv, ex, f, txs, order', refused));
  }

  lemma SwapEnds(
    sv: Services, ex: Executor, f: FlatState, txs: seq<Tx>, x: nat, y: nat, rest: seq<nat>, refused: set<nat>)
    requires x < |txs| && y < |txs| && InRange(txs, rest)
    requires Independent(ex, Recording(f), txs[x], txs[y]) && H.Valid(f.history) && Roomy(f.history, |rest| + 2)
    ensures var fxy := Step(sv, ex, Step(sv, ex, f, txs, x, refused), txs, y, refused);
            var fyx := Step(sv, ex, Step(sv, ex, f, txs, y, refused), txs, x, refused);
            && Equivalent(Serial(sv, ex, fxy, txs, rest, refused), Serial(sv, ex, fyx, txs, rest, refused))
            && SerialResults(sv, ex, fxy, txs, rest, refused) == SerialResults(sv, ex, fyx, txs, rest, refused)
  {
    var fx, fy := Step(sv, ex, f, txs, x, refused), Step(sv, ex, f, txs, y, refused);
    StepsCommute(sv, ex, f, txs, x, y, refused);
    StepKeepsHistory(sv, ex, f, txs, x, refused, |rest| + 1);
    StepKeepsHistory(sv, ex, fx, txs, y, refused, |rest|);
    SerialKeepsEquivalent(
      sv, ex, Step(sv, ex, fx, txs, y, refused), Step(sv, ex, fy, txs, x, refused), txs, rest, refused);
  }

  lemma UpdatesSwap(m: map<nat, TransactionResult>, x: nat, rx: TransactionResult, y: nat, ry: TransactionResult)
    requires x != y
    ensures m[x := rx][y := ry] == m[y := ry][x := rx]
  {}

  /** The first two of a run may trade places when they are independent. */
  lemma SwapFirstTwo(
    sv: Services, ex: Executor, f: FlatState, txs: seq<Tx>, x: nat, y: nat, rest: seq<nat>, refused: set<nat>)
    requires x < |txs| && y < |txs| && x != y && InRange(txs, rest)
    requires Independent(ex, Recording(f), txs[x], txs[y]) && H.Valid(f.history) && Roomy(f.history, |rest| + 2)
    ensures SameRun(sv, ex, f, txs, [x, y] + rest, [y, x] + rest, refused)
  {
    SwapEnds(sv, ex, f, txs, x, y, rest, refused);
    StepsCommute(sv, ex, f, txs, x, y, refused);
    UnfoldTwo(sv, ex, f, txs, x, y, rest, refused);
    UnfoldTwo(sv, ex, f, txs, y, x, rest, refused);
    var fxy := Step(sv, ex, Step(sv, ex, f, txs, x, refused), txs, y, refused);
    UpdatesSwap(
      SerialResults(sv, ex, fxy, txs, rest, refused),
      x, ResultOf(Outcome(sv, ex, f, txs[x])), y, ResultOf(Outcome(sv, ex, f, txs[y])));
  }

  lemma UnfoldTwo(
    sv: Services, ex: Executor, f: FlatState, txs: seq<Tx>, x: nat, y: nat, rest: seq<nat>, refused: set<nat>)
    requires x < |txs| && y < |txs| && InRange(txs, rest)
    ensures var fx := Step(sv, ex, f, txs, x, refused);
            var fxy := Step(sv, ex, fx, txs, y, refused);
            && InRange(txs, [x, y] + rest)
            && Serial(sv, ex, f, txs, [x, y] + rest, refused) == Serial(sv, ex, fxy, txs, rest, refused)
            && SerialResults(sv, ex, f, txs, [x, y] + rest, refused) ==
               SerialResults(sv, ex, fxy, txs, rest, refused)
                 [y := ResultOf(Outcome(sv, ex, fx, txs[y]))][x := ResultOf(Outcome(sv, ex, f, txs[x]))]
  {
    assert ([x, y] + rest)[1..] == [y] + rest;
    assert ([y] + rest)[1..] == rest;
  }

  lemma Prepend(
    sv: Services, ex: Executor, f: FlatState, txs: seq<Tx>, x: nat, order: seq<nat>, order': seq<nat>,
    refused: set<nat>)
    requires x < |txs| && InRange(txs, order) && InRange(txs, order')
    requires SameRun(sv, ex, Step(sv, ex, f, txs, x, refused), txs, order, order', refused)
    ensures InRange(txs, [x] + order) && InRange(txs, [x] + order')
    ensures SameRun(sv, ex, f, txs, [x] + order, [x] + order', refused)
  {
    assert ([x] + order)[1..] == order && ([x] + order')[1..] == order';
  }

  lemma MoveOnePlace(
    sv: Services, ex: Executor, f: FlatState, txs: seq<Tx>, x: nat, m: nat, moved: seq<nat>, rest: seq<nat>,
    refused: set<nat>)
    requires x < |txs| && m < |txs| && x != m && InRange(txs, moved) && InRange(txs, rest) && InRange(txs, [m] + rest)
    requires Independent(ex, Recording(f), txs[x], txs[m]) && H.Valid(f.history) && Roomy(f.history, |rest| + 2)
    requires SameRun(sv, ex, Step(sv, ex, f, txs, x, refused), txs, moved, [m] + rest, refused)
    ensures InRange(txs, [x] + moved) && InRange(txs, [m, x] + rest)
    ensures SameRun(sv, ex, f, txs, [x] + moved, [m, x] + rest, refused)
  {
    Prepend(sv, ex, f, txs, x, moved, [m] + rest, refused);
    SwapFirstTwo(sv, ex, f, txs, x, m, rest, refused);
    assert [x] + ([m] + rest) == [x, m] + rest;
    SameRunTransitive(sv, ex, f, txs, [x] + moved, [x, m] + rest, [m, x] + rest, refused);
  }

  lemma Shapes(before: seq<nat>, m: nat, after: seq<nat>)
    requires before != []
    ensures before + ([m] + after) == [before[0]] + (before[1..] + ([m] + after))
    ensures [m] + (before + after) == [m, before[0]] + (before[1..] + after)
  {}

  /** A transaction moves to the front past transactions independent of it. */
  lemma {:induction false} MoveToFront(
    sv: Services, ex: Executor, f: FlatState, txs: seq<Tx>, before: seq<nat>, m: nat, after: seq<nat>,
    refused: set<nat>)
    requires InRange(txs, before) && m < |txs| && InRange(txs, after)
    requires forall p :: 0 <= p < |before| ==> before[p] != m && Independent(ex, Recording(f), txs[before[p]], txs[m])
    requires H.Valid(f.history) && Roomy(f.history, |before| + 1 + |after|)
    ensures InRange(txs, before + ([m] + after)) && InRange(txs, [m] + (before + after))
    ensures SameRun(sv, ex, f, txs, before + ([m] + after), [m] + (before + after), refused)
    decreases |before|
  {
    if before == [] {
      assert before + ([m] + after) == [m] + (before + after);
      EquivalentToItself(sv, ex, f, txs, [m] + (before + after), refused);
    } else {
      var x, rest := before[0], before[1..];
      StepKeepsHistory(sv, ex, f, txs, x, refused, |rest| + 1 + |after|);
      MoveToFront(sv, ex, Step(sv, ex, f, txs, x, refused), txs, rest, m, after, refused);
      MoveOnePlace(sv, ex, f, txs, x, m, rest + ([m] + after), rest + after, refused);
      Shapes(before, m, after);
    }
  }

  lemma {:induction false} EquivalentToItself(
    sv: Services, ex: Executor, f: FlatState, txs: seq<Tx>, order: seq<nat>, refused: set<nat>)
    requires InRange(txs, order) && H.Valid(f.history)
    ensures SameRun(sv, ex, f, txs, order, order, refused)
    decreases |order|
  {
    if order != [] {
      StepKeepsHistory(sv, ex, f, txs, order[0], refused, 0);
      EquivalentToItself(sv, ex, Step(sv, ex, f, txs, order[0], refused), txs, order[1..], refused);
    }
  }
}
