/** Where the planner puts a transaction, told from the keys and lookup tables of
    the transactions themselves. */
module Placement {
  import opened Types
  import opened Planner
  import opened Machine
  import opened Batch
  import opened Serializability

  // ----- What a transaction locks -----

  /** The transaction names the account writable, and nobody reserved it. */
  ghost predicate Writes(ex: Executor, tx: Tx, a: Address) {
    a !in ex.reserved && exists k :: 0 <= k < |tx.keys| && tx.keys[k].address == a && tx.keys[k].writable
  }

  /** The transaction names the account as a key or looks keys up in it. */
  ghost predicate Uses(tx: Tx, a: Address) {
    a in tx.lookups || exists k :: 0 <= k < |tx.keys| && tx.keys[k].address == a
  }

  /** It names the account as a key it may not write, or looks keys up in it. */
  ghost predicate Shares(ex: Executor, tx: Tx, a: Address) {
    || a in tx.lookups
    || exists k :: 0 <= k < |tx.keys| && tx.keys[k].address == a && (!tx.keys[k].writable || a in ex.reserved)
  }

  /** One of the two may write an account the other uses. */
  ghost predicate Interfere(ex: Executor, x: Tx, y: Tx) {
    exists a :: (Writes(ex, x, a) && Uses(y, a)) || (Writes(ex, y, a) && Uses(x, a))
  }

  /** The locks are exactly the accounts a transaction writes and those it shares. */
  lemma LocksExactly(ex: Executor, tx: Tx, a: Address)
    ensures a in LocksOf(ex, tx).writable <==> Writes(ex, tx, a)
    ensures a in LocksOf(ex, tx).readonly <==> Shares(ex, tx, a)
    ensures Uses(tx, a) <==> a in LocksOf(ex, tx).writable || a in LocksOf(ex, tx).readonly
  {
    if k :| 0 <= k < |tx.keys| && tx.keys[k].address == a {
      assert IsWritable(ex, tx.keys[k]) || a in LocksOf(ex, tx).readonly;
    }
  }

  lemma ConflictsExactly(ex: Executor, x: Tx, y: Tx)
    ensures Conflicts(LocksOf(ex, x), LocksOf(ex, y)) <==> Interfere(ex, x, y)
  {
    var p, q := LocksOf(ex, x), LocksOf(ex, y);
    forall a
      ensures Writes(ex, x, a) <==> a in p.writable
      ensures Writes(ex, y, a) <==> a in q.writable
      ensures Uses(x, a) <==> a in p.writable || a in p.readonly
      ensures Uses(y, a) <==> a in q.writable || a in q.readonly
    {
      LocksExactly(ex, x, a);
      LocksExactly(ex, y, a);
    }
    if Interfere(ex, x, y) {
      var a :| (Writes(ex, x, a) && Uses(y, a)) || (Writes(ex, y, a) && Uses(x, a));
      assert a in p.writable * q.writable || a in p.writable * q.readonly || a in p.readonly * q.writable;
    }
    if Conflicts(p, q) {
      var a :| a in p.writable * q.writable || a in p.writable * q.readonly || a in p.readonly * q.writable;
      assert (Writes(ex, x, a) && Uses(y, a)) || (Writes(ex, y, a) && Uses(x, a));
    }
  }

  /** Transactions of which one may write what the other uses, as a key or as a
      lookup table, are never in the same stage. */
  lemma InterferingApart(ex: Executor, txs: seq<Tx>, i: nat, j: nat, s: int, t: int)
    requires i < |txs| && j < |txs| && i != j && Interfere(ex, txs[i], txs[j])
    requires InStage(PlanFor(ex, txs), s, i) && InStage(PlanFor(ex, txs), t, j)
    ensures s != t
  {
    PlanIsConflictFree(ex, txs);
    ConflictsExactly(ex, txs[i], txs[j]);
    if s == t {
      SameStageIsConflictFree(ex, txs, PlanFor(ex, txs), s, i, j);
    }
  }

  // ----- How much a stage covers -----

  /** The accounts some member of a stage may write. */
  ghost function WrittenIn(ex: Executor, txs: seq<Tx>, members: seq<nat>): set<Address>
    requires InRange(txs, members)
  {
    set p, k | 0 <= p < |members| && 0 <= k < |txs[members[p]].keys| && txs[members[p]].keys[k].writable
               && txs[members[p]].keys[k].address !in ex.reserved :: txs[members[p]].keys[k].address
  }

  /** The accounts some member of a stage shares. */
  ghost function SharedIn(ex: Executor, txs: seq<Tx>, members: seq<nat>): set<Address>
    requires InRange(txs, members)
  {
    (set p, k | 0 <= p < |members| && 0 <= k < |txs[members[p]].keys|
                && (!txs[members[p]].keys[k].writable || txs[members[p]].keys[k].address in ex.reserved)
       :: txs[members[p]].keys[k].address)
    + set p, a | 0 <= p < |members| && a in txs[members[p]].lookups :: a
  }

  /** The size of a stage: the accounts its members may write, each once, and
      those they share, each once. */
  ghost function Size(ex: Executor, txs: seq<Tx>, members: seq<nat>): nat
    requires InRange(txs, members)
  {
    |WrittenIn(ex, txs, members)| + |SharedIn(ex, txs, members)|
  }

  lemma WrittenExactly(ex: Executor, txs: seq<Tx>, members: seq<nat>, a: Address)
    requires InRange(txs, members)
    ensures a in WrittenIn(ex, txs, members) <==> exists p :: 0 <= p < |members| && Writes(ex, txs[members[p]], a)
    ensures a in SharedIn(ex, txs, members) <==> exists p :: 0 <= p < |members| && Shares(ex, txs[members[p]], a)
  {}

  // ----- The choice of a stage -----

  /** Every stage lists transactions of the batch and locks exactly what they lock. */
  ghost predicate LocksMatch(ex: Executor, txs: seq<Tx>, stages: seq<Stage>) {
    forall s :: 0 <= s < |stages| ==> StageMatches(ex, txs, stages[s])
  }

  ghost predicate StageMatches(ex: Executor, txs: seq<Tx>, stage: Stage) {
    && InRange(txs, stage.indexes)
    && stage.locks.writable == WrittenIn(ex, txs, stage.indexes)
    && stage.locks.readonly == SharedIn(ex, txs, stage.indexes)
  }

  lemma GrownMatches(ex: Executor, txs: seq<Tx>, members: seq<nat>, i: nat)
    requires InRange(txs, members) && i < |txs|
    ensures InRange(txs, members + [i])
    ensures WrittenIn(ex, txs, members + [i]) == WrittenIn(ex, txs, members) + LocksOf(ex, txs[i]).writable
    ensures SharedIn(ex, txs, members + [i]) == SharedIn(ex, txs, members) + LocksOf(ex, txs[i]).readonly
  {
    var all := members + [i];
    assert all[|members|] == i && all[..|members|] == members;
    forall a
      ensures a in WrittenIn(ex, txs, all) <==> a in WrittenIn(ex, txs, members) || a in LocksOf(ex, txs[i]).writable
      ensures a in SharedIn(ex, txs, all) <==> a in SharedIn(ex, txs, members) || a in LocksOf(ex, txs[i]).readonly
    {
      LocksExactly(ex, txs[i], a);
      WrittenExactly(ex, txs, members, a);
      WrittenExactly(ex, txs, all, a);
      assert forall p :: 0 <= p < |members| ==> all[p] == members[p];
      assert forall p :: 0 <= p < |all| && p != |members| ==> all[p] == members[p];
    }
  }

  lemma NoneMatches(ex: Executor, txs: seq<Tx>)
    ensures InRange(txs, []) && WrittenIn(ex, txs, []) == {} && SharedIn(ex, txs, []) == {}
  {}

  lemma PlaceKeepsMatch(ex: Executor, txs: seq<Tx>, stages: seq<Stage>, i: nat)
    requires LocksMatch(ex, txs, stages) && i < |txs|
    ensures LocksMatch(ex, txs, Place(stages, i, LocksOf(ex, txs[i])))
  {
    match BestFit(stages, LocksOf(ex, txs[i]), |stages|)
    case Some(k) =>
      assert StageMatches(ex, txs, stages[k]);
      GrownMatches(ex, txs, stages[k].indexes, i);
    case None =>
      NoneMatches(ex, txs);
      GrownMatches(ex, txs, [], i);
      assert [] + [i] == [i];
  }

  lemma {:induction false} PlanMatches(ex: Executor, txs: seq<Tx>, n: nat)
    requires n <= |txs|
    ensures LocksMatch(ex, txs, PlanOf(AllLocks(ex, txs), n))
  {
    if n == 0 {
      NoStagesMatch(ex, txs, PlanOf(AllLocks(ex, txs), n));
    } else {
      PlanMatches(ex, txs, n - 1);
      PlanStep(ex, txs, n - 1);
      PlaceKeepsMatch(ex, txs, PlanOf(AllLocks(ex, txs), n - 1), n - 1);
    }
  }

  lemma NoStagesMatch(ex: Executor, txs: seq<Tx>, stages: seq<Stage>)
    requires stages == []
    ensures LocksMatch(ex, txs, stages)
  {}

  /** No member interferes with the transaction. */
  ghost predicate Free(ex: Executor, txs: seq<Tx>, members: seq<nat>, i: nat)
    requires InRange(txs, members) && i < |txs|
  {
    forall p :: 0 <= p < |members| ==> !Interfere(ex, txs[members[p]], txs[i])
  }

  /** Stage `k` is free, no free stage is smaller, and every earlier free one is larger. */
  ghost predicate Smallest(ex: Executor, txs: seq<Tx>, stages: seq<Stage>, i: nat, k: int)
    requires i < |txs| && forall s :: 0 <= s < |stages| ==> InRange(txs, stages[s].indexes)
  {
    && 0 <= k < |stages| && Free(ex, txs, stages[k].indexes, i)
    && (forall j :: 0 <= j < |stages| && Free(ex, txs, stages[j].indexes, i) ==>
          Size(ex, txs, stages[k].indexes) <= Size(ex, txs, stages[j].indexes))
    && (forall j :: 0 <= j < k && Free(ex, txs, stages[j].indexes, i) ==>
          Size(ex, txs, stages[k].indexes) < Size(ex, txs, stages[j].indexes))
  }

  /** The members of each stage. */
  function Members(stages: seq<Stage>): seq<seq<nat>> {
    seq(|stages|, s requires 0 <= s < |stages| => stages[s].indexes)
  }

  lemma FreeExactly(ex: Executor, txs: seq<Tx>, stage: Stage, i: nat)
    requires StageMatches(ex, txs, stage) && i < |txs|
    ensures Free(ex, txs, stage.indexes, i) <==> !Conflicts(stage.locks, LocksOf(ex, txs[i]))
  {
    var members, lock := stage.indexes, LocksOf(ex, txs[i]);
    if !Free(ex, txs, members, i) {
      var p :| 0 <= p < |members| && Interfere(ex, txs[members[p]], txs[i]);
      ConflictsExactly(ex, txs[members[p]], txs[i]);
      MemberLocks(ex, txs, stage, p);
      LargerConflicts(LocksOf(ex, txs[members[p]]), stage.locks, lock);
    }
    if Conflicts(stage.locks, lock) {
      var p := ConflictingMember(ex, txs, stage, lock);
      ConflictsExactly(ex, txs[members[p]], txs[i]);
    }
  }

  lemma MemberLocks(ex: Executor, txs: seq<Tx>, stage: Stage, p: nat)
    requires StageMatches(ex, txs, stage) && p < |stage.indexes|
    ensures LocksOf(ex, txs[stage.indexes[p]]).writable <= stage.locks.writable
    ensures LocksOf(ex, txs[stage.indexes[p]]).readonly <= stage.locks.readonly
  {
    forall a
      ensures a in LocksOf(ex, txs[stage.indexes[p]]).writable ==> a in stage.locks.writable
      ensures a in LocksOf(ex, txs[stage.indexes[p]]).readonly ==> a in stage.locks.readonly
    {
      LocksExactly(ex, txs[stage.indexes[p]], a);
      WrittenExactly(ex, txs, stage.indexes, a);
    }
  }

  lemma LargerConflicts(x: LockSet, y: LockSet, lock: LockSet)
    requires x.writable <= y.writable && x.readonly <= y.readonly && Conflicts(x, lock)
    ensures Conflicts(y, lock)
  {
    var a :| a in x.writable * lock.writable || a in x.writable * lock.readonly || a in x.readonly * lock.writable;
    assert a in y.writable * lock.writable || a in y.writable * lock.readonly || a in y.readonly * lock.writable;
  }

  lemma ConflictingMember(ex: Executor, txs: seq<Tx>, stage: Stage, lock: LockSet) returns (p: nat)
    requires StageMatches(ex, txs, stage) && Conflicts(stage.locks, lock)
    ensures p < |stage.indexes| && Conflicts(LocksOf(ex, txs[stage.indexes[p]]), lock)
  {
    var x, members := stage.locks, stage.indexes;
    var a :| a in x.writable * lock.writable || a in x.writable * lock.readonly || a in x.readonly * lock.writable;
    WrittenExactly(ex, txs, members, a);
    if a in x.writable && (a in lock.writable || a in lock.readonly) {
      p :| 0 <= p < |members| && Writes(ex, txs[members[p]], a);
      LocksExactly(ex, txs[members[p]], a);
      var y := LocksOf(ex, txs[members[p]]);
      assert a in y.writable * lock.writable || a in y.writable * lock.readonly;
    } else {
      p :| 0 <= p < |members| && Shares(ex, txs[members[p]], a);
      LocksExactly(ex, txs[members[p]], a);
      assert a in LocksOf(ex, txs[members[p]]).readonly * lock.writable;
    }
  }

  lemma SmallestExactly(ex: Executor, txs: seq<Tx>, stages: seq<Stage>, i: nat, k: int)
    requires LocksMatch(ex, txs, stages) && i < |txs|
    ensures Smallest(ex, txs, stages, i, k) <==> FirstLightest(stages, LocksOf(ex, txs[i]), k)
  {
    forall s | 0 <= s < |stages|
      ensures Free(ex, txs, stages[s].indexes, i) <==> !Conflicts(stages[s].locks, LocksOf(ex, txs[i]))
      ensures Size(ex, txs, stages[s].indexes) == Covered(stages[s])
    {
      FreeExactly(ex, txs, stages[s], i);
    }
  }

  /** Transaction `n` joins the smallest stage free of interference, the first of
      equal ones, and opens a new stage exactly when there is none; every other
      stage stays as it was. */
  lemma JoinsSmallest(ex: Executor, txs: seq<Tx>, n: nat)
    requires n < |txs|
    ensures var before, after := PlanOf(AllLocks(ex, txs), n), PlanOf(AllLocks(ex, txs), n + 1);
            && LocksMatch(ex, txs, before)
            && (forall k :: Smallest(ex, txs, before, n, k) <==>
                  0 <= k < |before| && Members(after) == Members(before)[k := before[k].indexes + [n]])
            && ((forall s :: 0 <= s < |before| ==> !Free(ex, txs, before[s].indexes, n)) <==>
                  Members(after) == Members(before) + [[n]])
  {
    var before, lock := PlanOf(AllLocks(ex, txs), n), LocksOf(ex, txs[n]);
    PlanMatches(ex, txs, n);
    BestFitIsFirstLightest(before, lock);
    forall k ensures Smallest(ex, txs, before, n, k) <==> FirstLightest(before, lock, k) {
      SmallestExactly(ex, txs, before, n, k);
    }
    forall s | 0 <= s < |before| ensures Free(ex, txs, before[s].indexes, n) <==> !Conflicts(before[s].locks, lock) {
      FreeExactly(ex, txs, before[s], n);
    }
    PlaceChanges(before, n, lock);
  }

  /** Placing a transaction changes the members of exactly the chosen stage. */
  lemma PlaceChanges(stages: seq<Stage>, i: nat, lock: LockSet)
    ensures var members, best := Members(Place(stages, i, lock)), BestFit(stages, lock, |stages|);
            && (forall k :: best == Some(k) <==>
                  0 <= k < |stages| && members == Members(stages)[k := stages[k].indexes + [i]])
            && (best == None <==> members == Members(stages) + [[i]])
  {
    var members, best := Members(Place(stages, i, lock)), BestFit(stages, lock, |stages|);
    match best
    case Some(k) =>
      assert members == Members(stages)[k := stages[k].indexes + [i]];
      forall j | 0 <= j < |stages| && members == Members(stages)[j := stages[j].indexes + [i]] ensures j == k {
        assert members[j] == stages[j].indexes + [i];
        assert |members[j]| == |stages[j].indexes| + 1;
      }
    case None =>
      assert members == Members(stages) + [[i]];
  }

  /** A writer of one account that reads three others makes a larger stage than a
      second writer: a third transaction, independent of both, joins the latter. */
  lemma LighterStageWins(a: Address, r1: Address, r2: Address, r3: Address, c: Address)
    requires a != c && r1 != r2 && r1 != r3 && r2 != r3 && c !in {r1, r2, r3} && a !in {r1, r2, r3}
    ensures var locks := [LockSet({r1, r2, r3}, {a}), LockSet({}, {a}), LockSet({}, {c})];
            Members(PlanOf(locks, 3)) == [[0], [1, 2]]
  {
    var x, y, z := LockSet({r1, r2, r3}, {a}), LockSet({}, {a}), LockSet({}, {c});
    assert a in x.writable * y.writable && |x.readonly| == 3;
    assert !Conflicts(x, z) && !Conflicts(y, z);
    assert PlanOf([x, y, z], 1) == [Stage([0], x)];
    SecondOpens(x, y);
    assert PlanOf([x, y, z], 2) == [Stage([0], x), Stage([1], y)];
    ThirdJoinsSecond(x, y, z);
  }

  lemma SecondOpens(x: LockSet, y: LockSet)
    requires Conflicts(x, y)
    ensures Place([Stage([0], x)], 1, y) == [Stage([0], x), Stage([1], y)]
  {
    assert BestFit([Stage([0], x)], y, 0) == None;
  }

  lemma ThirdJoinsSecond(x: LockSet, y: LockSet, z: LockSet)
    requires !Conflicts(x, z) && !Conflicts(y, z)
    requires |y.writable| + |y.readonly| < |x.writable| + |x.readonly|
    ensures Members(Place([Stage([0], x), Stage([1], y)], 2, z)) == [[0], [1, 2]]
  {
    var stages := [Stage([0], x), Stage([1], y)];
    assert BestFit(stages, z, 1) == Some(0);
    assert BestFit(stages, z, 2) == Some(1);
    assert [1] + [2] == [1, 2];
  }

  // ----- The keys a stage is warmed up with -----

  /** The static keys of the members, one after the other. */
  function StaticUses(txs: seq<Tx>, members: seq<nat>): seq<Address>
    requires InRange(txs, members)
  {
    if members == [] then []
    else
      var n := |members| - 1;
      var tx := txs[members[n]];
      StaticUses(txs, members[..n]) +
      seq(if tx.numStatic <= |tx.keys| then tx.numStatic else |tx.keys|,
          k requires 0 <= k < |tx.keys| => tx.keys[k].address)
  }

  /** A list of the same addresses, each once, in the order of their first use. */
  ghost predicate InFirstUseOrder(keys: seq<Address>, uses: seq<Address>) {
    && (forall a :: a in keys <==> a in uses)
    && (forall i, j :: 0 <= i < j < |keys| ==> UsedBefore(uses, keys[i], keys[j]))
  }

  ghost predicate UsedBefore(uses: seq<Address>, a: Address, b: Address) {
    exists p :: 0 <= p < |uses| && uses[p] == a && b !in uses[..p + 1]
  }

  lemma UsedBeforeGrows(uses: seq<Address>, a: Address, b: Address, x: Address)
    requires UsedBefore(uses, a, b)
    ensures UsedBefore(uses + [x], a, b)
  {
    var p :| 0 <= p < |uses| && uses[p] == a && b !in uses[..p + 1];
    assert (uses + [x])[p] == a && (uses + [x])[..p + 1] == uses[..p + 1];
  }

  lemma NextUse(keys: seq<Address>, uses: seq<Address>, x: Address)
    requires InFirstUseOrder(keys, uses)
    ensures InFirstUseOrder(if x in keys then keys else keys + [x], uses + [x])
  {
    var next := if x in keys then keys else keys + [x];
    forall i, j | 0 <= i < j < |next| ensures UsedBefore(uses + [x], next[i], next[j]) {
      if j < |keys| {
        UsedBeforeGrows(uses, keys[i], keys[j], x);
      } else {
        assert next[i] == keys[i] && keys[i] in keys && keys[i] in uses && x !in uses;
        var p :| 0 <= p < |uses| && uses[p] == keys[i];
        assert (uses + [x])[p] == keys[i] && (uses + [x])[..p + 1] == uses[..p + 1];
      }
    }
  }

  lemma {:induction false} AppendedInOrder(keys: seq<Address>, uses: seq<Address>, more: seq<Address>)
    requires InFirstUseOrder(keys, uses)
    ensures InFirstUseOrder(AppendNew(keys, more), uses + more)
    decreases |more|
  {
    if more == [] {
      assert uses + more == uses;
    } else {
      NextUse(keys, uses, more[0]);
      AppendedInOrder(if more[0] in keys then keys else keys + [more[0]], uses + [more[0]], more[1..]);
      Regroup(uses, more);
    }
  }

  lemma Regroup(uses: seq<Address>, more: seq<Address>)
    requires more != []
    ensures uses + [more[0]] + more[1..] == uses + more
  {}

  /** A stage is warmed up with the static keys of its members, each once, in the
      order of their first use. */
  lemma {:induction false} ReadSetInOrder(txs: seq<Tx>, members: seq<nat>)
    requires InRange(txs, members)
    ensures InFirstUseOrder(ReadSet(txs, members), StaticUses(txs, members))
  {
    if members != [] {
      var n := |members| - 1;
      ReadSetInOrder(txs, members[..n]);
      AppendedInOrder(ReadSet(txs, members[..n]), StaticUses(txs, members[..n]), StaticKeys(txs[members[n]]));
    }
  }
}
