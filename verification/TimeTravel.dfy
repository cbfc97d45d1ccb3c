/** Runs of the account store: what every operation keeps, and what rolling
    back to a checkpoint restores (accounts_db.rs). */
module TimeTravel {
  import opened Types
  import opened Overlay
  import opened Store
  import opened Partition

  /** Every way the source mutates the store. Taking a checkpoint changes
      nothing, so it has no operation here: it is the journal length. */
  datatype Op =
    | Add(a: Address, account: Account)
    | AddNoChecks(a: Address, account: Account)
    | AddBuiltin(a: Address, account: Account)
    | Remove(a: Address)
    | Sync(delta: Delta)
    | WarmAccounts(addrs: seq<Address>)
    | WarmPrograms(ids: seq<Address>)
    | RefreshSysvars
    | RefreshPrograms
    | Rollback(checkpoint: nat)

  function SyncAccounts(sv: Services, s: StoreState, delta: Delta): Attempt {
    AddAll(sv, s, Partitioned(delta))
  }

  function Apply(sv: Services, s: StoreState, op: Op): StoreState {
    match op
    case Add(a, account) => AddAccount(sv, s, a, account).state
    case AddNoChecks(a, account) => JournaledWrite(s, a, Some(account))
    case AddBuiltin(a, account) => JournaledWrite(s, a, Some(account))
    case Remove(a) => RemoveAccount(sv, s, a)
    case Sync(delta) => SyncAccounts(sv, s, delta).state
    case WarmAccounts(addrs) => Prewarm(sv, s, addrs).state
    case WarmPrograms(ids) => PrewarmPrograms(sv, s, ids).state
    case RefreshSysvars => RebuildSysvars(sv, s)
    case RefreshPrograms => RebuildPrograms(sv, s).state
    case Rollback(checkpoint) => RollbackTo(s, checkpoint)
  }

  function Run(sv: Services, s: StoreState, ops: seq<Op>): StoreState
    decreases |ops|
  {
    if ops == [] then s else Run(sv, Apply(sv, s, ops[0]), ops[1..])
  }

  /** `t` came from `s` by journaled writes only: its journal extends that of
      `s`, and undoing the extension gives back the overlay of `s`. */
  ghost predicate Recovers(s: StoreState, t: StoreState) {
    && |s.journal| <= |t.journal|
    && t.journal[..|s.journal|] == s.journal
    && Undo(t.db, t.journal[|s.journal|..]) == s.db
  }

  lemma RecoversSame(s: StoreState, t: StoreState)
    requires s.db == t.db && s.journal == t.journal
    ensures Recovers(s, t)
  {
    assert t.journal[|s.journal|..] == [];
  }

  lemma RecoversTrans(s: StoreState, t: StoreState, u: StoreState)
    requires Recovers(s, t) && Recovers(t, u)
    ensures Recovers(s, u)
  {
    var n, m := |s.journal|, |t.journal|;
    assert u.journal[..n] == u.journal[..m][..n];
    assert u.journal[n..] == t.journal[n..] + u.journal[m..] by {
      assert u.journal == t.journal + u.journal[m..];
    }
    UndoConcat(u.db, t.journal[n..], u.journal[m..]);
  }

  lemma WriteRecovers(s: StoreState, a: Address, account: Option<Account>)
    ensures Recovers(s, JournaledWrite(s, a, account))
  {
    var t := JournaledWrite(s, a, account);
    UndoWrite(s.db, a, account);
    assert t.journal[|s.journal|..] == [EntryFor(s.db, a)];
    assert [EntryFor(s.db, a)][..0] == [];
  }

  lemma AddRecovers(sv: Services, s: StoreState, a: Address, account: Account)
    ensures Recovers(s, AddAccount(sv, s, a, account).state)
  {
    if Admissible(sv, s, a, account) {
      WriteRecovers(s, a, Stored(account));
    } else {
      RecoversSame(s, s);
    }
  }

  lemma {:induction false} AddAllRecovers(sv: Services, s: StoreState, delta: Delta)
    ensures Recovers(s, AddAll(sv, s, delta).state)
    decreases |delta|
  {
    if delta == [] {
      RecoversSame(s, s);
    } else {
      var first := AddAccount(sv, s, delta[0].0, delta[0].1);
      AddRecovers(sv, s, delta[0].0, delta[0].1);
      if first.ok {
        AddAllRecovers(sv, first.state, delta[1..]);
        RecoversTrans(s, first.state, AddAll(sv, s, delta).state);
      }
    }
  }

  lemma {:induction false} CacheHitsRecovers(s: StoreState, keys: seq<Address>, got: seq<Option<Account>>)
    ensures Recovers(s, CacheHits(s, keys, got))
    decreases |keys|
  {
    if keys == [] || got == [] {
      RecoversSame(s, s);
    } else {
      var s1 := if got[0].Some? then JournaledWrite(s, keys[0], got[0]) else s;
      if got[0].Some? { WriteRecovers(s, keys[0], got[0]); } else { RecoversSame(s, s); }
      CacheHitsRecovers(s1, keys[1..], got[1..]);
      RecoversTrans(s, s1, CacheHits(s, keys, got));
    }
  }

  lemma {:induction false} LoadEachKeepsOverlay(sv: Services, s: StoreState, ids: seq<Address>)
    requires forall a :: a in ids ==> a in s.db.inner
    ensures var t := LoadEach(sv, s, ids).state; t.db == s.db && t.journal == s.journal && t.sysvars == s.sysvars
    decreases |ids|
  {
    if ids != [] {
      var r := LoadProgram(sv, s.db, s.sysvars, s.db.inner[ids[0]]);
      if r.Ok? {
        LoadEachKeepsOverlay(sv, Replenish(s, ids[0], r.value), ids[1..]);
      }
    }
  }

  /** Every operation other than a rollback can be undone from the journal. */
  lemma StepRecovers(sv: Services, s: StoreState, op: Op)
    requires !op.Rollback?
    ensures Recovers(s, Apply(sv, s, op))
  {
    match op
    case Add(a, account) => AddRecovers(sv, s, a, account);
    case AddNoChecks(a, account) => WriteRecovers(s, a, Some(account));
    case AddBuiltin(a, account) => WriteRecovers(s, a, Some(account));
    case Remove(a) => WriteRecovers(s, a, None);
    case Sync(delta) => AddAllRecovers(sv, s, Partitioned(delta));
    case WarmAccounts(addrs) =>
      var missing := Missing(s.db, addrs);
      if missing != [] && sv.sourceBatch(missing).Ok? {
        CacheHitsRecovers(s, missing, sv.sourceBatch(missing).value);
      } else {
        RecoversSame(s, s);
      }
    case WarmPrograms(ids) =>
      UnresolvedCached(s, ids);
      LoadEachKeepsOverlay(sv, s, Unresolved(s, ids));
      RecoversSame(s, Apply(sv, s, op));
    case RefreshSysvars => RecoversSame(s, Apply(sv, s, op));
    case RefreshPrograms => RecoversSame(s, Apply(sv, s, op));
  }

  /** Rolling back no further than a recoverable point keeps it recoverable. */
  lemma RollbackRecovers(s: StoreState, t: StoreState, checkpoint: nat)
    requires Recovers(s, t) && |s.journal| <= checkpoint
    ensures Recovers(s, RollbackTo(t, checkpoint))
  {
    if checkpoint < |t.journal| {
      var n := |s.journal|;
      var u := RollbackTo(t, checkpoint);
      assert u.journal[..n] == t.journal[..n];
      assert t.journal[n..] == u.journal[n..] + t.journal[checkpoint..];
      UndoConcat(t.db, u.journal[n..], t.journal[checkpoint..]);
    }
  }

  /** The rollbacks of a run all stay at or above a checkpoint. */
  predicate StaysAbove(ops: seq<Op>, checkpoint: nat) {
    forall i :: 0 <= i < |ops| && ops[i].Rollback? ==> checkpoint <= ops[i].checkpoint
  }

  lemma {:induction false} RunRecovers(sv: Services, s: StoreState, t: StoreState, ops: seq<Op>)
    requires Recovers(s, t) && StaysAbove(ops, |s.journal|)
    ensures Recovers(s, Run(sv, t, ops))
    decreases |ops|
  {
    if ops != [] {
      if ops[0].Rollback? {
        RollbackRecovers(s, t, ops[0].checkpoint);
      } else {
        StepRecovers(sv, t, ops[0]);
        RecoversTrans(s, t, Apply(sv, t, ops[0]));
      }
      RunRecovers(sv, s, Apply(sv, t, ops[0]), ops[1..]);
    }
  }

  /** Journal time travel: after any run whose rollbacks all stay above the
      checkpoint taken in `s`, rolling back to it restores the cached accounts,
      the tombstones and the journal of `s` exactly. */
  lemma RollbackRestores(sv: Services, s: StoreState, ops: seq<Op>)
    requires StaysAbove(ops, |s.journal|)
    ensures var t := RollbackTo(Run(sv, s, ops), |s.journal|);
            t.db == s.db && t.journal == s.journal
  {
    RecoversSame(s, s);
    RunRecovers(sv, s, s, ops);
    var t := Run(sv, s, ops);
    if |t.journal| == |s.journal| {
      assert t.journal[|s.journal|..] == [];
    }
  }

  /** Nested checkpoints unwind, and a rollback to a checkpoint at or past the
      end of the journal does nothing (so repeating a rollback does nothing). */
  lemma RollbackNests(s: StoreState, outer: nat, inner: nat)
    requires outer <= inner
    ensures RollbackTo(RollbackTo(s, inner), outer) == RollbackTo(s, outer)
    ensures RollbackTo(RollbackTo(s, outer), inner) == RollbackTo(s, outer)
  {
    if inner < |s.journal| {
      var mid := s.journal[..inner];
      assert mid[..outer] == s.journal[..outer];
      assert s.journal[outer..] == mid[outer..] + s.journal[inner..];
      UndoConcat(s.db, mid[outer..], s.journal[inner..]);
      if outer == inner {
        assert mid[outer..] == [];
      }
    }
  }

  /** A checkpoint goes stale once a rollback has gone below it: writing again
      lets the journal grow past the old length with another history in it. */
  lemma StaleCheckpointDoesNotRestore(sv: Services, account: Account, other: Account)
    requires account != other
    ensures
      var empty := StoreState(CacheDb(map[], {}), [], ProgramCache(0, map[]), map[]);
      var s := JournaledWrite(empty, 1, Some(account));
      var ops := [Rollback(0), AddNoChecks(1, other), AddNoChecks(2, other)];
      && !StaysAbove(ops, |s.journal|)
      && RollbackTo(Run(sv, s, ops), |s.journal|).db != s.db
  {
    var empty := StoreState(CacheDb(map[], {}), [], ProgramCache(0, map[]), map[]);
    var s := JournaledWrite(empty, 1, Some(account));
    var s0 := RollbackTo(s, 0);
    assert s.journal[0..] == s.journal && s.journal[..|s.journal| - 1] == [];
    var s1 := JournaledWrite(s0, 1, Some(other));
    var s2 := JournaledWrite(s1, 2, Some(other));
    var ops := [Rollback(0), AddNoChecks(1, other), AddNoChecks(2, other)];
    assert ops[0].Rollback?;
    assert Run(sv, s, ops) == Run(sv, s0, ops[1..]) == Run(sv, s1, ops[1..][1..]) == Run(sv, s2, ops[1..][1..][1..]);
    assert ops[1..][1..][1..] == [];
    WriteRecovers(s1, 2, Some(other));
    assert |s1.journal| == 1 && |s2.journal| == 2;
    assert RollbackTo(s2, 1).db == s1.db;
    assert s1.db.inner[1] == other && s.db.inner[1] == account;
  }

  // ----- Exactly when a checkpoint restores -----

  /** The checkpoints a run rolls back to, in order. */
  function Rollbacks(ops: seq<Op>): seq<nat> {
    if ops == [] then []
    else (if ops[0].Rollback? then [ops[0].checkpoint] else []) + Rollbacks(ops[1..])
  }

  /** Rolling back to the checkpoint taken in `s` after the run gives `s` back. */
  ghost predicate Restores(sv: Services, s: StoreState, ops: seq<Op>) {
    var t := RollbackTo(Run(sv, s, ops), |s.journal|);
    t.db == s.db && t.journal == s.journal
  }

  lemma {:induction false} RollbacksListed(ops: seq<Op>, n: nat)
    requires forall r :: r in Rollbacks(ops) ==> n <= r
    ensures StaysAbove(ops, n)
  {
    if ops != [] {
      var rest := Rollbacks(ops[1..]);
      if ops[0].Rollback? {
        assert Rollbacks(ops) == [ops[0].checkpoint] + rest;
        assert ops[0].checkpoint in Rollbacks(ops);
      } else {
        assert Rollbacks(ops) == rest;
      }
      assert forall r :: r in rest ==> r in Rollbacks(ops);
      RollbacksListed(ops[1..], n);
      forall i | 0 <= i < |ops| && ops[i].Rollback? ensures n <= ops[i].checkpoint {
        if i > 0 { assert ops[1..][i - 1] == ops[i]; }
      }
    }
  }

  function RollbackOps(rs: seq<nat>): seq<Op> {
    if rs == [] then [] else [Rollback(rs[0])] + RollbackOps(rs[1..])
  }

  /** `k` unchecked writes of the same account. */
  function Rewrites(k: nat, a: Address, account: Account): seq<Op> {
    if k == 0 then [] else [AddNoChecks(a, account)] + Rewrites(k - 1, a, account)
  }

  lemma {:induction false} RunOfConcat(sv: Services, s: StoreState, first: seq<Op>, second: seq<Op>)
    ensures Run(sv, s, first + second) == Run(sv, Run(sv, s, first), second)
    decreases |first|
  {
    if first == [] {
      assert first + second == second;
    } else {
      assert (first + second)[1..] == first[1..] + second;
      RunOfConcat(sv, Apply(sv, s, first[0]), first[1..], second);
    }
  }

  lemma {:induction false} RollbacksOfConcat(first: seq<Op>, second: seq<Op>)
    ensures Rollbacks(first + second) == Rollbacks(first) + Rollbacks(second)
    decreases |first|
  {
    if first == [] {
      assert first + second == second;
    } else {
      var head, rest := if first[0].Rollback? then [first[0].checkpoint] else [], Rollbacks(first[1..]);
      assert (first + second)[1..] == first[1..] + second;
      RollbacksOfConcat(first[1..], second);
      assert (head + rest) + Rollbacks(second) == head + (rest + Rollbacks(second));
    }
  }

  lemma {:induction false} RollbackOpsShrink(sv: Services, s: StoreState, rs: seq<nat>)
    ensures var t := Run(sv, s, RollbackOps(rs));
            |t.journal| <= |s.journal| && forall r :: r in rs ==> |t.journal| <= r
    ensures Rollbacks(RollbackOps(rs)) == rs
    decreases |rs|
  {
    if rs != [] {
      assert RollbackOps(rs)[1..] == RollbackOps(rs[1..]);
      RollbackOpsShrink(sv, RollbackTo(s, rs[0]), rs[1..]);
      assert rs == [rs[0]] + rs[1..];
    }
  }

  lemma {:induction false} RewritesGrow(sv: Services, s: StoreState, k: nat, a: Address, account: Account)
    ensures var t := Run(sv, s, Rewrites(k, a, account));
            && |t.journal| == |s.journal| + k
            && (k > 0 || (a in s.db.inner && s.db.inner[a] == account) ==> a in t.db.inner && t.db.inner[a] == account)
    ensures Rollbacks(Rewrites(k, a, account)) == []
    decreases k
  {
    if k > 0 {
      assert Rewrites(k, a, account)[1..] == Rewrites(k - 1, a, account);
      RewritesGrow(sv, JournaledWrite(s, a, Some(account)), k - 1, a, account);
    }
  }

  /** A run with these rollbacks after which the checkpoint restores something else. */
  lemma StaleRun(sv: Services, s: StoreState, rs: seq<nat>, r: nat) returns (ops: seq<Op>)
    requires r in rs && r < |s.journal|
    ensures Rollbacks(ops) == rs && !Restores(sv, s, ops)
  {
    var a: Address := 1;
    var lamports := if a in s.db.inner && s.db.inner[a].lamports == 1 then 2 else 1;
    var account := Account(lamports, DEFAULT_ADDRESS, false, 0, []);
    RollbackOpsShrink(sv, s, rs);
    var shrunk := Run(sv, s, RollbackOps(rs));
    var k := |s.journal| - |shrunk.journal|;
    RunOfConcat(sv, s, RollbackOps(rs), Rewrites(k, a, account));
    RollbacksOfConcat(RollbackOps(rs), Rewrites(k, a, account));
    RewritesGrow(sv, shrunk, k, a, account);
    ops := RollbackOps(rs) + Rewrites(k, a, account);
  }

  /** A run below the checkpoint may also restore it: here the same write is made again. */
  lemma StaleCheckpointMayRestore(sv: Services, account: Account)
    ensures
      var empty := StoreState(CacheDb(map[], {}), [], ProgramCache(0, map[]), map[]);
      var s := JournaledWrite(empty, 1, Some(account));
      var ops := [Rollback(0), AddNoChecks(1, account)];
      !StaysAbove(ops, |s.journal|) && Restores(sv, s, ops)
  {
    var empty := StoreState(CacheDb(map[], {}), [], ProgramCache(0, map[]), map[]);
    var s := JournaledWrite(empty, 1, Some(account));
    var ops := [Rollback(0), AddNoChecks(1, account)];
    assert ops[0].Rollback? && ops[1..][1..] == [];
    WriteRecovers(empty, 1, Some(account));
    assert RollbackTo(s, 0).db == empty.db;
    assert Run(sv, s, ops) == Run(sv, JournaledWrite(RollbackTo(s, 0), 1, Some(account)), []);
  }

  /** Whether a checkpoint restores is decided by the rollbacks of the run
      alone: it does for every run with these rollbacks if and only if none of
      them goes below it. */
  lemma CheckpointRestoresExactly(sv: Services, s: StoreState, rs: seq<nat>)
    ensures (forall ops :: Rollbacks(ops) == rs ==> Restores(sv, s, ops)) <==> forall r :: r in rs ==> |s.journal| <= r
  {
    if forall r :: r in rs ==> |s.journal| <= r {
      forall ops | Rollbacks(ops) == rs ensures Restores(sv, s, ops) {
        RollbacksListed(ops, |s.journal|);
        RollbackRestores(sv, s, ops);
      }
    } else {
      var r :| r in rs && r < |s.journal|;
      var ops := StaleRun(sv, s, rs, r);
    }
  }
}
