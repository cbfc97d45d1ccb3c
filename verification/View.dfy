/** What the overlay means: a flat option-valued map over the source. Every
    mutation is related to the corresponding update of that map. */
module View {
  import opened Types
  import opened Overlay
  import opened Store
  import opened Partition
  import opened TimeTravel

  /** Overwrites a flat map with a delta, later elements winning. */
  function Overwrite(known: map<Address, Option<Account>>, delta: Delta): map<Address, Option<Account>>
    decreases |delta|
  {
    if delta == [] then known else Overwrite(known[delta[0].0 := Stored(delta[0].1)], delta[1..])
  }

  lemma WriteFlattens(db: CacheDb, a: Address, account: Option<Account>)
    ensures Flatten(Write(db, a, account)) == Flatten(db)[a := account]
  {
    var db' := Write(db, a, account);
    assert db'.inner.Keys + db'.removed == db.inner.Keys + db.removed + {a};
  }

  /** `add_account` updates the flat map at exactly its own address, or is
      refused by its checks and changes nothing at all. */
  lemma AddAccountUpdates(sv: Services, s: StoreState, a: Address, account: Account)
    ensures var t := AddAccount(sv, s, a, account).state;
            if Admissible(sv, s, a, account) then Flatten(t.db) == Flatten(s.db)[a := Stored(account)]
            else t == s
  {
    WriteFlattens(s.db, a, Stored(account));
  }

  /** The other three writers likewise update one address of the flat map. */
  lemma UncheckedWritersUpdate(sv: Services, s: StoreState, a: Address, account: Account)
    ensures Flatten(Apply(sv, s, AddNoChecks(a, account)).db) == Flatten(s.db)[a := Some(account)]
    ensures Flatten(Apply(sv, s, AddBuiltin(a, account)).db) == Flatten(s.db)[a := Some(account)]
    ensures Flatten(Apply(sv, s, Remove(a)).db) == Flatten(s.db)[a := None]
  {
    WriteFlattens(s.db, a, Some(account));
    WriteFlattens(s.db, a, None);
  }

  lemma {:induction false} AddAllOverwrites(sv: Services, s: StoreState, delta: Delta)
    requires AddAll(sv, s, delta).ok
    ensures Flatten(AddAll(sv, s, delta).state.db) == Overwrite(Flatten(s.db), delta)
    decreases |delta|
  {
    if delta != [] {
      AddAccountUpdates(sv, s, delta[0].0, delta[0].1);
      AddAllOverwrites(sv, AddAccount(sv, s, delta[0].0, delta[0].1).state, delta[1..]);
    }
  }

  /** Overwriting with distinct addresses, said address by address. */
  lemma {:induction false} OverwriteAt(known: map<Address, Option<Account>>, delta: Delta)
    requires Distinct(delta)
    ensures Overwrite(known, delta).Keys == known.Keys + Addresses(delta)
    ensures forall i :: 0 <= i < |delta| ==> Overwrite(known, delta)[delta[i].0] == Stored(delta[i].1)
    ensures forall a :: a in known && a !in Addresses(delta) ==> Overwrite(known, delta)[a] == known[a]
    decreases |delta|
  {
    if delta != [] {
      var rest := delta[1..];
      var known' := known[delta[0].0 := Stored(delta[0].1)];
      OverwriteAt(known', rest);
      AddressesOfTail(delta);
      forall i | 0 <= i < |delta| ensures Overwrite(known, delta)[delta[i].0] == Stored(delta[i].1) {
        if i > 0 {
          assert delta[i] == rest[i - 1];
        }
      }
    }
  }

  /** Overwriting with distinct addresses does not depend on their order. */
  lemma OverwriteIsOrderFree(known: map<Address, Option<Account>>, xs: Delta, ys: Delta)
    requires multiset(xs) == multiset(ys) && Distinct(xs) && Distinct(ys)
    ensures Overwrite(known, xs) == Overwrite(known, ys)
  {
    OverwriteAt(known, xs);
    OverwriteAt(known, ys);
    SameElements(xs, ys);
    var mx, my := Overwrite(known, xs), Overwrite(known, ys);
    SameAddresses(xs, ys);
    forall a | a in mx ensures mx[a] == my[a] {
      if a in Addresses(xs) {
        var i :| 0 <= i < |xs| && xs[i].0 == a;
        assert xs[i] in ys;
        var j :| 0 <= j < |ys| && ys[j] == xs[i];
      }
    }
  }

  /** A successful sync overwrites the view with exactly its delta, zero
      lamports meaning absent, whatever the order of the delta. */
  lemma SyncOverwrites(sv: Services, s: StoreState, delta: Delta)
    requires Distinct(delta) && SyncAccounts(sv, s, delta).ok
    ensures Flatten(SyncAccounts(sv, s, delta).state.db) == Overwrite(Flatten(s.db), delta)
  {
    PartitionedSound(delta);
    AddAllOverwrites(sv, s, Partitioned(delta));
    OverwriteIsOrderFree(Flatten(s.db), Partitioned(delta), delta);
  }

  lemma FlattenIsInjective(d1: CacheDb, d2: CacheDb)
    requires d1.inner.Keys !! d1.removed && d2.inner.Keys !! d2.removed
    requires Flatten(d1) == Flatten(d2)
    ensures d1 == d2
  {
    var m := Flatten(d1);
    assert forall a :: a in d1.inner <==> a in m && m[a].Some?;
    assert forall a :: a in d2.inner <==> a in m && m[a].Some?;
    assert d1.inner.Keys == d2.inner.Keys;
    assert forall a :: a in d1.inner ==> Some(d1.inner[a]) == m[a] == Some(d2.inner[a]);
    assert d1.inner == d2.inner;
    forall a ensures a in d1.removed <==> a in d2.removed {
      assert a in d1.removed <==> a in m && m[a].None?;
      assert a in d2.removed <==> a in m && m[a].None?;
    }
    assert d1.removed == d2.removed;
  }

  /** Two orders of one delta leave the same cached accounts and tombstones. */
  lemma SyncIsOrderFree(sv: Services, s: StoreState, xs: Delta, ys: Delta)
    requires Consistent(s.db, s.journal)
    requires multiset(xs) == multiset(ys) && Distinct(xs) && Distinct(ys)
    requires SyncAccounts(sv, s, xs).ok && SyncAccounts(sv, s, ys).ok
    ensures SyncAccounts(sv, s, xs).state.db == SyncAccounts(sv, s, ys).state.db
  {
    SyncOverwrites(sv, s, xs);
    SyncOverwrites(sv, s, ys);
    OverwriteIsOrderFree(Flatten(s.db), xs, ys);
    StepKeepsConsistent(sv, s, Sync(xs));
    StepKeepsConsistent(sv, s, Sync(ys));
    FlattenIsInjective(SyncAccounts(sv, s, xs).state.db, SyncAccounts(sv, s, ys).state.db);
  }

  // ----- Consistency over runs -----

  lemma WriteKeepsConsistent(s: StoreState, a: Address, account: Option<Account>)
    requires Consistent(s.db, s.journal)
    ensures var t := JournaledWrite(s, a, account); Consistent(t.db, t.journal)
  {}

  lemma {:induction false} AddAllKeepsConsistent(sv: Services, s: StoreState, delta: Delta)
    requires Consistent(s.db, s.journal)
    ensures var t := AddAll(sv, s, delta).state; Consistent(t.db, t.journal)
    decreases |delta|
  {
    if delta != [] {
      var first := AddAccount(sv, s, delta[0].0, delta[0].1);
      WriteKeepsConsistent(s, delta[0].0, Stored(delta[0].1));
      AddAllKeepsConsistent(sv, first.state, delta[1..]);
    }
  }

  lemma {:induction false} CacheHitsKeepsConsistent(s: StoreState, keys: seq<Address>, got: seq<Option<Account>>)
    requires Consistent(s.db, s.journal)
    ensures var t := CacheHits(s, keys, got); Consistent(t.db, t.journal)
    decreases |keys|
  {
    if keys != [] && got != [] {
      WriteKeepsConsistent(s, keys[0], got[0]);
      CacheHitsKeepsConsistent(if got[0].Some? then JournaledWrite(s, keys[0], got[0]) else s, keys[1..], got[1..]);
    }
  }

  lemma StepKeepsConsistent(sv: Services, s: StoreState, op: Op)
    requires Consistent(s.db, s.journal)
    ensures var t := Apply(sv, s, op); Consistent(t.db, t.journal)
  {
    match op
    case Add(a, account) => WriteKeepsConsistent(s, a, Stored(account));
    case AddNoChecks(a, account) => WriteKeepsConsistent(s, a, Some(account));
    case AddBuiltin(a, account) => WriteKeepsConsistent(s, a, Some(account));
    case Remove(a) => WriteKeepsConsistent(s, a, None);
    case Sync(delta) => AddAllKeepsConsistent(sv, s, Partitioned(delta));
    case WarmAccounts(addrs) =>
      var missing := Missing(s.db, addrs);
      if missing != [] && sv.sourceBatch(missing).Ok? {
        CacheHitsKeepsConsistent(s, missing, sv.sourceBatch(missing).value);
      }
    case WarmPrograms(ids) =>
      UnresolvedCached(s, ids);
      LoadEachKeepsOverlay(sv, s, Unresolved(s, ids));
    case RefreshSysvars =>
    case RefreshPrograms =>
    case Rollback(checkpoint) =>
      if checkpoint < |s.journal| {
        UndoKeepsConsistent(s.db, s.journal, checkpoint);
      }
  }

  /** In every reachable state, also after rollbacks, no address is both cached
      and tombstoned. */
  lemma {:induction false} RunKeepsConsistent(sv: Services, s: StoreState, ops: seq<Op>)
    requires Consistent(s.db, s.journal)
    ensures var t := Run(sv, s, ops); Consistent(t.db, t.journal)
    decreases |ops|
  {
    if ops != [] {
      StepKeepsConsistent(sv, s, ops[0]);
      RunKeepsConsistent(sv, Apply(sv, s, ops[0]), ops[1..]);
    }
  }

  // ----- Prewarming -----

  /** The batched request holds each unknown address of the list exactly once. */
  lemma {:induction false} MissingExact(db: CacheDb, addrs: seq<Address>)
    ensures forall a :: a in Missing(db, addrs) <==> a in addrs && !Known(db, a)
    ensures forall i, j :: 0 <= i < j < |Missing(db, addrs)| ==> Missing(db, addrs)[i] != Missing(db, addrs)[j]
  {
    if addrs != [] {
      var init := addrs[..|addrs| - 1];
      MissingExact(db, init);
      assert addrs == init + [addrs[|addrs| - 1]];
    }
  }

  /** Caching what the source holds changes no read. */
  lemma {:induction false} CacheHitsTransparent(
    sv: Services, s: StoreState, keys: seq<Address>, got: seq<Option<Account>>)
    requires |keys| == |got|
    requires forall i :: 0 <= i < |keys| ==> sv.source(keys[i]) == Ok(got[i]) && !Known(s.db, keys[i])
    requires forall i, j :: 0 <= i < j < |keys| ==> keys[i] != keys[j]
    ensures var t := CacheHits(s, keys, got);
            && (forall a :: Read(sv, t.db, a) == Read(sv, s.db, a))
            && t.db.removed == s.db.removed
            && t.programs == s.programs && t.sysvars == s.sysvars
    decreases |keys|
  {
    if keys != [] {
      var s1 := if got[0].Some? then JournaledWrite(s, keys[0], got[0]) else s;
      assert s1.db.removed == s.db.removed;
      forall i | 0 <= i < |keys[1..]|
        ensures sv.source(keys[1..][i]) == Ok(got[1..][i]) && !Known(s1.db, keys[1..][i])
      {
        assert keys[1..][i] == keys[i + 1] && keys[0] != keys[i + 1];
      }
      CacheHitsTransparent(sv, s1, keys[1..], got[1..]);
      assert Read(sv, s1.db, keys[0]) == Read(sv, s.db, keys[0]);
    }
  }

  /** `prewarm` of any list leaves every read, every tombstone and both caches
      as they were, and on a source error leaves the whole store as it was. */
  lemma PrewarmTransparent(sv: Services, s: StoreState, addrs: seq<Address>)
    requires BatchAgrees(sv)
    ensures var t := Prewarm(sv, s, addrs);
            && (forall a :: Read(sv, t.state.db, a) == Read(sv, s.db, a))
            && t.state.db.removed == s.db.removed
            && t.state.programs == s.programs && t.state.sysvars == s.sysvars
            && (!t.ok ==> t.state == s)
            && (t.ok <==> Missing(s.db, addrs) == [] || sv.sourceBatch(Missing(s.db, addrs)).Ok?)
  {
    var missing := Missing(s.db, addrs);
    MissingExact(s.db, addrs);
    if missing != [] && sv.sourceBatch(missing).Ok? {
      var got := sv.sourceBatch(missing).value;
      forall i | 0 <= i < |missing| ensures !Known(s.db, missing[i]) {
        assert missing[i] in missing;
      }
      CacheHitsTransparent(sv, s, missing, got);
    }
  }
}
