/** Warming up before a parallel stage: accounts are cached from the source,
    then the programs among them are loaded. */
module Warming {
  import opened Types
  import opened Overlay
  import opened Store
  import opened View
  import opened Coherence

  /** `prewarm` and then `prewarm_programs` over the same keys. */
  function Warm(sv: Services, s: StoreState, keys: seq<Address>): Attempt {
    var warmed := Prewarm(sv, s, keys);
    if warmed.ok then PrewarmPrograms(sv, warmed.state, keys) else warmed
  }

  /** The source holds a program at an address the overlay does not know. */
  predicate SourceProgram(sv: Services, db: CacheDb, a: Address) {
    && !Known(db, a)
    && sv.source(a).Ok? && sv.source(a).value.Some? && IsCachedProgram(a, sv.source(a).value.value)
  }

  /** One overlay extends another by accounts of the source at unknown keys. */
  ghost predicate Extends(sv: Services, db: CacheDb, db': CacheDb, keys: seq<Address>) {
    && db'.removed == db.removed
    && (forall a :: a in db.inner ==> a in db'.inner && db'.inner[a] == db.inner[a])
    && (forall a :: a in db'.inner && a !in db.inner ==>
          a in keys && !Known(db, a) && sv.source(a) == Ok(Some(db'.inner[a])))
    && (forall a :: a in keys && !Known(db, a) && sv.source(a).Ok? && sv.source(a).value.Some? ==> a in db'.inner)
  }

  lemma {:induction false} CacheHitsExtends(sv: Services, s: StoreState, keys: seq<Address>, got: seq<Option<Account>>)
    requires |keys| == |got|
    requires forall i :: 0 <= i < |keys| ==> sv.source(keys[i]) == Ok(got[i]) && !Known(s.db, keys[i])
    requires forall i, j :: 0 <= i < j < |keys| ==> keys[i] != keys[j]
    ensures Extends(sv, s.db, CacheHits(s, keys, got).db, keys)
    decreases |keys|
  {
    if keys != [] {
      var s1 := if got[0].Some? then JournaledWrite(s, keys[0], got[0]) else s;
      forall i | 0 <= i < |keys[1..]|
        ensures sv.source(keys[1..][i]) == Ok(got[1..][i]) && !Known(s1.db, keys[1..][i])
      {
        assert keys[1..][i] == keys[i + 1] && keys[0] != keys[i + 1];
      }
      CacheHitsExtends(sv, s1, keys[1..], got[1..]);
      assert keys == [keys[0]] + keys[1..];
      FirstHitExtends(sv, s.db, s1.db, CacheHits(s, keys, got).db, keys[0], keys[1..], got[0]);
    }
  }

  lemma FirstHitExtends(
    sv: Services, db: CacheDb, db1: CacheDb, db2: CacheDb, key: Address, rest: seq<Address>, hit: Option<Account>)
    requires !Known(db, key) && key !in rest && sv.source(key) == Ok(hit)
    requires db1 == if hit.Some? then Write(db, key, hit) else db
    requires Extends(sv, db1, db2, rest)
    ensures Extends(sv, db, db2, [key] + rest)
  {
    assert db1.removed == db.removed;
    forall a | a in [key] + rest && !Known(db, a) && sv.source(a).Ok? && sv.source(a).value.Some?
      ensures a in db2.inner
    {
      assert a == key || a in rest;
    }
  }

  lemma PrewarmExtends(sv: Services, s: StoreState, keys: seq<Address>)
    requires BatchAgrees(sv) && Prewarm(sv, s, keys).ok
    ensures Extends(sv, s.db, Prewarm(sv, s, keys).state.db, keys)
  {
    var missing := Missing(s.db, keys);
    MissingExact(s.db, keys);
    if missing != [] {
      forall i | 0 <= i < |missing| ensures !Known(s.db, missing[i]) {
        assert missing[i] in missing;
      }
      CacheHitsExtends(sv, s, missing, sv.sourceBatch(missing).value);
    }
  }

  /** Loading a list adds exactly its programs to the cache. */
  lemma {:induction false} LoadEachLoads(sv: Services, s: StoreState, ids: seq<Address>)
    requires forall a :: a in ids ==> a in s.db.inner
    requires LoadEach(sv, s, ids).ok
    ensures var t := LoadEach(sv, s, ids).state;
            && t.db == s.db && t.sysvars == s.sysvars && t.programs.slot == s.programs.slot
            && t.programs.entries.Keys == s.programs.entries.Keys + (set a | a in ids)
            && (forall a :: a in t.programs.entries ==>
                  if a in ids then LoadProgram(sv, s.db, s.sysvars, s.db.inner[a]) == Ok(t.programs.entries[a])
                  else t.programs.entries[a] == s.programs.entries[a])
    decreases |ids|
  {
    if ids != [] {
      var entry := LoadProgram(sv, s.db, s.sysvars, s.db.inner[ids[0]]).value;
      LoadEachLoads(sv, Replenish(s, ids[0], entry), ids[1..]);
      assert ids == [ids[0]] + ids[1..];
    }
  }

  lemma {:induction false} UnresolvedExact(s: StoreState, ids: seq<Address>)
    ensures forall a :: a in Unresolved(s, ids) <==> a in ids && a !in s.programs.entries && HadProgram(s, a)
  {
    if ids != [] {
      UnresolvedExact(s, ids[1..]);
      assert ids == [ids[0]] + ids[1..];
    }
  }

  /** After a coherent store is extended, the programs still to load are those
      the source brought in. */
  lemma UnresolvedAreNew(sv: Services, s: StoreState, t: StoreState, keys: seq<Address>)
    requires CoherentExcept(sv, s, {}) && Extends(sv, s.db, t.db, keys) && t.programs == s.programs
    ensures forall a :: a in Unresolved(t, keys) <==> a in keys && SourceProgram(sv, s.db, a)
    ensures ProgramIds(t.db) == ProgramIds(s.db) + (set a | a in Unresolved(t, keys))
  {
    UnresolvedExact(t, keys);
    forall a ensures a in Unresolved(t, keys) <==> a in keys && SourceProgram(sv, s.db, a) {
      ProgramIsOldOrNew(sv, s, t.db, keys, a);
    }
    forall a ensures a in ProgramIds(t.db) <==> a in ProgramIds(s.db) || a in Unresolved(t, keys) {
      ProgramIsOldOrNew(sv, s, t.db, keys, a);
    }
  }

  lemma ProgramIsOldOrNew(sv: Services, s: StoreState, db': CacheDb, keys: seq<Address>, a: Address)
    requires CoherentExcept(sv, s, {}) && Extends(sv, s.db, db', keys)
    ensures a in ProgramIds(db') <==> a in ProgramIds(s.db) || (a in keys && SourceProgram(sv, s.db, a))
    ensures a in keys && a in ProgramIds(db') ==> (a !in s.programs.entries <==> SourceProgram(sv, s.db, a))
  {}

  /** Warming up gives the caches a rebuild of the grown overlay would give:
      coherence survives unless a sysvar or builtin is first seen here. */
  lemma WarmKeepsCoherent(sv: Services, s: StoreState, keys: seq<Address>)
    requires BatchAgrees(sv) && Coherent(sv, s) && Warm(sv, s, keys).ok
    requires forall a :: a in keys && !Known(s.db, a) ==> !IsManagedSysvar(a) && a !in sv.builtins
    ensures Coherent(sv, Warm(sv, s, keys).state)
  {
    var t := Prewarm(sv, s, keys).state;
    CoherentMeansNonePending(sv, s);
    PrewarmTransparent(sv, s, keys);
    PrewarmExtends(sv, s, keys);
    UnresolvedAreNew(sv, s, t, keys);
    UnresolvedCached(t, keys);
    LoadEachLoads(sv, t, Unresolved(t, keys));
    ExtendedSysvars(sv, s.db, t.db, keys);
    LoadedIsCoherent(sv, s, t, keys, PrewarmPrograms(sv, t, keys).state);
    CoherentMeansNonePending(sv, Warm(sv, s, keys).state);
  }

  lemma ExtendedSysvars(sv: Services, db: CacheDb, db': CacheDb, keys: seq<Address>)
    requires Extends(sv, db, db', keys)
    requires forall a :: a in keys && !Known(db, a) ==> !IsManagedSysvar(a)
    ensures SysvarsOf(sv, db') == SysvarsOf(sv, db)
  {}

  lemma LoadedIsCoherent(sv: Services, s: StoreState, t: StoreState, keys: seq<Address>, u: StoreState)
    requires CoherentExcept(sv, s, {}) && (forall a :: Read(sv, t.db, a) == Read(sv, s.db, a))
    requires Extends(sv, s.db, t.db, keys) && t.programs == s.programs && t.sysvars == s.sysvars
    requires SysvarsOf(sv, t.db) == SysvarsOf(sv, s.db)
    requires forall a :: a in keys && !Known(s.db, a) ==> a !in sv.builtins
    requires u.db == t.db && u.sysvars == t.sysvars && u.programs.slot == t.programs.slot
    requires u.programs.entries.Keys == t.programs.entries.Keys + (set a | a in Unresolved(t, keys))
    requires forall a :: a in Unresolved(t, keys) ==> a in t.db.inner
    requires forall a :: a in u.programs.entries ==>
               if a in Unresolved(t, keys) then LoadProgram(sv, t.db, t.sysvars, t.db.inner[a]) ==
                 Ok(u.programs.entries[a])
               else u.programs.entries[a] == t.programs.entries[a]
    ensures CoherentExcept(sv, u, {})
  {
    UnresolvedAreNew(sv, s, t, keys);
    assert sv.builtins * t.db.inner.Keys == sv.builtins * s.db.inner.Keys;
    forall a | a in ProgramIds(u.db)
      ensures LoadProgram(sv, u.db, u.sysvars, u.db.inner[a]) == Ok(u.programs.entries[a])
    {
      if a in ProgramIds(s.db) {
        LoadDependsOnProgramdata(sv, s.db, t.db, s.sysvars, t.db.inner[a]);
      }
    }
  }

  /** Warming up is not invisible: it leaves the program cache as it was exactly
      when the source holds no program at a key the overlay did not know. */
  lemma WarmShowsExactly(sv: Services, s: StoreState, keys: seq<Address>)
    requires BatchAgrees(sv) && Coherent(sv, s) && Warm(sv, s, keys).ok
    ensures Warm(sv, s, keys).state.programs == s.programs <==> forall a :: a in keys ==> !SourceProgram(sv, s.db, a)
  {
    var t := Prewarm(sv, s, keys).state;
    CoherentMeansNonePending(sv, s);
    PrewarmTransparent(sv, s, keys);
    PrewarmExtends(sv, s, keys);
    UnresolvedAreNew(sv, s, t, keys);
    UnresolvedCached(t, keys);
    LoadEachLoads(sv, t, Unresolved(t, keys));
    var u := Warm(sv, s, keys).state;
    if u.programs == s.programs {
      forall a | a in keys ensures !SourceProgram(sv, s.db, a) {
        UnresolvedExact(t, keys);
        assert a in Unresolved(t, keys) ==> a in u.programs.entries;
      }
    } else {
      assert Unresolved(t, keys) != [];
      assert Unresolved(t, keys)[0] in Unresolved(t, keys);
    }
  }

  // ----- When a warm-up fails -----

  lemma {:induction false} LoadEachExactly(sv: Services, s: StoreState, ids: seq<Address>)
    requires forall a :: a in ids ==> a in s.db.inner
    ensures LoadEach(sv, s, ids).ok <==> forall a :: a in ids ==> LoadProgram(sv, s.db, s.sysvars, s.db.inner[a]).Ok?
    decreases |ids|
  {
    if ids != [] {
      assert ids[0] in ids;
      var loaded := LoadProgram(sv, s.db, s.sysvars, s.db.inner[ids[0]]);
      if loaded.Ok? {
        LoadEachExactly(sv, Replenish(s, ids[0], loaded.value), ids[1..]);
        assert ids == [ids[0]] + ids[1..];
      }
    }
  }

  /** A warm-up succeeds if and only if the source answers the one request for the
      unknown keys, if there are any, and every program among the keys that is then
      held and not yet loaded loads. */
  lemma WarmsExactly(sv: Services, s: StoreState, keys: seq<Address>)
    ensures var t := Prewarm(sv, s, keys).state;
            Warm(sv, s, keys).ok <==>
            && ((exists a :: a in keys && !Known(s.db, a)) ==> sv.sourceBatch(Missing(s.db, keys)).Ok?)
            && (forall a :: a in keys && a !in t.programs.entries && HadProgram(t, a) ==>
                  LoadProgram(sv, t.db, t.sysvars, t.db.inner[a]).Ok?)
  {
    var t, missing := Prewarm(sv, s, keys).state, Missing(s.db, keys);
    MissingExact(s.db, keys);
    assert missing != [] ==> missing[0] in missing;
    assert (exists a :: a in keys && !Known(s.db, a)) <==> missing != [];
    UnresolvedExact(t, keys);
    UnresolvedCached(t, keys);
    LoadEachExactly(sv, t, Unresolved(t, keys));
  }
}
