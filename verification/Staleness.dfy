/** Exactly when adding a list of accounts changes the caches, and exactly when
    it leaves them stale. */
module Staleness {
  import opened Types
  import opened Overlay
  import opened Store
  import opened Partition
  import opened Coherence

  // ----- Lists that change no cache -----

  /** A sysvar is written with the data the cache has for it, and closed only if
      the cache has none. */
  predicate QuietSysvar(s: StoreState, a: Address, account: Account) {
    IsManagedSysvar(a) ==>
      if account.lamports == 0 then a !in s.sysvars else a in s.sysvars && s.sysvars[a] == account.data
  }

  /** The account takes the place of a program and is none: the cache is rebuilt. */
  predicate Unprograms(s: StoreState, x: (Address, Account)) {
    HadProgram(s, x.0) && !HasProgram(x.0, x.1)
  }

  /** A program is written where one was, loading to the entry already cached;
      and one is closed only if another no longer loads, so that the rebuild fails. */
  predicate QuietProgram(sv: Services, s: StoreState, a: Address, account: Account) {
    if HasProgram(a, account) then
      HadProgram(s, a) && a in s.programs.entries && LoadProgram(sv, s.db, s.sysvars, account) ==
        Ok(s.programs.entries[a])
    else
      HadProgram(s, a) ==> !AllLoad(sv, JournaledWrite(s, a, Stored(account)))
  }

  predicate QuietStep(sv: Services, s: StoreState, a: Address, account: Account) {
    Admissible(sv, s, a, account) ==> QuietSysvar(s, a, account) && QuietProgram(sv, s, a, account)
  }

  /** Every account up to the first refused one is quiet at its turn. */
  predicate Quiet(sv: Services, s: StoreState, xs: Delta)
    decreases |xs|
  {
    xs == [] ||
    (&& QuietStep(sv, s, xs[0].0, xs[0].1)
     && (Admissible(sv, s, xs[0].0, xs[0].1) && !Unprograms(s, xs[0]) ==>
           Quiet(sv, JournaledWrite(s, xs[0].0, Stored(xs[0].1)), xs[1..])))
  }

  ghost predicate SameCaches(s: StoreState, t: StoreState) {
    s.programs == t.programs && s.sysvars == t.sysvars
  }

  predicate NoSysvars(xs: Delta) {
    forall i :: 0 <= i < |xs| ==> !IsManagedSysvar(xs[i].0)
  }

  /** The slot follows the clock. */
  ghost predicate SlotFollows(sv: Services, s: StoreState) {
    Clock(sv, s.sysvars).Some? ==> s.programs.slot == Clock(sv, s.sysvars).value
  }

  /** The sysvar cache and the slot are what a rebuild of them would give. */
  ghost predicate Derived(sv: Services, s: StoreState) {
    s.sysvars == SysvarsOf(sv, s.db) && SlotFollows(sv, s)
  }

  function At(sysvars: SysvarCache, a: Address): Option<seq<byte>> {
    if a in sysvars then Some(sysvars[a]) else None
  }

  lemma SameEverywhere(x: SysvarCache, y: SysvarCache)
    requires forall b :: At(x, b) == At(y, b)
    ensures x == y
  {
    forall b ensures b in x <==> b in y { assert At(x, b) == At(y, b); }
    forall b | b in x ensures x[b] == y[b] { assert At(x, b) == At(y, b); }
  }

  lemma WriteKeepsSysvarAt(sv: Services, db: CacheDb, a: Address, account: Option<Account>, b: Address)
    requires b != a
    ensures At(SysvarsOf(sv, Write(db, a, account)), b) == At(SysvarsOf(sv, db), b)
  {}

  /** Rebuilding the sysvar cache for an admitted account changes it exactly if
      the account is not quiet. */
  lemma SysvarQuietExactly(sv: Services, s: StoreState, a: Address, account: Account)
    requires s.sysvars == SysvarsOf(sv, s.db) && IsManagedSysvar(a) && Admissible(sv, s, a, account)
    ensures QuietSysvar(s, a, account) <==> SysvarsOf(sv, Write(s.db, a, Stored(account))) == s.sysvars
  {
    var renewed := SysvarsOf(sv, Write(s.db, a, Stored(account)));
    assert At(renewed, a) == if account.lamports == 0 then None else Some(account.data);
    if QuietSysvar(s, a, account) {
      forall b ensures At(renewed, b) == At(s.sysvars, b) {
        if b != a {
          WriteKeepsSysvarAt(sv, s.db, a, Stored(account), b);
        }
      }
      SameEverywhere(renewed, s.sysvars);
    }
  }

  /** A quiet account is refused, or written and nothing else. */
  lemma QuietStepWrites(sv: Services, s: StoreState, a: Address, account: Account)
    requires QuietStep(sv, s, a, account) && (IsManagedSysvar(a) ==> Derived(sv, s))
    ensures var added := AddAccount(sv, s, a, account);
            && SameCaches(s, added.state)
            && added.ok == (Admissible(sv, s, a, account) && !Unprograms(s, (a, account)))
            && (added.ok ==> added.state == JournaledWrite(s, a, Stored(account)))
  {
    if Admissible(sv, s, a, account) {
      var s1 := JournaledWrite(s, a, Stored(account));
      if IsManagedSysvar(a) {
        SysvarQuietExactly(sv, s, a, account);
        assert RebuildSysvars(sv, s1) == s1;
      }
      if HasProgram(a, account) {
        assert Replenish(s1, a, s.programs.entries[a]).programs.entries == s.programs.entries;
      }
    }
  }

  lemma {:induction false} QuietKeepsCaches(sv: Services, s: StoreState, xs: Delta)
    requires Quiet(sv, s, xs) && (NoSysvars(xs) || Derived(sv, s))
    ensures SameCaches(s, AddAll(sv, s, xs).state)
    decreases |xs|
  {
    if xs != [] {
      QuietStepWrites(sv, s, xs[0].0, xs[0].1);
      if AddAccount(sv, s, xs[0].0, xs[0].1).ok {
        QuietStaysDerived(sv, s, xs);
        QuietKeepsCaches(sv, AddAccount(sv, s, xs[0].0, xs[0].1).state, xs[1..]);
      }
    }
  }

  lemma QuietStaysDerived(sv: Services, s: StoreState, xs: Delta)
    requires xs != [] && (NoSysvars(xs) || Derived(sv, s)) && QuietStep(sv, s, xs[0].0, xs[0].1)
    requires AddAccount(sv, s, xs[0].0, xs[0].1).ok
    ensures NoSysvars(xs[1..]) || Derived(sv, AddAccount(sv, s, xs[0].0, xs[0].1).state)
  {
    if !NoSysvars(xs) {
      QuietStepWrites(sv, s, xs[0].0, xs[0].1);
      AddKeepsSysvarsDerived(sv, s, xs[0].0, xs[0].1);
    }
  }

  // ----- A change of a cache cannot be undone by the rest of the list -----

  /** The entry of a loaded program; a builtin's entry is none. */
  predicate HasImage(cache: ProgramCache, a: Address) {
    a in cache.entries && !cache.entries[a].Builtin?
  }

  lemma LoadIsNoBuiltin(sv: Services, db: CacheDb, sysvars: SysvarCache, account: Account)
    requires LoadProgram(sv, db, sysvars, account).Ok?
    ensures !LoadProgram(sv, db, sysvars, account).value.Builtin?
  {}

  /** What adding does to the overlay and to the sysvar cache. */
  lemma AddWrites(sv: Services, s: StoreState, a: Address, account: Account)
    ensures var t := AddAccount(sv, s, a, account).state;
            if Admissible(sv, s, a, account) then
              && t.db == Write(s.db, a, Stored(account))
              && t.sysvars == (if IsManagedSysvar(a) then SysvarsOf(sv, Write(s.db, a, Stored(account))) else s.sysvars)
            else t == s
  {}

  lemma WriteElsewhereKeepsProgram(s: StoreState, t: StoreState, a: Address, account: Option<Account>, b: Address)
    requires b != a && (t.db == s.db || t.db == Write(s.db, a, account))
    ensures HadProgram(t, b) <==> HadProgram(s, b)
  {}

  lemma AddElsewhereKeepsLoaded(sv: Services, s: StoreState, a: Address, account: Account, b: Address)
    requires b != a && (HasImage(s.programs, b) <==> HadProgram(s, b))
    ensures var t := AddAccount(sv, s, a, account).state;
            (HasImage(t.programs, b) <==> HadProgram(t, b)) && (HadProgram(t, b) <==> HadProgram(s, b))
  {
    var t := AddAccount(sv, s, a, account).state;
    AddWrites(sv, s, a, account);
    WriteElsewhereKeepsProgram(s, t, a, Stored(account), b);
    if t.programs.entries != s.programs.entries && HadProgram(t, b) && !HasProgram(a, account) {
      LoadIsNoBuiltin(sv, t.db, t.sysvars, t.db.inner[b]);
    }
  }

  lemma {:induction false} AddAllElsewhereKeepsLoaded(sv: Services, s: StoreState, xs: Delta, b: Address)
    requires b !in Addresses(xs) && (HasImage(s.programs, b) <==> HadProgram(s, b))
    ensures var t := AddAll(sv, s, xs).state;
            HasImage(t.programs, b) <==> HadProgram(s, b)
    decreases |xs|
  {
    if xs != [] {
      AddressesOfTail(xs);
      AddElsewhereKeepsLoaded(sv, s, xs[0].0, xs[0].1, b);
      if AddAccount(sv, s, xs[0].0, xs[0].1).ok {
        AddAllElsewhereKeepsLoaded(sv, AddAccount(sv, s, xs[0].0, xs[0].1).state, xs[1..], b);
      }
    }
  }

  /** The cache has a loaded entry exactly for those listed addresses that hold a program. */
  ghost predicate Matches(cache: ProgramCache, s: StoreState, xs: Delta) {
    forall i :: 0 <= i < |xs| ==> (HasImage(cache, xs[i].0) <==> HadProgram(s, xs[i].0))
  }

  lemma MatchesRest(sv: Services, cache: ProgramCache, s: StoreState, xs: Delta)
    requires xs != [] && Distinct(xs) && Matches(cache, s, xs)
    ensures Matches(cache, AddAccount(sv, s, xs[0].0, xs[0].1).state, xs[1..])
  {
    var t := AddAccount(sv, s, xs[0].0, xs[0].1).state;
    AddWrites(sv, s, xs[0].0, xs[0].1);
    forall i | 0 <= i < |xs[1..]| ensures HasImage(cache, xs[1..][i].0) <==> HadProgram(t, xs[1..][i].0) {
      assert xs[1..][i] == xs[i + 1] && xs[0].0 != xs[i + 1].0;
      WriteElsewhereKeepsProgram(s, t, xs[0].0, Stored(xs[0].1), xs[i + 1].0);
    }
  }

  /** A program appears or disappears, and the rest of the list leaves it so. */
  lemma ProgramhoodShows(sv: Services, cache: ProgramCache, s: StoreState, xs: Delta)
    requires xs != [] && Distinct(xs) && Matches(cache, s, xs)
    requires AddAccount(sv, s, xs[0].0, xs[0].1).ok && (HasProgram(xs[0].0, xs[0].1) <==> !HadProgram(s, xs[0].0))
    ensures AddAll(sv, s, xs).state.programs != cache
  {
    var a, account := xs[0].0, xs[0].1;
    var t := AddAccount(sv, s, a, account).state;
    AddressesOfTail(xs);
    assert HadProgram(t, a) <==> HasProgram(a, account);
    if HasProgram(a, account) {
      LoadIsNoBuiltin(sv, s.db, s.sysvars, account);
    }
    assert HasImage(t.programs, a) <==> HadProgram(t, a);
    AddAllElsewhereKeepsLoaded(sv, t, xs[1..], a);
    assert xs[0].0 == a;
  }

  /** A program is loaded to something else; a later rebuild that could reload
      it would itself show. */
  lemma {:induction false} ReloadShows(sv: Services, cache: ProgramCache, s: StoreState, xs: Delta, a: Address)
    requires Distinct(xs) && Matches(cache, s, xs) && a !in Addresses(xs)
    requires a in s.programs.entries && a in cache.entries && s.programs.entries[a] != cache.entries[a]
    ensures AddAll(sv, s, xs).state.programs != cache
    decreases |xs|
  {
    if xs != [] {
      var b, account := xs[0].0, xs[0].1;
      AddressesOfTail(xs);
      if AddAccount(sv, s, b, account).ok {
        if HadProgram(s, b) && !HasProgram(b, account) {
          ProgramhoodShows(sv, cache, s, xs);
        } else {
          MatchesRest(sv, cache, s, xs);
          ReloadShows(sv, cache, AddAccount(sv, s, b, account).state, xs[1..], a);
        }
      }
    }
  }

  lemma AddKeepsSysvarsDerived(sv: Services, s: StoreState, a: Address, account: Account)
    requires s.sysvars == SysvarsOf(sv, s.db)
    ensures var t := AddAccount(sv, s, a, account).state;
            && t.sysvars == SysvarsOf(sv, t.db)
            && forall b :: b != a ==> At(t.sysvars, b) == At(s.sysvars, b)
  {
    AddWrites(sv, s, a, account);
    if Admissible(sv, s, a, account) {
      if !IsManagedSysvar(a) {
        WriteElsewhereKeepsSysvars(sv, s.db, a, Stored(account));
      }
      forall b | b != a ensures At(SysvarsOf(sv, Write(s.db, a, Stored(account))), b) == At(s.sysvars, b) {
        WriteKeepsSysvarAt(sv, s.db, a, Stored(account), b);
      }
    }
  }

  lemma {:induction false} AddAllElsewhereKeepsSysvar(sv: Services, s: StoreState, xs: Delta, b: Address)
    requires b !in Addresses(xs) && s.sysvars == SysvarsOf(sv, s.db)
    ensures At(AddAll(sv, s, xs).state.sysvars, b) == At(s.sysvars, b)
    decreases |xs|
  {
    if xs != [] {
      AddressesOfTail(xs);
      AddKeepsSysvarsDerived(sv, s, xs[0].0, xs[0].1);
      if AddAccount(sv, s, xs[0].0, xs[0].1).ok {
        AddAllElsewhereKeepsSysvar(sv, AddAccount(sv, s, xs[0].0, xs[0].1).state, xs[1..], b);
      }
    }
  }

  lemma SysvarShows(sv: Services, s: StoreState, xs: Delta)
    requires xs != [] && Distinct(xs) && s.sysvars == SysvarsOf(sv, s.db)
    requires Admissible(sv, s, xs[0].0, xs[0].1) && !QuietSysvar(s, xs[0].0, xs[0].1)
    ensures AddAll(sv, s, xs).state.sysvars != s.sysvars
  {
    var a, account := xs[0].0, xs[0].1;
    var t := AddAccount(sv, s, a, account).state;
    AddressesOfTail(xs);
    AddKeepsSysvarsDerived(sv, s, a, account);
    SysvarQuietExactly(sv, s, a, account);
    assert t.sysvars != s.sysvars;
    assert At(t.sysvars, a) != At(s.sysvars, a) by {
      if At(t.sysvars, a) == At(s.sysvars, a) {
        SameEverywhere(t.sysvars, s.sysvars);
      }
    }
    if AddAccount(sv, s, a, account).ok {
      AddAllElsewhereKeepsSysvar(sv, t, xs[1..], a);
    }
  }

  lemma {:induction false} LoudChangesCaches(sv: Services, s: StoreState, xs: Delta)
    requires Distinct(xs) && Matches(s.programs, s, xs) && Derived(sv, s) && !Quiet(sv, s, xs)
    ensures !SameCaches(s, AddAll(sv, s, xs).state)
    decreases |xs|
  {
    var a, account := xs[0].0, xs[0].1;
    var t := AddAccount(sv, s, a, account);
    if QuietStep(sv, s, a, account) {
      QuietStepWrites(sv, s, a, account);
      AddKeepsSysvarsDerived(sv, s, a, account);
      MatchesRest(sv, s.programs, s, xs);
      LoudChangesCaches(sv, t.state, xs[1..]);
    } else if !QuietSysvar(s, a, account) {
      SysvarShows(sv, s, xs);
    } else if HasProgram(a, account) && HadProgram(s, a) {
      assert xs[0].0 == a && HasImage(s.programs, a);
      AddressesOfTail(xs);
      MatchesRest(sv, s.programs, s, xs);
      ReloadShows(sv, s.programs, t.state, xs[1..], a);
    } else {
      LoudProgramIsTaken(sv, s, a, account);
      ProgramhoodShows(sv, s.programs, s, xs);
    }
  }

  lemma LoudProgramIsTaken(sv: Services, s: StoreState, a: Address, account: Account)
    requires Derived(sv, s) && Admissible(sv, s, a, account) && QuietSysvar(s, a, account)
    requires !QuietProgram(sv, s, a, account) && (HasProgram(a, account) <==> !HadProgram(s, a))
    ensures AddAccount(sv, s, a, account).ok
  {
    if IsManagedSysvar(a) {
      SysvarQuietExactly(sv, s, a, account);
    }
  }

  lemma CoherentMatches(sv: Services, s: StoreState, xs: Delta)
    requires Coherent(sv, s)
    ensures Matches(s.programs, s, xs) && SlotFollows(sv, s)
  {
    forall i | 0 <= i < |xs| ensures HasImage(s.programs, xs[i].0) <==> HadProgram(s, xs[i].0) {
      var a := xs[i].0;
      if HadProgram(s, a) {
        assert a in ProgramIds(s.db);
        LoadIsNoBuiltin(sv, s.db, s.sysvars, s.db.inner[a]);
      }
    }
  }

  /** Whether the list is taken or refused half-way, the caches come out as they
      were if and only if it is quiet. That a quiet list keeps them needs derived
      sysvars only if it writes one; the converse is for coherent caches and
      distinct addresses. */
  lemma QuietExactly(sv: Services, s: StoreState, xs: Delta)
    ensures Quiet(sv, s, xs) && (NoSysvars(xs) || Derived(sv, s)) ==> SameCaches(s, AddAll(sv, s, xs).state)
    ensures Coherent(sv, s) && Distinct(xs) ==> (SameCaches(s, AddAll(sv, s, xs).state) <==> Quiet(sv, s, xs))
  {
    if Quiet(sv, s, xs) && (NoSysvars(xs) || Derived(sv, s)) {
      QuietKeepsCaches(sv, s, xs);
    }
    if Coherent(sv, s) && Distinct(xs) && !Quiet(sv, s, xs) {
      CoherentMatches(sv, s, xs);
      LoudChangesCaches(sv, s, xs);
    }
  }

  // ----- Lists that leave the caches stale -----

  predicate UnprogramsNothing(s: StoreState, xs: Delta) {
    forall i :: 0 <= i < |xs| ==> !Unprograms(s, xs[i])
  }

  function WriteAll(db: CacheDb, xs: Delta): CacheDb
    decreases |xs|
  {
    if xs == [] then db else WriteAll(Write(db, xs[0].0, Stored(xs[0].1)), xs[1..])
  }

  function ProgramsOf(xs: Delta): set<Address> {
    set i | 0 <= i < |xs| && HasProgram(xs[i].0, xs[i].1) :: xs[i].0
  }

  lemma {:induction false} WriteAllAt(sv: Services, db: CacheDb, xs: Delta, a: Address)
    requires Distinct(xs)
    ensures a !in Addresses(xs) ==> Read(sv, WriteAll(db, xs), a) == Read(sv, db, a)
    ensures a !in Addresses(xs) ==> (a in WriteAll(db, xs).inner <==> a in db.inner)
    ensures a !in Addresses(xs) && a in db.inner ==> WriteAll(db, xs).inner[a] == db.inner[a]
    ensures forall i :: 0 <= i < |xs| && xs[i].0 == a ==>
              if Stored(xs[i].1).Some? then a in WriteAll(db, xs).inner && WriteAll(db, xs).inner[a] == xs[i].1
              else a !in WriteAll(db, xs).inner
    decreases |xs|
  {
    if xs != [] {
      AddressesOfTail(xs);
      var rest := xs[1..];
      WriteAllAt(sv, Write(db, xs[0].0, Stored(xs[0].1)), rest, a);
      forall i | 0 <= i < |xs| && xs[i].0 == a
        ensures if Stored(xs[i].1).Some? then a in WriteAll(db, xs).inner && WriteAll(db, xs).inner[a] == xs[i].1
                else a !in WriteAll(db, xs).inner
      {
        if i > 0 { assert rest[i - 1] == xs[i]; }
      }
    }
  }

  lemma WriteAllPrograms(sv: Services, s: StoreState, xs: Delta)
    requires Distinct(xs) && UnprogramsNothing(s, xs)
    ensures ProgramIds(WriteAll(s.db, xs)) == ProgramIds(s.db) + ProgramsOf(xs)
    ensures forall i :: 0 <= i < |xs| && HasProgram(xs[i].0, xs[i].1) ==>
              xs[i].0 in WriteAll(s.db, xs).inner && WriteAll(s.db, xs).inner[xs[i].0] == xs[i].1
  {
    var db := WriteAll(s.db, xs);
    forall i | 0 <= i < |xs| && HasProgram(xs[i].0, xs[i].1)
      ensures xs[i].0 in db.inner && db.inner[xs[i].0] == xs[i].1
    {
      WriteAllAt(sv, s.db, xs, xs[i].0);
    }
    forall a ensures a in ProgramIds(db) <==> a in ProgramIds(s.db) || a in ProgramsOf(xs) {
      WriteAllAt(sv, s.db, xs, a);
      if a in Addresses(xs) {
        var i :| 0 <= i < |xs| && xs[i].0 == a;
        assert !Unprograms(s, xs[i]);
        assert a in ProgramsOf(xs) <==> HasProgram(xs[i].0, xs[i].1);
      }
    }
  }

  /** The database a program of the list is loaded from. */
  function Before(db: CacheDb, xs: Delta, i: nat): CacheDb
    requires i <= |xs|
  {
    WriteAll(db, xs[..i])
  }

  /** What a program loads to from an overlay with its own sysvars. */
  function LoadFrom(sv: Services, db: CacheDb, account: Account): Result<ProgramEntry, InstructionError> {
    LoadProgram(sv, db, SysvarsOf(sv, db), account)
  }

  /** The caches after a list that unprograms nothing: each program is loaded
      from what precedes it, every other entry stays. */
  ghost predicate PlainlyAdded(sv: Services, s: StoreState, xs: Delta, t: StoreState) {
    && t.db == WriteAll(s.db, xs) && t.sysvars == SysvarsOf(sv, t.db)
    && t.programs.entries.Keys == s.programs.entries.Keys + ProgramsOf(xs)
    && (forall b :: b in s.programs.entries && b !in ProgramsOf(xs) ==> t.programs.entries[b] == s.programs.entries[b])
    && (forall i :: 0 <= i < |xs| && HasProgram(xs[i].0, xs[i].1) ==>
          LoadFrom(sv, Before(s.db, xs, i), xs[i].1) == Ok(t.programs.entries[xs[i].0]))
  }

  lemma PlainRest(sv: Services, s: StoreState, xs: Delta)
    requires xs != [] && Distinct(xs) && UnprogramsNothing(s, xs)
    ensures UnprogramsNothing(AddAccount(sv, s, xs[0].0, xs[0].1).state, xs[1..]) && Distinct(xs[1..])
  {
    var t := AddAccount(sv, s, xs[0].0, xs[0].1).state;
    AddWrites(sv, s, xs[0].0, xs[0].1);
    forall i | 0 <= i < |xs[1..]| ensures !Unprograms(t, xs[1..][i]) {
      assert xs[1..][i] == xs[i + 1] && xs[0].0 != xs[i + 1].0;
      WriteElsewhereKeepsProgram(s, t, xs[0].0, Stored(xs[0].1), xs[i + 1].0);
    }
  }

  lemma ProgramsOfCons(xs: Delta)
    requires xs != []
    ensures ProgramsOf(xs) == ProgramsOf(xs[1..]) + if HasProgram(xs[0].0, xs[0].1) then {xs[0].0} else {}
  {
    forall a
      ensures a in ProgramsOf(xs) <==> a in ProgramsOf(xs[1..]) || (a == xs[0].0 && HasProgram(xs[0].0, xs[0].1))
    {
      if a in ProgramsOf(xs) {
        var i :| 0 <= i < |xs| && HasProgram(xs[i].0, xs[i].1) && xs[i].0 == a;
        if i > 0 { assert xs[1..][i - 1] == xs[i]; }
      }
      if a in ProgramsOf(xs[1..]) {
        var i :| 0 <= i < |xs[1..]| && HasProgram(xs[1..][i].0, xs[1..][i].1) && xs[1..][i].0 == a;
        assert xs[i + 1] == xs[1..][i];
      }
    }
  }

  lemma ProgramsAreAddresses(xs: Delta)
    ensures ProgramsOf(xs) <= Addresses(xs)
  {}

  lemma {:induction false} PlainAddAll(sv: Services, s: StoreState, xs: Delta)
    requires Distinct(xs) && s.sysvars == SysvarsOf(sv, s.db) && UnprogramsNothing(s, xs) && AddAll(sv, s, xs).ok
    ensures PlainlyAdded(sv, s, xs, AddAll(sv, s, xs).state)
    decreases |xs|
  {
    if xs != [] {
      var a, account, rest := xs[0].0, xs[0].1, xs[1..];
      var s1 := AddAccount(sv, s, a, account).state;
      AddressesOfTail(xs);
      PlainRest(sv, s, xs);
      AddKeepsSysvarsDerived(sv, s, a, account);
      PlainAddAll(sv, s1, rest);
      assert !Unprograms(s, xs[0]);
      PlainAddOne(sv, s, xs[0]);
      PlainCons(sv, s, xs, s1, AddAll(sv, s, xs).state);
    }
  }

  /** What one account of a plain list does to the store. */
  ghost predicate PlainlyAddedOne(sv: Services, s: StoreState, x: (Address, Account), s1: StoreState) {
    && s1.db == Write(s.db, x.0, Stored(x.1))
    && if HasProgram(x.0, x.1) then
         var loaded := LoadFrom(sv, s.db, x.1);
         loaded.Ok? && s1.programs.entries == s.programs.entries[x.0 := loaded.value]
       else s1.programs.entries == s.programs.entries
  }

  lemma PlainAddOne(sv: Services, s: StoreState, x: (Address, Account))
    requires s.sysvars == SysvarsOf(sv, s.db) && AddAccount(sv, s, x.0, x.1).ok && !Unprograms(s, x)
    ensures PlainlyAddedOne(sv, s, x, AddAccount(sv, s, x.0, x.1).state)
  {}

  lemma PlainConsLoads(sv: Services, s: StoreState, xs: Delta, s1: StoreState, t: StoreState, i: nat)
    requires xs != [] && xs[0].0 !in Addresses(xs[1..]) && PlainlyAddedOne(sv, s, xs[0], s1)
    requires PlainlyAdded(sv, s1, xs[1..], t)
    requires i < |xs| && HasProgram(xs[i].0, xs[i].1)
    ensures xs[i].0 in t.programs.entries
    ensures LoadFrom(sv, Before(s.db, xs, i), xs[i].1) == Ok(t.programs.entries[xs[i].0])
  {
    var rest := xs[1..];
    ProgramsAreAddresses(rest);
    BeforeOfCons(s.db, xs, i);
    if i > 0 {
      assert rest[i - 1] == xs[i];
    }
  }

  lemma BeforeOfCons(db: CacheDb, xs: Delta, i: nat)
    requires xs != [] && i <= |xs|
    ensures Before(db, xs, i) == if i == 0 then db else Before(Write(db, xs[0].0, Stored(xs[0].1)), xs[1..], i - 1)
  {
    if i > 0 {
      assert xs[..i][1..] == xs[1..][..i - 1];
    }
  }

  lemma PlainCons(sv: Services, s: StoreState, xs: Delta, s1: StoreState, t: StoreState)
    requires xs != [] && xs[0].0 !in Addresses(xs[1..]) && PlainlyAddedOne(sv, s, xs[0], s1)
    requires PlainlyAdded(sv, s1, xs[1..], t)
    ensures PlainlyAdded(sv, s, xs, t)
  {
    ProgramsOfCons(xs);
    ProgramsAreAddresses(xs[1..]);
    forall i | 0 <= i < |xs| && HasProgram(xs[i].0, xs[i].1)
      ensures LoadFrom(sv, Before(s.db, xs, i), xs[i].1) == Ok(t.programs.entries[xs[i].0])
    {
      PlainConsLoads(sv, s, xs, s1, t, i);
    }
  }

  /** The slot after a list: that of the clock, or the old one if there is none. */
  lemma {:induction false} AddAllSlot(sv: Services, s: StoreState, xs: Delta)
    requires Distinct(xs) && Derived(sv, s) && UnprogramsNothing(s, xs) && AddAll(sv, s, xs).ok
    ensures var t := AddAll(sv, s, xs).state;
            t.programs.slot == match Clock(sv, t.sysvars) case Some(n) => n case None => s.programs.slot
    decreases |xs|
  {
    if xs != [] {
      var s1 := AddAccount(sv, s, xs[0].0, xs[0].1).state;
      AddressesOfTail(xs);
      PlainRest(sv, s, xs);
      AddKeepsSysvarsDerived(sv, s, xs[0].0, xs[0].1);
      assert !Unprograms(s, xs[0]);
      AddSlot(sv, s, xs[0]);
      AddAllSlot(sv, s1, xs[1..]);
      if s1.programs.slot != s.programs.slot {
        AddAllElsewhereKeepsSysvar(sv, s1, xs[1..], CLOCK_ID);
        assert At(AddAll(sv, s, xs).state.sysvars, CLOCK_ID) == At(s1.sysvars, CLOCK_ID);
      }
    }
  }

  lemma AddSlot(sv: Services, s: StoreState, x: (Address, Account))
    requires Derived(sv, s) && AddAccount(sv, s, x.0, x.1).ok && !Unprograms(s, x)
    ensures var t := AddAccount(sv, s, x.0, x.1).state;
            Derived(sv, t) && (t.programs.slot == s.programs.slot || (x.0 == CLOCK_ID && Clock(sv, t.sysvars).Some?))
  {
    AddKeepsSysvarsDerived(sv, s, x.0, x.1);
    var t := AddAccount(sv, s, x.0, x.1).state;
    if x.0 != CLOCK_ID {
      assert At(t.sysvars, CLOCK_ID) == At(s.sysvars, CLOCK_ID);
    }
  }

  // ----- Loading alike -----

  /** The account loads alike from the overlay before the list, or before a part
      of it, and from the overlay after the whole of it. */
  ghost predicate SameLoad(sv: Services, db: CacheDb, xs: Delta, i: nat, account: Account)
    requires i <= |xs|
  {
    LoadFrom(sv, Before(db, xs, i), account) == LoadFrom(sv, WriteAll(db, xs), account)
  }

  /** Loading the account would read something the list writes: the account it
      names, or the clock. */
  predicate Reads(sv: Services, account: Account, xs: Delta) {
    CLOCK_ID in Addresses(xs) || (Names(sv, account).Some? && Names(sv, account).value in Addresses(xs))
  }

  /** A program outside the list that reads an account of the list. */
  predicate ExposedOutsider(sv: Services, s: StoreState, xs: Delta, b: Address) {
    b in ProgramIds(s.db) && b !in Addresses(xs) && Reads(sv, s.db.inner[b], xs)
  }

  /** A program of the list that does not come after all the accounts it reads. */
  predicate ExposedMember(sv: Services, xs: Delta, i: int) {
    0 <= i < |xs| && HasProgram(xs[i].0, xs[i].1) && Reads(sv, xs[i].1, xs[i..])
  }

  ghost predicate OutsidersAlike(sv: Services, s: StoreState, xs: Delta) {
    forall b :: ExposedOutsider(sv, s, xs, b) ==> SameLoad(sv, s.db, xs, 0, s.db.inner[b])
  }

  ghost predicate MembersAlike(sv: Services, s: StoreState, xs: Delta) {
    forall i :: ExposedMember(sv, xs, i) ==> SameLoad(sv, s.db, xs, i, xs[i].1)
  }

  /** If the list leaves no clock, the slot was already the default. */
  ghost predicate SlotStays(sv: Services, s: StoreState, xs: Delta) {
    Clock(sv, SysvarsOf(sv, WriteAll(s.db, xs))).None? ==> s.programs.slot == 0
  }

  /** No builtin of the list appears or disappears. */
  ghost predicate BuiltinsStay(sv: Services, s: StoreState, xs: Delta) {
    forall a :: a in sv.builtins && a in Addresses(xs) && a !in ProgramsOf(xs) ==>
      (a in s.db.inner <==> a in WriteAll(s.db, xs).inner)
  }

  /** The exposed programs load alike from the accounts before them and after the list. */
  ghost predicate LoadsAlike(sv: Services, s: StoreState, xs: Delta) {
    OutsidersAlike(sv, s, xs) && MembersAlike(sv, s, xs) && BuiltinsStay(sv, s, xs) && SlotStays(sv, s, xs)
  }

  lemma {:induction false} WriteAllOfConcat(db: CacheDb, xs: Delta, ys: Delta)
    ensures WriteAll(db, xs + ys) == WriteAll(WriteAll(db, xs), ys)
    decreases |xs|
  {
    if xs == [] {
      assert xs + ys == ys;
    } else {
      assert (xs + ys)[1..] == xs[1..] + ys;
      WriteAllOfConcat(Write(db, xs[0].0, Stored(xs[0].1)), xs[1..], ys);
    }
  }

  lemma {:induction false} WriteAllKeepsSysvarAt(sv: Services, db: CacheDb, xs: Delta, b: Address)
    requires b !in Addresses(xs)
    ensures At(SysvarsOf(sv, WriteAll(db, xs)), b) == At(SysvarsOf(sv, db), b)
    decreases |xs|
  {
    if xs != [] {
      AddressesOfTail(xs);
      WriteKeepsSysvarAt(sv, db, xs[0].0, Stored(xs[0].1), b);
      WriteAllKeepsSysvarAt(sv, Write(db, xs[0].0, Stored(xs[0].1)), xs[1..], b);
    }
  }

  lemma LoadFromDepends(sv: Services, d1: CacheDb, d2: CacheDb, account: Account)
    requires At(SysvarsOf(sv, d1), CLOCK_ID) == At(SysvarsOf(sv, d2), CLOCK_ID)
    requires Names(sv, account).Some? ==>
               Read(sv, d1, Names(sv, account).value) == Read(sv, d2, Names(sv, account).value)
    ensures LoadFrom(sv, d1, account) == LoadFrom(sv, d2, account)
  {
    assert Clock(sv, SysvarsOf(sv, d1)) == Clock(sv, SysvarsOf(sv, d2));
  }

  /** An account that reads nothing of the rest of the list loads alike. */
  lemma UnexposedLoads(sv: Services, db: CacheDb, xs: Delta, i: nat, account: Account)
    requires Distinct(xs) && i <= |xs| && !Reads(sv, account, xs[i..])
    ensures SameLoad(sv, db, xs, i, account)
  {
    var turn, rest := Before(db, xs, i), xs[i..];
    assert xs == xs[..i] + rest;
    WriteAllOfConcat(db, xs[..i], rest);
    WriteAllKeepsSysvarAt(sv, turn, rest, CLOCK_ID);
    if Names(sv, account).Some? {
      WriteAllAt(sv, turn, rest, Names(sv, account).value);
    }
    LoadFromDepends(sv, turn, WriteAll(db, xs), account);
  }

  /** An entry of the cache after a plain list is what the new accounts load to. */
  ghost predicate EntryHolds(sv: Services, t: StoreState, b: Address)
    requires b in t.db.inner
  {
    b in t.programs.entries && LoadProgram(sv, t.db, t.sysvars, t.db.inner[b]) == Ok(t.programs.entries[b])
  }

  lemma OutsiderEntry(sv: Services, s: StoreState, xs: Delta, t: StoreState, b: Address)
    requires CoherentExcept(sv, s, {}) && Distinct(xs) && UnprogramsNothing(s, xs) && PlainlyAdded(sv, s, xs, t)
    requires b in ProgramIds(s.db) && b !in Addresses(xs)
    ensures b in t.db.inner
    ensures EntryHolds(sv, t, b) <==> (ExposedOutsider(sv, s, xs, b) ==> SameLoad(sv, s.db, xs, 0, s.db.inner[b]))
  {
    ProgramsAreAddresses(xs);
    WriteAllAt(sv, s.db, xs, b);
    assert xs[0..] == xs && |xs[..0]| == 0;
    if !ExposedOutsider(sv, s, xs, b) {
      UnexposedLoads(sv, s.db, xs, 0, s.db.inner[b]);
    }
  }

  lemma ListedEntry(sv: Services, s: StoreState, xs: Delta, t: StoreState, i: nat)
    requires Distinct(xs) && UnprogramsNothing(s, xs) && PlainlyAdded(sv, s, xs, t)
    requires i < |xs| && HasProgram(xs[i].0, xs[i].1)
    ensures xs[i].0 in t.db.inner
    ensures EntryHolds(sv, t, xs[i].0) <==> (ExposedMember(sv, xs, i) ==> SameLoad(sv, s.db, xs, i, xs[i].1))
  {
    WriteAllPrograms(sv, s, xs);
    if !ExposedMember(sv, xs, i) {
      UnexposedLoads(sv, s.db, xs, i, xs[i].1);
    }
  }

  lemma PlainKeyAt(sv: Services, s: StoreState, xs: Delta, t: StoreState, a: Address)
    requires CoherentExcept(sv, s, {}) && Distinct(xs) && UnprogramsNothing(s, xs) && PlainlyAdded(sv, s, xs, t)
    ensures (a in t.programs.entries <==> a in (sv.builtins * t.db.inner.Keys) + ProgramIds(t.db)) <==>
            (a in sv.builtins && a in Addresses(xs) && a !in ProgramsOf(xs) ==> (a in s.db.inner <==> a in t.db.inner))
  {
    WriteAllPrograms(sv, s, xs);
    ProgramsAreAddresses(xs);
    WriteAllAt(sv, s.db, xs, a);
    if a in Addresses(xs) {
      var i :| 0 <= i < |xs| && xs[i].0 == a;
      assert !Unprograms(s, xs[i]);
      assert a in ProgramsOf(xs) <==> HasProgram(xs[i].0, xs[i].1);
    }
  }

  lemma PlainKeys(sv: Services, s: StoreState, xs: Delta, t: StoreState)
    requires CoherentExcept(sv, s, {}) && Distinct(xs) && UnprogramsNothing(s, xs) && PlainlyAdded(sv, s, xs, t)
    ensures t.programs.entries.Keys == (sv.builtins * t.db.inner.Keys) + ProgramIds(t.db) <==> BuiltinsStay(sv, s, xs)
  {
    forall a
      ensures (a in t.programs.entries <==> a in (sv.builtins * t.db.inner.Keys) + ProgramIds(t.db)) <==>
              (a in sv.builtins && a in Addresses(xs) && a !in ProgramsOf(xs) ==>
                 (a in s.db.inner <==> a in t.db.inner))
    {
      PlainKeyAt(sv, s, xs, t, a);
    }
  }

  ghost predicate AllHold(sv: Services, t: StoreState) {
    forall b :: b in ProgramIds(t.db) ==> EntryHolds(sv, t, b)
  }

  lemma AlikeMeansHold(sv: Services, s: StoreState, xs: Delta, t: StoreState)
    requires CoherentExcept(sv, s, {}) && Distinct(xs) && UnprogramsNothing(s, xs) && PlainlyAdded(sv, s, xs, t)
    requires OutsidersAlike(sv, s, xs) && MembersAlike(sv, s, xs)
    ensures AllHold(sv, t)
  {
    WriteAllPrograms(sv, s, xs);
    forall b | b in ProgramIds(t.db) ensures EntryHolds(sv, t, b) {
      if b in Addresses(xs) {
        var i :| 0 <= i < |xs| && xs[i].0 == b;
        assert !Unprograms(s, xs[i]);
        ListedEntry(sv, s, xs, t, i);
      } else {
        ProgramsAreAddresses(xs);
        OutsiderEntry(sv, s, xs, t, b);
      }
    }
  }

  lemma HoldMeansAlike(sv: Services, s: StoreState, xs: Delta, t: StoreState)
    requires CoherentExcept(sv, s, {}) && Distinct(xs) && UnprogramsNothing(s, xs) && PlainlyAdded(sv, s, xs, t)
    requires AllHold(sv, t)
    ensures OutsidersAlike(sv, s, xs) && MembersAlike(sv, s, xs)
  {
    WriteAllPrograms(sv, s, xs);
    forall b | ExposedOutsider(sv, s, xs, b) ensures SameLoad(sv, s.db, xs, 0, s.db.inner[b]) {
      OutsiderEntry(sv, s, xs, t, b);
    }
    forall i | ExposedMember(sv, xs, i) ensures SameLoad(sv, s.db, xs, i, xs[i].1) {
      assert xs[i].0 in ProgramsOf(xs);
      ListedEntry(sv, s, xs, t, i);
    }
  }

  lemma PlainCoherence(sv: Services, s: StoreState, xs: Delta, t: StoreState)
    requires CoherentExcept(sv, s, {}) && Distinct(xs) && UnprogramsNothing(s, xs) && PlainlyAdded(sv, s, xs, t)
    requires t.programs.slot == match Clock(sv, t.sysvars) case Some(n) => n case None => s.programs.slot
    ensures CoherentExcept(sv, t, {}) <==> AllHold(sv, t) && BuiltinsStay(sv, s, xs) && SlotStays(sv, s, xs)
  {
    WriteAllPrograms(sv, s, xs);
    PlainKeys(sv, s, xs, t);
  }

  lemma PlainCoherentExactly(sv: Services, s: StoreState, xs: Delta)
    requires Coherent(sv, s) && Distinct(xs) && UnprogramsNothing(s, xs) && AddAll(sv, s, xs).ok
    ensures Coherent(sv, AddAll(sv, s, xs).state) <==> LoadsAlike(sv, s, xs)
  {
    var t := AddAll(sv, s, xs).state;
    CoherentMeansNonePending(sv, s);
    CoherentMeansNonePending(sv, t);
    PlainAddAll(sv, s, xs);
    AddAllSlot(sv, s, xs);
    PlainCoherence(sv, s, xs, t);
    if AllHold(sv, t) {
      HoldMeansAlike(sv, s, xs, t);
    }
    if OutsidersAlike(sv, s, xs) && MembersAlike(sv, s, xs) {
      AlikeMeansHold(sv, s, xs, t);
    }
  }

  // ----- Any list -----

  /** The store and the rest of the list after its last account that unprograms. */
  function Since(sv: Services, s: StoreState, xs: Delta): (StoreState, Delta)
    decreases |xs|
  {
    if xs == [] || UnprogramsNothing(s, xs) then (s, xs)
    else Since(sv, AddAccount(sv, s, xs[0].0, xs[0].1).state, xs[1..])
  }

  lemma RebuildIsCoherent(sv: Services, s: StoreState, x: (Address, Account))
    requires s.sysvars == SysvarsOf(sv, s.db) && Unprograms(s, x) && AddAccount(sv, s, x.0, x.1).ok
    ensures Coherent(sv, AddAccount(sv, s, x.0, x.1).state)
  {
    AddKeepsSysvarsDerived(sv, s, x.0, x.1);
    var s1 := JournaledWrite(s, x.0, Stored(x.1));
    var s2 := if IsManagedSysvar(x.0) then RebuildSysvars(sv, s1) else s1;
    assert AllLoad(sv, s2);
    assert AddAccount(sv, s, x.0, x.1).state == s2.(programs := Rebuilt(sv, s2));
  }

  lemma UnprogramsLater(sv: Services, s: StoreState, xs: Delta)
    requires xs != [] && Distinct(xs) && !Unprograms(s, xs[0]) && !UnprogramsNothing(s, xs)
    ensures !UnprogramsNothing(AddAccount(sv, s, xs[0].0, xs[0].1).state, xs[1..])
  {
    var i :| 0 <= i < |xs| && Unprograms(s, xs[i]);
    var t := AddAccount(sv, s, xs[0].0, xs[0].1).state;
    AddWrites(sv, s, xs[0].0, xs[0].1);
    assert xs[1..][i - 1] == xs[i];
    WriteElsewhereKeepsProgram(s, t, xs[0].0, Stored(xs[0].1), xs[i].0);
    assert Unprograms(t, xs[1..][i - 1]);
  }

  lemma {:induction false} SinceIsCoherent(sv: Services, s: StoreState, xs: Delta)
    requires s.sysvars == SysvarsOf(sv, s.db) && Distinct(xs) && AddAll(sv, s, xs).ok
    requires UnprogramsNothing(s, xs) ==> Coherent(sv, s)
    ensures var (t, ys) := Since(sv, s, xs);
            && Coherent(sv, t) && Distinct(ys) && UnprogramsNothing(t, ys)
            && AddAll(sv, s, xs) == AddAll(sv, t, ys)
    decreases |xs|
  {
    if xs != [] && !UnprogramsNothing(s, xs) {
      AddKeepsSysvarsDerived(sv, s, xs[0].0, xs[0].1);
      if Unprograms(s, xs[0]) {
        RebuildIsCoherent(sv, s, xs[0]);
      } else {
        UnprogramsLater(sv, s, xs);
      }
      SinceIsCoherent(sv, AddAccount(sv, s, xs[0].0, xs[0].1).state, xs[1..]);
    }
  }

  /** After a successful sync the caches are coherent if and only if, since its
      last account that unprograms (a rebuild), the programs that read an account
      written after them (their programdata or the clock) load alike before and
      after, no builtin comes or goes, and a clock remains or none was followed. */
  lemma SyncCoherentExactly(sv: Services, s: StoreState, delta: Delta)
    requires Coherent(sv, s) && Distinct(delta) && AddAll(sv, s, Partitioned(delta)).ok
    ensures var (t, ys) := Since(sv, s, Partitioned(delta));
            Coherent(sv, AddAll(sv, s, Partitioned(delta)).state) <==> LoadsAlike(sv, t, ys)
    ensures UnprogramsNothing(s, delta) ==> Since(sv, s, Partitioned(delta)) == (s, Partitioned(delta))
  {
    var xs := Partitioned(delta);
    PartitionedSound(delta);
    SameElements(xs, delta);
    SinceIsCoherent(sv, s, xs);
    var (t, ys) := Since(sv, s, xs);
    PlainCoherentExactly(sv, t, ys);
    if UnprogramsNothing(s, delta) {
      forall i | 0 <= i < |xs| ensures !Unprograms(s, xs[i]) {
        assert xs[i] in delta;
        var p :| 0 <= p < |delta| && delta[p] == xs[i];
      }
    }
  }

  // ----- Entries a list does not reach -----

  function EntryAt(cache: ProgramCache, b: Address): Option<ProgramEntry> {
    if b in cache.entries then Some(cache.entries[b]) else None
  }

  /** The entry of one address, and the slot, are what a rebuild would give. */
  ghost predicate SettledAt(sv: Services, s: StoreState, b: Address) {
    && s.programs.slot == (match Clock(sv, s.sysvars) case Some(n) => n case None => 0)
    && if b in ProgramIds(s.db) then
         b in s.programs.entries && LoadProgram(sv, s.db, s.sysvars, s.db.inner[b]) == Ok(s.programs.entries[b])
       else EntryAt(s.programs, b) == if b in sv.builtins && b in s.db.inner then Some(Builtin(b)) else None
  }

  /** The list writes no sysvar, not the account at `b`, and nothing the program there names. */
  predicate OutOfReach(sv: Services, db: CacheDb, xs: Delta, b: Address) {
    && NoSysvars(xs) && b !in Addresses(xs)
    && (b in ProgramIds(db) && Names(sv, db.inner[b]).Some? ==> Names(sv, db.inner[b]).value !in Addresses(xs))
  }

  /** What somebody looking at `b` finds in the caches. */
  ghost predicate SameAt(s: StoreState, t: StoreState, b: Address) {
    t.sysvars == s.sysvars && t.programs.slot == s.programs.slot && EntryAt(t.programs, b) == EntryAt(s.programs, b)
  }

  ghost predicate SameProgramAt(db: CacheDb, db': CacheDb, b: Address) {
    (b in db'.inner <==> b in db.inner) && (b in db.inner ==> db'.inner[b] == db.inner[b])
  }

  lemma AddLeavesEntry(sv: Services, s: StoreState, a: Address, account: Account, b: Address)
    requires b != a && !IsManagedSysvar(a) && SettledAt(sv, s, b)
    requires b in ProgramIds(s.db) ==> Names(sv, s.db.inner[b]) != Some(a)
    ensures var t := AddAccount(sv, s, a, account).state;
            SameAt(s, t, b) && SettledAt(sv, t, b) && SameProgramAt(s.db, t.db, b)
  {
    var t := AddAccount(sv, s, a, account).state;
    AddWrites(sv, s, a, account);
    if b in ProgramIds(s.db) {
      LoadDependsOnProgramdata(sv, s.db, t.db, s.sysvars, s.db.inner[b]);
    }
  }

  lemma {:induction false} AddAllLeavesEntry(sv: Services, s: StoreState, xs: Delta, b: Address)
    requires SettledAt(sv, s, b) && OutOfReach(sv, s.db, xs, b)
    ensures var t := AddAll(sv, s, xs).state;
            SameAt(s, t, b) && SettledAt(sv, t, b) && SameProgramAt(s.db, t.db, b)
    decreases |xs|
  {
    if xs != [] {
      var first := AddAccount(sv, s, xs[0].0, xs[0].1);
      AddressesOfTail(xs);
      assert !IsManagedSysvar(xs[0].0) && xs[0].0 in Addresses(xs);
      AddLeavesEntry(sv, s, xs[0].0, xs[0].1, b);
      if first.ok {
        assert NoSysvars(xs[1..]);
        AddAllLeavesEntry(sv, first.state, xs[1..], b);
      }
    }
  }

  /** Syncing a delta that does not reach an address leaves what the caches hold for it. */
  lemma SyncLeavesEntry(sv: Services, s: StoreState, delta: Delta, b: Address)
    requires SettledAt(sv, s, b) && OutOfReach(sv, s.db, delta, b)
    ensures var t := AddAll(sv, s, Partitioned(delta)).state;
            SameAt(s, t, b) && SettledAt(sv, t, b) && SameProgramAt(s.db, t.db, b)
  {
    var xs := Partitioned(delta);
    PartitionedSound(delta);
    SameElements(xs, delta);
    SameAddresses(xs, delta);
    forall i | 0 <= i < |xs| ensures !IsManagedSysvar(xs[i].0) {
      assert xs[i] in delta;
    }
    AddAllLeavesEntry(sv, s, xs, b);
  }

  // ----- Removing an account -----

  /** What removing an account does, seen from coherent caches. */
  ghost predicate Removed(sv: Services, s: StoreState, a: Address, t: StoreState) {
    && t.db == Write(s.db, a, None) && t.sysvars == SysvarsOf(sv, t.db)
    && t.programs.entries == s.programs.entries - {a}
    && t.programs.slot == (match Clock(sv, t.sysvars) case Some(n) => n case None => s.programs.slot)
    && At(t.sysvars, CLOCK_ID) == if a == CLOCK_ID then None else At(s.sysvars, CLOCK_ID)
  }

  lemma RemoveRemoves(sv: Services, s: StoreState, a: Address)
    requires Coherent(sv, s)
    ensures Removed(sv, s, a, RemoveAccount(sv, s, a))
  {
    if !IsManagedSysvar(a) {
      WriteElsewhereKeepsSysvars(sv, s.db, a, None);
    }
    if a != CLOCK_ID {
      WriteKeepsSysvarAt(sv, s.db, a, None, CLOCK_ID);
    }
  }

  lemma RemovedPrograms(sv: Services, s: StoreState, a: Address, t: StoreState)
    requires CoherentExcept(sv, s, {}) && Removed(sv, s, a, t)
    ensures ProgramIds(t.db) == ProgramIds(s.db) - {a}
    ensures t.programs.entries.Keys == (sv.builtins * t.db.inner.Keys) + ProgramIds(t.db)
    ensures forall b :: b in t.programs.entries && b !in ProgramIds(t.db) ==> t.programs.entries[b] == Builtin(b)
    ensures forall b :: b in ProgramIds(t.db) ==>
              t.db.inner[b] == s.db.inner[b] && LoadFrom(sv, s.db, s.db.inner[b]) == Ok(t.programs.entries[b])
  {}

  /** The programs that read the account load alike without it. */
  ghost predicate ReadersAlike(sv: Services, s: StoreState, a: Address, t: StoreState) {
    forall b :: b in ProgramIds(s.db) && b != a && (a == CLOCK_ID || Names(sv, s.db.inner[b]) == Some(a)) ==>
      LoadFrom(sv, t.db, s.db.inner[b]) == LoadFrom(sv, s.db, s.db.inner[b])
  }

  lemma AllAlike(sv: Services, s: StoreState, a: Address, t: StoreState)
    requires CoherentExcept(sv, s, {}) && Removed(sv, s, a, t)
    ensures ReadersAlike(sv, s, a, t) <==> forall b :: b in ProgramIds(s.db) && b != a ==>
              LoadFrom(sv, t.db, s.db.inner[b]) == LoadFrom(sv, s.db, s.db.inner[b])
  {
    forall b | b in ProgramIds(s.db) && b != a && a != CLOCK_ID && Names(sv, s.db.inner[b]) != Some(a)
      ensures LoadFrom(sv, t.db, s.db.inner[b]) == LoadFrom(sv, s.db, s.db.inner[b])
    {
      LoadFromDepends(sv, t.db, s.db, s.db.inner[b]);
    }
  }

  lemma RemovedCoherence(sv: Services, s: StoreState, a: Address, t: StoreState)
    requires CoherentExcept(sv, s, {}) && Removed(sv, s, a, t)
    ensures CoherentExcept(sv, t, {}) <==> ReadersAlike(sv, s, a, t) && (a == CLOCK_ID ==> s.programs.slot == 0)
  {
    RemovedPrograms(sv, s, a, t);
    AllAlike(sv, s, a, t);
    assert Clock(sv, t.sysvars) == if a == CLOCK_ID then None else Clock(sv, s.sysvars);
  }

  /** Removing an account leaves coherent caches coherent if and only if the
      programs that read it (that name it, or all if it is the clock) load alike
      without it, and no slot is kept from a clock that is gone. */
  lemma RemoveCoherentExactly(sv: Services, s: StoreState, a: Address)
    requires Coherent(sv, s)
    ensures var t := RemoveAccount(sv, s, a);
            Coherent(sv, t) <==> ReadersAlike(sv, s, a, t) && (a == CLOCK_ID ==> s.programs.slot == 0)
  {
    var t := RemoveAccount(sv, s, a);
    CoherentMeansNonePending(sv, s);
    CoherentMeansNonePending(sv, t);
    RemoveRemoves(sv, s, a);
    RemovedCoherence(sv, s, a, t);
  }
}
