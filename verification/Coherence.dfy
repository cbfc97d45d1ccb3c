/** The caches derived from the overlay: when a delta leaves them equal to a
    rebuild, when staging leaves them alone, and when it does not. */
module Coherence {
  import opened Types
  import opened Overlay
  import opened Store
  import opened Partition
  import opened TimeTravel

  /** The programdata account a program account names, if any. */
  function Names(sv: Services, account: Account): Option<Address> {
    if account.owner == BPF_LOADER_UPGRADEABLE_ID then sv.programdataOf(account.data) else None
  }

  // ----- What a cache entry depends on -----

  lemma LoadDependsOnProgramdata(sv: Services, d1: CacheDb, d2: CacheDb, sysvars: SysvarCache, account: Account)
    requires Names(sv, account).Some? ==>
               Read(sv, d1, Names(sv, account).value) == Read(sv, d2, Names(sv, account).value)
    ensures LoadProgram(sv, d1, sysvars, account) == LoadProgram(sv, d2, sysvars, account)
  {}

  lemma WriteElsewhereKeepsSysvars(sv: Services, db: CacheDb, a: Address, account: Option<Account>)
    requires !IsManagedSysvar(a)
    ensures SysvarsOf(sv, Write(db, a, account)) == SysvarsOf(sv, db)
  {}

  // ----- Coherence through a delta -----

  /** Coherence up to programs that are still to be written: their entries may
      be stale, everything else matches a rebuild. */
  ghost predicate CoherentExcept(sv: Services, s: StoreState, pending: set<Address>) {
    && s.sysvars == SysvarsOf(sv, s.db)
    && s.programs.slot == (match Clock(sv, s.sysvars) case Some(n) => n case None => 0)
    && s.programs.entries.Keys == (sv.builtins * s.db.inner.Keys) + ProgramIds(s.db)
    && (forall a :: a in s.programs.entries && a !in ProgramIds(s.db) ==> s.programs.entries[a] == Builtin(a))
    && (forall a :: a in ProgramIds(s.db) && a !in pending ==>
          LoadProgram(sv, s.db, s.sysvars, s.db.inner[a]) == Ok(s.programs.entries[a]))
  }

  lemma CoherentMeansNonePending(sv: Services, s: StoreState)
    ensures Coherent(sv, s) <==> CoherentExcept(sv, s, {})
  {
    if Coherent(sv, s) {
      assert CoherentExcept(sv, s, {});
    }
    if CoherentExcept(sv, s, {}) {
      assert AllLoad(sv, s);
      assert s.programs.entries == Rebuilt(sv, s).entries;
    }
  }

  /** A delta over ordinary accounts: no sysvar and no builtin is written. */
  predicate Ordinary(sv: Services, xs: Delta) {
    forall i :: 0 <= i < |xs| ==> !IsManagedSysvar(xs[i].0) && xs[i].0 !in sv.builtins
  }

  /** Programs outside the delta name no programdata inside it. */
  predicate OutsidersUntouched(sv: Services, s: StoreState, xs: Delta) {
    forall a :: a in ProgramIds(s.db) && a !in Addresses(xs) ==>
      Names(sv, s.db.inner[a]).Some? ==> Names(sv, s.db.inner[a]).value !in Addresses(xs)
  }

  /** Programdata comes before the program that names it. */
  predicate NamesBackwards(sv: Services, xs: Delta) {
    forall i, j :: 0 <= i <= j < |xs| && HasProgram(xs[i].0, xs[i].1) ==> Names(sv, xs[i].1) != Some(xs[j].0)
  }

  /** One addition moves its address from the stale set to the settled one. */
  lemma AddSettles(sv: Services, s: StoreState, a: Address, account: Account, pending: set<Address>)
    requires a !in pending && CoherentExcept(sv, s, pending + {a})
    requires !IsManagedSysvar(a) && a !in sv.builtins
    requires HasProgram(a, account) ==> Names(sv, account) != Some(a)
    requires forall b :: b in ProgramIds(s.db) && b !in pending && b != a ==> Names(sv, s.db.inner[b]) != Some(a)
    requires AddAccount(sv, s, a, account).ok
    ensures CoherentExcept(sv, AddAccount(sv, s, a, account).state, pending)
  {
    var s1 := JournaledWrite(s, a, Stored(account));
    var t := AddAccount(sv, s, a, account).state;
    WriteElsewhereKeepsSysvars(sv, s.db, a, Stored(account));
    if !HasProgram(a, account) && HadProgram(s, a) {
      assert AllLoad(sv, s1);
      assert t == s1.(programs := Rebuilt(sv, s1));
    } else {
      AddSettlesEntries(sv, s, a, account, pending);
    }
  }

  lemma ProgramIdsAfterWrite(db: CacheDb, a: Address, account: Account)
    ensures ProgramIds(Write(db, a, Stored(account))) ==
            if HasProgram(a, account) then ProgramIds(db) + {a} else ProgramIds(db) - {a}
  {}

  lemma AddSettlesEntries(sv: Services, s: StoreState, a: Address, account: Account, pending: set<Address>)
    requires a !in pending && CoherentExcept(sv, s, pending + {a})
    requires !IsManagedSysvar(a) && a !in sv.builtins
    requires HasProgram(a, account) ==> Names(sv, account) != Some(a)
    requires forall b :: b in ProgramIds(s.db) && b !in pending && b != a ==> Names(sv, s.db.inner[b]) != Some(a)
    requires AddAccount(sv, s, a, account).ok
    requires HasProgram(a, account) || !HadProgram(s, a)
    ensures CoherentExcept(sv, AddAccount(sv, s, a, account).state, pending)
  {
    var db' := Write(s.db, a, Stored(account));
    WriteElsewhereKeepsSysvars(sv, s.db, a, Stored(account));
    ProgramIdsAfterWrite(s.db, a, account);
    assert sv.builtins * db'.inner.Keys == sv.builtins * s.db.inner.Keys;
    AddedEntries(sv, s, a, account);
    var t := AddAccount(sv, s, a, account).state;
    forall b | b in ProgramIds(db') && b !in pending
      ensures LoadProgram(sv, db', s.sysvars, db'.inner[b]) == Ok(t.programs.entries[b])
    {
      AddedEntryLoads(sv, s, a, account, t, b);
    }
    assert t.programs.entries.Keys == (sv.builtins * db'.inner.Keys) + ProgramIds(db');
  }

  lemma AddedEntryLoads(sv: Services, s: StoreState, a: Address, account: Account, t: StoreState, b: Address)
    requires t.db == Write(s.db, a, Stored(account)) && b in ProgramIds(t.db)
    requires if b == a then HasProgram(a, account) && Names(sv, account) != Some(a)
             else b in ProgramIds(s.db) && Names(sv, s.db.inner[b]) != Some(a)
    requires b in t.programs.entries
    requires LoadProgram(sv, s.db, s.sysvars, if b == a then account else s.db.inner[b]) == Ok(t.programs.entries[b])
    ensures LoadProgram(sv, t.db, s.sysvars, t.db.inner[b]) == Ok(t.programs.entries[b])
  {
    LoadDependsOnProgramdata(sv, s.db, t.db, s.sysvars, t.db.inner[b]);
  }

  lemma AddedEntries(sv: Services, s: StoreState, a: Address, account: Account)
    requires !IsManagedSysvar(a) && AddAccount(sv, s, a, account).ok && (HasProgram(a, account) || !HadProgram(s, a))
    ensures var t := AddAccount(sv, s, a, account).state;
            && t.db == Write(s.db, a, Stored(account)) && t.sysvars == s.sysvars && t.programs.slot == s.programs.slot
            && if HasProgram(a, account) then
                 var loaded := LoadProgram(sv, s.db, s.sysvars, account);
                 loaded.Ok? && t.programs.entries == s.programs.entries[a := loaded.value]
               else t.programs.entries == s.programs.entries
  {}

  lemma OutsidersStayUntouched(sv: Services, s: StoreState, xs: Delta)
    requires xs != [] && Distinct(xs) && AddAccount(sv, s, xs[0].0, xs[0].1).ok
    requires OutsidersUntouched(sv, s, xs) && NamesBackwards(sv, xs)
    ensures OutsidersUntouched(sv, AddAccount(sv, s, xs[0].0, xs[0].1).state, xs[1..])
    ensures NamesBackwards(sv, xs[1..])
  {
    var a, account, rest := xs[0].0, xs[0].1, xs[1..];
    var t := AddAccount(sv, s, a, account).state;
    assert t.db == Write(s.db, a, Stored(account));
    AddressesOfTail(xs);
    forall b | b in ProgramIds(t.db) && b !in Addresses(rest) && Names(sv, t.db.inner[b]).Some?
      ensures Names(sv, t.db.inner[b]).value !in Addresses(rest)
    {
      if b == a {
        forall j | 0 <= j < |rest| ensures rest[j].0 != Names(sv, account).value {
          assert rest[j] == xs[j + 1];
        }
      }
    }
  }

  lemma {:induction false} AddAllKeepsCoherent(sv: Services, s: StoreState, xs: Delta)
    requires CoherentExcept(sv, s, Addresses(xs)) && AddAll(sv, s, xs).ok
    requires Distinct(xs) && Ordinary(sv, xs) && OutsidersUntouched(sv, s, xs) && NamesBackwards(sv, xs)
    ensures CoherentExcept(sv, AddAll(sv, s, xs).state, {})
    decreases |xs|
  {
    if xs == [] {
      assert Addresses(xs) == {};
    } else {
      var a, account, rest := xs[0].0, xs[0].1, xs[1..];
      AddressesOfTail(xs);
      assert Addresses(xs) == Addresses(rest) + {a};
      AddSettles(sv, s, a, account, Addresses(rest));
      OutsidersStayUntouched(sv, s, xs);
      AddAllKeepsCoherent(sv, AddAccount(sv, s, a, account).state, rest);
    }
  }

  /** Each program of a delta that names programdata of the same delta names an
      account carrying the programdata tag, and does not itself carry it. */
  predicate TagsProgramdata(sv: Services, xs: Delta) {
    forall i, j :: 0 <= i < |xs| && 0 <= j < |xs| ==>
      HasProgram(xs[i].0, xs[i].1) && Names(sv, xs[i].1) == Some(xs[j].0) ==>
        !IsProgramdata(xs[i].1) && IsProgramdata(xs[j].1)
  }

  /** A successful sync keeps both caches equal to a rebuild: the partition
      makes sure each program is loaded after the programdata it names. */
  lemma SyncKeepsCoherent(sv: Services, s: StoreState, delta: Delta)
    requires Coherent(sv, s) && SyncAccounts(sv, s, delta).ok
    requires Distinct(delta) && Ordinary(sv, delta) && OutsidersUntouched(sv, s, delta) && TagsProgramdata(sv, delta)
    ensures Coherent(sv, SyncAccounts(sv, s, delta).state)
  {
    var xs := Partitioned(delta);
    PartitionedSound(delta);
    SameElements(xs, delta);
    SameAddresses(xs, delta);
    assert Ordinary(sv, xs) by {
      forall i | 0 <= i < |xs| ensures !IsManagedSysvar(xs[i].0) && xs[i].0 !in sv.builtins {
        assert xs[i] in delta;
      }
    }
    PartitionOrdersNames(sv, delta);
    CoherentMeansNonePending(sv, s);
    AddAllKeepsCoherent(sv, s, xs);
    CoherentMeansNonePending(sv, SyncAccounts(sv, s, delta).state);
  }

  /** Tagged programdata ends up before every program that names it. */
  lemma PartitionOrdersNames(sv: Services, delta: Delta)
    requires TagsProgramdata(sv, delta)
    ensures NamesBackwards(sv, Partitioned(delta))
  {
    var xs := Partitioned(delta);
    PartitionedSound(delta);
    SameElements(xs, delta);
    forall i, j | 0 <= i <= j < |xs| && HasProgram(xs[i].0, xs[i].1)
      ensures Names(sv, xs[i].1) != Some(xs[j].0)
    {
      assert xs[i] in delta && xs[j] in delta;
      var p :| 0 <= p < |delta| && delta[p] == xs[i];
      var q :| 0 <= q < |delta| && delta[q] == xs[j];
    }
  }

  lemma TagsAreOrderFree(sv: Services, xs: Delta, ys: Delta)
    requires multiset(xs) == multiset(ys) && TagsProgramdata(sv, ys)
    ensures TagsProgramdata(sv, xs)
  {
    SameElements(xs, ys);
    forall i, j | 0 <= i < |xs| && 0 <= j < |xs| && HasProgram(xs[i].0, xs[i].1) && Names(sv, xs[i].1) == Some(xs[j].0)
      ensures !IsProgramdata(xs[i].1) && IsProgramdata(xs[j].1)
    {
      assert xs[i] in ys && xs[j] in ys;
      var p :| 0 <= p < |ys| && ys[p] == xs[i];
      var q :| 0 <= q < |ys| && ys[q] == xs[j];
    }
  }

  /** A program names the account at `y` and the partition does not move `y` before it. */
  predicate Untagged(sv: Services, x: (Address, Account), y: (Address, Account)) {
    HasProgram(x.0, x.1) && Names(sv, x.1) == Some(y.0) && (IsProgramdata(x.1) || !IsProgramdata(y.1))
  }

  lemma EarlyPairShows(sv: Services, xs: Delta, p: nat, q: nat)
    requires ProgramdataFirst(xs) && p < q < |xs| && Untagged(sv, xs[p], xs[q])
    ensures !NamesBackwards(sv, Partitioned(xs))
  {
    PartitionedOfSorted(xs, 0, 0);
  }

  lemma TaggedFirst(sv: Services, x: (Address, Account), y: (Address, Account), others: Delta) returns (xs: Delta)
    requires Untagged(sv, x, y) && IsProgramdata(x.1) && y in others
    ensures multiset(xs) == multiset([x] + others) && !NamesBackwards(sv, Partitioned(xs))
  {
    var sorted := Partitioned(others);
    PartitionedSound(others);
    SameElements(sorted, others);
    assert y in sorted;
    var p :| 0 <= p < |sorted| && sorted[p] == y;
    xs := [x] + sorted;
    EarlyPairShows(sv, xs, 0, p + 1);
  }

  lemma UntaggedLast(sv: Services, x: (Address, Account), y: (Address, Account), others: Delta) returns (xs: Delta)
    requires Untagged(sv, x, y) && !IsProgramdata(x.1)
    ensures multiset(xs) == multiset([x] + ([y] + others)) && !NamesBackwards(sv, Partitioned(xs))
  {
    var sorted := Partitioned(others);
    PartitionedSound(others);
    xs := sorted + [x, y];
    assert xs[|sorted|] == x && xs[|sorted| + 1] == y;
    EarlyPairShows(sv, xs, |sorted|, |sorted| + 1);
  }

  lemma TakeOut(xs: Delta, i: nat)
    requires i < |xs|
    ensures multiset([xs[i]] + (xs[..i] + xs[i + 1..])) == multiset(xs)
  {
    assert xs == xs[..i] + [xs[i]] + xs[i + 1..];
  }

  /** An order of an untagged delta in which a program is loaded before the
      programdata it names. */
  lemma UntaggedOrder(sv: Services, delta: Delta) returns (xs: Delta)
    requires !TagsProgramdata(sv, delta)
    ensures multiset(xs) == multiset(delta) && !NamesBackwards(sv, Partitioned(xs))
  {
    var i, j :| 0 <= i < |delta| && 0 <= j < |delta| && Untagged(sv, delta[i], delta[j]);
    var x, y := delta[i], delta[j];
    if i == j {
      xs := delta;
      SelfNaming(sv, delta, i);
    } else {
      var rest := delta[..i] + delta[i + 1..];
      TakeOut(delta, i);
      var k := if j < i then j else j - 1;
      assert rest[k] == y;
      if IsProgramdata(x.1) {
        xs := TaggedFirst(sv, x, y, rest);
      } else {
        var others := rest[..k] + rest[k + 1..];
        TakeOut(rest, k);
        xs := UntaggedLast(sv, x, y, others);
        assert multiset([x] + ([y] + others)) == multiset{x} + multiset([y] + others);
        assert multiset([x] + rest) == multiset{x} + multiset(rest);
      }
    }
  }

  lemma SelfNaming(sv: Services, delta: Delta, i: nat)
    requires i < |delta| && Untagged(sv, delta[i], delta[i])
    ensures !NamesBackwards(sv, Partitioned(delta))
  {
    PartitionedSound(delta);
    SameElements(Partitioned(delta), delta);
    assert delta[i] in Partitioned(delta);
    var p :| 0 <= p < |Partitioned(delta)| && Partitioned(delta)[p] == delta[i];
  }

  /** The partition loads programdata first in every listing of a delta if and
      only if the delta tags the programdata its programs name. */
  lemma TagsDecideOrder(sv: Services, delta: Delta)
    ensures TagsProgramdata(sv, delta) <==>
            forall xs :: multiset(xs) == multiset(delta) ==> NamesBackwards(sv, Partitioned(xs))
  {
    if TagsProgramdata(sv, delta) {
      forall xs | multiset(xs) == multiset(delta) ensures NamesBackwards(sv, Partitioned(xs)) {
        TagsAreOrderFree(sv, xs, delta);
        PartitionOrdersNames(sv, xs);
      }
    } else {
      var xs := UntaggedOrder(sv, delta);
    }
  }

  /** Without the tag the input order shows through: closing a program's
      programdata leaves the old image invocable when the program account comes
      first, and a closed tombstone when it comes last. The overlay is the same
      either way. */
  lemma ClosingOrderShows(sv: Services, s: StoreState, a: Address, program: Account, b: Address, closed: Account)
    requires a != b && !IsManagedSysvar(a) && !IsManagedSysvar(b)
    requires HasProgram(a, program) && !IsProgramdata(program) && Names(sv, program) == Some(b)
    requires b in s.db.inner && !s.db.inner[b].executable
    requires LoadProgram(sv, s.db, s.sysvars, program).Ok?
    requires closed.lamports == 0 && !IsProgramdata(closed)
    ensures
      var early := SyncAccounts(sv, s, [(a, program), (b, closed)]);
      var late := SyncAccounts(sv, s, [(b, closed), (a, program)]);
      && early.ok && late.ok && early.state.db == late.state.db
      && a in early.state.programs.entries && a in late.state.programs.entries
      && early.state.programs.entries[a].Image?
      && late.state.programs.entries[a].ClosedTombstone?
      && !Coherent(sv, early.state)
  {
    PartitionOfPair((a, program), (b, closed));
    PartitionOfPair((b, closed), (a, program));
    AddAllOfPair(sv, s, (a, program), (b, closed));
    AddAllOfPair(sv, s, (b, closed), (a, program));
    var s1 := AddAccount(sv, s, a, program).state;
    var early := AddAccount(sv, s1, b, closed).state;
    assert early == JournaledWrite(s1, b, None);
    var s2 := AddAccount(sv, s, b, closed).state;
    assert s2 == JournaledWrite(s, b, None);
    var late := AddAccount(sv, s2, a, program).state;
    assert early.db.inner == late.db.inner;
    assert early.db.removed == late.db.removed;
    assert a in ProgramIds(early.db) && early.db.inner[a] == program;
    assert LoadProgram(sv, early.db, early.sysvars, program).value.ClosedTombstone?;
  }

  lemma PartitionOfPair(x: (Address, Account), y: (Address, Account))
    requires !IsProgramdata(x.1) && !IsProgramdata(y.1)
    ensures Partitioned([x, y]) == [x, y]
  {
    assert PartitionFrom([x, y], 0, 1) == PartitionFrom([x, y], 0, 2) == [x, y];
  }

  lemma AddAllOfPair(sv: Services, s: StoreState, x: (Address, Account), y: (Address, Account))
    ensures var first := AddAccount(sv, s, x.0, x.1);
            AddAll(sv, s, [x, y]) == if first.ok then AddAccount(sv, first.state, y.0, y.1) else first
  {
    var first := AddAccount(sv, s, x.0, x.1);
    assert [x, y][1..] == [y] && [y][1..] == [];
    if first.ok {
      var second := AddAccount(sv, first.state, y.0, y.1);
      assert AddAll(sv, first.state, [y]) == if second.ok then AddAll(sv, second.state, []) else second;
    }
  }

  // ----- Deltas that leave the caches alone -----

  /** `staging_touches_caches`. */
  predicate TouchesCaches(delta: Delta, s: StoreState) {
    exists i :: 0 <= i < |delta| &&
      (|| delta[i].1.executable
       || IsManagedSysvar(delta[i].0)
       || (delta[i].0 in s.db.inner && s.db.inner[delta[i].0].executable))
  }

  /** A delta that is not flagged cannot be refused and leaves both caches as
      they were, whatever state they were in. */
  lemma {:induction false} UnflaggedKeepsCaches(sv: Services, s: StoreState, delta: Delta)
    requires !TouchesCaches(delta, s)
    ensures var t := AddAll(sv, s, delta); t.ok && t.state.programs == s.programs && t.state.sysvars == s.sysvars
    decreases |delta|
  {
    if delta != [] {
      var x := delta[0];
      assert !x.1.executable && !IsManagedSysvar(x.0);
      var t := AddAccount(sv, s, x.0, x.1).state;
      assert t == JournaledWrite(s, x.0, Stored(x.1));
      assert !TouchesCaches(delta[1..], t) by {
        forall i | 0 <= i < |delta[1..]|
          ensures !delta[1..][i].1.executable && !IsManagedSysvar(delta[1..][i].0)
          ensures delta[1..][i].0 in t.db.inner ==> !t.db.inner[delta[1..][i].0].executable
        {
          assert delta[1..][i] == delta[i + 1];
        }
      }
      UnflaggedKeepsCaches(sv, t, delta[1..]);
    }
  }

  lemma FlagIsOrderFree(xs: Delta, ys: Delta, s: StoreState)
    requires multiset(xs) == multiset(ys)
    ensures TouchesCaches(xs, s) <==> TouchesCaches(ys, s)
  {
    SameElements(xs, ys);
    if TouchesCaches(xs, s) {
      var i :| 0 <= i < |xs|
        && (|| xs[i].1.executable || IsManagedSysvar(xs[i].0)
            || (xs[i].0 in s.db.inner && s.db.inner[xs[i].0].executable));
      assert xs[i] in ys;
      var j :| 0 <= j < |ys| && ys[j] == xs[i];
    }
    if TouchesCaches(ys, s) {
      var i :| 0 <= i < |ys|
        && (|| ys[i].1.executable || IsManagedSysvar(ys[i].0)
            || (ys[i].0 in s.db.inner && s.db.inner[ys[i].0].executable));
      assert ys[i] in xs;
      var j :| 0 <= j < |xs| && xs[j] == ys[i];
    }
  }

  // ----- Which bytes become a program -----

  predicate Starts(data: seq<byte>, header: seq<byte>, rest: seq<byte>) {
    data == header + rest
  }

  /** On coherent caches the image of a program is made of the program's own bytes
      under the first two loaders, of what follows the 45-byte header of its
      programdata under the upgradeable one, which is a tombstone of the current
      slot if there is none, and of what follows the 48-byte header of the program
      under loader-v4. Nothing else is a program. */
  lemma CoherentImages(sv: Services, s: StoreState, a: Address, header: seq<byte>, elf: seq<byte>)
    requires Coherent(sv, s) && a in ProgramIds(s.db)
    ensures var p, clock := s.db.inner[a], Clock(sv, s.sysvars);
            && a in s.programs.entries && clock == Some(s.programs.slot)
            && var entry := s.programs.entries[a];
               if p.owner == BPF_LOADER_ID || p.owner == BPF_LOADER_DEPRECATED_ID then
                 entry == Image(Executable(p.owner, p.data))
               else if p.owner == BPF_LOADER_UPGRADEABLE_ID then
                 && sv.programdataOf(p.data).Some?
                 && var programdata := GetAccount(sv, s.db, sv.programdataOf(p.data).value);
                    && (programdata == None ==> entry == ClosedTombstone(s.programs.slot))
                    && (programdata.Some? && |header| == 45 && Starts(programdata.value.data, header, elf) ==>
                          entry == Image(Executable(p.owner, elf)))
               else
                 && p.owner == LOADER_V4_ID
                 && (|header| == 48 && Starts(p.data, header, elf) ==> entry == Image(Executable(p.owner, elf)))
  {
    var p := s.db.inner[a];
    if p.owner == BPF_LOADER_UPGRADEABLE_ID && sv.programdataOf(p.data).Some? {
      var programdata := GetAccount(sv, s.db, sv.programdataOf(p.data).value);
      if programdata.Some? && |header| == 45 && Starts(programdata.value.data, header, elf) {
        assert programdata.value.data[45..] == elf;
      }
    }
    if |header| == 48 && Starts(p.data, header, elf) {
      assert p.data[48..] == elf;
    }
  }

  /** The bytes a program account runs, if it is one of a known loader and complete. */
  ghost predicate HoldsElf(sv: Services, db: CacheDb, account: Account, elf: seq<byte>) {
    if account.owner == BPF_LOADER_ID || account.owner == BPF_LOADER_DEPRECATED_ID then elf == account.data
    else if account.owner == BPF_LOADER_UPGRADEABLE_ID then
      && sv.programdataOf(account.data).Some?
      && var programdata := GetAccount(sv, db, sv.programdataOf(account.data).value);
         programdata.Some? && exists header :: |header| == 45 && Starts(programdata.value.data, header, elf)
    else account.owner == LOADER_V4_ID && exists header :: |header| == 48 && Starts(account.data, header, elf)
  }

  lemma SplitHeader(data: seq<byte>, n: nat)
    ensures forall header, elf :: |header| == n && Starts(data, header, elf) ==> n <= |data| && data[n..] == elf
    ensures n <= |data| ==> Starts(data, data[..n], data[n..])
  {}

  lemma ElfOf(sv: Services, db: CacheDb, account: Account) returns (elf: Option<seq<byte>>)
    ensures forall bytes :: HoldsElf(sv, db, account, bytes) <==> elf == Some(bytes)
    ensures elf.Some? ==> forall sysvars :: Clock(sv, sysvars).Some? ==>
              LoadProgram(sv, db, sysvars, account) == Verify(sv, account.owner, elf.value)
    ensures elf.None? ==> forall sysvars :: LoadProgram(sv, db, sysvars, account).Ok? ==>
              Names(sv, account).Some? && GetAccount(sv, db, Names(sv, account).value) == None
  {
    if account.owner == BPF_LOADER_ID || account.owner == BPF_LOADER_DEPRECATED_ID {
      elf := Some(account.data);
    } else if account.owner == BPF_LOADER_UPGRADEABLE_ID {
      elf := None;
      if Names(sv, account).Some? && GetAccount(sv, db, Names(sv, account).value).Some? {
        var data := GetAccount(sv, db, Names(sv, account).value).value.data;
        SplitHeader(data, 45);
        elf := if 45 <= |data| then Some(data[45..]) else None;
      }
    } else if account.owner == LOADER_V4_ID {
      SplitHeader(account.data, 48);
      elf := if 48 <= |account.data| then Some(account.data[48..]) else None;
    } else {
      elf := None;
    }
  }

  /** A program loads if and only if there is a clock, and its bytes pass the
      verifier or the programdata it names is gone. */
  lemma LoadsExactly(sv: Services, db: CacheDb, sysvars: SysvarCache, account: Account)
    ensures LoadProgram(sv, db, sysvars, account).Ok? <==>
            && Clock(sv, sysvars).Some?
            && (|| (exists elf :: HoldsElf(sv, db, account, elf) && sv.elfVerifies(account.owner, elf))
                || (Names(sv, account).Some? && GetAccount(sv, db, Names(sv, account).value) == None))
  {
    var elf := ElfOf(sv, db, account);
    if elf.Some? {
      assert HoldsElf(sv, db, account, elf.value);
    }
  }

  // ----- What coherent caches hold -----

  /** Coherent caches hold an entry for exactly the builtins and the executable
      accounts of the overlay, but for those of the native loader and at the
      default address; and the data of exactly those of the nine sysvars it holds
      that parse. */
  lemma CoherentKeys(sv: Services, s: StoreState, a: Address)
    requires Coherent(sv, s)
    ensures var held := a in s.db.inner;
            && (a in s.programs.entries <==>
                  held && (a in sv.builtins
                           || (s.db.inner[a].executable && a != 0 && s.db.inner[a].owner != NATIVE_LOADER_ID)))
            && (a in s.sysvars <==>
                  && held && sv.sysvarParses(a, s.db.inner[a].data)
                  && a in {CLOCK_ID, EPOCH_REWARDS_ID, EPOCH_SCHEDULE_ID, FEES_ID, LAST_RESTART_SLOT_ID,
                           RECENT_BLOCKHASHES_ID, RENT_ID, SLOT_HASHES_ID, STAKE_HISTORY_ID})
            && (a in s.sysvars ==> s.sysvars[a] == s.db.inner[a].data)
            && (a in s.programs.entries && a !in ProgramIds(s.db) ==> s.programs.entries[a] == Builtin(a))
  {
    CoherentMeansNonePending(sv, s);
  }

  // ----- Which accounts the store takes -----

  /** An executable account that is neither the native loader's nor at the default address. */
  predicate NeedsLoading(a: Address, account: Account) {
    account.executable && a != 0 && account.owner != NATIVE_LOADER_ID
  }

  /** The store takes an account if and only if, with lamports, it parses where it
      is a sysvar and loads where it is a program; and, where it closes a program,
      all programs then held load. */
  lemma AddsExactly(sv: Services, s: StoreState, a: Address, account: Account)
    ensures var s1 := JournaledWrite(s, a, Stored(account));
            var program := account.lamports != 0 && NeedsLoading(a, account);
            var closes := !program && a in s.db.inner && NeedsLoading(a, s.db.inner[a]);
            AddAccount(sv, s, a, account).ok <==>
            && (IsManagedSysvar(a) && account.lamports != 0 ==> sv.sysvarParses(a, account.data))
            && (program ==> LoadProgram(sv, s.db, s.sysvars, account).Ok?)
            && (closes ==> AllLoad(sv, if IsManagedSysvar(a) then RebuildSysvars(sv, s1) else s1))
  {}
}
