/** The account store as the source has it: one object whose fields are
    updated in place (accounts_db.rs). Each method is proved to compute the
    corresponding function of module `Store`. */
module AccountsDb {
  import opened Types
  import opened Overlay
  import opened Partition
  import S = Store
  import T = TimeTravel

  datatype AddError = InvalidSysvar | Program(cause: InstructionError)

  class Accounts {
    const sv: Services
    var inner: map<Address, Account>
    var removed: set<Address>
    var journal: seq<JournalEntry>
    var programs: S.ProgramCache
    var sysvars: S.SysvarCache

    constructor (sv: Services)
      ensures this.sv == sv
      ensures State() == S.StoreState(CacheDb(map[], {}), [], S.ProgramCache(0, map[]), map[])
    {
      this.sv := sv;
      inner, removed, journal := map[], {}, [];
      programs, sysvars := S.ProgramCache(0, map[]), map[];
    }

    function Db(): CacheDb
      reads this
    {
      CacheDb(inner, removed)
    }

    function State(): S.StoreState
      reads this
    {
      S.StoreState(Db(), journal, programs, sysvars)
    }

    method TryGetAccount(a: Address) returns (r: Loaded)
      ensures r == Read(sv, Db(), a)
    {
      if a in inner { return Ok(Some(inner[a])); }
      if a in removed { return Ok(None); }
      r := sv.source(a);
    }

    method Checkpoint() returns (checkpoint: nat)
      ensures checkpoint == |journal|
    {
      checkpoint := |journal|;
    }

    method RecordJournal(a: Address)
      modifies this`journal
      ensures journal == old(journal) + [EntryFor(Db(), a)]
    {
      var previous := if a in inner then Some(inner[a]) else None;
      journal := journal + [JournalEntry(a, previous, a in removed)];
    }

    /** Undoes journal entries, newest first, down to the checkpoint. */
    method Rollback(checkpoint: nat)
      modifies this
      ensures State() == S.RollbackTo(old(State()), checkpoint)
    {
      while |journal| > checkpoint
        invariant S.RollbackTo(State(), checkpoint) == S.RollbackTo(old(State()), checkpoint)
        decreases |journal|
      {
        ghost var before := State();
        var entry := journal[|journal| - 1];
        journal := journal[..|journal| - 1];
        match entry.previous {
          case Some(account) => inner := inner[entry.address := account];
          case None => inner := inner - {entry.address};
        }
        if entry.wasRemoved {
          removed := removed + {entry.address};
        } else {
          removed := removed - {entry.address};
        }
        PopOne(before, checkpoint, State());
      }
    }

    method RebuildSysvarCache()
      modifies this`sysvars, this`programs
      ensures State() == S.RebuildSysvars(sv, old(State()))
    {
      var fallback := programs.slot;
      sysvars := S.SysvarsOf(sv, Db());
      var slot := match S.Clock(sv, sysvars) case Some(n) => n case None => fallback;
      programs := programs.(slot := slot);
    }

    method BuiltinEntries() returns (entries: map<Address, ProgramEntry>)
      ensures entries == map a | a in sv.builtins * inner.Keys :: Builtin(a)
    {
      entries := map[];
      var builtins := sv.builtins;
      while builtins != {}
        invariant builtins <= sv.builtins
        invariant entries == map a | a in (sv.builtins - builtins) * inner.Keys :: Builtin(a)
        decreases builtins
      {
        var id :| id in builtins;
        builtins := builtins - {id};
        if id in inner {
          entries := entries[id := Builtin(id)];
        }
      }
    }

    /** Loads every program account of the overlay, in whatever order it is
        walked, stopping at the first that does not load. */
    method LoadPrograms() returns (r: Result<map<Address, ProgramEntry>, InstructionError>)
      ensures r.Ok? <==> S.AllLoad(sv, State())
      ensures r.Ok? ==> r.value.Keys == S.ProgramIds(Db())
      ensures r.Ok? ==> forall a :: a in r.value ==> S.LoadProgram(sv, Db(), sysvars, inner[a]) == Ok(r.value[a])
    {
      var entries: map<Address, ProgramEntry> := map[];
      var ids := S.ProgramIds(Db());
      while ids != {}
        invariant ids <= S.ProgramIds(Db()) && entries.Keys == S.ProgramIds(Db()) - ids
        invariant forall a :: a in entries ==> S.LoadProgram(sv, Db(), sysvars, inner[a]) == Ok(entries[a])
        decreases ids
      {
        var id :| id in ids;
        var loaded := S.LoadProgram(sv, Db(), sysvars, inner[id]);
        if loaded.Err? { return Err(loaded.error); }
        ids := ids - {id};
        entries := entries[id := loaded.value];
      }
      r := Ok(entries);
    }

    /** Rebuilds the program cache from the overlay; a program that does not
        load leaves the cache untouched. */
    method RebuildProgramCache() returns (r: Result<(), InstructionError>)
      modifies this`programs
      ensures S.RebuildPrograms(sv, old(State())) == S.Attempt(State(), r.Ok?)
    {
      var slot := match S.Clock(sv, sysvars) case Some(n) => n case None => 0;
      var builtins := BuiltinEntries();
      var loaded := LoadPrograms();
      if loaded.Err? { return Err(loaded.error); }
      assert builtins + loaded.value == S.Rebuilt(sv, State()).entries;
      programs := S.ProgramCache(slot, builtins + loaded.value);
      r := Ok(());
    }

    method RemoveAccount(a: Address)
      modifies this
      ensures State() == S.RemoveAccount(sv, old(State()), a)
    {
      RecordJournal(a);
      inner := inner - {a};
      removed := removed + {a};
      programs := programs.(entries := programs.entries - {a});
      if IsManagedSysvar(a) {
        RebuildSysvarCache();
      }
    }

    method AddAccountNoChecks(a: Address, account: Account)
      modifies this`journal, this`inner, this`removed
      ensures State() == S.JournaledWrite(old(State()), a, Some(account))
    {
      RecordJournal(a);
      removed := removed - {a};
      inner := inner[a := account];
    }

    method AddBuiltinAccount(a: Address, account: Account)
      modifies this`journal, this`inner, this`removed
      ensures State() == S.JournaledWrite(old(State()), a, Some(account))
    {
      RecordJournal(a);
      removed := removed - {a};
      inner := inner[a := account];
    }

    /** Adds one account, tombstoning it when it holds no lamports. The checks
        come first; a failing cache rebuild comes after the write. */
    method AddAccount(a: Address, account: Account) returns (r: Result<(), AddError>)
      modifies this
      ensures S.AddAccount(sv, old(State()), a, account) == S.Attempt(State(), r.Ok?)
      ensures r == Err(InvalidSysvar) <==>
                IsManagedSysvar(a) && account.lamports != 0 && !sv.sysvarParses(a, account.data)
    {
      var hadProgram := a in inner && IsCachedProgram(a, inner[a]);
      var hasProgram := account.lamports != 0 && IsCachedProgram(a, account);
      if IsManagedSysvar(a) && account.lamports != 0 && !sv.sysvarParses(a, account.data) {
        return Err(InvalidSysvar);
      }
      var entry: Option<ProgramEntry> := None;
      if hasProgram {
        var loaded := S.LoadProgram(sv, Db(), sysvars, account);
        if loaded.Err? { return Err(Program(loaded.error)); }
        entry := Some(loaded.value);
      }
      RecordJournal(a);
      if account.lamports == 0 {
        inner := inner - {a};
        removed := removed + {a};
      } else {
        removed := removed - {a};
        inner := inner[a := account];
      }
      if IsManagedSysvar(a) {
        RebuildSysvarCache();
      }
      if entry.Some? {
        programs := programs.(entries := programs.entries[a := entry.value]);
      } else if hadProgram {
        var rebuilt := RebuildProgramCache();
        if rebuilt.Err? { return Err(Program(rebuilt.error)); }
      }
      r := Ok(());
    }

    /** Moves programdata to the front in place, then adds account by account. */
    method SyncAccounts(delta: Delta) returns (r: Result<(), AddError>)
      modifies this
      ensures T.SyncAccounts(sv, old(State()), delta) == S.Attempt(State(), r.Ok?)
    {
      var xs := new (Address, Account)[|delta|](i requires 0 <= i < |delta| => delta[i]);
      assert xs[..] == delta;
      PartitionInPlace(xs);
      var i := 0;
      while i < xs.Length
        invariant 0 <= i <= xs.Length && xs[..] == Partitioned(delta)
        invariant S.AddAll(sv, old(State()), xs[..]) == S.AddAll(sv, State(), xs[i..])
      {
        var added := AddAccount(xs[i].0, xs[i].1);
        assert xs[i..][0] == xs[i] && xs[i..][1..] == xs[i + 1..];
        if added.Err? { return added; }
        i := i + 1;
      }
      r := Ok(());
    }

    /** Loads the unknown addresses of a list in one request and caches the hits. */
    method Prewarm(addrs: seq<Address>) returns (r: Result<(), SourceError>)
      modifies this`journal, this`inner, this`removed
      ensures S.Prewarm(sv, old(State()), addrs) == S.Attempt(State(), r.Ok?)
      ensures r.Err? ==> Err(r.error) == sv.sourceBatch(S.Missing(old(Db()), addrs))
    {
      var missing: seq<Address> := [];
      var seen: set<Address> := {};
      for i := 0 to |addrs|
        invariant missing == S.Missing(Db(), addrs[..i])
        invariant forall a :: a in seen <==> a in missing
      {
        assert addrs[..i + 1][..i] == addrs[..i];
        if !(addrs[i] in inner || addrs[i] in removed) && addrs[i] !in seen {
          seen := seen + {addrs[i]};
          missing := missing + [addrs[i]];
        }
      }
      assert addrs[..|addrs|] == addrs;
      if missing == [] { return Ok(()); }
      var answer := sv.sourceBatch(missing);
      if answer.Err? { return Err(answer.error); }
      var got := answer.value;
      var i := 0;
      while i < |missing| && i < |got|
        invariant 0 <= i <= |missing| && i <= |got|
        invariant S.CacheHits(old(State()), missing, got) == S.CacheHits(State(), missing[i..], got[i..])
      {
        if got[i].Some? {
          AddAccountNoChecks(missing[i], got[i].value);
        }
        assert missing[i..][1..] == missing[i + 1..] && got[i..][1..] == got[i + 1..];
        i := i + 1;
      }
      r := Ok(());
    }

    /** The programs of a list that are cached as accounts but not loaded. */
    method UnresolvedPrograms(ids: seq<Address>) returns (todo: seq<Address>)
      ensures todo == S.Unresolved(State(), ids)
      ensures forall a :: a in todo ==> a in inner
    {
      todo := [];
      ghost var s := State();
      assert ids[0..] == ids;
      for i := 0 to |ids|
        invariant todo + S.Unresolved(s, ids[i..]) == S.Unresolved(s, ids)
      {
        UnresolvedStep(s, todo, ids, i);
        if ids[i] !in programs.entries && ids[i] in inner && IsCachedProgram(ids[i], inner[ids[i]]) {
          todo := todo + [ids[i]];
        }
      }
      assert ids[|ids|..] == [];
      S.UnresolvedCached(s, ids);
    }

    /** Loads the programs of a list that are cached as accounts only. */
    method PrewarmPrograms(ids: seq<Address>) returns (r: Result<(), InstructionError>)
      modifies this`programs
      ensures S.PrewarmPrograms(sv, old(State()), ids) == S.Attempt(State(), r.Ok?)
    {
      var todo := UnresolvedPrograms(ids);
      var i := 0;
      while i < |todo|
        invariant 0 <= i <= |todo| && inner == old(inner) && removed == old(removed)
        invariant forall a :: a in todo ==> a in inner
        invariant S.LoadEach(sv, old(State()), todo) == S.LoadEach(sv, State(), todo[i..])
      {
        var loaded := S.LoadProgram(sv, Db(), sysvars, inner[todo[i]]);
        LoadEachStep(sv, State(), todo, i);
        if loaded.Err? { return Err(loaded.error); }
        programs := programs.(entries := programs.entries[todo[i] := loaded.value]);
        i := i + 1;
      }
      r := Ok(());
    }
  }

  /** Loading one more program of the list. */
  lemma LoadEachStep(sv: Services, s: S.StoreState, todo: seq<Address>, i: nat)
    requires i < |todo| && forall a :: a in todo ==> a in s.db.inner
    ensures S.LoadEach(sv, s, todo[i..]) ==
            match S.LoadProgram(sv, s.db, s.sysvars, s.db.inner[todo[i]])
            case Err(_) => S.Attempt(s, false)
            case Ok(entry) => S.LoadEach(sv, S.Replenish(s, todo[i], entry), todo[i + 1..])
  {
    assert todo[i..][1..] == todo[i + 1..] && todo[i..][0] == todo[i];
  }

  /** Looking at one more identifier of the list. */
  lemma UnresolvedStep(s: S.StoreState, todo: seq<Address>, ids: seq<Address>, i: nat)
    requires i < |ids|
    ensures var found := ids[i] !in s.programs.entries && S.HadProgram(s, ids[i]);
            (if found then todo + [ids[i]] else todo) + S.Unresolved(s, ids[i + 1..])
            == todo + S.Unresolved(s, ids[i..])
  {
    assert ids[i..][1..] == ids[i + 1..] && ids[i..][0] == ids[i];
    var rest := S.Unresolved(s, ids[i + 1..]);
    assert todo + ([ids[i]] + rest) == todo + [ids[i]] + rest;
  }

  /** Popping and undoing the newest entry brings the rollback one step closer. */
  lemma PopOne(s: S.StoreState, checkpoint: nat, t: S.StoreState)
    requires checkpoint < |s.journal|
    requires var n := |s.journal| - 1; t == s.(journal := s.journal[..n], db := UndoEntry(s.db, s.journal[n]))
    ensures S.RollbackTo(t, checkpoint) == S.RollbackTo(s, checkpoint)
  {
    var n := |s.journal| - 1;
    var undone := s.journal[checkpoint..];
    assert undone[|undone| - 1] == s.journal[n];
    assert undone[..|undone| - 1] == s.journal[..n][checkpoint..];
    assert Undo(s.db, undone) == Undo(t.db, s.journal[..n][checkpoint..]);
    assert s.journal[..n][..checkpoint] == s.journal[..checkpoint];
  }

  /** The two-index partition of `sync_accounts`. */
  method PartitionInPlace(xs: array<(Address, Account)>)
    modifies xs
    ensures xs[..] == Partitioned(old(xs[..]))
  {
    var write := 0;
    for read := 0 to xs.Length
      invariant write <= read
      invariant PartitionFrom(xs[..], write, read) == Partitioned(old(xs[..]))
    {
      ghost var before := xs[..];
      if IsProgramdata(xs[read].1) {
        if write != read {
          xs[write], xs[read] := xs[read], xs[write];
        }
        assert xs[..] == Swap(before, write, read);
        write := write + 1;
      }
    }
  }
}
