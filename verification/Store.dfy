/** The account store as a value: overlay, journal and the caches derived from
    the overlay, with every mutation written as a function of the old store.
    The class `Accounts` is proved to compute these functions. */
module Store {
  import opened Types
  import opened Overlay

  type SysvarCache = map<Address, seq<byte>>

  datatype ProgramCache = ProgramCache(slot: nat, entries: map<Address, ProgramEntry>)

  datatype StoreState = StoreState(
    db: CacheDb,
    journal: seq<JournalEntry>,
    programs: ProgramCache,
    sysvars: SysvarCache)

  /** The store after an operation that may be refused. */
  datatype Attempt = Attempt(state: StoreState, ok: bool)

  // ----- Derived caches -----

  function SysvarsOf(sv: Services, db: CacheDb): SysvarCache {
    map a | a in db.inner && IsManagedSysvar(a) && sv.sysvarParses(a, db.inner[a].data) :: db.inner[a].data
  }

  function Clock(sv: Services, sysvars: SysvarCache): Option<nat> {
    if CLOCK_ID in sysvars then Some(sv.clockSlot(sysvars[CLOCK_ID])) else None
  }

  function Verify(sv: Services, loader: Address, elf: seq<byte>): Result<ProgramEntry, InstructionError> {
    if sv.elfVerifies(loader, elf) then Ok(Image(Executable(loader, elf))) else Err(InvalidAccountData)
  }

  function LoadProgram(sv: Services, db: CacheDb, sysvars: SysvarCache, account: Account)
    : Result<ProgramEntry, InstructionError>
  {
    match Clock(sv, sysvars)
    case None => Err(InvalidAccountData)
    case Some(slot) =>
      if account.owner == BPF_LOADER_ID || account.owner == BPF_LOADER_DEPRECATED_ID then
        Verify(sv, account.owner, account.data)
      else if account.owner == BPF_LOADER_UPGRADEABLE_ID then
        match sv.programdataOf(account.data)
        case None => Err(InvalidAccountData)
        case Some(pd) =>
          match GetAccount(sv, db, pd)
          case None => Ok(ClosedTombstone(slot))
          case Some(programdata) =>
            if |programdata.data| < PROGRAMDATA_METADATA_SIZE then Err(InvalidAccountData)
            else Verify(sv, account.owner, programdata.data[PROGRAMDATA_METADATA_SIZE..])
      else if account.owner == LOADER_V4_ID then
        if |account.data| < LOADER_V4_DATA_OFFSET then Err(InvalidAccountData)
        else Verify(sv, LOADER_V4_ID, account.data[LOADER_V4_DATA_OFFSET..])
      else
        Err(IncorrectProgramId)
  }

  function ProgramIds(db: CacheDb): set<Address> {
    set a | a in db.inner && IsCachedProgram(a, db.inner[a])
  }

  predicate AllLoad(sv: Services, s: StoreState) {
    forall a :: a in ProgramIds(s.db) ==> LoadProgram(sv, s.db, s.sysvars, s.db.inner[a]).Ok?
  }

  /** The program cache `rebuild_program_cache` derives from the overlay. */
  function Rebuilt(sv: Services, s: StoreState): ProgramCache
    requires AllLoad(sv, s)
  {
    var slot := match Clock(sv, s.sysvars) case Some(n) => n case None => 0;
    ProgramCache(slot,
      map a | a in (sv.builtins * s.db.inner.Keys) + ProgramIds(s.db) ::
        if a in ProgramIds(s.db) then LoadProgram(sv, s.db, s.sysvars, s.db.inner[a]).value else Builtin(a))
  }

  /** Both derived caches are what a rebuild from the overlay would give. */
  ghost predicate Coherent(sv: Services, s: StoreState) {
    && s.sysvars == SysvarsOf(sv, s.db)
    && AllLoad(sv, s)
    && s.programs == Rebuilt(sv, s)
  }

  // ----- Mutations -----

  /** Journals one address and then writes it. */
  function JournaledWrite(s: StoreState, a: Address, account: Option<Account>): StoreState {
    s.(journal := s.journal + [EntryFor(s.db, a)], db := Write(s.db, a, account))
  }

  function RebuildSysvars(sv: Services, s: StoreState): StoreState {
    var sysvars := SysvarsOf(sv, s.db);
    var slot := match Clock(sv, sysvars) case Some(n) => n case None => s.programs.slot;
    s.(sysvars := sysvars, programs := s.programs.(slot := slot))
  }

  function RebuildPrograms(sv: Services, s: StoreState): Attempt {
    if AllLoad(sv, s) then Attempt(s.(programs := Rebuilt(sv, s)), true) else Attempt(s, false)
  }

  function Replenish(s: StoreState, a: Address, entry: ProgramEntry): StoreState {
    s.(programs := s.programs.(entries := s.programs.entries[a := entry]))
  }

  function RemoveAccount(sv: Services, s: StoreState, a: Address): StoreState {
    var s1 := JournaledWrite(s, a, None);
    var s2 := s1.(programs := s1.programs.(entries := s1.programs.entries - {a}));
    if IsManagedSysvar(a) then RebuildSysvars(sv, s2) else s2
  }

  predicate HadProgram(s: StoreState, a: Address) {
    a in s.db.inner && IsCachedProgram(a, s.db.inner[a])
  }

  predicate HasProgram(a: Address, account: Account) {
    account.lamports != 0 && IsCachedProgram(a, account)
  }

  /** A zero-lamport account is stored as a tombstone. */
  function Stored(account: Account): Option<Account> {
    if account.lamports == 0 then None else Some(account)
  }

  /** The checks `add_account` makes before it touches anything. */
  predicate Admissible(sv: Services, s: StoreState, a: Address, account: Account) {
    && (IsManagedSysvar(a) && account.lamports != 0 ==> sv.sysvarParses(a, account.data))
    && (HasProgram(a, account) ==> LoadProgram(sv, s.db, s.sysvars, account).Ok?)
  }

  function AddAccount(sv: Services, s: StoreState, a: Address, account: Account): Attempt {
    if !Admissible(sv, s, a, account) then Attempt(s, false)
    else
      var s1 := JournaledWrite(s, a, Stored(account));
      var s2 := if IsManagedSysvar(a) then RebuildSysvars(sv, s1) else s1;
      if HasProgram(a, account) then
        Attempt(Replenish(s2, a, LoadProgram(sv, s.db, s.sysvars, account).value), true)
      else if HadProgram(s, a) then RebuildPrograms(sv, s2)
      else Attempt(s2, true)
  }

  function RollbackTo(s: StoreState, checkpoint: nat): StoreState {
    if checkpoint < |s.journal| then
      s.(db := Undo(s.db, s.journal[checkpoint..]), journal := s.journal[..checkpoint])
    else s
  }

  /** Adds a list in order, stopping at the first refusal. */
  function AddAll(sv: Services, s: StoreState, accounts: seq<(Address, Account)>): Attempt
    decreases |accounts|
  {
    if accounts == [] then Attempt(s, true)
    else
      var first := AddAccount(sv, s, accounts[0].0, accounts[0].1);
      if first.ok then AddAll(sv, first.state, accounts[1..]) else first
  }

  // ----- Prewarming -----

  /** The unknown addresses of a list, each once, in order of first occurrence. */
  function Missing(db: CacheDb, addrs: seq<Address>): seq<Address> {
    if addrs == [] then []
    else
      var before := Missing(db, addrs[..|addrs| - 1]);
      var a := addrs[|addrs| - 1];
      if Known(db, a) || a in before then before else before + [a]
  }

  /** Caches the hits of a batched load, pairing keys and answers as `zip` does. */
  function CacheHits(s: StoreState, keys: seq<Address>, got: seq<Option<Account>>): StoreState
    decreases |keys|
  {
    if keys == [] || got == [] then s
    else
      CacheHits(if got[0].Some? then JournaledWrite(s, keys[0], got[0]) else s, keys[1..], got[1..])
  }

  function Prewarm(sv: Services, s: StoreState, addrs: seq<Address>): Attempt {
    var missing := Missing(s.db, addrs);
    if missing == [] then Attempt(s, true)
    else
      match sv.sourceBatch(missing)
      case Err(_) => Attempt(s, false)
      case Ok(got) => Attempt(CacheHits(s, missing, got), true)
  }

  /** The programs of a list that are cached as accounts but not yet loaded. */
  function Unresolved(s: StoreState, ids: seq<Address>): seq<Address> {
    if ids == [] then []
    else
      var a := ids[0];
      (if a !in s.programs.entries && HadProgram(s, a) then [a] else []) + Unresolved(s, ids[1..])
  }

  function LoadEach(sv: Services, s: StoreState, ids: seq<Address>): Attempt
    requires forall a :: a in ids ==> a in s.db.inner
    decreases |ids|
  {
    if ids == [] then Attempt(s, true)
    else
      match LoadProgram(sv, s.db, s.sysvars, s.db.inner[ids[0]])
      case Err(_) => Attempt(s, false)
      case Ok(entry) => LoadEach(sv, Replenish(s, ids[0], entry), ids[1..])
  }

  lemma {:induction false} UnresolvedCached(s: StoreState, ids: seq<Address>)
    ensures forall a :: a in Unresolved(s, ids) ==> a in s.db.inner
  {
    if ids != [] {
      UnresolvedCached(s, ids[1..]);
    }
  }

  function PrewarmPrograms(sv: Services, s: StoreState, ids: seq<Address>): Attempt {
    UnresolvedCached(s, ids);
    LoadEach(sv, s, Unresolved(s, ids))
  }
}
