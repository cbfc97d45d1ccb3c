/** The journaled account overlay: cached accounts, tombstones and the undo
    log that lets an earlier state be restored (accounts_db.rs). */
module Overlay {
  import opened Types

  /** Overlay contents: cached accounts plus the tombstones of removed ones. */
  datatype CacheDb = CacheDb(inner: map<Address, Account>, removed: set<Address>)

  /** What one address looked like just before it was written. */
  datatype JournalEntry = JournalEntry(address: Address, previous: Option<Account>, wasRemoved: bool)

  predicate Known(db: CacheDb, a: Address) {
    a in db.inner || a in db.removed
  }

  /** Reading order: cached account, then tombstone, then the source. */
  function Read(sv: Services, db: CacheDb, a: Address): Loaded {
    if a in db.inner then Ok(Some(db.inner[a]))
    else if a in db.removed then Ok(None)
    else sv.source(a)
  }

  /** `get_account`: a source failure reads as an absent account. */
  function GetAccount(sv: Services, db: CacheDb, a: Address): Option<Account> {
    match Read(sv, db, a)
    case Ok(account) => account
    case Err(_) => None
  }

  function EntryFor(db: CacheDb, a: Address): JournalEntry {
    JournalEntry(a, if a in db.inner then Some(db.inner[a]) else None, a in db.removed)
  }

  /** Writes one address: `Some` caches the account, `None` tombstones it. */
  function Write(db: CacheDb, a: Address, account: Option<Account>): CacheDb {
    match account
    case Some(value) => CacheDb(db.inner[a := value], db.removed - {a})
    case None => CacheDb(db.inner - {a}, db.removed + {a})
  }

  function UndoEntry(db: CacheDb, e: JournalEntry): CacheDb {
    CacheDb(
      match e.previous
      case Some(account) => db.inner[e.address := account]
      case None => db.inner - {e.address},
      if e.wasRemoved then db.removed + {e.address} else db.removed - {e.address})
  }

  /** Undoes the entries of `log`, newest first. */
  function Undo(db: CacheDb, log: seq<JournalEntry>): CacheDb
    decreases |log|
  {
    if log == [] then db else Undo(UndoEntry(db, log[|log| - 1]), log[..|log| - 1])
  }

  lemma UndoWrite(db: CacheDb, a: Address, account: Option<Account>)
    ensures UndoEntry(Write(db, a, account), EntryFor(db, a)) == db
  {
    var back := UndoEntry(Write(db, a, account), EntryFor(db, a));
    assert back.inner == db.inner;
    assert back.removed == db.removed;
  }

  lemma {:induction false} UndoConcat(db: CacheDb, older: seq<JournalEntry>, newer: seq<JournalEntry>)
    ensures Undo(db, older + newer) == Undo(Undo(db, newer), older)
    decreases |newer|
  {
    if newer == [] {
      assert older + newer == older;
    } else {
      var last := newer[|newer| - 1];
      var rest := newer[..|newer| - 1];
      assert (older + newer)[..|older + newer| - 1] == older + rest;
      UndoConcat(UndoEntry(db, last), older, rest);
    }
  }

  /** No address is both cached and tombstoned, and no undo step would make one so. */
  ghost predicate Consistent(db: CacheDb, journal: seq<JournalEntry>) {
    && db.inner.Keys !! db.removed
    && forall i :: 0 <= i < |journal| ==> !(journal[i].previous.Some? && journal[i].wasRemoved)
  }

  lemma {:induction false} UndoKeepsConsistent(db: CacheDb, journal: seq<JournalEntry>, k: nat)
    requires k <= |journal| && Consistent(db, journal)
    ensures Consistent(Undo(db, journal[k..]), journal[..k])
    decreases |journal| - k
  {
    if k < |journal| {
      var n := |journal| - 1;
      assert journal[k..][|journal[k..]| - 1] == journal[n];
      assert journal[k..][..|journal[k..]| - 1] == journal[..n][k..];
      assert journal[..n][..k] == journal[..k];
      assert Consistent(UndoEntry(db, journal[n]), journal[..n]);
      UndoKeepsConsistent(UndoEntry(db, journal[n]), journal[..n], k);
    } else {
      assert journal[k..] == [] && journal[..k] == journal;
    }
  }

  /** The overlay read as one flat option-valued map. */
  function Flatten(db: CacheDb): map<Address, Option<Account>> {
    map a | a in db.inner.Keys + db.removed :: if a in db.inner then Some(db.inner[a]) else None
  }

  /** Reading a flat map of overrides on top of the source. */
  function ReadFlat(sv: Services, known: map<Address, Option<Account>>, a: Address): Loaded {
    if a in known then Ok(known[a]) else sv.source(a)
  }

  /** The overlay and the flat map give every address the same value. */
  ghost predicate Refines(sv: Services, db: CacheDb, known: map<Address, Option<Account>>) {
    forall a: Address :: Read(sv, db, a) == ReadFlat(sv, known, a)
  }
}
