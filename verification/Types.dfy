/** Values shared by every part of the model: addresses, accounts and the
    runtime services the account store is built on. */
module Types {
  datatype Option<+T> = None | Some(value: T)

  datatype Result<+T, +E> = Ok(value: T) | Err(error: E) {
    predicate IsFailure() {
      Err?
    }

    function PropagateFailure<U>(): Result<U, E>
      requires Err?
    {
      Err(error)
    }

    function Extract(): T
      requires Ok?
    {
      value
    }
  }

  type byte = x: int | 0 <= x < 0x100
  type u32 = x: int | 0 <= x < 0x1_0000_0000
  type i32 = x: int | -0x8000_0000 <= x < 0x8000_0000
  type u64 = x: int | 0 <= x < 0x1_0000_0000_0000_0000

  const ADDRESS_SPACE: int := 0x1_0000000000000000000000000000000000000000000000000000000000000000

  /** A 32-byte public key, read as a big-endian number. */
  type Address = x: int | 0 <= x < ADDRESS_SPACE

  type Signature = nat

  datatype Account = Account(lamports: u64, owner: Address, executable: bool, rentEpoch: u64, data: seq<byte>)

  datatype SourceErrorKind = Unavailable | InvalidResponse | Other
  datatype SourceError = SourceError(kind: SourceErrorKind, message: string)

  /** What reading one address through the overlay yields. */
  type Loaded = Result<Option<Account>, SourceError>

  // Base58 numerals of the identifiers named in accounts_db.rs, in base 16.
  const CLOCK_ID: Address := 0x06a7d51718c774c928566398691d5eb68b5eb8a39b4b6d5c73555b2100000000
  const EPOCH_REWARDS_ID: Address := 0x06a7d51718dc3fee02a558bf83ce66e144422a1c34950b27c1869b5a9c000000
  const EPOCH_SCHEDULE_ID: Address := 0x06a7d51718dc3fee02d3e47f0100f8b054f7942e60591e3f508719a805000000
  const FEES_ID: Address := 0x06a7d51718e25a8d83503c251a7af07126fd7200df6fc4ed526a9c9000000000
  const LAST_RESTART_SLOT_ID: Address := 0x06a7d5171906dde1cd3f947dcab4c8f4f4f51bad0f9813b800d289471fc00000
  const RECENT_BLOCKHASHES_ID: Address := 0x06a7d517192c568ee08a845f73d29788cf035c3145b21ab344d8062ea9400000
  const RENT_ID: Address := 0x06a7d517192c5c51218cc94c3d4af17f58daee089ba1fd44e3dbd98a00000000
  const SLOT_HASHES_ID: Address := 0x06a7d517192f0aafc6f265e3fb77cc7ada82c529d0be3b136e2d005520000000
  const STAKE_HISTORY_ID: Address := 0x06a7d517193584d0feed9bb3431d13206be544281b57b8566cc5375ff4000000
  const NATIVE_LOADER_ID: Address := 0x058784bf148ba4282fb012574888a9f153a07dadf765c0455c9a970380000000
  const BPF_LOADER_ID: Address := 0x02a8f6914e88a16e395ae128948ffa695693376818dd47435221f3c600000000
  const BPF_LOADER_DEPRECATED_ID: Address := 0x02a8f6914e88a16bbd2395855f6404d9b4f456b7821bb0145749428c00000000
  const BPF_LOADER_UPGRADEABLE_ID: Address := 0x02a8f6914e88a1b0e210153ef763ae2b00c2b93d16c124d2c0537a1004800000
  const LOADER_V4_ID: Address := 0x0512b4115151e37aad0a8bc5d3882e7b7fda4cf3d2c028c8cf83361800000000
  const DEFAULT_ADDRESS: Address := 0

  /** Length of the metadata header of an upgradeable programdata account. */
  const PROGRAMDATA_METADATA_SIZE: nat := 45

  /** Length of the state header of a loader-v4 program account. */
  const LOADER_V4_DATA_OFFSET: nat := 48

  predicate IsManagedSysvar(a: Address) {
    || a == CLOCK_ID || a == EPOCH_REWARDS_ID || a == EPOCH_SCHEDULE_ID
    || a == FEES_ID || a == LAST_RESTART_SLOT_ID || a == RECENT_BLOCKHASHES_ID
    || a == RENT_ID || a == SLOT_HASHES_ID || a == STAKE_HISTORY_ID
  }

  predicate IsCachedProgram(a: Address, account: Account) {
    account.executable && a != DEFAULT_ADDRESS && account.owner != NATIVE_LOADER_ID
  }

  /** The tag by which `sync_accounts` recognises upgradeable programdata. */
  predicate IsProgramdata(account: Account) {
    account.owner == BPF_LOADER_UPGRADEABLE_ID && |account.data| > 0 && account.data[0] == 3
  }

  datatype InstructionError = InvalidAccountData | IncorrectProgramId

  /** A compiled program image, known only through the bytes it came from. */
  datatype Executable = Executable(loader: Address, elf: seq<byte>)

  datatype ProgramEntry =
    | Builtin(id: Address)
    | ClosedTombstone(slot: nat)
    | Image(image: Executable)

  /** Services the account store relies on and does not define: the account
      source, the deserialisers, the ELF verifier and the builtin list. Every
      result holds for any choice of them. */
  datatype Services = Services(
    source: Address -> Loaded,
    sourceBatch: seq<Address> -> Result<seq<Option<Account>>, SourceError>,
    sysvarParses: (Address, seq<byte>) -> bool,
    clockSlot: seq<byte> -> nat,
    programdataOf: seq<byte> -> Option<Address>,
    elfVerifies: (Address, seq<byte>) -> bool,
    builtins: set<Address>)

  /** The batched read of the source agrees with its single read. */
  ghost predicate BatchAgrees(sv: Services) {
    forall keys: seq<Address> :: (sv.sourceBatch(keys)).Ok? ==>
      var got := sv.sourceBatch(keys).value;
      |got| == |keys| && forall i :: 0 <= i < |keys| ==> sv.source(keys[i]) == Ok(got[i])
  }

  lemma {:induction false} SubsetNotLarger<K>(a: set<K>, b: set<K>)
    requires a <= b
    ensures |a| <= |b|
    decreases a
  {
    if a != {} {
      var x :| x in a;
      SubsetNotLarger(a - {x}, b - {x});
    }
  }

  // ----- Transaction results -----

  datatype TransactionError = AlreadyProcessed | Failure(code: nat)

  /** Metadata of one execution; everything but the signature is carried, never interpreted. */
  datatype TransactionMetadata = TransactionMetadata(signature: Signature, details: seq<byte>)

  datatype TransactionResult =
    | Succeeded(meta: TransactionMetadata)
    | Failed(err: TransactionError, meta: TransactionMetadata)
}
