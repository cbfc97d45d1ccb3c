/** Importing and exporting Firedancer instruction fixtures (fd.rs). */
module Firedancer {
  import opened Types
  import opened Fixture
  import Comparison

  // ----- The protobuf form -----

  datatype SeedAddress = SeedAddress(base: seq<byte>, seed: seq<byte>, owner: seq<byte>)

  datatype AcctState = AcctState(
    address: seq<byte>, lamports: u64, data: seq<byte>, executable: bool, rentEpoch: u64,
    owner: seq<byte>, seedAddr: Option<SeedAddress>)

  datatype InstrAcct = InstrAcct(index: u32, isWritable: bool, isSigner: bool)

  datatype InstrContext = InstrContext(
    programId: seq<byte>, accounts: seq<AcctState>, instrAccounts: seq<InstrAcct>, data: seq<byte>,
    cuAvail: u64, slotContext: Option<u64>, epochContext: Option<seq<u64>>)

  datatype InstrEffects = InstrEffects(
    result: i32, customErr: u32, modifiedAccounts: seq<AcctState>, cuAvail: u64, returnData: seq<byte>)

  datatype InstrFixture = InstrFixture(
    metadata: Option<string>,
    input: Option<InstrContext>,
    output: Option<InstrEffects>)

  // ----- The fixture form -----

  datatype FixtureKind = TransactionKind | InstructionKind

  datatype FixtureHeader = FixtureHeader(
    schemaVersion: nat,
    name: string,
    kind: FixtureKind,
    source: Option<string>,
    tags: seq<string>)

  datatype RuntimeConfig = RuntimeConfig(
    slot: u64, logBytesLimit: Option<nat>, sigverify: bool, blockhashCheck: bool, computeUnitLimit: Option<u64>)

  datatype ProgramBinding = ProgramBinding(programId: Address, loaderId: Address, role: Option<string>)

  datatype AccountMeta = AccountMeta(pubkey: Address, isSigner: bool, isWritable: bool)

  datatype FixtureInput =
    | Transaction(
        runtime: RuntimeConfig, programs: seq<ProgramBinding>, preAccounts: seq<AccountSnapshot>, bytes: seq<byte>)
    | Instruction(
        runtime: RuntimeConfig, programs: seq<ProgramBinding>, preAccounts: seq<AccountSnapshot>,
        programId: Address, accounts: seq<AccountMeta>, data: seq<byte>)

  datatype Expectations = Expectations(baseline: ExecutionSnapshot, compares: seq<Compare>)

  datatype TestFixture = TestFixture(header: FixtureHeader, input: FixtureInput, expectations: Expectations)

  const CURRENT_SCHEMA_VERSION: nat := 2
  const FIREDANCER_SOURCE := "firedancer"
  const FIREDANCER_TAG := "external:firedancer"

  /** The fields an error can name. */
  datatype Field =
    | InputField | OutputField | InputAccountsField | ModifiedAccountsField
    | ProgramIdField | AccountAddressField | AccountOwnerField

  datatype AdapterError =
    | MissingField(field: Field)
    | InvalidAddressLength(field: Field, actual: nat)
    | InvalidInstructionAccountIndex(index: nat, accountsLen: nat)
    | MissingInstructionAccount(address: Address)
    | UnsupportedSeedAddress(field: Field)
    | InconsistentComputeUnits(before: u64, after: u64)
    | ComputeUnitsExceedBudget(budget: u64, consumed: u64)
    | InconsistentExecutionStatus(result: i32, customErr: u32)
    | UnsupportedExecutionStatus(kind: string)
    | UnsupportedReturnDataProgram(programId: Address, instructionProgramId: Address)
    | UnsupportedFixtureKind
    | MissingComputeUnitBudget

  type Adapted<T> = Result<T, AdapterError>

  // ----- Addresses as 32 bytes, most significant first -----

  function Value(bytes: seq<byte>): nat {
    if bytes == [] then 0 else Value(bytes[..|bytes| - 1]) * 0x100 + bytes[|bytes| - 1]
  }

  function Digits(n: nat, len: nat): seq<byte> {
    if len == 0 then [] else Digits(n / 0x100, len - 1) + [n % 0x100]
  }

  function Power(len: nat): nat {
    if len == 0 then 1 else Power(len - 1) * 0x100
  }

  lemma {:induction false} ValueBound(bytes: seq<byte>)
    ensures Value(bytes) < Power(|bytes|)
  {
    if bytes != [] {
      ValueBound(bytes[..|bytes| - 1]);
      calc {
        Value(bytes);
      <=
        Value(bytes[..|bytes| - 1]) * 0x100 + 0xff;
      <
        (Value(bytes[..|bytes| - 1]) + 1) * 0x100;
      <=
        Power(|bytes| - 1) * 0x100;
      }
    }
  }

  lemma {:induction false} DigitsOfValue(bytes: seq<byte>)
    ensures Digits(Value(bytes), |bytes|) == bytes
  {
    if bytes != [] {
      var init := bytes[..|bytes| - 1];
      DigitsOfValue(init);
      assert Value(bytes) / 0x100 == Value(init) && Value(bytes) % 0x100 == bytes[|bytes| - 1];
    }
  }

  lemma {:induction false} ValueOfDigits(n: nat, len: nat)
    requires n < Power(len)
    ensures |Digits(n, len)| == len && Value(Digits(n, len)) == n
    decreases len
  {
    if len > 0 {
      assert n / 0x100 < Power(len - 1);
      ValueOfDigits(n / 0x100, len - 1);
      var digits := Digits(n, len);
      assert digits[..|digits| - 1] == Digits(n / 0x100, len - 1);
    }
  }

  lemma AddressSpace()
    ensures Power(32) == ADDRESS_SPACE
  {
    assert Power(8) == 0x1_0000_0000_0000_0000;
    assert Power(16) == 0x1_0000_0000_0000_0000_0000_0000_0000_0000;
    assert Power(24) == 0x1_0000_0000_0000_0000_0000_0000_0000_0000_0000_0000_0000_0000;
  }

  function AddressFromBytes(bytes: seq<byte>, field: Field): Adapted<Address> {
    if |bytes| != 32 then Err(InvalidAddressLength(field, |bytes|))
    else
      ValueBound(bytes);
      AddressSpace();
      Ok(Value(bytes))
  }

  function AddressToBytes(a: Address): seq<byte> {
    Digits(a, 32)
  }

  lemma AddressRoundTrip(a: Address, field: Field)
    ensures AddressFromBytes(AddressToBytes(a), field) == Ok(a)
  {
    AddressSpace();
    ValueOfDigits(a, 32);
  }

  /** Exactly the 32-byte strings decode, each to an address that encodes back to it. */
  lemma BytesRoundTrip(bytes: seq<byte>, field: Field)
    ensures AddressFromBytes(bytes, field).Ok? <==> |bytes| == 32
    ensures |bytes| == 32 ==> AddressToBytes(AddressFromBytes(bytes, field).value) == bytes
  {
    DigitsOfValue(bytes);
  }

  // ----- Lists of conversions -----

  predicate FirstError<A, B>(f: A -> Adapted<B>, items: seq<A>, i: int) {
    && 0 <= i < |items| && f(items[i]).Err?
    && forall j :: 0 <= j < i ==> f(items[j]).Ok?
  }

  /** Collecting a fallible map: all the values, or the first error. */
  function Collect<A, B>(f: A -> Adapted<B>, items: seq<A>): (r: Adapted<seq<B>>)
    ensures r.Ok? <==> forall i :: 0 <= i < |items| ==> f(items[i]).Ok?
    ensures r.Ok? ==> |r.value| == |items| && forall i :: 0 <= i < |items| ==> f(items[i]) == Ok(r.value[i])
    ensures r.Err? ==> exists i :: FirstError(f, items, i) && f(items[i]).error == r.error
  {
    if items == [] then Ok([])
    else if f(items[0]).Err? then
      assert FirstError(f, items, 0);
      Err(f(items[0]).error)
    else
      var rest := Collect(f, items[1..]);
      assert forall j :: 0 < j < |items| ==> items[j] == items[1..][j - 1];
      if rest.Ok? then Ok([f(items[0]).value] + rest.value)
      else
        assert exists i :: FirstError(f, items, i) && f(items[i]).error == rest.error by {
          var i :| FirstError(f, items[1..], i) && f(items[1..][i]).error == rest.error;
          assert FirstError(f, items, i + 1);
        }
        Err(rest.error)
  }

  // ----- Accounts -----

  function SnapshotFromProto(account: AcctState, field: Field): Adapted<AccountSnapshot> {
    if account.seedAddr.Some? then Err(UnsupportedSeedAddress(field))
    else
      var address :- AddressFromBytes(account.address, AccountAddressField);
      var owner :- AddressFromBytes(account.owner, AccountOwnerField);
      Ok(AccountSnapshot(address, account.lamports, owner, account.executable, account.rentEpoch, account.data))
  }

  function SnapshotToProto(account: AccountSnapshot): AcctState {
    AcctState(
      AddressToBytes(account.address), account.lamports, account.data, account.executable, account.rentEpoch,
      AddressToBytes(account.owner), None)
  }

  function SnapshotsToProto(accounts: seq<AccountSnapshot>): seq<AcctState> {
    seq(|accounts|, i requires 0 <= i < |accounts| => SnapshotToProto(accounts[i]))
  }

  function SnapshotsFromProto(accounts: seq<AcctState>, field: Field): Adapted<seq<AccountSnapshot>> {
    Collect(account => SnapshotFromProto(account, field), accounts)
  }

  lemma SnapshotRoundTrip(account: AccountSnapshot, field: Field)
    ensures var proto := SnapshotToProto(account);
            && SnapshotFromProto(proto, field) == Ok(account)
            && proto.lamports == account.lamports && proto.data == account.data
            && proto.executable == account.executable && proto.rentEpoch == account.rentEpoch
            && proto.address == AddressToBytes(account.address) && proto.owner == AddressToBytes(account.owner)
  {
    AddressRoundTrip(account.address, AccountAddressField);
    AddressRoundTrip(account.owner, AccountOwnerField);
  }

  lemma SnapshotsRoundTrip(accounts: seq<AccountSnapshot>, field: Field)
    ensures SnapshotsFromProto(SnapshotsToProto(accounts), field) == Ok(accounts)
  {
    var protos := SnapshotsToProto(accounts);
    forall i | 0 <= i < |protos| ensures SnapshotFromProto(protos[i], field) == Ok(accounts[i]) {
      SnapshotRoundTrip(accounts[i], field);
    }
    var r := SnapshotsFromProto(protos, field);
    assert r.Ok? && r.value == accounts;
  }

  lemma ProtosRoundTrip(protos: seq<AcctState>, field: Field)
    requires SnapshotsFromProto(protos, field).Ok?
    ensures SnapshotsToProto(SnapshotsFromProto(protos, field).value) == protos
  {
    var accounts := SnapshotsFromProto(protos, field).value;
    forall i | 0 <= i < |protos| ensures SnapshotToProto(accounts[i]) == protos[i] {
      assert SnapshotFromProto(protos[i], field) == Ok(accounts[i]);
      BytesRoundTrip(protos[i].address, AccountAddressField);
      BytesRoundTrip(protos[i].owner, AccountOwnerField);
    }
  }

  // ----- Instruction accounts -----

  function MetaFromProto(accounts: seq<AccountSnapshot>, account: InstrAcct): Adapted<AccountMeta> {
    if account.index < |accounts| then
      Ok(AccountMeta(accounts[account.index].address, account.isSigner, account.isWritable))
    else Err(InvalidInstructionAccountIndex(account.index, |accounts|))
  }

  /** The position of the first account at an address; the list's length when there is none. */
  function Position(accounts: seq<AccountSnapshot>, a: Address): (i: nat)
    ensures i <= |accounts|
    ensures i < |accounts| ==> accounts[i].address == a
    ensures forall j :: 0 <= j < i ==> accounts[j].address != a
  {
    if accounts == [] || accounts[0].address == a then 0 else 1 + Position(accounts[1..], a)
  }

  function MetaToProto(accounts: seq<AccountSnapshot>, account: AccountMeta): Adapted<InstrAcct> {
    var index := Position(accounts, account.pubkey);
    if index == |accounts| then Err(MissingInstructionAccount(account.pubkey))
    else if index >= 0x1_0000_0000 then Err(InvalidInstructionAccountIndex(index, |accounts|))
    else Ok(InstrAcct(index, account.isWritable, account.isSigner))
  }

  function MetasFromProto(accounts: seq<AccountSnapshot>, metas: seq<InstrAcct>): Adapted<seq<AccountMeta>> {
    Collect(account => MetaFromProto(accounts, account), metas)
  }

  function MetasToProto(accounts: seq<AccountSnapshot>, metas: seq<AccountMeta>): Adapted<seq<InstrAcct>> {
    Collect(account => MetaToProto(accounts, account), metas)
  }

  /** The instruction's accounts can all be named by a 32-bit index. */
  predicate Indexable(accounts: seq<AccountSnapshot>, metas: seq<AccountMeta>) {
    forall i :: 0 <= i < |metas| ==>
      Position(accounts, metas[i].pubkey) < |accounts| && Position(accounts, metas[i].pubkey) < 0x1_0000_0000
  }

  lemma MetasRoundTrip(accounts: seq<AccountSnapshot>, metas: seq<AccountMeta>)
    ensures MetasToProto(accounts, metas).Ok? <==> Indexable(accounts, metas)
    ensures Indexable(accounts, metas) ==>
              var protos := MetasToProto(accounts, metas).value;
              && MetasFromProto(accounts, protos) == Ok(metas) && |protos| == |metas|
              && forall i :: 0 <= i < |metas| ==>
                   protos[i].isSigner == metas[i].isSigner && protos[i].isWritable == metas[i].isWritable
  {
    assert forall i :: 0 <= i < |metas| ==> (MetaToProto(accounts, metas[i]).Ok? <==>
      Position(accounts, metas[i].pubkey) < |accounts| && Position(accounts, metas[i].pubkey) < 0x1_0000_0000);
    if Indexable(accounts, metas) {
      var protos := MetasToProto(accounts, metas).value;
      forall i | 0 <= i < |protos| ensures MetaFromProto(accounts, protos[i]) == Ok(metas[i]) {
        assert MetaToProto(accounts, metas[i]) == Ok(protos[i]);
      }
      var r := MetasFromProto(accounts, protos);
      assert r.Ok? && r.value == metas;
    }
  }

  lemma ImportedMetasAreIndexable(accounts: seq<AccountSnapshot>, protos: seq<InstrAcct>)
    requires MetasFromProto(accounts, protos).Ok?
    ensures Indexable(accounts, MetasFromProto(accounts, protos).value)
  {
    var metas := MetasFromProto(accounts, protos).value;
    forall i | 0 <= i < |metas|
      ensures Position(accounts, metas[i].pubkey) < |accounts| && Position(accounts, metas[i].pubkey) < 0x1_0000_0000
    {
      assert MetaFromProto(accounts, protos[i]) == Ok(metas[i]);
      assert Position(accounts, metas[i].pubkey) <= protos[i].index;
    }
  }

  // ----- Status and return data -----

  function StatusToOutput(status: ExecutionStatus): Adapted<(i32, u32)> {
    match status
    case Success => Ok((0, 0))
    case Failed(ProgramResult(result)) => Ok((result, 0))
    case Failed(CustomError(customError)) => Ok((1, customError))
    case Failed(ProgramResultWithCustomError(result, customError)) => Ok((result, customError))
    case Failed(OtherFailure(kind, _)) => Err(UnsupportedExecutionStatus(kind))
  }

  function StatusFromOutput(result: i32, customErr: u32): Adapted<ExecutionStatus> {
    if result == 0 then
      if customErr == 0 then Ok(Success) else Err(InconsistentExecutionStatus(result, customErr))
    else if customErr == 0 then Ok(ExecutionStatus.Failed(ProgramResult(result)))
    else Ok(ExecutionStatus.Failed(ProgramResultWithCustomError(result, customErr)))
  }

  /** The statuses the two status fields can express without loss. */
  predicate PlainStatus(status: ExecutionStatus) {
    match status
    case Success => true
    case Failed(ProgramResult(result)) => result != 0
    case Failed(CustomError(_)) => false
    case Failed(ProgramResultWithCustomError(result, customError)) => result != 0 && customError != 0
    case Failed(OtherFailure(_, _)) => false
  }

  function ReturnDataToProto(returnData: Option<ReturnData>, programId: Address): Adapted<seq<byte>> {
    match returnData
    case None => Ok([])
    case Some(data) =>
      if data.programId == programId then Ok(data.data)
      else Err(UnsupportedReturnDataProgram(data.programId, programId))
  }

  function ReturnDataFromProto(programId: Address, data: seq<byte>): Option<ReturnData> {
    if data == [] then None else Some(ReturnData(programId, data))
  }

  predicate PlainReturnData(returnData: Option<ReturnData>, programId: Address) {
    returnData.Some? ==> returnData.value.programId == programId && returnData.value.data != []
  }

  // ----- The comparisons an import asks for -----

  /** The addresses of a list, each where it occurs first. */
  function FirstOccurrences(accounts: seq<AccountSnapshot>): (r: seq<Address>)
    ensures forall i, j :: 0 <= i < j < |r| ==> r[i] != r[j]
    ensures forall i :: 0 <= i < |accounts| ==> accounts[i].address in r
    ensures forall a :: a in r ==> exists i :: 0 <= i < |accounts| && accounts[i].address == a
  {
    if accounts == [] then []
    else
      var n := |accounts| - 1;
      var init := FirstOccurrences(accounts[..n]);
      if accounts[n].address in init then init else init + [accounts[n].address]
  }

  const FIXED_COMPARES: seq<Compare> := [Status, Included, ComputeUnits, ReturnedData]

  function ComparesFor(accounts: seq<AccountSnapshot>): seq<Compare> {
    FIXED_COMPARES +
    if accounts == [] then [] else [Accounts(Only(FirstOccurrences(accounts)))]
  }

  /** `compares_for_post_accounts`. */
  method ComparesForPostAccounts(accounts: seq<AccountSnapshot>) returns (compares: seq<Compare>)
    ensures compares == ComparesFor(accounts)
  {
    compares := [Status, Included, ComputeUnits, ReturnedData];
    if accounts != [] {
      var addresses: seq<Address> := [];
      for i := 0 to |accounts|
        invariant addresses == FirstOccurrences(accounts[..i])
      {
        assert accounts[..i + 1][..i] == accounts[..i];
        if accounts[i].address !in addresses {
          addresses := addresses + [accounts[i].address];
        }
      }
      assert accounts[..|accounts|] == accounts;
      compares := compares + [Accounts(Only(addresses))];
    }
  }

  // ----- The two conversions -----

  function NameOf(metadata: Option<string>, programId: Address, show: Address -> string): (name: string)
    ensures name != ""
  {
    if metadata.Some? && metadata.value != "" then metadata.value else "firedancer-" + show(programId)
  }

  function SlotOf(context: Option<u64>): u64 {
    if context.Some? then context.value else 0
  }

  /** Everything an import has to decode. */
  datatype Decoded = Decoded(
    preAccounts: seq<AccountSnapshot>, metas: seq<AccountMeta>, postAccounts: seq<AccountSnapshot>,
    programId: Address, status: ExecutionStatus)

  function Decode(input: InstrContext, output: InstrEffects): Adapted<Decoded> {
    var preAccounts :- SnapshotsFromProto(input.accounts, InputAccountsField);
    var metas :- MetasFromProto(preAccounts, input.instrAccounts);
    var postAccounts :- SnapshotsFromProto(output.modifiedAccounts, ModifiedAccountsField);
    var programId :- AddressFromBytes(input.programId, ProgramIdField);
    if input.cuAvail < output.cuAvail then Err(InconsistentComputeUnits(input.cuAvail, output.cuAvail))
    else
      var status :- StatusFromOutput(output.result, output.customErr);
      Ok(Decoded(preAccounts, metas, postAccounts, programId, status))
  }

  function BaselineOf(input: InstrContext, output: InstrEffects, parts: Decoded): ExecutionSnapshot
    requires output.cuAvail <= input.cuAvail
  {
    ExecutionSnapshot(
      parts.status, true, input.cuAvail - output.cuAvail, 0, [],
      ReturnDataFromProto(parts.programId, output.returnData), [], parts.postAccounts)
  }

  function Assemble(name: string, input: InstrContext, output: InstrEffects, parts: Decoded): TestFixture
    requires output.cuAvail <= input.cuAvail
  {
    TestFixture(
      FixtureHeader(CURRENT_SCHEMA_VERSION, name, InstructionKind, Some(FIREDANCER_SOURCE), [FIREDANCER_TAG]),
      Instruction(
        RuntimeConfig(SlotOf(input.slotContext), None, false, false, Some(input.cuAvail)),
        [], parts.preAccounts, parts.programId, parts.metas, input.data),
      Expectations(BaselineOf(input, output, parts), ComparesFor(parts.postAccounts)))
  }

  /** Importing a protobuf fixture; `show` renders an address. */
  function Import(proto: InstrFixture, show: Address -> string): Adapted<TestFixture> {
    if proto.input.None? then Err(MissingField(InputField))
    else if proto.output.None? then Err(MissingField(OutputField))
    else
      var parts :- Decode(proto.input.value, proto.output.value);
      Ok(Assemble(NameOf(proto.metadata, parts.programId, show), proto.input.value, proto.output.value, parts))
  }

  /** What a successful decoding says about each part. */
  ghost predicate Decodes(input: InstrContext, output: InstrEffects, parts: Decoded) {
    && SnapshotsFromProto(input.accounts, InputAccountsField) == Ok(parts.preAccounts)
    && MetasFromProto(parts.preAccounts, input.instrAccounts) == Ok(parts.metas)
    && SnapshotsFromProto(output.modifiedAccounts, ModifiedAccountsField) == Ok(parts.postAccounts)
    && AddressFromBytes(input.programId, ProgramIdField) == Ok(parts.programId)
    && output.cuAvail <= input.cuAvail
    && StatusFromOutput(output.result, output.customErr) == Ok(parts.status)
  }

  lemma DecodeExactly(input: InstrContext, output: InstrEffects, parts: Decoded)
    ensures Decode(input, output) == Ok(parts) <==> Decodes(input, output, parts)
  {}

  function EffectsOf(snapshot: ExecutionSnapshot, programId: Address, cuAvail: u64): Adapted<InstrEffects> {
    var status :- StatusToOutput(snapshot.status);
    var returnData :- ReturnDataToProto(snapshot.returnData, programId);
    Ok(InstrEffects(status.0, status.1, SnapshotsToProto(snapshot.postAccounts), cuAvail, returnData))
  }

  /** Exporting a fixture to the protobuf form. */
  function Export(fixture: TestFixture): Adapted<InstrFixture> {
    match fixture.input
    case Transaction(_, _, _, _) => Err(UnsupportedFixtureKind)
    case Instruction(runtime, _, preAccounts, programId, accounts, data) =>
      var baseline := fixture.expectations.baseline;
      if runtime.computeUnitLimit.None? then Err(MissingComputeUnitBudget)
      else
        var budget := runtime.computeUnitLimit.value;
        if budget < baseline.computeUnitsConsumed then
          Err(ComputeUnitsExceedBudget(budget, baseline.computeUnitsConsumed))
        else
          var metas :- MetasToProto(preAccounts, accounts);
          var effects :- EffectsOf(baseline, programId, budget - baseline.computeUnitsConsumed);
          Ok(InstrFixture(
            Some(fixture.header.name),
            Some(InstrContext(
              AddressToBytes(programId), SnapshotsToProto(preAccounts), metas, data, budget, Some(runtime.slot), None)),
            Some(effects)))
  }

  // ----- What an import accepts, and what its errors mean -----

  /** An account the adapter can represent: 32-byte addresses and no seed. */
  predicate PlainAccount(account: AcctState) {
    account.seedAddr.None? && |account.address| == 32 && |account.owner| == 32
  }

  predicate PlainAccounts(accounts: seq<AcctState>) {
    forall i :: 0 <= i < |accounts| ==> PlainAccount(accounts[i])
  }

  predicate Importable(proto: InstrFixture) {
    && proto.input.Some? && proto.output.Some?
    && PlainAccounts(proto.input.value.accounts) && PlainAccounts(proto.output.value.modifiedAccounts)
    && (forall i :: 0 <= i < |proto.input.value.instrAccounts| ==>
          proto.input.value.instrAccounts[i].index < |proto.input.value.accounts|)
    && |proto.input.value.programId| == 32
    && proto.output.value.cuAvail <= proto.input.value.cuAvail
    && (proto.output.value.result == 0 ==> proto.output.value.customErr == 0)
  }

  lemma PlainDecode(accounts: seq<AcctState>, field: Field)
    ensures SnapshotsFromProto(accounts, field).Ok? <==> PlainAccounts(accounts)
    ensures SnapshotsFromProto(accounts, field).Ok? ==> |SnapshotsFromProto(accounts, field).value| == |accounts|
  {
    forall i | 0 <= i < |accounts| ensures SnapshotFromProto(accounts[i], field).Ok? <==> PlainAccount(accounts[i]) {
      BytesRoundTrip(accounts[i].address, AccountAddressField);
      BytesRoundTrip(accounts[i].owner, AccountOwnerField);
    }
  }

  /** Exactly the importable fixtures import. */
  lemma ImportExactly(proto: InstrFixture, show: Address -> string)
    ensures Import(proto, show).Ok? <==> Importable(proto)
  {
    if proto.input.Some? && proto.output.Some? {
      var input, output := proto.input.value, proto.output.value;
      PlainDecode(input.accounts, InputAccountsField);
      PlainDecode(output.modifiedAccounts, ModifiedAccountsField);
      BytesRoundTrip(input.programId, ProgramIdField);
      if PlainAccounts(input.accounts) {
        var accounts := SnapshotsFromProto(input.accounts, InputAccountsField).value;
        assert forall i :: 0 <= i < |input.instrAccounts| ==>
          (MetaFromProto(accounts, input.instrAccounts[i]).Ok? <==> input.instrAccounts[i].index < |accounts|);
      }
    }
  }

  /** The defect of a list of accounts an error names is there. */
  ghost predicate AccountsDefect(accounts: seq<AcctState>, field: Field, e: AdapterError) {
    exists i :: 0 <= i < |accounts| &&
      match e
      case UnsupportedSeedAddress(f) => f == field && accounts[i].seedAddr.Some?
      case InvalidAddressLength(AccountAddressField, n) => n == |accounts[i].address| && n != 32
      case InvalidAddressLength(AccountOwnerField, n) => n == |accounts[i].owner| && n != 32
      case _ => false
  }

  lemma DecodeDefect(accounts: seq<AcctState>, field: Field)
    requires SnapshotsFromProto(accounts, field).Err?
    ensures AccountsDefect(accounts, field, SnapshotsFromProto(accounts, field).error)
  {
    var f := account => SnapshotFromProto(account, field);
    var i :| FirstError(f, accounts, i) && f(accounts[i]).error == SnapshotsFromProto(accounts, field).error;
  }

  ghost predicate InstructionDefect(input: InstrContext, output: InstrEffects, e: AdapterError) {
    match e
    case InvalidAddressLength(f, n) => f == ProgramIdField && n == |input.programId| && n != 32
    case InvalidInstructionAccountIndex(i, n) =>
      && n == |input.accounts| && n <= i
      && (exists k :: 0 <= k < |input.instrAccounts| && input.instrAccounts[k].index == i)
    case InconsistentComputeUnits(before, after) =>
      before == input.cuAvail && after == output.cuAvail && before < after
    case InconsistentExecutionStatus(result, customErr) =>
      result == output.result == 0 && customErr == output.customErr != 0
    case _ => false
  }

  /** The error names something that is wrong with the fixture, with its values. */
  ghost predicate Defect(proto: InstrFixture, e: AdapterError) {
    if proto.input.None? then e == MissingField(InputField)
    else if proto.output.None? then e == MissingField(OutputField)
    else
      || AccountsDefect(proto.input.value.accounts, InputAccountsField, e)
      || AccountsDefect(proto.output.value.modifiedAccounts, ModifiedAccountsField, e)
      || InstructionDefect(proto.input.value, proto.output.value, e)
  }

  /** The error of a refused import names a defect the fixture has. */
  lemma ImportErrorsAreTrue(proto: InstrFixture, show: Address -> string)
    requires Import(proto, show).Err?
    ensures Defect(proto, Import(proto, show).error)
  {
    if proto.input.Some? && proto.output.Some? {
      var input, output := proto.input.value, proto.output.value;
      var pre, post := SnapshotsFromProto(input.accounts, InputAccountsField),
                       SnapshotsFromProto(output.modifiedAccounts, ModifiedAccountsField);
      if pre.Err? {
        DecodeDefect(input.accounts, InputAccountsField);
      } else {
        PlainDecode(input.accounts, InputAccountsField);
        var f := account => MetaFromProto(pre.value, account);
        if MetasFromProto(pre.value, input.instrAccounts).Err? {
          var i :| FirstError(f, input.instrAccounts, i)
            && f(input.instrAccounts[i]).error == MetasFromProto(pre.value, input.instrAccounts).error;
        } else if post.Err? {
          DecodeDefect(output.modifiedAccounts, ModifiedAccountsField);
        }
      }
    }
  }

  /** The error names something the protobuf form cannot carry, with its values. */
  ghost predicate ExportDefect(input: FixtureInput, baseline: ExecutionSnapshot, e: AdapterError)
    requires input.Instruction?
  {
    match e
    case MissingComputeUnitBudget => input.runtime.computeUnitLimit.None?
    case ComputeUnitsExceedBudget(budget, consumed) =>
      input.runtime.computeUnitLimit == Some(budget) && consumed == baseline.computeUnitsConsumed && budget < consumed
    case MissingInstructionAccount(a) =>
      && (exists k :: 0 <= k < |input.accounts| && input.accounts[k].pubkey == a)
      && (forall j :: 0 <= j < |input.preAccounts| ==> input.preAccounts[j].address != a)
    case InvalidInstructionAccountIndex(i, n) => n == |input.preAccounts| && 0x1_0000_0000 <= i < n
    case UnsupportedExecutionStatus(kind) =>
      baseline.status.Failed? && baseline.status.failure.OtherFailure? && baseline.status.failure.kind == kind
    case UnsupportedReturnDataProgram(p, q) =>
      && baseline.returnData.Some? && baseline.returnData.value.programId == p
      && q == input.programId && p != q
    case _ => false
  }

  /** The error of a refused export names what the protobuf form cannot carry. */
  lemma ExportErrorsAreTrue(fixture: TestFixture)
    requires Export(fixture).Err?
    ensures if fixture.input.Instruction?
            then ExportDefect(fixture.input, fixture.expectations.baseline, Export(fixture).error)
            else Export(fixture).error == UnsupportedFixtureKind
  {
    if fixture.input.Instruction? {
      var pre, metas := fixture.input.preAccounts, fixture.input.accounts;
      var f := account => MetaToProto(pre, account);
      if MetasToProto(pre, metas).Err? {
        var i :| FirstError(f, metas, i) && f(metas[i]).error == MetasToProto(pre, metas).error;
      }
    }
  }

  // ----- What survives a round trip -----

  /** A fixture that uses nothing the protobuf form cannot carry. */
  predicate Canonical(fixture: TestFixture) {
    && fixture.header.schemaVersion == CURRENT_SCHEMA_VERSION
    && fixture.header.name != ""
    && fixture.header.kind == InstructionKind
    && fixture.header.source == Some(FIREDANCER_SOURCE)
    && fixture.header.tags == [FIREDANCER_TAG]
    && fixture.input.Instruction?
    && CanonicalRuntime(fixture.input.runtime)
    && fixture.input.programs == []
    && Indexable(fixture.input.preAccounts, fixture.input.accounts)
    && CanonicalBaseline(fixture.expectations.baseline, fixture.input.programId)
    && fixture.expectations.baseline.computeUnitsConsumed <= fixture.input.runtime.computeUnitLimit.value
    && fixture.expectations.compares == ComparesFor(fixture.expectations.baseline.postAccounts)
  }

  predicate CanonicalRuntime(runtime: RuntimeConfig) {
    && runtime.logBytesLimit == None && !runtime.sigverify && !runtime.blockhashCheck
    && runtime.computeUnitLimit.Some?
  }

  predicate CanonicalBaseline(baseline: ExecutionSnapshot, programId: Address) {
    && PlainStatus(baseline.status)
    && baseline.included && baseline.fee == 0 && baseline.logs == [] && baseline.innerInstructions == []
    && PlainReturnData(baseline.returnData, programId)
  }

  /** Every fixture an import produces is canonical. */
  lemma ImportIsCanonical(proto: InstrFixture, show: Address -> string)
    requires Import(proto, show).Ok?
    ensures Canonical(Import(proto, show).value)
  {
    var input, output := proto.input.value, proto.output.value;
    var parts := Decode(input, output).value;
    DecodeExactly(input, output, parts);
    ImportedMetasAreIndexable(parts.preAccounts, input.instrAccounts);
    assert CanonicalBaseline(BaselineOf(input, output, parts), parts.programId);
  }

  lemma EffectsRoundTrip(baseline: ExecutionSnapshot, programId: Address, cuAvail: u64)
    requires CanonicalBaseline(baseline, programId)
    ensures
      var effects := EffectsOf(baseline, programId, cuAvail);
      && effects.Ok? && effects.value.cuAvail == cuAvail
      && effects.value.modifiedAccounts == SnapshotsToProto(baseline.postAccounts)
      && StatusFromOutput(effects.value.result, effects.value.customErr) == Ok(baseline.status)
      && ReturnDataFromProto(programId, effects.value.returnData) == baseline.returnData
  {}

  lemma CanonicalExports(fixture: TestFixture) returns (proto: InstrFixture, parts: Decoded)
    requires Canonical(fixture)
    ensures Export(fixture) == Ok(proto)
    ensures proto.metadata == Some(fixture.header.name) && proto.input.Some? && proto.output.Some?
    ensures Decodes(proto.input.value, proto.output.value, parts)
    ensures Assemble(fixture.header.name, proto.input.value, proto.output.value, parts) == fixture
  {
    var baseline, input := fixture.expectations.baseline, fixture.input;
    MetasRoundTrip(input.preAccounts, input.accounts);
    EffectsRoundTrip(baseline, input.programId, input.runtime.computeUnitLimit.value - baseline.computeUnitsConsumed);
    proto := Export(fixture).value;
    parts := Decoded(input.preAccounts, input.accounts, baseline.postAccounts, input.programId, baseline.status);
    SnapshotsRoundTrip(input.preAccounts, InputAccountsField);
    SnapshotsRoundTrip(baseline.postAccounts, ModifiedAccountsField);
    AddressRoundTrip(input.programId, ProgramIdField);
    assert BaselineOf(proto.input.value, proto.output.value, parts) == baseline;
    assert Assemble(fixture.header.name, proto.input.value, proto.output.value, parts).input == input;
  }

  /** A canonical fixture exports, and importing the export gives it back. */
  lemma CanonicalRoundTrips(fixture: TestFixture, show: Address -> string)
    requires Canonical(fixture)
    ensures Export(fixture).Ok? && Import(Export(fixture).value, show) == Ok(fixture)
  {
    var proto, parts := CanonicalExports(fixture);
    DecodeExactly(proto.input.value, proto.output.value, parts);
  }

  /** Exporting and importing again is the identity on exactly the canonical fixtures. */
  lemma FixtureRoundTripExactly(fixture: TestFixture, show: Address -> string)
    ensures Canonical(fixture) <==> Export(fixture).Ok? && Import(Export(fixture).value, show) == Ok(fixture)
  {
    if Canonical(fixture) {
      CanonicalRoundTrips(fixture, show);
    }
    if Export(fixture).Ok? && Import(Export(fixture).value, show) == Ok(fixture) {
      ImportIsCanonical(Export(fixture).value, show);
    }
  }

  /** The retraction: whatever the importer accepts can be exported, and
      importing the export gives the same fixture again. */
  lemma ImportRetracts(proto: InstrFixture, show: Address -> string)
    requires Import(proto, show).Ok?
    ensures
      var fixture := Import(proto, show).value;
      Export(fixture).Ok? && Import(Export(fixture).value, show) == Ok(fixture)
  {
    ImportIsCanonical(proto, show);
    CanonicalRoundTrips(Import(proto, show).value, show);
  }

  // ----- The protobuf side -----

  /** No account before index `k` has the address of the one there. */
  predicate IsFirstIndex(accounts: seq<AcctState>, k: nat) {
    forall j :: 0 <= j < k < |accounts| ==> accounts[j].address != accounts[k].address
  }

  /** Each instruction account is given by the first index its address has. */
  predicate FirstIndices(accounts: seq<AcctState>, metas: seq<InstrAcct>) {
    forall i :: 0 <= i < |metas| ==> IsFirstIndex(accounts, metas[i].index)
  }

  /** A protobuf fixture that leaves no default to fill in. */
  predicate Explicit(proto: InstrFixture) {
    && proto.metadata.Some? && proto.metadata.value != ""
    && proto.input.Some?
    && proto.input.value.slotContext.Some? && proto.input.value.epochContext.None?
    && FirstIndices(proto.input.value.accounts, proto.input.value.instrAccounts)
  }

  lemma FirstIndexRoundTrips(
    protos: seq<AcctState>, field: Field, accounts: seq<AccountSnapshot>, metas: seq<InstrAcct>)
    requires SnapshotsFromProto(protos, field) == Ok(accounts) && MetasFromProto(accounts, metas).Ok?
    ensures MetasToProto(accounts, MetasFromProto(accounts, metas).value) == Ok(metas) <==> FirstIndices(protos, metas)
  {
    var back := RenamedMetas(accounts, metas);
    SameAddressesSameBytes(protos, field, accounts);
    forall i | 0 <= i < |metas| ensures back[i] == metas[i] <==> IsFirstIndex(protos, metas[i].index) {
      assert back[i].index == metas[i].index <==> IsFirstIndex(protos, metas[i].index);
    }
    if FirstIndices(protos, metas) {
      assert forall i :: 0 <= i < |metas| ==> back[i] == metas[i];
      assert back == metas;
    }
  }

  /** What the indices of imported instruction accounts become on export. */
  lemma RenamedMetas(accounts: seq<AccountSnapshot>, metas: seq<InstrAcct>) returns (back: seq<InstrAcct>)
    requires MetasFromProto(accounts, metas).Ok?
    ensures MetasToProto(accounts, MetasFromProto(accounts, metas).value) == Ok(back) && |back| == |metas|
    ensures forall i :: 0 <= i < |metas| ==>
              metas[i].index < |accounts| &&
              back[i] == metas[i].(index := Position(accounts, accounts[metas[i].index].address))
  {
    var pubkeys := MetasFromProto(accounts, metas).value;
    ImportedMetasAreIndexable(accounts, metas);
    MetasRoundTrip(accounts, pubkeys);
    back := MetasToProto(accounts, pubkeys).value;
    forall i | 0 <= i < |metas|
      ensures metas[i].index < |accounts|
      ensures back[i] == metas[i].(index := Position(accounts, accounts[metas[i].index].address))
    {
      assert MetaFromProto(accounts, metas[i]) == Ok(pubkeys[i]);
      assert MetaToProto(accounts, pubkeys[i]) == Ok(back[i]);
    }
  }

  lemma SameAddressesSameBytes(protos: seq<AcctState>, field: Field, accounts: seq<AccountSnapshot>)
    requires SnapshotsFromProto(protos, field) == Ok(accounts)
    ensures forall i, j :: 0 <= i < |protos| && 0 <= j < |protos| ==>
              (accounts[i].address == accounts[j].address <==> protos[i].address == protos[j].address)
  {
    forall i | 0 <= i < |protos|
      ensures AddressToBytes(accounts[i].address) == protos[i].address
      ensures AddressFromBytes(protos[i].address, AccountAddressField) == Ok(accounts[i].address)
    {
      assert SnapshotFromProto(protos[i], field) == Ok(accounts[i]);
      BytesRoundTrip(protos[i].address, AccountAddressField);
    }
  }

  lemma ReexportedEffects(input: InstrContext, output: InstrEffects, parts: Decoded)
    requires Decodes(input, output, parts)
    ensures EffectsOf(BaselineOf(input, output, parts), parts.programId, output.cuAvail) == Ok(output)
  {
    ProtosRoundTrip(output.modifiedAccounts, ModifiedAccountsField);
  }

  /** Exporting an import changes nothing but the defaults: the entry point's
      name, the slot, the epoch context and the indices of instruction accounts. */
  lemma ReexportFillsDefaults(name: string, input: InstrContext, output: InstrEffects, parts: Decoded)
    returns (metas: seq<InstrAcct>)
    requires Decodes(input, output, parts)
    ensures MetasToProto(parts.preAccounts, parts.metas) == Ok(metas)
    ensures Export(Assemble(name, input, output, parts)) == Ok(InstrFixture(
              Some(name),
              Some(input.(
                instrAccounts := metas, epochContext := None,
                slotContext := if input.slotContext.Some? then input.slotContext else Some(0))),
              Some(output)))
  {
    metas := RenamedMetas(parts.preAccounts, input.instrAccounts);
    ProtosRoundTrip(input.accounts, InputAccountsField);
    BytesRoundTrip(input.programId, ProgramIdField);
    ReexportedEffects(input, output, parts);
  }

  /** Exporting an import gives back the same protobuf fixture on exactly the
      fixtures that leave no default to fill in. */
  lemma ProtoRoundTripExactly(proto: InstrFixture, show: Address -> string)
    requires Import(proto, show).Ok?
    ensures Export(Import(proto, show).value) == Ok(proto) <==> Explicit(proto)
  {
    var input, output := proto.input.value, proto.output.value;
    var parts := Decode(input, output).value;
    DecodeExactly(input, output, parts);
    var name := NameOf(proto.metadata, parts.programId, show);
    var metas := ReexportFillsDefaults(name, input, output, parts);
    FirstIndexRoundTrips(input.accounts, InputAccountsField, parts.preAccounts, input.instrAccounts);
    assert Some(name) == proto.metadata <==> proto.metadata.Some? && proto.metadata.value != "";
  }

  // ----- When an export succeeds, and when it can be read back -----

  predicate Exportable(fixture: TestFixture) {
    && fixture.input.Instruction?
    && fixture.input.runtime.computeUnitLimit.Some?
    && fixture.expectations.baseline.computeUnitsConsumed <= fixture.input.runtime.computeUnitLimit.value
    && Indexable(fixture.input.preAccounts, fixture.input.accounts)
    && (fixture.expectations.baseline.status.Failed? ==> !fixture.expectations.baseline.status.failure.OtherFailure?)
    && (fixture.expectations.baseline.returnData.Some? ==>
          fixture.expectations.baseline.returnData.value.programId == fixture.input.programId)
  }

  /** Exactly the exportable fixtures export. */
  lemma ExportExactly(fixture: TestFixture)
    ensures Export(fixture).Ok? <==> Exportable(fixture)
  {
    if fixture.input.Instruction? {
      MetasRoundTrip(fixture.input.preAccounts, fixture.input.accounts);
    }
  }

  predicate ZeroResultWithError(status: ExecutionStatus) {
    && status.Failed? && status.failure.ProgramResultWithCustomError?
    && status.failure.result == 0 && status.failure.customError != 0
  }

  /** The importer refuses an export exactly when its status was a zero result with a custom error. */
  lemma ExportReadsBackExactly(fixture: TestFixture, show: Address -> string)
    requires Exportable(fixture)
    ensures Export(fixture).Ok?
    ensures Import(Export(fixture).value, show).Err? <==> ZeroResultWithError(fixture.expectations.baseline.status)
  {
    ExportExactly(fixture);
    var input, baseline := fixture.input, fixture.expectations.baseline;
    MetasRoundTrip(input.preAccounts, input.accounts);
    SnapshotsRoundTrip(input.preAccounts, InputAccountsField);
    SnapshotsRoundTrip(baseline.postAccounts, ModifiedAccountsField);
    AddressRoundTrip(input.programId, ProgramIdField);
    var output := Export(fixture).value.output.value;
    assert StatusFromOutput(output.result, output.customErr).Err? <==> ZeroResultWithError(baseline.status);
  }

  // ----- What an export and an import change -----

  /** The status as the two status fields say it. */
  function NormalStatus(status: ExecutionStatus): ExecutionStatus {
    match status
    case Failed(ProgramResult(0)) => Success
    case Failed(CustomError(customError)) =>
      ExecutionStatus.Failed(
        if customError == 0 then ProgramResult(1) else ProgramResultWithCustomError(1, customError))
    case Failed(ProgramResultWithCustomError(result, 0)) =>
      if result == 0 then Success else ExecutionStatus.Failed(ProgramResult(result))
    case other => other
  }

  /** The fixture without anything the protobuf form does not carry. */
  function Normal(fixture: TestFixture, show: Address -> string): TestFixture
    requires fixture.input.Instruction?
  {
    var input, baseline := fixture.input, fixture.expectations.baseline;
    var name := if fixture.header.name == "" then "firedancer-" + show(input.programId) else fixture.header.name;
    TestFixture(
      FixtureHeader(2, name, InstructionKind, Some("firedancer"), ["external:firedancer"]),
      Instruction(
        input.runtime.(logBytesLimit := None, sigverify := false, blockhashCheck := false),
        [], input.preAccounts, input.programId, input.accounts, input.data),
      Expectations(NormalBaseline(baseline), ComparesFor(baseline.postAccounts)))
  }

  function NormalBaseline(baseline: ExecutionSnapshot): ExecutionSnapshot {
    baseline.(
      status := NormalStatus(baseline.status), included := true, fee := 0, logs := [], innerInstructions := [],
      returnData :=
        if baseline.returnData.Some? && baseline.returnData.value.data == [] then None else baseline.returnData)
  }

  lemma EffectsNormalise(baseline: ExecutionSnapshot, programId: Address, cuAvail: u64)
    requires EffectsOf(baseline, programId, cuAvail).Ok? && !ZeroResultWithError(baseline.status)
    ensures var effects, normal := EffectsOf(baseline, programId, cuAvail).value, NormalBaseline(baseline);
            && effects.cuAvail == cuAvail && effects.modifiedAccounts == SnapshotsToProto(baseline.postAccounts)
            && StatusFromOutput(effects.result, effects.customErr) == Ok(normal.status)
            && ReturnDataFromProto(programId, effects.returnData) == normal.returnData
  {}

  /** Exporting any exportable fixture and importing it again changes exactly what
      the protobuf form does not carry, unless the status cannot be read back. */
  lemma ReimportNormalises(fixture: TestFixture, show: Address -> string)
    requires Exportable(fixture) && !ZeroResultWithError(fixture.expectations.baseline.status)
    ensures Export(fixture).Ok? && Import(Export(fixture).value, show) == Ok(Normal(fixture, show))
  {
    var proto, parts := ExportDecodes(fixture);
    DecodeExactly(proto.input.value, proto.output.value, parts);
    AssembledIsNormal(fixture, proto, parts, show);
  }

  /** What an export decodes to. */
  lemma ExportDecodes(fixture: TestFixture) returns (proto: InstrFixture, parts: Decoded)
    requires Exportable(fixture) && !ZeroResultWithError(fixture.expectations.baseline.status)
    ensures Export(fixture) == Ok(proto) && proto.input.Some? && proto.output.Some?
    ensures Decodes(proto.input.value, proto.output.value, parts)
    ensures var input, baseline := fixture.input, fixture.expectations.baseline;
            parts == Decoded(
              input.preAccounts, input.accounts, baseline.postAccounts, input.programId, NormalStatus(baseline.status))
  {
    ExportExactly(fixture);
    var input, baseline := fixture.input, fixture.expectations.baseline;
    MetasRoundTrip(input.preAccounts, input.accounts);
    SnapshotsRoundTrip(input.preAccounts, InputAccountsField);
    SnapshotsRoundTrip(baseline.postAccounts, ModifiedAccountsField);
    AddressRoundTrip(input.programId, ProgramIdField);
    var budget := input.runtime.computeUnitLimit.value;
    EffectsNormalise(baseline, input.programId, budget - baseline.computeUnitsConsumed);
    proto := Export(fixture).value;
    parts := Decoded(
      input.preAccounts, input.accounts, baseline.postAccounts, input.programId, NormalStatus(baseline.status));
  }

  lemma AssembledIsNormal(fixture: TestFixture, proto: InstrFixture, parts: Decoded, show: Address -> string)
    requires Exportable(fixture) && !ZeroResultWithError(fixture.expectations.baseline.status)
    requires Export(fixture) == Ok(proto) && proto.input.Some? && proto.output.Some?
    requires var input, baseline := fixture.input, fixture.expectations.baseline;
             parts == Decoded(
               input.preAccounts, input.accounts, baseline.postAccounts, input.programId, NormalStatus(baseline.status))
    ensures proto.output.value.cuAvail <= proto.input.value.cuAvail
    ensures Assemble(NameOf(proto.metadata, parts.programId, show), proto.input.value, proto.output.value, parts) ==
            Normal(fixture, show)
  {
    var input, baseline := fixture.input, fixture.expectations.baseline;
    var budget := input.runtime.computeUnitLimit.value;
    EffectsNormalise(baseline, input.programId, budget - baseline.computeUnitsConsumed);
    assert BaselineOf(proto.input.value, proto.output.value, parts) == NormalBaseline(baseline);
  }

  /** A fixture whose program returned zero together with a custom error. */
  function ZeroResultFixture(customError: u32): TestFixture {
    TestFixture(
      FixtureHeader(CURRENT_SCHEMA_VERSION, "zero", InstructionKind, None, []),
      Instruction(RuntimeConfig(0, None, false, false, Some(0)), [], [], DEFAULT_ADDRESS, [], []),
      Expectations(
        ExecutionSnapshot(
          ExecutionStatus.Failed(ProgramResultWithCustomError(0, customError)), true, 0, 0, [], None, [], []),
        []))
  }

  /** It exports to a protobuf fixture the importer refuses. */
  lemma ZeroResultIsNotReadBack(customError: u32, show: Address -> string)
    requires customError != 0
    ensures Export(ZeroResultFixture(customError)).Ok?
    ensures Import(Export(ZeroResultFixture(customError)).value, show) ==
              Err(InconsistentExecutionStatus(0, customError))
  {
    var fixture := ZeroResultFixture(customError);
    ExportReadsBackExactly(fixture, show);
    SnapshotsRoundTrip([], InputAccountsField);
    SnapshotsRoundTrip([], ModifiedAccountsField);
    MetasRoundTrip([], []);
    AddressRoundTrip(DEFAULT_ADDRESS, ProgramIdField);
  }

  // ----- What an imported fixture demands of a run -----

  predicate Holds(run: seq<AccountSnapshot>, account: AccountSnapshot) {
    account.address in Comparison.ByAddress(run) && Comparison.ByAddress(run)[account.address] == account
  }

  predicate HoldsAll(run: seq<AccountSnapshot>, recorded: seq<AccountSnapshot>) {
    forall i :: 0 <= i < |recorded| ==> Holds(run, recorded[i])
  }

  lemma ImportedScopeDemands(recorded: seq<AccountSnapshot>, run: seq<AccountSnapshot>)
    ensures Comparison.CompareAccounts(recorded, run, Only(FirstOccurrences(recorded))) <==> HoldsAll(run, recorded)
  {
    var scope := Only(FirstOccurrences(recorded));
    assert forall i :: 0 <= i < |recorded| ==> Comparison.InScope(scope, recorded[i].address);
    forall j | 0 <= j < |run| && Comparison.InScope(scope, run[j].address)
      ensures exists i :: 0 <= i < |recorded| && recorded[i].address == run[j].address
    {
      assert run[j].address in FirstOccurrences(recorded);
    }
  }

  predicate SameOutcome(baseline: ExecutionSnapshot, run: ExecutionSnapshot) {
    && baseline.status == run.status && baseline.included == run.included
    && baseline.computeUnitsConsumed == run.computeUnitsConsumed && baseline.returnData == run.returnData
  }

  lemma FixedComparesDemand(baseline: ExecutionSnapshot, run: ExecutionSnapshot)
    ensures (forall i :: 0 <= i < |FIXED_COMPARES| ==> Comparison.Passes(FIXED_COMPARES[i], baseline, run)) <==>
            SameOutcome(baseline, run)
  {
    assert Comparison.Passes(FIXED_COMPARES[0], baseline, run) <==> baseline.status == run.status;
    assert Comparison.Passes(FIXED_COMPARES[1], baseline, run) <==> baseline.included == run.included;
    assert Comparison.Passes(FIXED_COMPARES[2], baseline, run) <==>
      baseline.computeUnitsConsumed == run.computeUnitsConsumed;
    assert Comparison.Passes(FIXED_COMPARES[3], baseline, run) <==> baseline.returnData == run.returnData;
  }

  /** Passing the comparisons of an import means matching status, inclusion,
      compute units and return data, and holding each recorded account; any
      other account of the run is free. */
  lemma ImportedComparesDemand(baseline: ExecutionSnapshot, run: ExecutionSnapshot)
    ensures Comparison.TryCompare(baseline, run, ComparesFor(baseline.postAccounts)).Ok? <==>
            SameOutcome(baseline, run) && HoldsAll(run.postAccounts, baseline.postAccounts)
  {
    var recorded := baseline.postAccounts;
    var same, held := SameOutcome(baseline, run), HoldsAll(run.postAccounts, recorded);
    FixedComparesDemand(baseline, run);
    if recorded == [] {
      assert ComparesFor(recorded) == FIXED_COMPARES;
    } else {
      ImportedScopeDemands(recorded, run.postAccounts);
      AllOfSnoc(FIXED_COMPARES, Accounts(Only(FirstOccurrences(recorded))), baseline, run, same, held);
    }
  }

  lemma AllOfSnoc(
    init: seq<Compare>, last: Compare, left: ExecutionSnapshot, right: ExecutionSnapshot, first: bool, second: bool)
    requires first <==> forall i :: 0 <= i < |init| ==> Comparison.Passes(init[i], left, right)
    requires second <==> Comparison.Passes(last, left, right)
    ensures Comparison.TryCompare(left, right, init + [last]).Ok? <==> first && second
  {
    var all := init + [last];
    assert all[|init|] == last;
    assert forall i :: 0 <= i < |init| ==> all[i] == init[i];
  }
}
