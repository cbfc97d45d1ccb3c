/** The fixture model (model.rs and snapshot.rs of the fixture crate). */
module Fixture {
  import opened Types

  datatype AccountSnapshot = AccountSnapshot(
    address: Address, lamports: u64, owner: Address, executable: bool, rentEpoch: u64, data: seq<byte>)

  datatype ExecutionFailure =
    | ProgramResult(result: i32)
    | CustomError(customError: u32)
    | ProgramResultWithCustomError(result: i32, customError: u32)
    | OtherFailure(kind: string, message: string)

  datatype ExecutionStatus = Success | Failed(failure: ExecutionFailure)

  datatype ReturnData = ReturnData(programId: Address, data: seq<byte>)

  datatype InnerInstruction = InnerInstruction(
    stackHeight: byte,
    programIdIndex: byte,
    accounts: seq<byte>,
    data: seq<byte>,
    outer: nat)

  datatype ExecutionSnapshot = ExecutionSnapshot(
    status: ExecutionStatus,
    included: bool,
    computeUnitsConsumed: u64,
    fee: u64,
    logs: seq<string>,
    returnData: Option<ReturnData>,
    innerInstructions: seq<InnerInstruction>,
    postAccounts: seq<AccountSnapshot>)

  datatype AccountCompareScope = All | Only(addresses: seq<Address>) | AllExcept(addresses: seq<Address>)

  datatype Compare =
    | Status
    | Included
    | ComputeUnits
    | Fee
    | ReturnedData
    | Logs
    | InnerInstructionCount
    | Accounts(scope: AccountCompareScope)
}
