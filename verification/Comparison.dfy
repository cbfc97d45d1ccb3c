/** Comparing execution snapshots (compare.rs of the fixture crate): the
    hash-indexed account comparison against its specification on maps. */
module Comparison {
  import opened Types
  import opened Fixture

  predicate InScope(scope: AccountCompareScope, a: Address) {
    match scope
    case All => true
    case Only(addresses) => a in addresses
    case AllExcept(addresses) => a !in addresses
  }

  /** The index a list is collected into: the last account of an address wins. */
  function ByAddress(accounts: seq<AccountSnapshot>): map<Address, AccountSnapshot> {
    if accounts == [] then map[]
    else ByAddress(accounts[..|accounts| - 1])[accounts[|accounts| - 1].address := accounts[|accounts| - 1]]
  }

  /** `compare_accounts`: each left account in scope must equal the one indexed
      on the right, and no address in scope may occur on the right only. */
  predicate CompareAccounts(left: seq<AccountSnapshot>, right: seq<AccountSnapshot>, scope: AccountCompareScope) {
    var index := ByAddress(right);
    && (forall i :: 0 <= i < |left| && InScope(scope, left[i].address) ==>
          left[i].address in index && index[left[i].address] == left[i])
    && (forall j :: 0 <= j < |right| && InScope(scope, right[j].address) ==>
          exists i :: 0 <= i < |left| && left[i].address == right[j].address)
  }

  // ----- Specification -----

  /** The accounts in scope as a map. */
  function Scoped(accounts: seq<AccountSnapshot>, scope: AccountCompareScope): map<Address, AccountSnapshot> {
    map a | a in ByAddress(accounts) && InScope(scope, a) :: ByAddress(accounts)[a]
  }

  /** No address in scope is listed with two different accounts. */
  predicate Unambiguous(accounts: seq<AccountSnapshot>, scope: AccountCompareScope) {
    forall i, j :: 0 <= i < |accounts| && 0 <= j < |accounts| ==>
      InScope(scope, accounts[i].address) && accounts[i].address == accounts[j].address ==> accounts[i] == accounts[j]
  }

  predicate DistinctAddresses(accounts: seq<AccountSnapshot>) {
    forall i, j :: 0 <= i < j < |accounts| ==> accounts[i].address != accounts[j].address
  }

  lemma {:induction false} ByAddressIndexes(accounts: seq<AccountSnapshot>)
    ensures forall i :: 0 <= i < |accounts| ==> accounts[i].address in ByAddress(accounts)
    ensures forall a :: a in ByAddress(accounts) ==>
              ByAddress(accounts)[a].address == a && ByAddress(accounts)[a] in accounts
  {
    if accounts != [] {
      var n := |accounts| - 1;
      ByAddressIndexes(accounts[..n]);
      assert accounts == accounts[..n] + [accounts[n]];
    }
  }

  lemma {:induction false} ComparisonImpliesSpec(
    left: seq<AccountSnapshot>, right: seq<AccountSnapshot>, scope: AccountCompareScope)
    requires CompareAccounts(left, right, scope)
    ensures Unambiguous(left, scope) && Scoped(left, scope) == Scoped(right, scope)
  {
    ByAddressIndexes(left);
    ByAddressIndexes(right);
    var l, r := Scoped(left, scope), Scoped(right, scope);
    forall a | a in l ensures a in r && r[a] == l[a] {
      assert l[a] in left;
      var i :| 0 <= i < |left| && left[i] == l[a];
    }
    forall a | a in r ensures a in l {
      assert r[a] in right;
      var j :| 0 <= j < |right| && right[j] == r[a];
      var i :| 0 <= i < |left| && left[i].address == right[j].address;
    }
  }

  lemma SpecImpliesComparison(left: seq<AccountSnapshot>, right: seq<AccountSnapshot>, scope: AccountCompareScope)
    requires Unambiguous(left, scope) && Scoped(left, scope) == Scoped(right, scope)
    ensures CompareAccounts(left, right, scope)
  {
    ByAddressIndexes(left);
    ByAddressIndexes(right);
    var l, r := Scoped(left, scope), Scoped(right, scope);
    forall i | 0 <= i < |left| && InScope(scope, left[i].address)
      ensures left[i].address in ByAddress(right) && ByAddress(right)[left[i].address] == left[i]
    {
      var a := left[i].address;
      assert a in l && a in r;
      assert l[a] in left;
      var k :| 0 <= k < |left| && left[k] == l[a];
    }
    forall j | 0 <= j < |right| && InScope(scope, right[j].address)
      ensures exists i :: 0 <= i < |left| && left[i].address == right[j].address
    {
      var a := right[j].address;
      assert a in r && a in l;
      assert l[a] in left;
      var i :| 0 <= i < |left| && left[i] == l[a];
    }
  }

  /** For all snapshots the comparison holds exactly when the left side is
      unambiguous in scope and the two sides are the same map in scope. */
  lemma ComparisonIsMapEquality(left: seq<AccountSnapshot>, right: seq<AccountSnapshot>, scope: AccountCompareScope)
    ensures CompareAccounts(left, right, scope) <==>
              Unambiguous(left, scope) && Scoped(left, scope) == Scoped(right, scope)
  {
    if CompareAccounts(left, right, scope) {
      ComparisonImpliesSpec(left, right, scope);
    }
    if Unambiguous(left, scope) && Scoped(left, scope) == Scoped(right, scope) {
      SpecImpliesComparison(left, right, scope);
    }
  }

  /** Duplicate addresses break reflexivity and symmetry in exactly one way: a
      snapshot equals itself, and a comparison can be turned around, if and
      only if no address in scope is listed with two different accounts. */
  lemma DuplicatesDecideSelfEquality(
    left: seq<AccountSnapshot>, right: seq<AccountSnapshot>, scope: AccountCompareScope)
    ensures CompareAccounts(left, left, scope) <==> Unambiguous(left, scope)
    ensures CompareAccounts(left, right, scope) ==> (CompareAccounts(right, left, scope) <==> Unambiguous(right, scope))
  {
    ComparisonIsMapEquality(left, left, scope);
    ComparisonIsMapEquality(left, right, scope);
    ComparisonIsMapEquality(right, left, scope);
  }

  /** Such duplicates exist: with two different accounts at one address, a list
      of both is not equal to itself, and equality with it holds one way only. */
  lemma DuplicatesBreakSymmetry(x: AccountSnapshot, y: AccountSnapshot)
    requires x != y && x.address == y.address
    ensures CompareAccounts([x], [y, x], All) && !CompareAccounts([y, x], [x], All)
    ensures !CompareAccounts([y, x], [y, x], All)
  {
    assert [y, x][..1] == [y] && [x][..0] == [] && [y][..0] == [];
    assert ByAddress([y, x]) == ByAddress([y])[x.address := x] && ByAddress([x]) == map[x.address := x];
    assert [y, x][0] == y && [y, x][1] == x;
  }

  // ----- Lists of predicates -----

  predicate Passes(compare: Compare, left: ExecutionSnapshot, right: ExecutionSnapshot) {
    match compare
    case Status => left.status == right.status
    case Included => left.included == right.included
    case ComputeUnits => left.computeUnitsConsumed == right.computeUnitsConsumed
    case Fee => left.fee == right.fee
    case ReturnedData => left.returnData == right.returnData
    case Logs => left.logs == right.logs
    case InnerInstructionCount => |left.innerInstructions| == |right.innerInstructions|
    case Accounts(scope) => CompareAccounts(left.postAccounts, right.postAccounts, scope)
  }

  predicate FirstFailure(compares: seq<Compare>, left: ExecutionSnapshot, right: ExecutionSnapshot, i: int) {
    && 0 <= i < |compares| && !Passes(compares[i], left, right)
    && forall j :: 0 <= j < i ==> Passes(compares[j], left, right)
  }

  /** `try_compare_with`: the first predicate that does not hold, if any. */
  function TryCompare(
    left: ExecutionSnapshot, right: ExecutionSnapshot, compares: seq<Compare>): (r: Result<(), Compare>)
    ensures r.Ok? <==> forall i :: 0 <= i < |compares| ==> Passes(compares[i], left, right)
    ensures r.Err? ==> exists i :: FirstFailure(compares, left, right, i) && compares[i] == r.error
  {
    if compares == [] then Ok(())
    else if !Passes(compares[0], left, right) then
      assert FirstFailure(compares, left, right, 0);
      Err(compares[0])
    else
      var rest := TryCompare(left, right, compares[1..]);
      assert rest.Err? ==> exists i :: FirstFailure(compares, left, right, i) && compares[i] == rest.error by {
        if rest.Err? {
          var i :| FirstFailure(compares[1..], left, right, i) && compares[1..][i] == rest.error;
          assert forall j :: 0 < j < i + 1 ==> compares[j] == compares[1..][j - 1];
          assert FirstFailure(compares, left, right, i + 1);
        }
      }
      rest
  }

  lemma DistinctIsUnambiguous(accounts: seq<AccountSnapshot>, scope: AccountCompareScope)
    requires DistinctAddresses(accounts)
    ensures Unambiguous(accounts, scope)
  {}

  lemma PassesIsEquivalence(compare: Compare, x: ExecutionSnapshot, y: ExecutionSnapshot, z: ExecutionSnapshot)
    requires DistinctAddresses(x.postAccounts) && DistinctAddresses(y.postAccounts) && DistinctAddresses(z.postAccounts)
    ensures Passes(compare, x, x)
    ensures Passes(compare, x, y) ==> Passes(compare, y, x)
    ensures Passes(compare, x, y) && Passes(compare, y, z) ==> Passes(compare, x, z)
  {
    if compare.Accounts? {
      var scope := compare.scope;
      DistinctIsUnambiguous(x.postAccounts, scope);
      DistinctIsUnambiguous(y.postAccounts, scope);
      ComparisonIsMapEquality(x.postAccounts, x.postAccounts, scope);
      ComparisonIsMapEquality(x.postAccounts, y.postAccounts, scope);
      ComparisonIsMapEquality(y.postAccounts, x.postAccounts, scope);
      ComparisonIsMapEquality(y.postAccounts, z.postAccounts, scope);
      ComparisonIsMapEquality(x.postAccounts, z.postAccounts, scope);
    }
  }

  /** Comparison under any list of predicates is an equivalence relation on
      snapshots with distinct addresses. */
  lemma ComparisonIsEquivalence(
    compares: seq<Compare>, x: ExecutionSnapshot, y: ExecutionSnapshot, z: ExecutionSnapshot)
    requires DistinctAddresses(x.postAccounts) && DistinctAddresses(y.postAccounts) && DistinctAddresses(z.postAccounts)
    ensures TryCompare(x, x, compares).Ok?
    ensures TryCompare(x, y, compares).Ok? ==> TryCompare(y, x, compares).Ok?
    ensures TryCompare(x, y, compares).Ok? && TryCompare(y, z, compares).Ok? ==> TryCompare(x, z, compares).Ok?
  {
    forall i | 0 <= i < |compares|
      ensures Passes(compares[i], x, x)
      ensures Passes(compares[i], x, y) ==> Passes(compares[i], y, x)
      ensures Passes(compares[i], x, y) && Passes(compares[i], y, z) ==> Passes(compares[i], x, z)
    {
      PassesIsEquivalence(compares[i], x, y, z);
    }
  }

  /** One predicate asks no more than another: it is the same, or an account
      comparison over a smaller scope. */
  ghost predicate Weaker(weak: Compare, strong: Compare) {
    || weak == strong
    || (weak.Accounts? && strong.Accounts? && forall a: Address :: InScope(weak.scope, a) ==> InScope(strong.scope, a))
  }

  /** Dropping predicates or shrinking scopes never turns a pass into a
      failure, whatever the snapshots. */
  lemma {:induction false} WeakerListStillPasses(
    weak: seq<Compare>, strong: seq<Compare>, x: ExecutionSnapshot, y: ExecutionSnapshot)
    requires forall i :: 0 <= i < |weak| ==> exists j :: 0 <= j < |strong| && Weaker(weak[i], strong[j])
    requires TryCompare(x, y, strong).Ok?
    ensures TryCompare(x, y, weak).Ok?
  {
    forall i | 0 <= i < |weak| ensures Passes(weak[i], x, y) {
      var j :| 0 <= j < |strong| && Weaker(weak[i], strong[j]);
      assert Passes(strong[j], x, y);
    }
  }

  // ----- Scopes and ready-made lists -----

  /** No listed address, or no address but the listed ones, has two different accounts. */
  ghost predicate UnambiguousAt(accounts: seq<AccountSnapshot>, addresses: seq<Address>, listed: bool) {
    forall i, j :: 0 <= i < |accounts| && 0 <= j < |accounts| && accounts[i].address == accounts[j].address ==>
      (accounts[i].address in addresses) == listed ==> accounts[i] == accounts[j]
  }

  /** What the scopes mean: the listed addresses and no others are compared, or
      exactly the others. */
  lemma {:induction false} ScopesExactly(
    left: seq<AccountSnapshot>, right: seq<AccountSnapshot>, addresses: seq<Address>)
    ensures var l, r, listed := ByAddress(left), ByAddress(right), set a | a in addresses;
            && (CompareAccounts(left, right, Only(addresses)) <==>
                  UnambiguousAt(left, addresses, true) && l - (l.Keys - listed) == r - (r.Keys - listed))
            && (CompareAccounts(left, right, AllExcept(addresses)) <==>
                  UnambiguousAt(left, addresses, false) && l - listed == r - listed)
  {
    var l, r, listed := ByAddress(left), ByAddress(right), set a | a in addresses;
    ComparisonIsMapEquality(left, right, Only(addresses));
    ComparisonIsMapEquality(left, right, AllExcept(addresses));
    assert Scoped(left, Only(addresses)) == l - (l.Keys - listed);
    assert Scoped(right, Only(addresses)) == r - (r.Keys - listed);
    assert Scoped(left, AllExcept(addresses)) == l - listed;
    assert Scoped(right, AllExcept(addresses)) == r - listed;
  }

  /** `Compare::everything_but_compute_units`. */
  const ALL_BUT_COMPUTE_UNITS: seq<Compare> :=
    [Status, Included, Fee, ReturnedData, Logs, InnerInstructionCount, Accounts(All)]

  /** `Compare::everything`. */
  const EVERYTHING: seq<Compare> :=
    [Status, Included, ComputeUnits, Fee, ReturnedData, Logs, InnerInstructionCount, Accounts(All)]

  /** The snapshots agree on all parts but the compute units. */
  ghost predicate SameButComputeUnits(x: ExecutionSnapshot, y: ExecutionSnapshot) {
    && x.status == y.status && x.included == y.included && x.fee == y.fee && x.returnData == y.returnData
    && x.logs == y.logs && |x.innerInstructions| == |y.innerInstructions|
    && Unambiguous(x.postAccounts, All) && ByAddress(x.postAccounts) == ByAddress(y.postAccounts)
  }

  lemma {:induction false} SevenHold(x: ExecutionSnapshot, y: ExecutionSnapshot, cs: seq<Compare>)
    requires cs == ALL_BUT_COMPUTE_UNITS
    ensures TryCompare(x, y, cs).Ok? <==> SameButComputeUnits(x, y)
  {
    ComparisonIsMapEquality(x.postAccounts, y.postAccounts, All);
    assert Scoped(x.postAccounts, All) == ByAddress(x.postAccounts);
    assert Scoped(y.postAccounts, All) == ByAddress(y.postAccounts);
    var passed := TryCompare(x, y, cs).Ok?;
    assert passed <==> forall i :: 0 <= i < |cs| ==> Passes(cs[i], x, y);
    if passed {
      assert Passes(cs[0], x, y) && Passes(cs[1], x, y) && Passes(cs[2], x, y) && Passes(cs[3], x, y);
      assert Passes(cs[4], x, y) && Passes(cs[5], x, y) && Passes(cs[6], x, y);
    }
  }

  lemma {:induction false} OneMoreHolds(
    x: ExecutionSnapshot, y: ExecutionSnapshot, some: seq<Compare>, all: seq<Compare>)
    requires some == ALL_BUT_COMPUTE_UNITS && all == EVERYTHING
    ensures TryCompare(x, y, all).Ok? <==>
            TryCompare(x, y, some).Ok? && x.computeUnitsConsumed == y.computeUnitsConsumed
  {
    assert all[2] == ComputeUnits;
    forall i | 0 <= i < |some| ensures some[i] == all[if i < 2 then i else i + 1] {}
    forall i | 0 <= i < |all| && i != 2 ensures all[i] == some[if i < 2 then i else i - 1] {}
  }

  /** The ready-made lists compare all parts, with or without the compute units. */
  lemma EverythingComparesAll(x: ExecutionSnapshot, y: ExecutionSnapshot, some: seq<Compare>, all: seq<Compare>)
    requires some == ALL_BUT_COMPUTE_UNITS && all == EVERYTHING
    ensures TryCompare(x, y, some).Ok? <==> SameButComputeUnits(x, y)
    ensures TryCompare(x, y, all).Ok? <==>
            SameButComputeUnits(x, y) && x.computeUnitsConsumed == y.computeUnitsConsumed
  {
    SevenHold(x, y, some);
    OneMoreHolds(x, y, some, all);
  }
}
