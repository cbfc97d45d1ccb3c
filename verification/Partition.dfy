/** The in-place partition `sync_accounts` performs before it adds anything:
    programdata accounts are swapped to the front. */
module Partition {
  import opened Types

  type Delta = seq<(Address, Account)>

  function Swap(xs: Delta, i: nat, j: nat): Delta
    requires i < |xs| && j < |xs|
  {
    xs[i := xs[j]][j := xs[i]]
  }

  /** One run of the two-index loop from the given positions. */
  function PartitionFrom(xs: Delta, write: nat, read: nat): Delta
    requires write <= read <= |xs|
    decreases |xs| - read
  {
    if read == |xs| then xs
    else if IsProgramdata(xs[read].1) then PartitionFrom(Swap(xs, write, read), write + 1, read + 1)
    else PartitionFrom(xs, write, read + 1)
  }

  function Partitioned(xs: Delta): Delta {
    PartitionFrom(xs, 0, 0)
  }

  /** Every programdata account precedes every other account. */
  ghost predicate ProgramdataFirst(xs: Delta) {
    forall i, j :: 0 <= i < j < |xs| ==>
      xs[j].1.owner == BPF_LOADER_UPGRADEABLE_ID && xs[j].1.data != [] && xs[j].1.data[0] == 3 ==>
      xs[i].1.owner == BPF_LOADER_UPGRADEABLE_ID && xs[i].1.data != [] && xs[i].1.data[0] == 3
  }

  ghost predicate Distinct(xs: Delta) {
    forall i, j :: 0 <= i < j < |xs| ==> xs[i].0 != xs[j].0
  }

  /** The addresses a delta writes. */
  function Addresses(delta: Delta): set<Address> {
    set i | 0 <= i < |delta| :: delta[i].0
  }

  lemma AddressesOfTail(xs: Delta)
    requires xs != []
    ensures Addresses(xs) == {xs[0].0} + Addresses(xs[1..])
    ensures Distinct(xs) ==> xs[0].0 !in Addresses(xs[1..])
  {
    forall a ensures a in Addresses(xs) <==> a == xs[0].0 || a in Addresses(xs[1..]) {
      if a in Addresses(xs) {
        var i :| 0 <= i < |xs| && xs[i].0 == a;
        assert i > 0 ==> xs[1..][i - 1].0 == a;
      }
      if a in Addresses(xs[1..]) {
        var i :| 0 <= i < |xs[1..]| && xs[1..][i].0 == a;
        assert xs[i + 1].0 == a;
      }
    }
  }

  lemma SwapKeepsMultiset(xs: Delta, i: nat, j: nat)
    requires i < |xs| && j < |xs|
    ensures multiset(Swap(xs, i, j)) == multiset(xs)
  {}

  lemma {:induction false} PartitionFromPermutes(xs: Delta, write: nat, read: nat)
    requires write <= read <= |xs|
    ensures multiset(PartitionFrom(xs, write, read)) == multiset(xs)
    decreases |xs| - read
  {
    if read < |xs| {
      if IsProgramdata(xs[read].1) {
        SwapKeepsMultiset(xs, write, read);
        PartitionFromPermutes(Swap(xs, write, read), write + 1, read + 1);
      } else {
        PartitionFromPermutes(xs, write, read + 1);
      }
    }
  }

  /** Loop state: programdata up to `write`, anything else up to `read`. */
  ghost predicate SplitAt(xs: Delta, write: nat, read: nat) {
    && write <= read <= |xs|
    && (forall i :: 0 <= i < write ==> IsProgramdata(xs[i].1))
    && (forall i :: write <= i < read ==> !IsProgramdata(xs[i].1))
  }

  lemma {:induction false} PartitionFromOrders(xs: Delta, write: nat, read: nat)
    requires SplitAt(xs, write, read)
    ensures ProgramdataFirst(PartitionFrom(xs, write, read))
    decreases |xs| - read
  {
    if read < |xs| {
      if IsProgramdata(xs[read].1) {
        assert SplitAt(Swap(xs, write, read), write + 1, read + 1);
        PartitionFromOrders(Swap(xs, write, read), write + 1, read + 1);
      } else {
        PartitionFromOrders(xs, write, read + 1);
      }
    }
  }

  lemma SwapKeepsDistinct(xs: Delta, i: nat, j: nat)
    requires i < |xs| && j < |xs| && Distinct(xs)
    ensures Distinct(Swap(xs, i, j))
  {}

  lemma {:induction false} PartitionFromKeepsDistinct(xs: Delta, write: nat, read: nat)
    requires write <= read <= |xs| && Distinct(xs)
    ensures Distinct(PartitionFrom(xs, write, read))
    decreases |xs| - read
  {
    if read < |xs| {
      if IsProgramdata(xs[read].1) {
        SwapKeepsDistinct(xs, write, read);
        PartitionFromKeepsDistinct(Swap(xs, write, read), write + 1, read + 1);
      } else {
        PartitionFromKeepsDistinct(xs, write, read + 1);
      }
    }
  }

  /** Two lists with the same elements have the same length and the same members. */
  lemma SameElements(xs: Delta, ys: Delta)
    requires multiset(xs) == multiset(ys)
    ensures |xs| == |ys|
    ensures forall x :: x in xs <==> x in ys
  {
    assert |multiset(xs)| == |multiset(ys)|;
    forall x ensures x in xs <==> x in ys {
      assert x in multiset(xs) <==> x in multiset(ys);
    }
  }

  lemma SameAddresses(xs: Delta, ys: Delta)
    requires multiset(xs) == multiset(ys)
    ensures Addresses(xs) == Addresses(ys)
  {
    SameElements(xs, ys);
    forall a ensures a in Addresses(xs) <==> a in Addresses(ys) {
      if a in Addresses(xs) { var i :| 0 <= i < |xs| && xs[i].0 == a; assert xs[i] in ys; }
      if a in Addresses(ys) { var i :| 0 <= i < |ys| && ys[i].0 == a; assert ys[i] in xs; }
    }
  }

  /** The partition is a permutation with all programdata in front, and keeps
      addresses distinct. */
  lemma PartitionedSound(xs: Delta)
    ensures multiset(Partitioned(xs)) == multiset(xs)
    ensures ProgramdataFirst(Partitioned(xs))
    ensures |Partitioned(xs)| == |xs|
    ensures Distinct(xs) ==> Distinct(Partitioned(xs))
  {
    PartitionFromPermutes(xs, 0, 0);
    PartitionFromOrders(xs, 0, 0);
    SameElements(xs, Partitioned(xs));
    if Distinct(xs) {
      PartitionFromKeepsDistinct(xs, 0, 0);
    }
  }

  /** A list with programdata first is left alone. */
  lemma {:induction false} PartitionedOfSorted(xs: Delta, write: nat, read: nat)
    requires write <= read <= |xs| && ProgramdataFirst(xs)
    requires write < read ==> !IsProgramdata(xs[write].1)
    ensures PartitionFrom(xs, write, read) == xs
    decreases |xs| - read
  {
    if read < |xs| {
      if IsProgramdata(xs[read].1) {
        assert write == read;
        assert Swap(xs, write, read) == xs;
        PartitionedOfSorted(xs, write + 1, read + 1);
      } else {
        PartitionedOfSorted(xs, write, read + 1);
      }
    }
  }
}
