/** Schedules of a parallel stage: whichever worker takes whichever pending
    transaction next, sorting the results by index gives one list, and merging
    the account deltas in any order gives the same reads. */
module Schedule {
  import opened Types
  import opened Overlay
  import opened Partition
  import opened View
  import opened Lifecycle
  import opened Planner
  import opened Machine
  import opened StageRun
  import opened Commute
  import opened Batch
  import H = History

  datatype StageResult = StageResult(index: nat, result: TransactionResult, delta: CommitDelta)

  /** What a worker reports for one transaction of the stage. */
  function Report(sv: Services, ex: Executor, snapshot: VmState, txs: seq<Tx>, i: nat): StageResult
    requires i < |txs|
  {
    var d := LiveOutcome(sv, ex, snapshot, txs[i]);
    StageResult(i, ResultOf(d), DeltaOf(d, snapshot.history.max != 0))
  }

  /** The stage while it drains: what is pending and what was pushed so far.
      Every worker holds its own copy of the machine. */
  datatype StageState = StageState(workers: map<nat, VmState>, pending: set<nat>, pushed: seq<StageResult>)

  /** Worker `w` takes pending transaction `i`, cloning the snapshot first if it
      has not worked before, and pushes its report. */
  function WorkerStep(
    sv: Services, ex: Executor, snapshot: VmState, txs: seq<Tx>, s: StageState, w: nat, i: nat): StageState
    requires i in s.pending && i < |txs|
  {
    var workers := if w in s.workers then s.workers else s.workers[w := snapshot];
    StageState(workers, s.pending - {i}, s.pushed + [Report(sv, ex, workers[w], txs, i)])
  }

  /** Workers still hold the snapshot, and each member is either pending or
      reported exactly once with the report it gets on the snapshot. */
  ghost predicate Draining(
    sv: Services, ex: Executor, snapshot: VmState, txs: seq<Tx>, members: seq<nat>, s: StageState) {
    && (forall w :: w in s.workers ==> s.workers[w] == snapshot)
    && (forall i :: i in s.pending ==> i in members && i < |txs|)
    && (forall k :: 0 <= k < |s.pushed| ==>
          s.pushed[k].index in members && s.pushed[k].index < |txs| && s.pushed[k].index !in s.pending &&
          s.pushed[k] == Report(sv, ex, snapshot, txs, s.pushed[k].index))
    && (forall k, l :: 0 <= k < l < |s.pushed| ==> s.pushed[k].index != s.pushed[l].index)
    && (forall i :: i in members && i !in s.pending ==> Reported(s.pushed, i))
  }

  ghost predicate Reported(pushed: seq<StageResult>, i: nat) {
    exists k :: 0 <= k < |pushed| && pushed[k].index == i
  }

  /** Every step of every worker keeps the stage draining. */
  lemma WorkerStepKeepsDraining(
    sv: Services, ex: Executor, snapshot: VmState, txs: seq<Tx>, members: seq<nat>, s: StageState, w: nat, i: nat)
    requires Draining(sv, ex, snapshot, txs, members, s) && i in s.pending && i < |txs|
    ensures Draining(sv, ex, snapshot, txs, members, WorkerStep(sv, ex, snapshot, txs, s, w, i))
  {
    var t := WorkerStep(sv, ex, snapshot, txs, s, w, i);
    var report := Report(sv, ex, snapshot, txs, i);
    assert t.pushed == s.pushed + [report] && report.index == i;
    PushKeepsDraining(sv, ex, snapshot, txs, members, s, t, report);
  }

  lemma PushKeepsDraining(
    sv: Services, ex: Executor, snapshot: VmState, txs: seq<Tx>, members: seq<nat>, s: StageState,
    t: StageState, report: StageResult)
    requires Draining(sv, ex, snapshot, txs, members, s) && report.index in s.pending
    requires report.index < |txs| && report == Report(sv, ex, snapshot, txs, report.index)
    requires forall w :: w in t.workers ==> t.workers[w] == snapshot
    requires t.pending == s.pending - {report.index} && t.pushed == s.pushed + [report]
    ensures Draining(sv, ex, snapshot, txs, members, t)
  {
    var i := report.index;
    forall j | j in members && j !in t.pending ensures Reported(t.pushed, j) {
      if j == i {
        assert t.pushed[|s.pushed|].index == i;
      } else {
        assert Reported(s.pushed, j);
        var k :| 0 <= k < |s.pushed| && s.pushed[k].index == j;
        assert t.pushed[k].index == j;
      }
    }
  }

  ghost predicate Ascending(xs: seq<nat>) {
    forall p, q :: 0 <= p < q < |xs| ==> xs[p] < xs[q]
  }

  lemma AscendingTail(xs: seq<nat>)
    requires xs != [] && Ascending(xs)
    ensures var tail := xs[1..]; Ascending(tail) && forall i: nat :: i in tail <==> i in xs && i != xs[0]
  {
    assert xs == [xs[0]] + xs[1..];
  }

  /** Ascending lists with the same members are equal. */
  lemma {:induction false} AscendingUnique(xs: seq<nat>, ys: seq<nat>)
    requires Ascending(xs) && Ascending(ys)
    requires forall i: nat :: i in xs <==> i in ys
    ensures xs == ys
    decreases |xs|
  {
    if xs == [] {
      assert forall p :: 0 <= p < |ys| ==> ys[p] in ys;
    } else {
      assert xs[0] in ys;
      assert ys[0] in ys && ys[0] in xs;
      assert xs[0] == ys[0];
      AscendingTail(xs);
      AscendingTail(ys);
      AscendingUnique(xs[1..], ys[1..]);
    }
  }

  /** The reports of a list of members, in their order. */
  function Reports(sv: Services, ex: Executor, snapshot: VmState, txs: seq<Tx>, members: seq<nat>): seq<StageResult>
    requires InRange(txs, members)
  {
    seq(|members|, k requires 0 <= k < |members| => Report(sv, ex, snapshot, txs, members[k]))
  }

  function Indexes(results: seq<StageResult>): seq<nat> {
    seq(|results|, k requires 0 <= k < |results| => results[k].index)
  }

  lemma SameReports(xs: seq<StageResult>, ys: seq<StageResult>)
    requires multiset(xs) == multiset(ys)
    ensures forall r :: r in xs <==> r in ys
  {
    forall r ensures r in xs <==> r in ys {
      assert r in multiset(xs) <==> r in multiset(ys);
    }
  }

  lemma DrainedIndexes(
    sv: Services, ex: Executor, snapshot: VmState, txs: seq<Tx>, members: seq<nat>, s: StageState,
    sorted: seq<StageResult>)
    requires Draining(sv, ex, snapshot, txs, members, s) && s.pending == {}
    requires forall r :: r in sorted <==> r in s.pushed
    ensures var indexes := Indexes(sorted); forall i: nat :: i in indexes <==> i in members
  {
    var indexes := Indexes(sorted);
    forall i: nat ensures i in indexes <==> i in members {
      if i in indexes {
        var k :| 0 <= k < |indexes| && indexes[k] == i;
        assert sorted[k] in s.pushed;
      }
      if i in members {
        assert Reported(s.pushed, i);
        var k :| 0 <= k < |s.pushed| && s.pushed[k].index == i;
        assert s.pushed[k] in sorted;
        var l :| 0 <= l < |sorted| && sorted[l] == s.pushed[k];
        assert indexes[l] == i;
      }
    }
  }

  /** Whatever the schedule was, the drained stage sorted by index is the list
      of the members' reports in stage order. */
  lemma AnyScheduleSortsAlike(
    sv: Services, ex: Executor, snapshot: VmState, txs: seq<Tx>, members: seq<nat>, s: StageState,
    sorted: seq<StageResult>)
    requires InRange(txs, members) && Ascending(members)
    requires Draining(sv, ex, snapshot, txs, members, s) && s.pending == {}
    requires multiset(sorted) == multiset(s.pushed) && Ascending(Indexes(sorted))
    ensures sorted == Reports(sv, ex, snapshot, txs, members)
  {
    SameReports(sorted, s.pushed);
    DrainedIndexes(sv, ex, snapshot, txs, members, s, sorted);
    AscendingUnique(Indexes(sorted), members);
    assert |sorted| == |Indexes(sorted)|;
    forall k | 0 <= k < |sorted| ensures sorted[k] == Report(sv, ex, snapshot, txs, members[k]) {
      assert sorted[k] in sorted;
      assert sorted[k] in s.pushed;
      assert Indexes(sorted)[k] == sorted[k].index;
    }
  }

  // ----- Merging in any order -----

  function DeltaAt(sv: Services, ex: Executor, s: FlatState, txs: seq<Tx>, i: nat): Delta {
    if i < |txs| then DeltaOf(Outcome(sv, ex, s, txs[i]), s.history.max != 0).postAccounts else []
  }

  /** Overwrites, in order, with the deltas `deltas` gives to the listed indexes. */
  function OverwriteAll(
    known: map<Address, Option<Account>>, deltas: nat -> Delta, order: seq<nat>): map<Address, Option<Account>>
    decreases |order|
  {
    if order == [] then known else OverwriteAll(Overwrite(known, deltas(order[0])), deltas, order[1..])
  }

  ghost predicate DisjointDeltas(deltas: nat -> Delta, order: seq<nat>) {
    forall p, q :: 0 <= p < |order| && 0 <= q < |order| && p != q ==>
      Addresses(deltas(order[p])) !! Addresses(deltas(order[q]))
  }

  /** A delta can be applied first instead of after deltas it is disjoint from. */
  lemma {:induction false} OverwriteEarlier(
    known: map<Address, Option<Account>>, deltas: nat -> Delta, before: seq<nat>, m: nat, after: seq<nat>)
    requires forall p :: 0 <= p < |before| ==> Addresses(deltas(before[p])) !! Addresses(deltas(m))
    ensures OverwriteAll(known, deltas, before + ([m] + after)) ==
            OverwriteAll(Overwrite(known, deltas(m)), deltas, before + after)
    decreases |before|
  {
    if before == [] {
      assert before + ([m] + after) == [m] + after && before + after == after;
      assert ([m] + after)[1..] == after;
    } else {
      var x, rest := before[0], before[1..];
      assert (before + ([m] + after))[1..] == rest + ([m] + after);
      assert (before + after)[1..] == rest + after;
      OverwriteEarlier(Overwrite(known, deltas(x)), deltas, rest, m, after);
      OverwritesCommute(known, deltas(x), deltas(m));
    }
  }

  /** Disjoint deltas overwrite to the same map in any order. */
  lemma {:induction false} OverwriteAllIsOrderFree(
    known: map<Address, Option<Account>>, deltas: nat -> Delta, xs: seq<nat>, ys: seq<nat>)
    requires multiset(xs) == multiset(ys) && DisjointDeltas(deltas, ys)
    ensures OverwriteAll(known, deltas, xs) == OverwriteAll(known, deltas, ys)
    decreases |xs|
  {
    if xs == [] {
      assert |multiset(xs)| == |multiset(ys)|;
    } else {
      var p := FindFirst(xs, ys);
      var before, after := ys[..p], ys[p + 1..];
      assert ys == before + ([ys[p]] + after);
      assert forall q :: 0 <= q < |before| ==> before[q] == ys[q];
      OverwriteEarlier(known, deltas, before, ys[p], after);
      DropKeepsDisjoint(deltas, ys, p);
      OverwriteAllIsOrderFree(Overwrite(known, deltas(xs[0])), deltas, xs[1..], before + after);
    }
  }

  lemma FindFirst(xs: seq<nat>, ys: seq<nat>) returns (p: nat)
    requires xs != [] && multiset(xs) == multiset(ys)
    ensures p < |ys| && ys[p] == xs[0]
    ensures multiset(xs[1..]) == multiset(ys[..p] + ys[p + 1..])
  {
    assert xs[0] in multiset(xs);
    assert xs[0] in ys;
    p :| 0 <= p < |ys| && ys[p] == xs[0];
    assert xs == [xs[0]] + xs[1..];
    assert ys == ys[..p] + [ys[p]] + ys[p + 1..];
    assert multiset(xs[1..]) == multiset(xs) - multiset{xs[0]};
  }

  lemma DropKeepsDisjoint(deltas: nat -> Delta, ys: seq<nat>, p: nat)
    requires DisjointDeltas(deltas, ys) && p < |ys|
    ensures DisjointDeltas(deltas, ys[..p] + ys[p + 1..])
  {
    var rest := ys[..p] + ys[p + 1..];
    forall q | 0 <= q < |rest| ensures rest[q] == ys[if q < p then q else q + 1] {}
  }

  lemma {:induction false} MergeOverwrites(
    sv: Services, ex: Executor, s: FlatState, f: FlatState, txs: seq<Tx>, members: seq<nat>, deltas: nat -> Delta)
    requires InRange(txs, members) && s.history.max == f.history.max
    requires forall i :: deltas(i) == DeltaAt(sv, ex, s, txs, i)
    ensures Merge(sv, ex, s, f, txs, members).known == OverwriteAll(f.known, deltas, members)
    decreases |members|
  {
    if members != [] {
      MergeOverwrites(sv, ex, s, Settle(f, Outcome(sv, ex, s, txs[members[0]])), txs, members[1..], deltas);
    }
  }

  lemma DeltasDisjoint(sv: Services, ex: Executor, s: FlatState, txs: seq<Tx>, i: nat, j: nat)
    requires i < |txs| && j < |txs| && !Conflicts(LocksOf(ex, txs[i]), LocksOf(ex, txs[j]))
    ensures Addresses(DeltaAt(sv, ex, s, txs, i)) !! Addresses(DeltaAt(sv, ex, s, txs, j))
  {
    OutcomeWritesLocked(
      ex, txs[i], Observe(sv, ex, s.known, txs[i]), H.Check(s.history, txs[i].signature), s.history.max != 0);
    OutcomeWritesLocked(
      ex, txs[j], Observe(sv, ex, s.known, txs[j]), H.Check(s.history, txs[j].signature), s.history.max != 0);
    ConflictFreeMeansUnobserved(ex, txs[i], txs[j]);
  }

  /** Any two orders of a conflict-free stage merge to the same accounts. */
  lemma MergeKnownOrderFree(sv: Services, ex: Executor, s: FlatState, txs: seq<Tx>, xs: seq<nat>, ys: seq<nat>)
    requires InRange(txs, xs) && InRange(txs, ys) && PairwiseFree(ex, txs, ys) && multiset(xs) == multiset(ys)
    ensures Merge(sv, ex, s, s, txs, xs).known == Merge(sv, ex, s, s, txs, ys).known
  {
    var deltas := (i: nat) => DeltaAt(sv, ex, s, txs, i);
    forall p, q | 0 <= p < |ys| && 0 <= q < |ys| && p != q
      ensures Addresses(deltas(ys[p])) !! Addresses(deltas(ys[q]))
    {
      DeltasDisjoint(sv, ex, s, txs, ys[p], ys[q]);
    }
    OverwriteAllIsOrderFree(s.known, deltas, xs, ys);
    MergeOverwrites(sv, ex, s, s, txs, xs, deltas);
    MergeOverwrites(sv, ex, s, s, txs, ys, deltas);
  }

  /** Merging the deltas of a conflict-free stage in any order that is accepted
      leaves every address reading the same. */
  lemma MergeOrderIsInvisible(
    sv: Services, ex: Executor, snapshot: VmState, txs: seq<Tx>, xs: seq<nat>, ys: seq<nat>)
    requires InRange(txs, xs) && InRange(txs, ys) && PairwiseFree(ex, txs, ys) && multiset(xs) == multiset(ys)
    requires forall i :: 0 <= i < |txs| ==> DistinctKeys(txs[i])
    requires MergeLive(sv, ex, snapshot, snapshot, txs, xs).ok && MergeLive(sv, ex, snapshot, snapshot, txs, ys).ok
    ensures forall a: Address ::
              Read(sv, MergeLive(sv, ex, snapshot, snapshot, txs, xs).vm.accounts.db, a) ==
              Read(sv, MergeLive(sv, ex, snapshot, snapshot, txs, ys).vm.accounts.db, a)
  {
    var f := FlatState(Flatten(snapshot.accounts.db), snapshot.history);
    TracksInitially(sv, snapshot);
    MergeTracks(sv, ex, snapshot, snapshot, f, f, txs, xs);
    MergeTracks(sv, ex, snapshot, snapshot, f, f, txs, ys);
    MergeKnownOrderFree(sv, ex, f, txs, xs, ys);
  }
}
