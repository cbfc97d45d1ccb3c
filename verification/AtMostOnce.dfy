/** With signatures verified and a history at least as large as the batch, no
    signature has its effects kept twice in one batch. */
module AtMostOnce {
  import opened Types
  import opened Lifecycle
  import opened Planner
  import opened Machine
  import opened StageRun
  import opened Batch
  import opened Serializability
  import H = History
  import Lru

  /** The signature is among the `n` most recent entries. */
  predicate Ranked(h: H.HistoryState, sig: Signature, n: nat) {
    Lru.Contains(h.entries, sig) && Lru.IndexOf(h.entries, sig) < n
  }

  lemma RankedIsSeen(h: H.HistoryState, sig: Signature, n: nat)
    requires Ranked(h, sig, n) && h.max != 0
    ensures H.Check(h, sig)
  {}

  /** Recording moves any other entry down by at most one place. */
  lemma InsertKeepsRank(h: H.HistoryState, sig: Signature, result: TransactionResult, other: Signature, n: nat)
    requires H.Valid(h) && n < h.max && Ranked(h, other, n)
    ensures var g := H.Insert(h, sig, result); H.Valid(g) && g.max == h.max && Ranked(g, other, n + 1)
  {
    var g := H.Insert(h, sig, result);
    H.StepKeepsValid(h, H.Record(sig, result));
    if sig == other {
      assert g.entries[0].0 == other;
      Lru.IndexUnique(g.entries, 0);
    } else {
      Lru.PutShifts(h.entries, h.cap, sig, result, other);
    }
  }

  lemma InsertRanksFirst(h: H.HistoryState, sig: Signature, result: TransactionResult)
    requires H.Valid(h) && h.max != 0
    ensures var g := H.Insert(h, sig, result); H.Valid(g) && g.max == h.max && Ranked(g, sig, 1)
  {
    var g := H.Insert(h, sig, result);
    H.StepKeepsValid(h, H.Record(sig, result));
    assert g.entries[0].0 == sig;
    Lru.IndexUnique(g.entries, 0);
  }

  lemma RecordKeepsRank(h: H.HistoryState, entry: Option<H.Entry>, other: Signature, n: nat)
    requires H.Valid(h) && n < h.max && Ranked(h, other, n)
    ensures var g := RecordEntry(h, entry); H.Valid(g) && g.max == h.max && Ranked(g, other, n + 1)
  {
    if entry.Some? {
      InsertKeepsRank(h, entry.value.0, entry.value.1, other, n);
    }
  }

  lemma RecordKeepsValid(h: H.HistoryState, entry: Option<H.Entry>)
    requires H.Valid(h)
    ensures H.Valid(RecordEntry(h, entry)) && RecordEntry(h, entry).max == h.max
  {
    if entry.Some? {
      H.StepKeepsValid(h, H.Record(entry.value.0, entry.value.1));
    }
  }

  lemma {:induction false} MergeKeepsRank(
    sv: Services, ex: Executor, snapshot: VmState, vm: VmState, txs: seq<Tx>, members: seq<nat>,
    other: Signature, n: nat)
    requires InRange(txs, members) && MergeLive(sv, ex, snapshot, vm, txs, members).ok
    requires H.Valid(vm.history) && n + |members| <= vm.history.max && Ranked(vm.history, other, n)
    ensures Ranked(MergeLive(sv, ex, snapshot, vm, txs, members).vm.history, other, n + |members|)
    decreases |members|
  {
    if members != [] {
      var delta := DeltaOf(LiveOutcome(sv, ex, snapshot, txs[members[0]]), snapshot.history.max != 0);
      RecordKeepsRank(vm.history, delta.historyEntry, other, n);
      MergeKeepsRank(sv, ex, snapshot, ApplyCommitDelta(sv, vm, delta).vm, txs, members[1..], other, n + 1);
    }
  }

  lemma {:induction false} MergeKeepsValid(
    sv: Services, ex: Executor, snapshot: VmState, vm: VmState, txs: seq<Tx>, members: seq<nat>)
    requires InRange(txs, members) && MergeLive(sv, ex, snapshot, vm, txs, members).ok && H.Valid(vm.history)
    ensures var h := MergeLive(sv, ex, snapshot, vm, txs, members).vm.history; H.Valid(h) && h.max == vm.history.max
    decreases |members|
  {
    if members != [] {
      var delta := DeltaOf(LiveOutcome(sv, ex, snapshot, txs[members[0]]), snapshot.history.max != 0);
      RecordKeepsValid(vm.history, delta.historyEntry);
      MergeKeepsValid(sv, ex, snapshot, ApplyCommitDelta(sv, vm, delta).vm, txs, members[1..]);
    }
  }

  lemma IncludedIsNew(sv: Services, ex: Executor, vm: VmState, tx: Tx)
    requires ex.sigverify && LiveOutcome(sv, ex, vm, tx).included
    ensures !H.Check(vm.history, tx.signature)
    ensures LiveOutcome(sv, ex, vm, tx).meta.signature == tx.signature
  {}

  /** Every member whose effects were merged is among the latest entries. */
  lemma {:induction false} MergeRanksIncluded(
    sv: Services, ex: Executor, snapshot: VmState, vm: VmState, txs: seq<Tx>, members: seq<nat>, p: nat)
    requires InRange(txs, members) && MergeLive(sv, ex, snapshot, vm, txs, members).ok
    requires H.Valid(vm.history) && |members| <= vm.history.max && snapshot.history.max != 0
    requires p < |members| && ex.sigverify && LiveOutcome(sv, ex, snapshot, txs[members[p]]).included
    ensures Ranked(MergeLive(sv, ex, snapshot, vm, txs, members).vm.history, txs[members[p]].signature, |members|)
    decreases |members|
  {
    var d := LiveOutcome(sv, ex, snapshot, txs[members[0]]);
    var delta := DeltaOf(d, true);
    var next := ApplyCommitDelta(sv, vm, delta).vm;
    RecordKeepsValid(vm.history, delta.historyEntry);
    if p == 0 {
      IncludedIsNew(sv, ex, snapshot, txs[members[0]]);
      InsertRanksFirst(vm.history, d.meta.signature, ResultOf(d));
      MergeKeepsRank(sv, ex, snapshot, next, txs, members[1..], d.meta.signature, 1);
    } else {
      assert members[1..][p - 1] == members[p];
      MergeRanksIncluded(sv, ex, snapshot, next, txs, members[1..], p - 1);
      assert Ranked(MergeLive(sv, ex, snapshot, vm, txs, members).vm.history, txs[members[p]].signature, |members| - 1);
    }
  }

  /** After `n` transactions: each kept signature is among the `n` latest
      history entries, and no two kept transactions share one. */
  ghost predicate KeptOnce(run: BatchRun, txs: seq<Tx>, n: nat) {
    && H.Valid(run.vm.history)
    && (forall i :: i in run.committed ==> i < |txs| && Ranked(run.vm.history, txs[i].signature, n))
    && (forall i, j :: i in run.committed && j in run.committed && i != j ==> txs[i].signature != txs[j].signature)
  }

  /** What a stage of one does to the history and to the kept transactions. */
  lemma SingleRecords(
    sv: Services, ex: Executor, run: BatchRun, txs: seq<Tx>, members: seq<nat>,
    k: nat) returns (entry: Option<H.Entry>)
    requires |members| == 1 && InRange(txs, members) && ex.sigverify && run.vm.history.max != 0
    ensures var next, m := RunStage(sv, ex, run, txs, members, k), members[0];
            && next.vm.history == RecordEntry(run.vm.history, entry)
            && next.committed <= run.committed + {m}
            && (m in next.committed && m !in run.committed ==>
                  && !H.Check(run.vm.history, txs[m].signature)
                  && entry.Some? && entry.value.0 == txs[m].signature)
  {
    var tx := txs[members[0]];
    var d := LiveOutcome(sv, ex, run.vm, tx);
    OutcomeWritesLocked(ex, tx, LiveView(sv, ex, run.vm, tx), H.Check(run.vm.history, tx.signature), true);
    CommitPathsAgree(sv, run.vm, d);
    if d.included {
      IncludedIsNew(sv, ex, run.vm, tx);
    }
    entry := if SendLive(sv, ex, run.vm, tx).staged then DeltaOf(d, true).historyEntry else None;
  }

  lemma SingleKeepsOnce(sv: Services, ex: Executor, run: BatchRun, txs: seq<Tx>, members: seq<nat>, k: nat, n: nat)
    requires |members| == 1 && InRange(txs, members) && ex.sigverify
    requires KeptOnce(run, txs, n) && n < run.vm.history.max
    ensures var next := RunStage(sv, ex, run, txs, members, k);
            KeptOnce(next, txs, n + 1) && next.vm.history.max == run.vm.history.max
  {
    var entry := SingleRecords(sv, ex, run, txs, members, k);
    OneMoreKeepsOnce(run, RunStage(sv, ex, run, txs, members, k), txs, members[0], entry, n);
  }

  lemma OneMoreKeepsOnce(run: BatchRun, next: BatchRun, txs: seq<Tx>, m: nat, entry: Option<H.Entry>, n: nat)
    requires KeptOnce(run, txs, n) && n < run.vm.history.max && m < |txs|
    requires next.vm.history == RecordEntry(run.vm.history, entry) && next.committed <= run.committed + {m}
    requires m in next.committed && m !in run.committed ==>
               !H.Check(run.vm.history, txs[m].signature) && entry.Some? && entry.value.0 == txs[m].signature
    ensures KeptOnce(next, txs, n + 1) && next.vm.history.max == run.vm.history.max
  {
    var h := next.vm.history;
    RecordKeepsValid(run.vm.history, entry);
    forall i | i in next.committed ensures i < |txs| && Ranked(h, txs[i].signature, n + 1) {
      if i in run.committed {
        RecordKeepsRank(run.vm.history, entry, txs[i].signature, n);
      } else {
        assert i == m;
        InsertRanksFirst(run.vm.history, entry.value.0, entry.value.1);
      }
    }
    forall i | i in run.committed && m in next.committed && m !in run.committed
      ensures txs[i].signature != txs[m].signature
    {
      RankedIsSeen(run.vm.history, txs[i].signature, n);
    }
  }

  /** What a merged stage does to the machine and to the kept transactions. */
  lemma ParallelRecords(
    sv: Services, ex: Executor, run: BatchRun, txs: seq<Tx>, members: seq<nat>, k: nat) returns (vm: VmState)
    requires |members| != 1 && InRange(txs, members) && run.status.Finished?
    requires RunStage(sv, ex, run, txs, members, k).status.Finished?
    ensures var next, merged := RunStage(sv, ex, run, txs, members, k), MergeLive(sv, ex, vm, vm, txs, members);
            && vm.history == run.vm.history && merged.ok && next.vm == merged.vm
            && next.committed == run.committed + Included(sv, ex, vm, txs, members)
  {
    vm := WarmUp(sv, run.vm, txs, members).vm;
  }

  lemma ParallelKeepsOnce(sv: Services, ex: Executor, run: BatchRun, txs: seq<Tx>, members: seq<nat>, k: nat, n: nat)
    requires |members| != 1 && InRange(txs, members) && ex.sigverify && AllCompatible(ex, txs, members)
    requires KeptOnce(run, txs, n) && 0 < run.vm.history.max && n + |members| <= run.vm.history.max
    requires run.status.Finished? && RunStage(sv, ex, run, txs, members, k).status.Finished?
    ensures var next := RunStage(sv, ex, run, txs, members, k);
            KeptOnce(next, txs, n + |members|) && next.vm.history.max == run.vm.history.max
  {
    var vm := ParallelRecords(sv, ex, run, txs, members, k);
    MergeKeepsOnce(sv, ex, run, vm, RunStage(sv, ex, run, txs, members, k), txs, members, n);
  }

  lemma MergeKeepsOnce(
    sv: Services, ex: Executor, run: BatchRun, vm: VmState, next: BatchRun, txs: seq<Tx>, members: seq<nat>, n: nat)
    requires InRange(txs, members) && ex.sigverify && AllCompatible(ex, txs, members)
    requires KeptOnce(run, txs, n) && 0 < run.vm.history.max && n + |members| <= run.vm.history.max
    requires vm.history == run.vm.history && MergeLive(sv, ex, vm, vm, txs, members).ok
    requires next.vm == MergeLive(sv, ex, vm, vm, txs, members).vm
    requires next.committed == run.committed + Included(sv, ex, vm, txs, members)
    ensures KeptOnce(next, txs, n + |members|) && next.vm.history.max == run.vm.history.max
  {
    MergeKeepsValid(sv, ex, vm, vm, txs, members);
    forall i | i in run.committed ensures i < |txs| && Ranked(next.vm.history, txs[i].signature, n + |members|) {
      MergeKeepsRank(sv, ex, vm, vm, txs, members, txs[i].signature, n);
    }
    forall i | i in Included(sv, ex, vm, txs, members)
      ensures i < |txs| && Ranked(next.vm.history, txs[i].signature, n + |members|)
    {
      var p :| 0 <= p < |members| && members[p] == i;
      MergeRanksIncluded(sv, ex, vm, vm, txs, members, p);
    }
    forall i, j | i in next.committed && j in next.committed && i != j ensures txs[i].signature != txs[j].signature {
      KeptPairDiffers(sv, ex, run, vm, txs, members, n, i, j);
    }
  }

  lemma KeptPairDiffers(
    sv: Services, ex: Executor, run: BatchRun, vm: VmState, txs: seq<Tx>, members: seq<nat>, n: nat, i: nat, j: nat)
    requires InRange(txs, members) && ex.sigverify && AllCompatible(ex, txs, members)
    requires KeptOnce(run, txs, n) && 0 < run.vm.history.max && vm.history == run.vm.history
    requires i in run.committed + Included(sv, ex, vm, txs, members)
    requires j in run.committed + Included(sv, ex, vm, txs, members) && i != j
    ensures i < |txs| && j < |txs|
    ensures txs[i].signature != txs[j].signature
  {
    if i in run.committed && j !in run.committed {
      RankedIsSeen(run.vm.history, txs[i].signature, n);
      IncludedIsNew(sv, ex, vm, txs[j]);
    } else if j in run.committed && i !in run.committed {
      RankedIsSeen(run.vm.history, txs[j].signature, n);
      IncludedIsNew(sv, ex, vm, txs[i]);
    } else if i !in run.committed {
      var p :| 0 <= p < |members| && members[p] == i;
      var q :| 0 <= q < |members| && members[q] == j;
      assert p < q ==> Compatible(ex, txs[members[p]], txs[members[q]]);
      assert q < p ==> Compatible(ex, txs[members[q]], txs[members[p]]);
    }
  }

  ghost predicate NoneTwice(run: BatchRun, txs: seq<Tx>) {
    forall i, j :: i in run.committed && j in run.committed && i != j ==>
      i < |txs| && j < |txs| && txs[i].signature != txs[j].signature
  }

  /** A finished run can go on; a failed one, even by a panic, has kept nothing twice. */
  ghost predicate OnceSoFar(run: BatchRun, txs: seq<Tx>, n: nat, max: nat) {
    && (run.status.Finished? ==> KeptOnce(run, txs, n) && run.vm.history.max == max)
    && NoneTwice(run, txs)
  }

  /** A failed stage has written at most effects of its own members. */
  lemma FailedStageKeepsNoneTwice(
    sv: Services, ex: Executor, run: BatchRun, txs: seq<Tx>, members: seq<nat>, k: nat, n: nat)
    requires |members| != 1 && InRange(txs, members) && ex.sigverify && AllCompatible(ex, txs, members)
    requires KeptOnce(run, txs, n) && 0 < run.vm.history.max
    requires !RunStage(sv, ex, run, txs, members, k).status.Finished?
    ensures NoneTwice(RunStage(sv, ex, run, txs, members, k), txs)
  {
    var vm, next := WarmUp(sv, run.vm, txs, members).vm, RunStage(sv, ex, run, txs, members, k);
    assert next.committed <= run.committed + Included(sv, ex, vm, txs, members);
    forall i, j | i in next.committed && j in next.committed && i != j
      ensures i < |txs| && j < |txs| && txs[i].signature != txs[j].signature
    {
      KeptPairDiffers(sv, ex, run, vm, txs, members, n, i, j);
    }
  }

  lemma StageKeepsOnce(sv: Services, ex: Executor, run: BatchRun, txs: seq<Tx>, members: seq<nat>, k: nat, n: nat)
    requires InRange(txs, members) && ex.sigverify && AllCompatible(ex, txs, members)
    requires run.status.Finished? && KeptOnce(run, txs, n) && 0 < run.vm.history.max
    requires n + |members| <= run.vm.history.max
    ensures OnceSoFar(RunStage(sv, ex, run, txs, members, k), txs, n + |members|, run.vm.history.max)
  {
    if |members| == 1 {
      SingleKeepsOnce(sv, ex, run, txs, members, k, n);
    } else if RunStage(sv, ex, run, txs, members, k).status.Finished? {
      ParallelKeepsOnce(sv, ex, run, txs, members, k, n);
    } else {
      FailedStageKeepsNoneTwice(sv, ex, run, txs, members, k, n);
    }
  }

  lemma {:induction false} RunKeepsOnce(
    sv: Services, ex: Executor, vm: VmState, txs: seq<Tx>, stages: seq<Planner.Stage>)
    requires StagesCompatible(ex, txs, stages) && ex.sigverify && H.Valid(vm.history)
    requires 0 < vm.history.max && |OrderOf(stages)| <= vm.history.max
    ensures OnceSoFar(RunStages(sv, ex, vm, txs, stages), txs, |OrderOf(stages)|, vm.history.max)
    decreases |stages|
  {
    if stages != [] {
      var n := |stages| - 1;
      var init, members := stages[..n], stages[n].indexes;
      TidyPrefix(stages, n);
      RunKeepsOnce(sv, ex, vm, txs, init);
      var before := RunStages(sv, ex, vm, txs, init);
      if before.status.Finished? {
        StageKeepsOnce(sv, ex, before, txs, members, n, |OrderOf(init)|);
      }
    }
  }

  /** At-most-once commit: of the transactions of a batch whose effects are
      kept, or were being written when a merge panicked, no two carry the same
      signature. */
  lemma CommittedAtMostOnce(sv: Services, ex: Executor, vm: VmState, txs: seq<Tx>)
    requires ex.sigverify && RepeatsConflict(ex, txs) && H.Valid(vm.history)
    requires 0 < vm.history.max && |txs| <= vm.history.max
    ensures StagesInRange(txs, PlanFor(ex, txs))
    ensures NoneTwice(RunStages(sv, ex, vm, txs, PlanFor(ex, txs)), txs)
  {
    PlanIsCompatible(ex, txs);
    ListsLength(OrderOf(PlanFor(ex, txs)), 0, |txs|);
    RunKeepsOnce(sv, ex, vm, txs, PlanFor(ex, txs));
  }
}
