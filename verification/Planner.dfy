/** The conflict-aware batch planner (batch.rs): transactions are put, in input
    order, into the lightest stage they do not conflict with. */
module Planner {
  import opened Types

  datatype LockSet = LockSet(readonly: set<Address>, writable: set<Address>)

  predicate Conflicts(x: LockSet, y: LockSet) {
    || x.writable * y.writable != {}
    || x.writable * y.readonly != {}
    || x.readonly * y.writable != {}
  }

  /** The number of accounts a lock set covers, counting each list by itself. */
  function Weight(x: LockSet): nat {
    |x.writable| + |x.readonly|
  }

  function Extend(x: LockSet, y: LockSet): LockSet {
    LockSet(x.readonly + y.readonly, x.writable + y.writable)
  }

  lemma ConflictsSymmetric(x: LockSet, y: LockSet)
    ensures Conflicts(x, y) <==> Conflicts(y, x)
  {
    assert x.writable * y.writable == y.writable * x.writable;
    assert x.writable * y.readonly == y.readonly * x.writable;
    assert x.readonly * y.writable == y.writable * x.readonly;
  }

  lemma ExtendConflicts(x: LockSet, y: LockSet, z: LockSet)
    ensures Conflicts(Extend(x, y), z) <==> Conflicts(x, z) || Conflicts(y, z)
  {
    assert (x.writable + y.writable) * z.writable == x.writable * z.writable + y.writable * z.writable;
    assert (x.writable + y.writable) * z.readonly == x.writable * z.readonly + y.writable * z.readonly;
    assert (x.readonly + y.readonly) * z.writable == x.readonly * z.writable + y.readonly * z.writable;
  }

  datatype Stage = Stage(indexes: seq<nat>, locks: LockSet)

  // ----- Choosing a stage -----

  /** The choice of the scan over the first `k` stages. */
  function BestFit(stages: seq<Stage>, lock: LockSet, k: nat): Option<nat>
    requires k <= |stages|
    ensures BestFit(stages, lock, k).Some? ==> BestFit(stages, lock, k).value < k
  {
    if k == 0 then None
    else
      var best := BestFit(stages, lock, k - 1);
      if Conflicts(stages[k - 1].locks, lock) then best
      else if best.None? || Weight(stages[k - 1].locks) < Weight(stages[best.value].locks) then Some(k - 1)
      else best
  }

  /** How many accounts a stage may write, and how many it shares. */
  ghost function Covered(stage: Stage): nat {
    |stage.locks.writable| + |stage.locks.readonly|
  }

  /** Of the first `k` stages, stage `i` is free of conflicts, no free one is
      lighter, and every earlier free one is heavier. */
  ghost predicate LightestOf(stages: seq<Stage>, lock: LockSet, k: nat, i: int)
    requires k <= |stages|
  {
    && 0 <= i < k && !Conflicts(stages[i].locks, lock)
    && (forall j :: 0 <= j < k && !Conflicts(stages[j].locks, lock) ==>
          Covered(stages[i]) <= Covered(stages[j]))
    && (forall j :: 0 <= j < i && !Conflicts(stages[j].locks, lock) ==>
          Covered(stages[i]) < Covered(stages[j]))
  }

  ghost predicate FirstLightest(stages: seq<Stage>, lock: LockSet, i: int) {
    LightestOf(stages, lock, |stages|, i)
  }

  /** The choice is right for the first `k` stages. */
  ghost predicate ChoosesBest(stages: seq<Stage>, lock: LockSet, k: nat, best: Option<nat>)
    requires k <= |stages|
  {
    match best
    case Some(i) => LightestOf(stages, lock, k, i)
    case None => forall j :: 0 <= j < k ==> Conflicts(stages[j].locks, lock)
  }

  lemma ConflictKeepsBest(stages: seq<Stage>, lock: LockSet, k: nat, best: Option<nat>)
    requires k < |stages| && ChoosesBest(stages, lock, k, best) && Conflicts(stages[k].locks, lock)
    ensures ChoosesBest(stages, lock, k + 1, best)
  {}

  lemma FirstFreeIsBest(stages: seq<Stage>, lock: LockSet, k: nat)
    requires k < |stages| && ChoosesBest(stages, lock, k, None) && !Conflicts(stages[k].locks, lock)
    ensures ChoosesBest(stages, lock, k + 1, Some(k))
  {}

  lemma LighterIsBest(stages: seq<Stage>, lock: LockSet, k: nat, i: nat)
    requires k < |stages| && LightestOf(stages, lock, k, i) && !Conflicts(stages[k].locks, lock)
    requires Weight(stages[k].locks) < Weight(stages[i].locks)
    ensures LightestOf(stages, lock, k + 1, k)
  {}

  lemma HeavierIsNotBest(stages: seq<Stage>, lock: LockSet, k: nat, i: nat)
    requires k < |stages| && LightestOf(stages, lock, k, i) && Weight(stages[i].locks) <= Weight(stages[k].locks)
    ensures LightestOf(stages, lock, k + 1, i)
  {}

  lemma {:induction false} BestFitScan(stages: seq<Stage>, lock: LockSet, k: nat)
    requires k <= |stages|
    ensures ChoosesBest(stages, lock, k, BestFit(stages, lock, k))
  {
    if k > 0 {
      var last, best := k - 1, BestFit(stages, lock, k - 1);
      BestFitScan(stages, lock, last);
      if Conflicts(stages[last].locks, lock) {
        ConflictKeepsBest(stages, lock, last, best);
      } else if best.None? {
        FirstFreeIsBest(stages, lock, last);
      } else if Weight(stages[last].locks) < Weight(stages[best.value].locks) {
        LighterIsBest(stages, lock, last, best.value);
      } else {
        HeavierIsNotBest(stages, lock, last, best.value);
      }
    }
  }

  /** The chosen stage is the first lightest conflict-free one, and there is
      none exactly when every stage conflicts. */
  lemma BestFitIsFirstLightest(stages: seq<Stage>, lock: LockSet)
    ensures forall i :: BestFit(stages, lock, |stages|) == Some(i) <==> FirstLightest(stages, lock, i)
    ensures BestFit(stages, lock, |stages|) == None <==> forall j :: 0 <= j < |stages| ==>
              Conflicts(stages[j].locks, lock)
  {
    BestFitScan(stages, lock, |stages|);
    var best := BestFit(stages, lock, |stages|);
    forall i | FirstLightest(stages, lock, i) ensures best == Some(i) {
      assert best.Some?;
      LightestUnique(stages, lock, |stages|, i, best.value);
    }
  }

  lemma LightestUnique(stages: seq<Stage>, lock: LockSet, k: nat, i: int, j: int)
    requires k <= |stages| && LightestOf(stages, lock, k, i) && LightestOf(stages, lock, k, j)
    ensures i == j
  {}

  // ----- Building the plan -----

  function Place(stages: seq<Stage>, index: nat, lock: LockSet): seq<Stage> {
    match BestFit(stages, lock, |stages|)
    case Some(k) => stages[k := Stage(stages[k].indexes + [index], Extend(stages[k].locks, lock))]
    case None => stages + [Stage([index], lock)]
  }

  /** The plan of the first `n` transactions. */
  function PlanOf(locks: seq<LockSet>, n: nat): seq<Stage>
    requires n <= |locks|
  {
    if n == 0 then [] else Place(PlanOf(locks, n - 1), n - 1, locks[n - 1])
  }

  /** Members are in range, ascending and pairwise conflict-free, and the stage
      locks are exactly the union of theirs as far as conflicts can tell. */
  ghost predicate StageSound(locks: seq<LockSet>, n: nat, stage: Stage)
    requires n <= |locks|
  {
    && stage.indexes != []
    && (forall p :: 0 <= p < |stage.indexes| ==> stage.indexes[p] < n)
    && (forall p, q :: 0 <= p < q < |stage.indexes| ==> stage.indexes[p] < stage.indexes[q])
    && (forall p, q :: 0 <= p < q < |stage.indexes| ==> !Conflicts(locks[stage.indexes[p]], locks[stage.indexes[q]]))
    && (forall lock :: Conflicts(stage.locks, lock) <==>
          exists p :: 0 <= p < |stage.indexes| && Conflicts(locks[stage.indexes[p]], lock))
  }

  ghost predicate InStage(stages: seq<Stage>, s: int, i: nat) {
    0 <= s < |stages| && i in stages[s].indexes
  }

  ghost predicate Planned(stages: seq<Stage>, i: nat) {
    exists s :: InStage(stages, s, i)
  }

  /** Every stage is sound and each of the first `n` indexes is in exactly one. */
  ghost predicate PlanSound(locks: seq<LockSet>, n: nat, stages: seq<Stage>)
    requires n <= |locks|
  {
    && (forall s :: 0 <= s < |stages| ==> StageSound(locks, n, stages[s]))
    && (forall i: nat :: i < n ==> Planned(stages, i))
    && (forall i: nat, s, t :: InStage(stages, s, i) && InStage(stages, t, i) ==> s == t)
  }

  lemma NewStageSound(locks: seq<LockSet>, n: nat)
    requires n < |locks|
    ensures StageSound(locks, n + 1, Stage([n], locks[n]))
  {
    forall lock ensures Conflicts(locks[n], lock) <==> exists p :: 0 <= p < 1 && Conflicts(locks[[n][p]], lock) {
      assert [n][0] == n;
    }
  }

  lemma GrownStageSound(locks: seq<LockSet>, n: nat, stage: Stage)
    requires n < |locks| && StageSound(locks, n, stage) && !Conflicts(stage.locks, locks[n])
    ensures StageSound(locks, n + 1, Stage(stage.indexes + [n], Extend(stage.locks, locks[n])))
  {
    var grown := Stage(stage.indexes + [n], Extend(stage.locks, locks[n]));
    var m := |stage.indexes|;
    forall lock
      ensures Conflicts(grown.locks, lock) <==>
                exists p :: 0 <= p < |grown.indexes| && Conflicts(locks[grown.indexes[p]], lock)
    {
      ExtendConflicts(stage.locks, locks[n], lock);
      if Conflicts(stage.locks, lock) {
        var p :| 0 <= p < m && Conflicts(locks[stage.indexes[p]], lock);
        assert grown.indexes[p] == stage.indexes[p];
      }
      assert grown.indexes[m] == n;
      if p :| 0 <= p < |grown.indexes| && Conflicts(locks[grown.indexes[p]], lock) {
        assert p < m ==> grown.indexes[p] == stage.indexes[p];
      }
    }
    forall p | 0 <= p < m ensures !Conflicts(locks[grown.indexes[p]], locks[n]) {
      assert grown.indexes[p] == stage.indexes[p];
    }
  }

  lemma StageSoundGrows(locks: seq<LockSet>, n: nat, stage: Stage)
    requires n < |locks| && StageSound(locks, n, stage)
    ensures StageSound(locks, n + 1, stage)
  {}

  lemma PlaceMembers(stages: seq<Stage>, n: nat, lock: LockSet) returns (k: nat)
    ensures k < |Place(stages, n, lock)|
    ensures forall s: int, i: nat :: InStage(Place(stages, n, lock), s, i) <==>
              InStage(stages, s, i) || (s == k && i == n)
  {
    var next := Place(stages, n, lock);
    k := match BestFit(stages, lock, |stages|) case Some(k) => k case None => |stages|;
    forall s: int, i: nat ensures InStage(next, s, i) <==> InStage(stages, s, i) || (s == k && i == n) {
      if s == k {
        assert next[k].indexes == (if k < |stages| then stages[k].indexes else []) + [n];
      }
    }
  }

  lemma PlaceKeepsStagesSound(locks: seq<LockSet>, n: nat, stages: seq<Stage>)
    requires n < |locks|
    requires forall s :: 0 <= s < |stages| ==> StageSound(locks, n, stages[s])
    ensures var next := Place(stages, n, locks[n]); forall s :: 0 <= s < |next| ==> StageSound(locks, n + 1, next[s])
  {
    var next := Place(stages, n, locks[n]);
    BestFitIsFirstLightest(stages, locks[n]);
    forall s | 0 <= s < |next| ensures StageSound(locks, n + 1, next[s]) {
      match BestFit(stages, locks[n], |stages|)
      case Some(k) =>
        assert FirstLightest(stages, locks[n], k);
        if s == k { GrownStageSound(locks, n, stages[k]); } else { StageSoundGrows(locks, n, stages[s]); }
      case None =>
        if s == |stages| { NewStageSound(locks, n); } else { StageSoundGrows(locks, n, stages[s]); }
    }
  }

  lemma PlaceKeepsSound(locks: seq<LockSet>, n: nat, stages: seq<Stage>)
    requires n < |locks| && PlanSound(locks, n, stages)
    ensures PlanSound(locks, n + 1, Place(stages, n, locks[n]))
  {
    var next := Place(stages, n, locks[n]);
    PlaceKeepsStagesSound(locks, n, stages);
    var k := PlaceMembers(stages, n, locks[n]);
    assert forall s :: !InStage(stages, s, n);
    forall i: nat | i < n + 1 ensures Planned(next, i) {
      if i < n {
        assert Planned(stages, i);
        var s :| InStage(stages, s, i);
        assert InStage(next, s, i);
      } else {
        assert InStage(next, k, n);
      }
    }
  }

  /** Plan soundness, for every batch. */
  lemma {:induction false} PlanIsSound(locks: seq<LockSet>, n: nat)
    requires n <= |locks|
    ensures PlanSound(locks, n, PlanOf(locks, n))
  {
    if n > 0 {
      PlanIsSound(locks, n - 1);
      PlaceKeepsSound(locks, n - 1, PlanOf(locks, n - 1));
    }
  }

  // ----- How many stages -----

  /** The earlier transactions a transaction conflicts with. */
  function EarlierConflicts(locks: seq<LockSet>, t: nat): set<nat>
    requires t < |locks|
  {
    set i: nat | i < t && Conflicts(locks[i], locks[t])
  }

  /** Transaction `t` conflicts with an earlier member of stage `r`. */
  ghost predicate Blocked(locks: seq<LockSet>, stages: seq<Stage>, r: int, t: nat)
    requires 0 <= r < |stages| && t < |locks|
  {
    exists i: nat :: i in stages[r].indexes && i < t && i < |locks| && Conflicts(locks[i], locks[t])
  }

  /** The transaction that opened a stage conflicts with an earlier member of
      every stage before it. */
  ghost predicate OpenersBlocked(locks: seq<LockSet>, stages: seq<Stage>) {
    forall r, s :: 0 <= r < s < |stages| ==> OpenerBlocked(locks, stages, r, s)
  }

  ghost predicate OpenerBlocked(locks: seq<LockSet>, stages: seq<Stage>, r: int, s: int)
    requires 0 <= r < s < |stages|
  {
    stages[s].indexes != [] && stages[s].indexes[0] < |locks| && Blocked(locks, stages, r, stages[s].indexes[0])
  }

  /** A transaction that opens a stage is blocked in every existing one. */
  lemma OpenerIsBlocked(locks: seq<LockSet>, n: nat, stages: seq<Stage>, r: int)
    requires n < |locks| && 0 <= r < |stages| && StageSound(locks, n, stages[r])
    requires BestFit(stages, locks[n], |stages|) == None
    ensures Blocked(locks, stages, r, n)
  {
    BestFitIsFirstLightest(stages, locks[n]);
    assert Conflicts(stages[r].locks, locks[n]);
    var p :| 0 <= p < |stages[r].indexes| && Conflicts(locks[stages[r].indexes[p]], locks[n]);
    assert stages[r].indexes[p] in stages[r].indexes;
  }

  /** Placing a transaction keeps members where they are and openers in front. */
  lemma PlaceKeepsBlocked(locks: seq<LockSet>, n: nat, stages: seq<Stage>, r: int, s: int)
    requires n < |locks| && 0 <= r < s < |stages| && OpenerBlocked(locks, stages, r, s)
    ensures OpenerBlocked(locks, Place(stages, n, locks[n]), r, s)
  {
    var next := Place(stages, n, locks[n]);
    assert forall i :: i in stages[r].indexes ==> i in next[r].indexes;
    assert next[s].indexes[0] == stages[s].indexes[0];
  }

  lemma PlaceKeepsOpenersBlocked(locks: seq<LockSet>, n: nat, stages: seq<Stage>)
    requires n < |locks| && PlanSound(locks, n, stages) && OpenersBlocked(locks, stages)
    ensures OpenersBlocked(locks, Place(stages, n, locks[n]))
  {
    var next := Place(stages, n, locks[n]);
    forall r, s | 0 <= r < s < |next| ensures OpenerBlocked(locks, next, r, s) {
      if s < |stages| {
        PlaceKeepsBlocked(locks, n, stages, r, s);
      } else {
        OpenerIsBlocked(locks, n, stages, r);
      }
    }
  }

  lemma NextPlanBlocked(locks: seq<LockSet>, n: nat, stages: seq<Stage>)
    requires n < |locks| && stages == PlanOf(locks, n) && OpenersBlocked(locks, stages)
    ensures OpenersBlocked(locks, Place(stages, n, locks[n]))
  {
    PlanIsSound(locks, n);
    PlaceKeepsOpenersBlocked(locks, n, stages);
  }

  lemma {:induction false} PlanOpenersBlocked(locks: seq<LockSet>, n: nat)
    requires n <= |locks|
    ensures OpenersBlocked(locks, PlanOf(locks, n))
  {
    if n > 0 {
      PlanOpenersBlocked(locks, n - 1);
      NextPlanBlocked(locks, n - 1, PlanOf(locks, n - 1));
    }
  }

  /** Distinct stages give distinct witnesses. */
  lemma {:induction false} Witnesses(
    locks: seq<LockSet>, n: nat, stages: seq<Stage>, s: nat, r: nat) returns (found: set<nat>)
    requires n <= |locks| && PlanSound(locks, n, stages) && OpenersBlocked(locks, stages)
    requires s < |stages| && r <= s
    ensures |found| == r && found <= EarlierConflicts(locks, stages[s].indexes[0])
    ensures forall i :: i in found ==> exists q :: 0 <= q < r && InStage(stages, q, i)
  {
    if r == 0 {
      found := {};
    } else {
      var rest := Witnesses(locks, n, stages, s, r - 1);
      assert OpenerBlocked(locks, stages, r - 1, s);
      var i: nat :| i in stages[r - 1].indexes && i < stages[s].indexes[0] && i < |locks|
        && Conflicts(locks[i], locks[stages[s].indexes[0]]);
      assert InStage(stages, r - 1, i);
      found := rest + {i};
    }
  }

  /** The number of stages is at most one more than the largest number of
      earlier transactions any transaction conflicts with. */
  lemma StageCountBound(locks: seq<LockSet>, bound: nat)
    requires forall t: nat :: t < |locks| ==> |EarlierConflicts(locks, t)| <= bound
    ensures |PlanOf(locks, |locks|)| <= bound + 1
  {
    var n, stages := |locks|, PlanOf(locks, |locks|);
    PlanIsSound(locks, n);
    PlanOpenersBlocked(locks, n);
    if stages != [] {
      var s := |stages| - 1;
      var found := Witnesses(locks, n, stages, s, s);
      var opener := stages[s].indexes[0];
      assert opener < n;
      SubsetNotLarger(found, EarlierConflicts(locks, opener));
    }
  }

  // ----- The order the plan executes in -----

  /** The indexes of the stages, one stage after the other. */
  function OrderOf(stages: seq<Stage>): seq<nat> {
    if stages == [] then [] else OrderOf(stages[..|stages| - 1]) + stages[|stages| - 1].indexes
  }

  /** `order` lists exactly the indexes from `k` up to `n`, each once. */
  ghost predicate Lists(order: seq<nat>, k: nat, n: nat) {
    && (forall p, q :: 0 <= p < q < |order| ==> order[p] != order[q])
    && (forall i: nat :: i in order <==> k <= i < n)
  }

  lemma {:induction false} ListsLength(order: seq<nat>, k: nat, n: nat)
    requires k <= n && Lists(order, k, n)
    ensures |order| == n - k
    decreases n
  {
    if n == k {
      assert forall p :: 0 <= p < |order| ==> order[p] in order;
    } else {
      assert n - 1 in order;
      var p :| 0 <= p < |order| && order[p] == n - 1;
      var rest := order[..p] + order[p + 1..];
      forall i: nat ensures i in rest <==> k <= i < n - 1 {
        if i in rest {
          var q :| 0 <= q < |rest| && rest[q] == i;
          assert order[if q < p then q else q + 1] == i;
          assert i in order;
        }
        if k <= i < n - 1 {
          assert i in order;
          var q :| 0 <= q < |order| && order[q] == i;
          assert rest[if q < p then q else q - 1] == i;
        }
      }
      ListsLength(rest, k, n - 1);
    }
  }

  predicate Precedes(order: seq<nat>, w: nat, r: nat) {
    exists p, q :: 0 <= p < q < |order| && order[p] == w && order[q] == r
  }

  lemma {:induction false} OrderMembers(stages: seq<Stage>)
    ensures forall i: nat :: i in OrderOf(stages) <==> Planned(stages, i)
  {
    if stages != [] {
      var n := |stages| - 1;
      var init := stages[..n];
      OrderMembers(init);
      forall i: nat ensures i in OrderOf(stages) <==> Planned(stages, i) {
        if i in OrderOf(init) {
          assert Planned(init, i);
          var s :| InStage(init, s, i);
          assert InStage(stages, s, i);
        }
        if i in stages[n].indexes { assert InStage(stages, n, i); }
        if Planned(stages, i) {
          var s :| InStage(stages, s, i);
          if s < n { assert InStage(init, s, i); }
        }
      }
    }
  }

  /** Each index is in one stage only, and stages are ascending. */
  ghost predicate Tidy(stages: seq<Stage>) {
    && (forall i: nat, s, t :: InStage(stages, s, i) && InStage(stages, t, i) ==> s == t)
    && (forall s, p, q :: 0 <= s < |stages| && 0 <= p < q < |stages[s].indexes| ==>
          stages[s].indexes[p] < stages[s].indexes[q])
  }

  lemma TidyPrefix(stages: seq<Stage>, n: nat)
    requires Tidy(stages) && n <= |stages|
    ensures Tidy(stages[..n])
  {
    forall i: nat, s | InStage(stages[..n], s, i) ensures InStage(stages, s, i) {}
  }

  /** Earlier in the order means in an earlier stage, or earlier in the same. */
  lemma {:induction false} OrderFollowsStages(stages: seq<Stage>, p: nat, q: nat) returns (s: int, t: int)
    requires Tidy(stages) && p < q < |OrderOf(stages)|
    ensures InStage(stages, s, OrderOf(stages)[p]) && InStage(stages, t, OrderOf(stages)[q])
    ensures s < t || (s == t && OrderOf(stages)[p] < OrderOf(stages)[q])
    decreases |stages|
  {
    var n := |stages| - 1;
    var init, last := stages[..n], stages[n].indexes;
    var m := |OrderOf(init)|;
    TidyPrefix(stages, n);
    if q < m {
      s, t := OrderFollowsStages(init, p, q);
    } else {
      assert OrderOf(stages)[q] == last[q - m];
      t := n;
      if p >= m {
        s := n;
        assert OrderOf(stages)[p] == last[p - m];
      } else {
        OrderMembers(init);
        assert OrderOf(init)[p] in OrderOf(init);
        assert Planned(init, OrderOf(init)[p]);
        s :| InStage(init, s, OrderOf(init)[p]);
      }
    }
  }

  lemma OrderDistinct(stages: seq<Stage>)
    requires Tidy(stages)
    ensures forall p, q :: 0 <= p < q < |OrderOf(stages)| ==> OrderOf(stages)[p] != OrderOf(stages)[q]
  {
    forall p, q | 0 <= p < q < |OrderOf(stages)| ensures OrderOf(stages)[p] != OrderOf(stages)[q] {
      var s, t := OrderFollowsStages(stages, p, q);
    }
  }

  /** The plan executes every transaction of the batch exactly once. */
  lemma PlanOrderLists(locks: seq<LockSet>, n: nat)
    requires n <= |locks|
    ensures Tidy(PlanOf(locks, n)) && Lists(OrderOf(PlanOf(locks, n)), 0, n)
  {
    PlanIsSound(locks, n);
    var stages := PlanOf(locks, n);
    assert forall s :: 0 <= s < |stages| ==> StageSound(locks, n, stages[s]);
    assert Tidy(stages);
    OrderDistinct(stages);
    OrderMembers(stages);
    forall i: nat ensures i in OrderOf(stages) <==> 0 <= i < n {
      if Planned(stages, i) {
        var s :| InStage(stages, s, i);
        assert StageSound(locks, n, stages[s]);
      }
    }
  }

  lemma {:induction false} OrderOfPrefix(stages: seq<Stage>, k: nat)
    requires k <= |stages|
    ensures OrderOf(stages[..k]) <= OrderOf(stages)
    decreases |stages|
  {
    if k == |stages| {
      assert stages[..k] == stages;
    } else {
      OrderOfPrefix(stages[..|stages| - 1], k);
      assert stages[..|stages| - 1][..k] == stages[..k];
    }
  }
}
