/** The read-through cache of the RPC account source (fork.rs): an LRU map with
    a time to live, over an abstract clock and an abstract remote. */
module Fork {
  import opened Types
  import opened Lru
  import opened Ranking

  /** Instants and durations are counted in nanoseconds. */
  datatype CachedAccount = CachedAccount(fetchedAt: nat, account: Account)

  type Entries = seq<(Address, CachedAccount)>

  datatype ForkState = ForkState(entries: Entries, cap: nat, ttl: nat, hits: nat, misses: nat)

  /** The remote ledger: what it answers for an address at an instant. */
  type Remote = (Address, nat) -> Loaded

  const DEFAULT_MAX_CAPACITY: nat := 10_000
  const DEFAULT_TTL: nat := 3_600_000_000_000

  /** `Instant::elapsed`, which saturates at zero. */
  function Elapsed(now: nat, since: nat): nat {
    if since <= now then now - since else 0
  }

  /** An entry stored at `stored` is served until its time to live has passed;
      with none, never. */
  predicate Alive(ttl: nat, stored: nat, at: nat) {
    0 < ttl && at < stored + ttl
  }

  datatype Lookup = Lookup(found: Option<Account>, entries: Entries)

  /** Looks an address up: a live entry becomes the most recent, an expired one is dropped. */
  function CacheGet(entries: Entries, ttl: nat, key: Address, now: nat): Lookup {
    match Peek(entries, key)
    case None => Lookup(None, entries)
    case Some(cached) =>
      if Elapsed(now, cached.fetchedAt) >= ttl then Lookup(None, Without(entries, key))
      else Lookup(Some(cached.account), Touch(entries, key))
  }

  /** One read: the cache is consulted at `at`; on a miss the remote answers at
      `fetched` and the answer is stored at `stored`. */
  datatype ReadCall = ReadCall(key: Address, at: nat, fetched: nat, stored: nat)

  datatype Answer = Answer(state: ForkState, result: Loaded)

  function GetAccount(s: ForkState, remote: Remote, r: ReadCall): Answer {
    var looked := CacheGet(s.entries, s.ttl, r.key, r.at);
    match looked.found
    case Some(account) => Answer(s.(entries := looked.entries, hits := s.hits + 1), Ok(Some(account)))
    case None =>
      var result := remote(r.key, r.fetched);
      var entries :=
        if result.Ok? && result.value.Some? then
          Put(looked.entries, s.cap, r.key, CachedAccount(r.stored, result.value.value))
        else looked.entries;
      Answer(s.(entries := entries, misses := s.misses + 1), result)
  }

  function RunReads(s: ForkState, remote: Remote, calls: seq<ReadCall>): ForkState {
    if calls == [] then s
    else GetAccount(RunReads(s, remote, calls[..|calls| - 1]), remote, calls[|calls| - 1]).state
  }

  function ResultAt(s: ForkState, remote: Remote, calls: seq<ReadCall>, j: nat): Loaded
    requires j < |calls|
  {
    GetAccount(RunReads(s, remote, calls[..j]), remote, calls[j]).result
  }

  /** Keys are distinct and the capacity, at least one, is kept. */
  ghost predicate Valid(s: ForkState) {
    NoDuplicates(s.entries) && 1 <= s.cap && |s.entries| <= s.cap
  }

  // ----- Invariants -----

  lemma TouchKeepsKeys(entries: Entries, key: Address)
    requires NoDuplicates(entries)
    ensures NoDuplicates(Touch(entries, key)) && |Touch(entries, key)| == |entries|
    ensures forall e :: e in Touch(entries, key) <==> e in entries
  {
    WithoutDropsKey(entries, key);
    var p, w := IndexOf(entries, key), Without(entries, key);
    if p < |entries| {
      assert forall i :: 0 <= i < |w| ==> w[i] in w;
      assert forall e :: e in [entries[p]] + w <==> e == entries[p] || e in w;
      forall e | e in entries ensures e == entries[p] || e in w {
        if e.0 == key {
          var i :| 0 <= i < |entries| && entries[i] == e;
          assert i == p;
        }
      }
    }
  }

  lemma PutKeepsEntries(entries: Entries, cap: nat, key: Address, cached: CachedAccount)
    requires NoDuplicates(entries) && 1 <= cap && |entries| <= cap
    ensures var put := Put(entries, cap, key, cached);
            && NoDuplicates(put) && |put| <= cap
            && forall e :: e in put ==> e == (key, cached) || (e in entries && e.0 != key)
  {
    WithoutDropsKey(entries, key);
    var w := Without(entries, key);
    if Contains(entries, key) || |entries| < cap {
      assert forall i :: 0 <= i < |w| ==> w[i] in w;
    } else {
      assert forall i :: 0 <= i < |entries| ==> entries[i].0 != key;
    }
  }

  /** What one read can leave in the cache: old entries, and its own answer. */
  lemma ReadKeepsValid(s: ForkState, remote: Remote, r: ReadCall)
    requires Valid(s)
    ensures var t := GetAccount(s, remote, r).state;
            && Valid(t) && t.cap == s.cap && t.ttl == s.ttl
            && forall e :: e in t.entries ==> e in s.entries || Stores(remote, r, e)
  {
    TouchKeepsKeys(s.entries, r.key);
    WithoutDropsKey(s.entries, r.key);
    var looked := CacheGet(s.entries, s.ttl, r.key, r.at);
    var result := remote(r.key, r.fetched);
    if looked.found.None? && result.Ok? && result.value.Some? {
      PutKeepsEntries(looked.entries, s.cap, r.key, CachedAccount(r.stored, result.value.value));
    }
  }

  /** The entry a read puts into the cache when the remote has the account. */
  predicate Stores(remote: Remote, r: ReadCall, e: (Address, CachedAccount)) {
    r.key == e.0 && r.stored == e.1.fetchedAt && remote(r.key, r.fetched) == Ok(Some(e.1.account))
  }

  /** Every entry was put there by one of the reads. */
  ghost predicate Sourced(remote: Remote, calls: seq<ReadCall>, entries: Entries) {
    forall e :: e in entries ==> exists i :: 0 <= i < |calls| && Stores(remote, calls[i], e)
  }

  ghost predicate Empty(s: ForkState) {
    s.entries == [] && s.hits == 0 && s.misses == 0 && 1 <= s.cap
  }

  /** Over every run the cache stays within its capacity, holds only answers of
      the remote, and each read is counted once, as a hit or as a miss. */
  lemma {:induction false} RunKeepsSourced(s: ForkState, remote: Remote, calls: seq<ReadCall>)
    requires Empty(s)
    ensures var t := RunReads(s, remote, calls);
            && Valid(t) && t.cap == s.cap && t.ttl == s.ttl
            && Sourced(remote, calls, t.entries)
            && t.hits + t.misses == |calls|
    decreases |calls|
  {
    if calls != [] {
      var init, r := calls[..|calls| - 1], calls[|calls| - 1];
      var before := RunReads(s, remote, init);
      RunKeepsSourced(s, remote, init);
      ReadKeepsValid(before, remote, r);
      var t := RunReads(s, remote, calls);
      forall e | e in t.entries ensures exists i :: 0 <= i < |calls| && Stores(remote, calls[i], e) {
        if e in before.entries {
          var i :| 0 <= i < |init| && Stores(remote, init[i], e);
          assert calls[i] == init[i];
        } else {
          assert Stores(remote, calls[|calls| - 1], e);
        }
      }
    }
  }

  // ----- Bounded staleness -----

  /** Read `i` obtained this result from the remote, and its entry was still
      alive when read `j` looked. */
  predicate ServedBy(s: ForkState, remote: Remote, calls: seq<ReadCall>, i: int, j: int, result: Loaded) {
    && 0 <= i < j < |calls| && calls[i].key == calls[j].key
    && result.Ok? && result.value.Some? && remote(calls[i].key, calls[i].fetched) == result
    && Alive(s.ttl, calls[i].stored, calls[j].at)
  }

  /** Every read of every run returns what the remote answers to it, or an
      account that an earlier read of the same address obtained from the remote
      less than the time to live ago. Absence and errors are never cached. */
  lemma BoundedStaleness(s: ForkState, remote: Remote, calls: seq<ReadCall>, j: nat)
    requires Empty(s) && j < |calls|
    ensures var result := ResultAt(s, remote, calls, j);
            || result == remote(calls[j].key, calls[j].fetched)
            || exists i :: ServedBy(s, remote, calls, i, j, result)
  {
    var before, r := RunReads(s, remote, calls[..j]), calls[j];
    RunKeepsSourced(s, remote, calls[..j]);
    var p := IndexOf(before.entries, r.key);
    if CacheGet(before.entries, before.ttl, r.key, r.at).found.Some? {
      assert before.entries[p] in before.entries;
      var i :| 0 <= i < j && Stores(remote, calls[..j][i], before.entries[p]);
      assert ServedBy(s, remote, calls, i, j, ResultAt(s, remote, calls, j));
    }
  }

  /** Over a remote that does not change the cache cannot be noticed. */
  lemma CacheIsTransparent(s: ForkState, remote: Remote, calls: seq<ReadCall>, j: nat)
    requires Empty(s) && j < |calls|
    requires forall a, t, t' :: remote(a, t) == remote(a, t')
    ensures ResultAt(s, remote, calls, j) == remote(calls[j].key, calls[j].fetched)
  {
    BoundedStaleness(s, remote, calls, j);
  }

  // ----- Which reads are hits -----

  /** A run of reads on an empty cache. */
  datatype Trace = Trace(cap: nat, ttl: nat, remote: Remote, calls: seq<ReadCall>)

  predicate Has(remote: Remote, r: ReadCall) {
    remote(r.key, r.fetched).Ok? && remote(r.key, r.fetched).value.Some?
  }

  /** The last of the first `j` reads that was for the key. */
  function LastRead(calls: seq<ReadCall>, j: nat, key: Address): (p: Option<nat>)
    requires j <= |calls|
    ensures p.Some? ==> p.value < j && calls[p.value].key == key
    ensures forall q :: (if p.Some? then p.value < q else 0 <= q) && q < j ==> calls[q].key != key
  {
    if j == 0 then None else if calls[j - 1].key == key then Some(j - 1) else LastRead(calls, j - 1, key)
  }

  /** Read `j` is a hit: its key was read before, that read left an account, which
      was not pushed out since and was fetched less than the time to live ago. */
  ghost predicate Hit(w: Trace, j: nat)
    requires j < |w.calls|
    decreases j, 3
  {
    var last := LastRead(w.calls, j, w.calls[j].key);
    && last.Some? && Survives(w, last.value, j)
    && Alive(w.ttl, w.calls[FetchIndex(w, last.value)].stored, w.calls[j].at)
  }

  /** The read that obtained what read `j` returns: itself, or on a hit the one
      that obtained what the last read of the key returned. */
  ghost function FetchIndex(w: Trace, j: nat): (i: nat)
    requires j < |w.calls|
    ensures i <= j && w.calls[i].key == w.calls[j].key
    decreases j, 4
  {
    if Hit(w, j) then FetchIndex(w, LastRead(w.calls, j, w.calls[j].key).value) else j
  }

  /** The read leaves its key in the cache, as the most recent. */
  ghost predicate Leaves(w: Trace, j: nat)
    requires j < |w.calls|
    decreases j, 4
  {
    Hit(w, j) || Has(w.remote, w.calls[j])
  }

  /** Read `q` is the last of its key before read `m` and left it in the cache. */
  ghost predicate LeftInFront(w: Trace, q: nat, m: nat)
    requires q < m <= |w.calls|
    decreases m, 0
  {
    Leaves(w, q) && forall r :: q < r < m ==> w.calls[r].key != w.calls[q].key
  }

  /** The keys used between reads `p` and `m` that are still in the cache. */
  ghost function Front(w: Trace, p: nat, m: nat): set<Address>
    requires p < m <= |w.calls|
    decreases m, 1
  {
    set q | p < q < m && LeftInFront(w, q, m) :: w.calls[q].key
  }

  /** What read `p` left was never pushed out before read `j`: at no time were as
      many other keys more recent as the cache has places. */
  ghost predicate Survives(w: Trace, p: nat, j: nat)
    requires p < j <= |w.calls|
    decreases j, 2
  {
    Leaves(w, p) && forall m :: p < m <= j ==> |Front(w, p, m)| < w.cap
  }

  /** A read that finds an account leaves its key in front. */
  lemma ReadInFront(s: ForkState, remote: Remote, r: ReadCall) returns (e: (Address, CachedAccount))
    requires Valid(s) && (CacheGet(s.entries, s.ttl, r.key, r.at).found.Some? || Has(remote, r))
    ensures GetAccount(s, remote, r).state.entries == [e] + Pushed(s.entries, s.cap, r.key)
    ensures e.0 == r.key
    ensures e.1 == if CacheGet(s.entries, s.ttl, r.key, r.at).found.Some? then s.entries[IndexOf(s.entries, r.key)].1
                   else CachedAccount(r.stored, remote(r.key, r.fetched).value.value)
  {
    var looked := CacheGet(s.entries, s.ttl, r.key, r.at);
    WithoutDropsKey(s.entries, r.key);
    var d := IndexOf(s.entries, r.key);
    if looked.found.Some? {
      e := s.entries[d];
    } else {
      e := (r.key, CachedAccount(r.stored, remote(r.key, r.fetched).value.value));
      if d < |s.entries| {
        var w := Without(s.entries, r.key);
        assert forall i :: 0 <= i < |w| ==> w[i] in w;
        assert IndexOf(w, r.key) == |w|;
      }
    }
  }

  /** Any other read drops its key, if it had expired. */
  lemma ReadDrops(s: ForkState, remote: Remote, r: ReadCall)
    requires Valid(s) && CacheGet(s.entries, s.ttl, r.key, r.at).found.None? && !Has(remote, r)
    ensures GetAccount(s, remote, r).state.entries == Without(s.entries, r.key)
  {}

  // ----- The cache after any run -----

  ghost function Stored(w: Trace, i: nat): Option<CachedAccount>
    requires i < |w.calls|
  {
    var r := w.calls[i];
    if Has(w.remote, r) then Some(CachedAccount(r.stored, w.remote(r.key, r.fetched).value.value)) else None
  }

  /** The cache holds a key exactly if what its last read left survives: with
      the account that read returned, behind exactly the keys in front. */
  ghost predicate KeyAt(w: Trace, entries: Entries, j: nat, key: Address)
    requires j <= |w.calls|
  {
    var pos, last := IndexOf(entries, key), LastRead(w.calls, j, key);
    if pos < |entries| then
      && last.Some? && Survives(w, last.value, j)
      && Stored(w, FetchIndex(w, last.value)) == Some(entries[pos].1)
      && FrontKeys(entries, pos) == Front(w, last.value, j)
    else last.Some? ==> !Survives(w, last.value, j)
  }

  lemma FrontStep(w: Trace, p: nat, j: nat)
    requires p < j < |w.calls|
    ensures Front(w, p, j + 1) ==
            if Leaves(w, j) then Front(w, p, j) + {w.calls[j].key} else Front(w, p, j) - {w.calls[j].key}
  {
    var key := w.calls[j].key;
    forall a | a in Front(w, p, j + 1) ensures a in Front(w, p, j) || (a == key && Leaves(w, j)) {
      var q :| p < q < j + 1 && LeftInFront(w, q, j + 1) && w.calls[q].key == a;
      assert q < j ==> LeftInFront(w, q, j);
    }
    forall a | a in Front(w, p, j) && a != key ensures a in Front(w, p, j + 1) {
      var q :| p < q < j && LeftInFront(w, q, j) && w.calls[q].key == a;
      assert LeftInFront(w, q, j + 1);
    }
    if Leaves(w, j) {
      assert LeftInFront(w, j, j + 1);
    } else {
      forall q | p < q < j + 1 && LeftInFront(w, q, j + 1) ensures w.calls[q].key != key {}
    }
  }

  lemma SurvivesStep(w: Trace, p: nat, j: nat)
    requires p < j < |w.calls|
    ensures Survives(w, p, j + 1) <==> Survives(w, p, j) && |Front(w, p, j + 1)| < w.cap
  {}

  /** In any such cache the next read is a hit exactly as defined. */
  lemma NextHits(w: Trace, entries: Entries, j: nat)
    requires j < |w.calls| && KeyAt(w, entries, j, w.calls[j].key)
    ensures CacheGet(entries, w.ttl, w.calls[j].key, w.calls[j].at).found.Some? <==> Hit(w, j)
    ensures Hit(w, j) ==>
              CacheGet(entries, w.ttl, w.calls[j].key, w.calls[j].at).found ==
              w.remote(w.calls[FetchIndex(w, j)].key, w.calls[FetchIndex(w, j)].fetched).value
  {}

  /** The machine that runs the trace fits it. */
  ghost predicate Fits(w: Trace, s: ForkState) {
    Valid(s) && s.cap == w.cap && s.ttl == w.ttl
  }

  lemma ReadSetsKey(w: Trace, s: ForkState, j: nat)
    requires j < |w.calls| && Fits(w, s) && KeyAt(w, s.entries, j, w.calls[j].key)
    ensures KeyAt(w, GetAccount(s, w.remote, w.calls[j]).state.entries, j + 1, w.calls[j].key)
  {
    var r := w.calls[j];
    NextHits(w, s.entries, j);
    assert LastRead(w.calls, j + 1, r.key) == Some(j);
    if Leaves(w, j) {
      var e := ReadInFront(s, w.remote, r);
      var t := GetAccount(s, w.remote, r).state.entries;
      assert t[0] == e && IndexOf(t, r.key) == 0;
      assert Front(w, j, j + 1) == {} && FrontKeys(t, 0) == {};
      assert Survives(w, j, j + 1);
    } else {
      ReadDrops(s, w.remote, r);
      WithoutKeepsOrder(s.entries, r.key);
    }
  }

  lemma ReadMovesKey(w: Trace, s: ForkState, j: nat, key: Address)
    requires j < |w.calls| && Fits(w, s) && key != w.calls[j].key
    requires KeyAt(w, s.entries, j, w.calls[j].key) && KeyAt(w, s.entries, j, key)
    ensures KeyAt(w, GetAccount(s, w.remote, w.calls[j]).state.entries, j + 1, key)
  {
    var r, last := w.calls[j], LastRead(w.calls, j, key);
    NextHits(w, s.entries, j);
    assert LastRead(w.calls, j + 1, key) == last;
    if last.Some? {
      FrontStep(w, last.value, j);
      SurvivesStep(w, last.value, j);
    }
    if Leaves(w, j) {
      var e := ReadInFront(s, w.remote, r);
      KeyBehind(w, s.entries, j, e, key);
    } else {
      ReadDrops(s, w.remote, r);
      KeyDropped(w, s.entries, j, key);
    }
  }

  lemma KeyBehind(w: Trace, entries: Entries, j: nat, e: (Address, CachedAccount), key: Address)
    requires j < |w.calls| && NoDuplicates(entries) && 1 <= w.cap && |entries| <= w.cap
    requires e.0 == w.calls[j].key != key && Leaves(w, j) && KeyAt(w, entries, j, key)
    ensures KeyAt(w, [e] + Pushed(entries, w.cap, e.0), j + 1, key)
  {
    var pos, last := IndexOf(entries, key), LastRead(w.calls, j, key);
    var t := [e] + Pushed(entries, w.cap, e.0);
    if pos < |entries| {
      var p := last.value;
      FrontStep(w, p, j);
      SurvivesStep(w, p, j);
      PushedIsRanked(entries, w.cap, e, key, entries[pos].1, Front(w, p, j));
      if IndexOf(t, key) < |t| {
        PushedIsDistinct(entries, w.cap, e);
        FrontKeysCount(t, IndexOf(t, key));
      }
    } else {
      PushedAddsOnly(entries, w.cap, e, key);
      if last.Some? {
        SurvivesStep(w, last.value, j);
      }
    }
  }

  lemma KeyDropped(w: Trace, entries: Entries, j: nat, key: Address)
    requires j < |w.calls| && NoDuplicates(entries) && |entries| <= w.cap
    requires key != w.calls[j].key && !Leaves(w, j) && KeyAt(w, entries, j, key)
    ensures KeyAt(w, Without(entries, w.calls[j].key), j + 1, key)
  {
    var last := LastRead(w.calls, j, key);
    assert LastRead(w.calls, j + 1, key) == last;
    MovesUp(entries, w.calls[j].key, key);
    if Contains(entries, key) {
      DropKeeps(w, last.value, j);
    } else if last.Some? {
      SurvivesStep(w, last.value, j);
    }
  }

  lemma DropKeeps(w: Trace, p: nat, j: nat)
    requires p < j < |w.calls| && !Leaves(w, j) && Survives(w, p, j)
    ensures Survives(w, p, j + 1) && Front(w, p, j + 1) == Front(w, p, j) - {w.calls[j].key}
  {
    FrontStep(w, p, j);
    SurvivesStep(w, p, j);
    SubsetNotLarger(Front(w, p, j + 1), Front(w, p, j));
  }

  ghost function Start(w: Trace): ForkState {
    ForkState([], w.cap, w.ttl, 0, 0)
  }

  lemma ReadHoldsKey(w: Trace, s: ForkState, j: nat, key: Address)
    requires j < |w.calls| && Fits(w, s) && KeyAt(w, s.entries, j, w.calls[j].key) && KeyAt(w, s.entries, j, key)
    ensures var t := GetAccount(s, w.remote, w.calls[j]).state;
            Fits(w, t) && KeyAt(w, t.entries, j + 1, key)
  {
    ReadKeepsValid(s, w.remote, w.calls[j]);
    if key == w.calls[j].key {
      ReadSetsKey(w, s, j);
    } else {
      ReadMovesKey(w, s, j, key);
    }
  }

  /** The state in which read `j` finds the cache. */
  ghost function Reached(w: Trace, j: nat): ForkState
    requires j <= |w.calls|
  {
    RunReads(Start(w), w.remote, w.calls[..j])
  }

  lemma ReachedNext(w: Trace, j: nat)
    requires j < |w.calls|
    ensures Reached(w, j + 1) == GetAccount(Reached(w, j), w.remote, w.calls[j]).state
  {
    assert w.calls[..j + 1][..j] == w.calls[..j];
  }

  lemma {:induction false} RunHoldsKeys(w: Trace, j: nat, key: Address)
    requires 1 <= w.cap && j <= |w.calls|
    ensures Fits(w, Reached(w, j)) && KeyAt(w, Reached(w, j).entries, j, key)
    decreases j
  {
    if j == 0 {
      StartHoldsKey(w, key);
    } else {
      RunHoldsKeys(w, j - 1, key);
      RunHoldsKeys(w, j - 1, w.calls[j - 1].key);
      NextHoldsKey(w, j - 1, key);
    }
  }

  lemma StartHoldsKey(w: Trace, key: Address)
    requires 1 <= w.cap
    ensures Fits(w, Reached(w, 0)) && KeyAt(w, Reached(w, 0).entries, 0, key)
  {
    assert w.calls[..0] == [];
  }

  lemma NextHoldsKey(w: Trace, j: nat, key: Address)
    requires j < |w.calls| && Fits(w, Reached(w, j))
    requires KeyAt(w, Reached(w, j).entries, j, w.calls[j].key) && KeyAt(w, Reached(w, j).entries, j, key)
    ensures Fits(w, Reached(w, j + 1)) && KeyAt(w, Reached(w, j + 1).entries, j + 1, key)
  {
    ReachedNext(w, j);
    ReadHoldsKey(w, Reached(w, j), j, key);
  }

  /** Over every run, whatever the remote answers: a read is served from the cache
      if and only if its key was read before, that read left an account, fewer
      other keys than the capacity were more recent at every time since, and the
      account was fetched less than the time to live ago. Every read returns
      what the remote answered to the read that fetched. */
  lemma HitsExactly(w: Trace, j: nat)
    requires 1 <= w.cap && j < |w.calls|
    ensures var t := Reached(w, j);
            var answer := GetAccount(t, w.remote, w.calls[j]);
            && (answer.state.hits == t.hits + 1 <==> Hit(w, j))
            && (answer.state.misses == t.misses + 1 <==> !Hit(w, j))
            && answer.result == w.remote(w.calls[FetchIndex(w, j)].key, w.calls[FetchIndex(w, j)].fetched)
  {
    RunHoldsKeys(w, j, w.calls[j].key);
    NextHits(w, Reached(w, j).entries, j);
  }

  /** Once the time to live of what the last read of a key returned has passed,
      counted from the read that fetched it, the next read asks the remote. */
  lemma ExpiredIsFetched(w: Trace, j: nat)
    requires 1 <= w.cap && j < |w.calls|
    requires var last := LastRead(w.calls, j, w.calls[j].key);
             last.Some? ==> w.calls[FetchIndex(w, last.value)].stored + w.ttl <= w.calls[j].at
    ensures var t := Reached(w, j);
            var answer := GetAccount(t, w.remote, w.calls[j]);
            && answer.state.misses == t.misses + 1 && answer.state.hits == t.hits
            && answer.result == w.remote(w.calls[j].key, w.calls[j].fetched)
  {
    HitsExactly(w, j);
  }

  // ----- The source itself -----

  class RpcForkSource {
    var entries: Entries
    const cap: nat
    const ttl: nat
    var hits: nat
    var misses: nat

    ghost function State(): ForkState
      reads this
    {
      ForkState(entries, cap, ttl, hits, misses)
    }

    /** Builds a source; a capacity of zero is raised to one. */
    constructor (maxCapacity: Option<nat>, ttl: Option<nat>)
      ensures Empty(State())
      ensures cap == match maxCapacity case None => 10_000 case Some(n) => if n == 0 then 1 else n
      ensures this.ttl == match ttl case None => 3_600 * 1_000_000_000 case Some(d) => d
    {
      var capacity := if maxCapacity.Some? then maxCapacity.value else DEFAULT_MAX_CAPACITY;
      this.cap := if capacity == 0 then 1 else capacity;
      this.ttl := if ttl.Some? then ttl.value else DEFAULT_TTL;
      entries, hits, misses := [], 0, 0;
    }

    method Get(key: Address, now: nat) returns (found: Option<Account>)
      modifies this`entries
      ensures CacheGet(old(entries), ttl, key, now) == Lookup(found, entries)
      ensures var p := IndexOf(old(entries), key);
              if p < |old(entries)| && 0 < ttl && now < old(entries)[p].1.fetchedAt + ttl then
                && found == Some(old(entries)[p].1.account)
                && entries == [old(entries)[p]] + old(entries)[..p] + old(entries)[p + 1..]
              else
                && found == None
                && entries == old(entries)[..p] + if p < |old(entries)| then old(entries)[p + 1..] else []
    {
      var p := IndexOf(entries, key);
      if p == |entries| { return None; }
      var cached := entries[p].1;
      entries := Touch(entries, key);
      if Elapsed(now, cached.fetchedAt) >= ttl {
        PopAfterTouch(old(entries), key);
        entries := Without(entries, key);
        return None;
      }
      found := Some(cached.account);
    }

    method Insert(key: Address, account: Account, now: nat)
      modifies this`entries
      ensures entries == Put(old(entries), cap, key, CachedAccount(now, account))
    {
      entries := Put(entries, cap, key, CachedAccount(now, account));
    }

    /** Reads through the cache; `remote` answers the fetch of a miss. */
    method GetAccountOf(remote: Remote, r: ReadCall) returns (result: Loaded)
      modifies this
      ensures GetAccount(old(State()), remote, r) == Answer(State(), result)
    {
      var found := Get(r.key, r.at);
      if found.Some? {
        hits := hits + 1;
        return Ok(found);
      }
      misses := misses + 1;
      result := remote(r.key, r.fetched);
      if result.Err? { return; }
      if result.value.Some? {
        Insert(r.key, result.value.value, r.stored);
      }
    }
  }

  /** Looking an entry up before dropping it makes no difference. */
  lemma PopAfterTouch(entries: Entries, key: Address)
    requires Contains(entries, key)
    ensures Without(Touch(entries, key), key) == Without(entries, key)
  {
    var p := IndexOf(entries, key);
    var touched := [entries[p]] + Without(entries, key);
    assert IndexOf(touched, key) == 0;
    assert touched[1..] == Without(entries, key);
  }
}
