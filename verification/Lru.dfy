/** The bounded LRU map of the lru crate, as the list of its entries ordered
    most recent first. Both the transaction history and the fork cache are
    built on it. */
module Lru {
  import opened Types

  /** The position of a key, or the length when it is absent. */
  function IndexOf<K(==), V>(entries: seq<(K, V)>, key: K): (p: nat)
    ensures p <= |entries|
    ensures p < |entries| ==> entries[p].0 == key
    ensures forall i :: 0 <= i < p ==> entries[i].0 != key
  {
    if entries == [] then 0
    else if entries[0].0 == key then 0
    else
      var p := IndexOf(entries[1..], key);
      assert forall i :: 0 < i < p + 1 ==> entries[i] == entries[1..][i - 1];
      p + 1
  }

  predicate Contains<K(==), V>(entries: seq<(K, V)>, key: K) {
    IndexOf(entries, key) < |entries|
  }

  /** `LruCache::pop`. */
  function Without<K(==), V>(entries: seq<(K, V)>, key: K): seq<(K, V)> {
    var p := IndexOf(entries, key);
    if p < |entries| then entries[..p] + entries[p + 1..] else entries
  }

  /** `LruCache::peek`: looks without reordering. */
  function Peek<K(==), V>(entries: seq<(K, V)>, key: K): Option<V> {
    var p := IndexOf(entries, key);
    if p < |entries| then Some(entries[p].1) else None
  }

  /** `LruCache::put`: an existing key is moved to the front, a new one evicts
      the least recent entry when the cache is full. */
  function Put<K(==), V>(entries: seq<(K, V)>, cap: nat, key: K, value: V): seq<(K, V)> {
    if Contains(entries, key) || |entries| < cap then [(key, value)] + Without(entries, key)
    else if cap == 0 then entries
    else [(key, value)] + entries[..cap - 1]
  }

  /** `LruCache::get` as it reorders: a key that is found moves to the front. */
  function Touch<K(==), V>(entries: seq<(K, V)>, key: K): seq<(K, V)> {
    var p := IndexOf(entries, key);
    if p < |entries| then [entries[p]] + Without(entries, key) else entries
  }

  ghost predicate NoDuplicates<K, V>(entries: seq<(K, V)>) {
    forall i, j :: 0 <= i < j < |entries| ==> entries[i].0 != entries[j].0
  }

  /** A key sits where it is found. */
  lemma IndexUnique<K, V>(entries: seq<(K, V)>, p: nat)
    requires p < |entries| && NoDuplicates(entries)
    ensures IndexOf(entries, entries[p].0) == p
  {}

  lemma WithoutKeepsOrder<K, V>(entries: seq<(K, V)>, key: K)
    requires NoDuplicates(entries)
    ensures NoDuplicates(Without(entries, key))
    ensures !Contains(Without(entries, key), key)
  {
    var p, w := IndexOf(entries, key), Without(entries, key);
    if p < |entries| {
      DroppedAt(entries, p);
      forall i | 0 <= i < |w| ensures w[i].0 != key {
        assert entries[if i < p then i else i + 1].0 != entries[p].0;
      }
    }
  }

  /** A sequence without the element at `d`. */
  lemma DroppedAt<T>(s: seq<T>, d: nat)
    requires d < |s|
    ensures var w := s[..d] + s[d + 1..];
            |w| == |s| - 1 && forall i :: 0 <= i < |w| ==> w[i] == s[if i < d then i else i + 1]
  {}

  /** Where another key sits after one is popped. */
  lemma IndexInWithout<K, V>(entries: seq<(K, V)>, key: K, other: K)
    requires other != key
    ensures var p, w := IndexOf(entries, other), Without(entries, key);
            if p < |entries| then
              var q := if IndexOf(entries, key) < p then p - 1 else p;
              q < |w| && w[q] == entries[p] && IndexOf(w, other) == q
            else IndexOf(w, other) == |w|
  {
    var p := IndexOf(entries, other);
    if p < |entries| {
      FoundInWithout(entries, key, other, if IndexOf(entries, key) < p then p - 1 else p);
    } else {
      WithoutAddsNothing(entries, key, other);
    }
  }

  lemma FoundInWithout<K, V>(entries: seq<(K, V)>, key: K, other: K, q: nat)
    requires other != key && Contains(entries, other)
    requires var d, p := IndexOf(entries, key), IndexOf(entries, other);
             q == if d < p then p - 1 else p
    ensures var w := Without(entries, key);
            q < |w| && w[q] == entries[IndexOf(entries, other)] && IndexOf(w, other) == q
  {
    var d, w := IndexOf(entries, key), Without(entries, key);
    if d < |entries| {
      DroppedAt(entries, d);
      assert w[q] == entries[IndexOf(entries, other)];
      forall i | 0 <= i < q ensures w[i].0 != other {
        assert w[i] == entries[if i < d then i else i + 1];
      }
      FirstIsFound(w, other, q);
    }
  }

  lemma FirstIsFound<K, V>(entries: seq<(K, V)>, key: K, q: nat)
    requires q < |entries| && entries[q].0 == key && forall i :: 0 <= i < q ==> entries[i].0 != key
    ensures IndexOf(entries, key) == q
  {}

  lemma WithoutAddsNothing<K, V>(entries: seq<(K, V)>, key: K, other: K)
    requires !Contains(entries, other)
    ensures IndexOf(Without(entries, key), other) == |Without(entries, key)|
  {
    var d := IndexOf(entries, key);
    if d < |entries| {
      DroppedAt(entries, d);
    }
  }

  /** A new first entry moves every other one down by one. */
  lemma IndexBehind<K, V>(x: (K, V), w: seq<(K, V)>, other: K)
    requires x.0 != other
    ensures IndexOf([x] + w, other) == IndexOf(w, other) + 1
  {
    assert ([x] + w)[1..] == w;
  }

  /** Putting one key moves any other down by at most one place; the last place
      of a full cache is lost. */
  lemma PutShifts<K, V>(entries: seq<(K, V)>, cap: nat, key: K, value: V, other: K)
    requires NoDuplicates(entries) && |entries| <= cap && other != key && IndexOf(entries, other) + 1 < cap
    requires Contains(entries, other)
    ensures var put := Put(entries, cap, key, value);
            Contains(put, other) && IndexOf(put, other) <= IndexOf(entries, other) + 1
  {
    if Contains(entries, key) || |entries| < cap {
      PutInFront((key, value), entries, other);
    } else {
      PutEvicts((key, value), entries, other);
    }
  }

  lemma PutInFront<K, V>(x: (K, V), entries: seq<(K, V)>, other: K)
    requires other != x.0 && Contains(entries, other)
    ensures var put := [x] + Without(entries, x.0);
            Contains(put, other) && IndexOf(put, other) <= IndexOf(entries, other) + 1
  {
    IndexInWithout(entries, x.0, other);
    IndexBehind(x, Without(entries, x.0), other);
  }

  lemma PutEvicts<K, V>(x: (K, V), entries: seq<(K, V)>, other: K)
    requires other != x.0 && IndexOf(entries, other) + 1 < |entries|
    ensures var put := [x] + entries[..|entries| - 1];
            Contains(put, other) && IndexOf(put, other) == IndexOf(entries, other) + 1
  {
    PrefixIndex(entries, |entries| - 1, other);
    IndexBehind(x, entries[..|entries| - 1], other);
  }

  lemma PrefixIndex<K, V>(entries: seq<(K, V)>, n: nat, key: K)
    requires IndexOf(entries, key) < n <= |entries|
    ensures IndexOf(entries[..n], key) == IndexOf(entries, key)
  {
    assert entries[..n][IndexOf(entries, key)].0 == key;
  }
}
