/** Positions in an LRU list: the keys in front of an entry, and what happens to
    them when another key moves to the front. */
module Ranking {
  import opened Types
  import opened Lru

  lemma WithoutDropsKey<K, V>(entries: seq<(K, V)>, key: K)
    requires NoDuplicates(entries)
    ensures NoDuplicates(Without(entries, key))
    ensures |Without(entries, key)| <= |entries|
    ensures forall e :: e in Without(entries, key) <==> e in entries && e.0 != key
  {
    var p, w := IndexOf(entries, key), Without(entries, key);
    if p < |entries| {
      forall i | 0 <= i < |w| ensures w[i] == entries[if i < p then i else i + 1] {}
      forall i | 0 <= i < |entries| && i != p ensures entries[i] in w {
        assert entries[i] == w[if i < p then i else i - 1];
      }
    }
  }

  ghost function KeysOf<K, V>(entries: seq<(K, V)>): set<K> {
    set i | 0 <= i < |entries| :: entries[i].0
  }

  ghost function FrontKeys<K, V>(entries: seq<(K, V)>, p: nat): set<K>
    requires p <= |entries|
  {
    KeysOf(entries[..p])
  }

  lemma KeysOfOne<K, V>(x: (K, V))
    ensures KeysOf([x]) == {x.0}
  {
    assert [x][0] == x;
  }

  lemma KeysOfConcat<K, V>(xs: seq<(K, V)>, ys: seq<(K, V)>)
    ensures KeysOf(xs + ys) == KeysOf(xs) + KeysOf(ys)
  {
    var all := xs + ys;
    forall a | a in KeysOf(all) ensures a in KeysOf(xs) + KeysOf(ys) {
      var i :| 0 <= i < |all| && all[i].0 == a;
      if i < |xs| { assert xs[i] == all[i]; } else { assert ys[i - |xs|] == all[i]; }
    }
    forall a | a in KeysOf(xs) ensures a in KeysOf(all) {
      var i :| 0 <= i < |xs| && xs[i].0 == a;
      assert all[i] == xs[i];
    }
    forall a | a in KeysOf(ys) ensures a in KeysOf(all) {
      var i :| 0 <= i < |ys| && ys[i].0 == a;
      assert all[|xs| + i] == ys[i];
    }
  }

  /** The keys in front of `key` are exactly those read since; once that many
      fill the cache, `key` is gone. */
  ghost predicate Ranked<K, V>(entries: seq<(K, V)>, cap: nat, key: K, value: V, since: set<K>) {
    var p := IndexOf(entries, key);
    if p < |entries| then entries[p].1 == value && FrontKeys(entries, p) == since && p < cap else cap <= |since|
  }

  lemma {:induction false} KeysOfCount<K, V>(entries: seq<(K, V)>)
    requires NoDuplicates(entries)
    ensures |KeysOf(entries)| == |entries|
  {
    if entries != [] {
      var n := |entries| - 1;
      KeysOfCount(entries[..n]);
      assert entries == entries[..n] + [entries[n]];
      KeysOfConcat(entries[..n], [entries[n]]);
      KeysOfOne(entries[n]);
      assert entries[n].0 !in KeysOf(entries[..n]);
    }
  }

  lemma FrontKeysCount<K, V>(entries: seq<(K, V)>, p: nat)
    requires NoDuplicates(entries) && p <= |entries|
    ensures |FrontKeys(entries, p)| == p
  {
    KeysOfCount(entries[..p]);
  }

  /** The entries behind a key that moves to the front: the others in order, the
      last one dropped if the cache was full. */
  ghost function Pushed<K, V>(entries: seq<(K, V)>, cap: nat, key: K): seq<(K, V)>
    requires 1 <= cap && |entries| <= cap
  {
    if Contains(entries, key) || |entries| < cap then Without(entries, key) else entries[..cap - 1]
  }

  lemma NextIsDistinct<K, V>(x: (K, V), w: seq<(K, V)>)
    requires NoDuplicates(w) && forall i :: 0 <= i < |w| ==> w[i].0 != x.0
    ensures NoDuplicates([x] + w)
  {}

  lemma FrontKeysOfCons<K, V>(x: (K, V), w: seq<(K, V)>, q: nat)
    requires q <= |w|
    ensures FrontKeys([x] + w, q + 1) == FrontKeys(w, q) + {x.0}
  {
    assert ([x] + w)[..q + 1] == [x] + w[..q];
    KeysOfConcat([x], w[..q]);
    KeysOfOne(x);
  }

  lemma {:induction false} FrontKeysOfWithout<K, V>(entries: seq<(K, V)>, x: K, p: nat)
    requires NoDuplicates(entries) && p < |entries| && entries[p].0 != x
    ensures MovedTo(entries, p, x, Without(entries, x), if IndexOf(entries, x) < p then p - 1 else p)
  {
    var d := IndexOf(entries, x);
    if d < p {
      DroppedInFront(entries, d, p);
    } else if d < |entries| {
      DroppedBehind(entries, d, p);
    } else {
      StaysPut(entries, x, p, entries);
    }
  }

  lemma StaysPut<K, V>(entries: seq<(K, V)>, x: K, p: nat, w: seq<(K, V)>)
    requires p < |entries| && p < |w| && w[..p] == entries[..p] && w[p] == entries[p]
    requires forall i :: 0 <= i < p ==> entries[i].0 != x
    ensures MovedTo(entries, p, x, w, p)
  {
    assert x !in KeysOf(entries[..p]);
  }

  lemma DroppedBehind<K, V>(entries: seq<(K, V)>, d: nat, p: nat)
    requires NoDuplicates(entries) && p < d < |entries|
    ensures MovedTo(entries, p, entries[d].0, entries[..d] + entries[d + 1..], p)
  {
    DroppedAt(entries, d);
    StaysPut(entries, entries[d].0, p, entries[..d] + entries[d + 1..]);
  }

  lemma DroppedInFront<K, V>(entries: seq<(K, V)>, d: nat, p: nat)
    requires NoDuplicates(entries) && d < p < |entries|
    ensures MovedTo(entries, p, entries[d].0, entries[..d] + entries[d + 1..], p - 1)
  {
    var front, tail := entries[..d], entries[d + 1..p];
    SplitAround(entries, d, p);
    FrontWithout(front, entries[d], tail);
    NotInFront(entries, d);
    NotInTail(entries, d, p);
  }

  lemma NotInFront<K, V>(entries: seq<(K, V)>, d: nat)
    requires NoDuplicates(entries) && d < |entries|
    ensures entries[d].0 !in KeysOf(entries[..d])
  {}

  lemma FrontWithout<K, V>(front: seq<(K, V)>, x: (K, V), tail: seq<(K, V)>)
    ensures KeysOf(front + [x] + tail) == KeysOf(front + tail) + {x.0}
    ensures KeysOf(front + tail) == KeysOf(front) + KeysOf(tail)
  {
    KeysOfConcat(front, tail);
    KeysOfConcat(front, [x]);
    KeysOfConcat(front + [x], tail);
    KeysOfOne(x);
  }

  lemma SplitAround<K, V>(entries: seq<(K, V)>, d: nat, p: nat)
    requires d < p < |entries|
    ensures var front, tail, w := entries[..d], entries[d + 1..p], entries[..d] + entries[d + 1..];
            w[p - 1] == entries[p] && w[..p - 1] == front + tail && entries[..p] == front + [entries[d]] + tail
  {
    DroppedAt(entries, d);
    var front, tail, w := entries[..d], entries[d + 1..p], entries[..d] + entries[d + 1..];
    forall i | 0 <= i < p - 1 ensures w[..p - 1][i] == (front + tail)[i] {}
    forall i | 0 <= i < p ensures entries[..p][i] == (front + [entries[d]] + tail)[i] {}
  }

  lemma NotInTail<K, V>(entries: seq<(K, V)>, d: nat, p: nat)
    requires NoDuplicates(entries) && d < p <= |entries|
    ensures entries[d].0 !in KeysOf(entries[d + 1..p])
  {
    var tail := entries[d + 1..p];
    forall i | 0 <= i < |tail| ensures tail[i].0 != entries[d].0 {
      assert tail[i] == entries[d + 1 + i];
    }
  }

  /** A new first entry pushes the key back by one. */
  lemma ConsIsRanked<K, V>(x: (K, V), w: seq<(K, V)>, cap: nat, q: nat, key: K, value: V)
    requires NoDuplicates([x] + w) && q < |w| && w[q] == (key, value) && q + 1 < cap
    ensures Ranked([x] + w, cap, key, value, FrontKeys(w, q) + {x.0})
  {
    IndexUnique([x] + w, q + 1);
    FrontKeysOfCons(x, w, q);
  }

  lemma GoneStaysGone<K, V>(
    x: (K, V), w: seq<(K, V)>, cap: nat, key: K, value: V, since: set<K>)
    requires x.0 != key && (forall i :: 0 <= i < |w| ==> w[i].0 != key) && cap <= |since + {x.0}|
    ensures Ranked([x] + w, cap, key, value, since + {x.0})
  {
    assert IndexOf([x] + w, key) == |[x] + w|;
  }

  lemma OthersStay<K, V>(entries: seq<(K, V)>, x: K, key: K)
    requires NoDuplicates(entries)
    ensures var w := Without(entries, x);
            && NoDuplicates(w) && (forall i :: 0 <= i < |w| ==> w[i].0 != x)
            && (!Contains(entries, key) ==> forall i :: 0 <= i < |w| ==> w[i].0 != key)
  {
    var w := Without(entries, x);
    WithoutDropsKey(entries, x);
    forall i | 0 <= i < |w| ensures w[i].0 != x && w[i] in entries {
      assert w[i] in w;
    }
  }

  lemma {:induction false} RankedInFront<K, V>(
    entries: seq<(K, V)>, cap: nat, x: (K, V), key: K, value: V, since: set<K>)
    requires NoDuplicates(entries) && |entries| <= cap && x.0 != key && Ranked(entries, cap, key, value, since)
    requires Contains(entries, x.0) || |entries| < cap
    ensures Ranked([x] + Without(entries, x.0), cap, key, value, since + {x.0})
  {
    var p, w := IndexOf(entries, key), Without(entries, x.0);
    OthersStay(entries, x.0, key);
    if p < |entries| {
      var q := if IndexOf(entries, x.0) < p then p - 1 else p;
      FrontKeysOfWithout(entries, x.0, p);
      NextIsDistinct(x, w);
      ConsIsRanked(x, w, cap, q, key, value);
      assert since - {x.0} + {x.0} == since + {x.0};
    } else {
      SubsetNotLarger(since, since + {x.0});
      GoneStaysGone(x, w, cap, key, value, since);
    }
  }

  lemma RankedAfterEviction<K, V>(
    entries: seq<(K, V)>, cap: nat, x: (K, V), key: K, value: V, since: set<K>)
    requires NoDuplicates(entries) && |entries| == cap && 1 <= cap && x.0 != key
    requires Ranked(entries, cap, key, value, since)
    requires !Contains(entries, x.0)
    ensures Ranked([x] + entries[..cap - 1], cap, key, value, since + {x.0})
  {
    var p, w := IndexOf(entries, key), entries[..cap - 1];
    if p < cap - 1 {
      NextIsDistinct(x, w);
      assert w[..p] == entries[..p];
      ConsIsRanked(x, w, cap, p, key, value);
    } else {
      if p < |entries| {
        FrontKeysCount(entries, p);
        assert x.0 !in KeysOf(entries[..p]);
      } else {
        SubsetNotLarger(since, since + {x.0});
      }
      GoneStaysGone(x, w, cap, key, value, since);
    }
  }

  lemma {:induction false} PushedIsRanked<K, V>(
    entries: seq<(K, V)>, cap: nat, x: (K, V), key: K, value: V, since: set<K>)
    requires NoDuplicates(entries) && 1 <= cap && |entries| <= cap && x.0 != key
    requires Ranked(entries, cap, key, value, since)
    ensures Ranked([x] + Pushed(entries, cap, x.0), cap, key, value, since + {x.0})
  {
    if Contains(entries, x.0) || |entries| < cap {
      RankedInFront(entries, cap, x, key, value, since);
    } else {
      RankedAfterEviction(entries, cap, x, key, value, since);
    }
  }

  lemma PushedIsDistinct<K, V>(entries: seq<(K, V)>, cap: nat, e: (K, V))
    requires NoDuplicates(entries) && 1 <= cap && |entries| <= cap
    ensures NoDuplicates([e] + Pushed(entries, cap, e.0))
  {
    OthersStay(entries, e.0, e.0);
    NextIsDistinct(e, Pushed(entries, cap, e.0));
  }

  lemma PushedAddsOnly<K, V>(entries: seq<(K, V)>, cap: nat, e: (K, V), key: K)
    requires NoDuplicates(entries) && 1 <= cap && |entries| <= cap && e.0 != key && !Contains(entries, key)
    ensures !Contains([e] + Pushed(entries, cap, e.0), key)
  {
    OthersStay(entries, e.0, key);
    var w := Pushed(entries, cap, e.0);
    assert forall i :: 0 <= i < |w| ==> w[i].0 != key;
  }

  /** Dropping one key leaves another behind the rest of what was in front. */
  lemma {:induction false} MovesUp<K, V>(entries: seq<(K, V)>, x: K, key: K)
    requires NoDuplicates(entries) && x != key
    ensures var p, w := IndexOf(entries, key), Without(entries, x);
            if p < |entries| then MovedTo(entries, p, x, w, IndexOf(w, key)) else IndexOf(w, key) == |w|
  {
    var p, w := IndexOf(entries, key), Without(entries, x);
    if p < |entries| {
      var q := if IndexOf(entries, x) < p then p - 1 else p;
      assert IndexOf(w, key) == q by {
        IndexInWithout(entries, x, key);
      }
      FrontKeysOfWithout(entries, x, p);
    } else {
      WithoutAddsNothing(entries, x, key);
    }
  }

  /** The entry at `p` is at `q` in a list that lacks the key `x`. */
  ghost predicate MovedTo<K, V>(entries: seq<(K, V)>, p: nat, x: K, w: seq<(K, V)>, q: nat)
    requires p < |entries|
  {
    q < |w| && w[q] == entries[p] && FrontKeys(w, q) == FrontKeys(entries, p) - {x}
  }
}
