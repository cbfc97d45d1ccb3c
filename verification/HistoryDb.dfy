/** The transaction history as an object updated in place (history.rs). */
module HistoryDb {
  import opened Types
  import H = History
  import Lru

  const DEFAULT_CAPACITY: nat := 32

  class TransactionHistory {
    var entries: seq<H.Entry>
    var cap: nat
    var maxEntries: nat

    constructor WithCapacity(n: nat)
      ensures State() == H.WithCapacity(n)
    {
      entries := [];
      cap := if n == 0 then 1 else n;
      maxEntries := n;
    }

    constructor ()
      ensures State() == H.WithCapacity(32)
    {
      entries, cap, maxEntries := [], DEFAULT_CAPACITY, DEFAULT_CAPACITY;
    }

    function State(): H.HistoryState
      reads this
    {
      H.HistoryState(entries, cap, maxEntries)
    }

    /** Disables and empties the history at zero, otherwise resizes it by
        dropping least recent entries. */
    method SetCapacity(n: nat)
      modifies this
      ensures State() == H.SetCapacity(old(State()), n)
      ensures maxEntries == n && |entries| == (if |old(entries)| <= n then |old(entries)| else n)
      ensures forall i :: 0 <= i < |entries| ==> entries[i] == old(entries)[i]
    {
      if n == 0 {
        entries := [];
        maxEntries := 0;
        return;
      }
      while |entries| > n
        invariant H.SetCapacity(State(), n) == H.SetCapacity(old(State()), n)
        invariant |entries| <= |old(entries)| && (|entries| == |old(entries)| || n <= |entries|)
        invariant entries == old(entries)[..|entries|]
        decreases |entries|
      {
        entries := entries[..|entries| - 1];
      }
      cap := n;
      maxEntries := n;
    }

    /** The scan behind a lookup; it reorders nothing. */
    method GetTransaction(sig: Signature) returns (r: Option<TransactionResult>)
      ensures r == H.Get(State(), sig)
    {
      if maxEntries == 0 { return None; }
      var i := 0;
      while i < |entries| && entries[i].0 != sig
        invariant 0 <= i <= |entries|
        invariant forall j :: 0 <= j < i ==> entries[j].0 != sig
      {
        i := i + 1;
      }
      assert Lru.IndexOf(entries, sig) == i;
      r := if i < |entries| then Some(entries[i].1) else None;
    }

    method CheckTransaction(sig: Signature) returns (seen: bool)
      ensures seen == H.Check(State(), sig)
    {
      var r := GetTransaction(sig);
      seen := r.Some?;
    }

    /** Records a result, moving a known signature to the front or evicting the
        least recent entry of a full history. */
    method AddNewTransaction(sig: Signature, result: TransactionResult)
      modifies this`entries
      ensures State() == H.Insert(old(State()), sig, result)
    {
      if maxEntries == 0 { return; }
      var p := Lru.IndexOf(entries, sig);
      if p < |entries| {
        entries := [(sig, result)] + (entries[..p] + entries[p + 1..]);
      } else if |entries| < cap {
        entries := [(sig, result)] + entries;
      } else if cap > 0 {
        entries := [(sig, result)] + entries[..cap - 1];
      }
    }

    method IsEnabled() returns (enabled: bool)
      ensures enabled <==> State().max != 0
    {
      enabled := maxEntries != 0;
    }
  }
}
