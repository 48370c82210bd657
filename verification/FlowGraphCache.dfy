/** The traversal cache, updated in place. Its hit and miss counters are not part of this model. */
module FlowGraphCaches {
  import opened Wrappers
  import Spec = FlowGraphCacheSpec

  class FlowGraphCache {
    var cache: map<nat, Spec.Traversal>
    var accessOrder: seq<nat>
    const maxSize: nat

    ghost function State(): Spec.CacheState
      reads this
    {
      Spec.CacheState(cache, accessOrder)
    }

    constructor (maxSize: nat)
      ensures State() == Spec.EMPTY && this.maxSize == maxSize
    {
      cache, accessOrder := map[], [];
      this.maxSize := maxSize;
    }

    /** A hit returns the cached traversal and makes its hash the most recently used. */
    method Get(graphHash: nat) returns (r: Option<Spec.Traversal>)
      modifies this`accessOrder
      ensures State() == Spec.Step(old(State()), Spec.Get(graphHash), maxSize)
      ensures r == if graphHash in cache then Some(cache[graphHash]) else None
    {
      if graphHash in cache {
        Touch(graphHash);
        return Some(cache[graphHash]);
      }
      r := None;
    }

    method Put(graphHash: nat, transactions: Spec.Traversal)
      modifies this`cache, this`accessOrder
      ensures State() == Spec.Step(old(State()), Spec.Put(graphHash, transactions), maxSize)
    {
      if |cache| >= maxSize && graphHash !in cache { EvictLru(); }
      cache := cache[graphHash := transactions];
      accessOrder := accessOrder + [graphHash];
    }

    /** Takes the hash out of its first place, if it has one, and puts it at the end. */
    method Touch(graphHash: nat)
      modifies this`accessOrder
      ensures State() == Spec.Touched(old(State()), graphHash)
    {
      var pos := 0;
      while pos < |accessOrder| && accessOrder[pos] != graphHash
        invariant pos <= |accessOrder| && forall k :: 0 <= k < pos ==> accessOrder[k] != graphHash
      {
        pos := pos + 1;
      }
      if pos < |accessOrder| {
        Spec.WithoutAt(accessOrder, graphHash, pos);
        accessOrder := accessOrder[..pos] + accessOrder[pos + 1..];
      } else {
        Spec.WithoutAbsent(accessOrder, graphHash);
      }
      accessOrder := accessOrder + [graphHash];
    }

    method EvictLru()
      modifies this`cache, this`accessOrder
      ensures State() == Spec.Evicted(old(State()))
    {
      if accessOrder != [] {
        var graphHash := accessOrder[0];
        accessOrder := accessOrder[1..];
        cache := cache - {graphHash};
      }
    }

    method Clear()
      modifies this`cache, this`accessOrder
      ensures State() == Spec.Step(old(State()), Spec.Clear, maxSize)
    {
      cache, accessOrder := map[], [];
    }
  }
}
