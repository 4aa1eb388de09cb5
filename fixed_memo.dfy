/**
 * The second counter of count-steps.js: the fixed-step recursion behind a
 * cache. Each outer call makes a fresh cache and hands it to an inner
 * recursive procedure, which answers from the cache when it can and writes
 * its answer back into the cache on every return, hits included.
 */
module FixedMemo {
  import FixedNaive

  /** The staircases 0..n: n + 1 keys. */
  function UpTo(n: nat): (keys: set<nat>)
    ensures forall k: nat :: k in keys <==> k <= n
    ensures |keys| == n + 1
  {
    if n == 0 then {0} else UpTo(n - 1) + {n}
  }

  /**
   * Every entry holds the count for its key, and the keys have no gaps:
   * whenever `k` is cached, so is every smaller staircase.
   */
  ghost predicate CacheInvariant(cache: map<nat, nat>)
  {
    && (forall k :: k in cache ==> cache[k] == FixedNaive.CountSteps(k))
    && (forall k: nat, j: nat :: k in cache && j <= k ==> j in cache)
  }

  /**
   * Storing the right count for a staircase whose smaller staircases are all
   * cached keeps the invariant, adds just that key, and changes nothing when
   * the key was already there.
   */
  lemma Store(cache: map<nat, nat>, stairsLeft: nat, noSolutions: nat)
    requires CacheInvariant(cache)
    requires forall j: nat :: j < stairsLeft ==> j in cache
    requires noSolutions == FixedNaive.CountSteps(stairsLeft)
    ensures CacheInvariant(cache[stairsLeft := noSolutions])
    ensures forall k: nat :: k in cache[stairsLeft := noSolutions] <==> k in cache || k == stairsLeft
    ensures stairsLeft in cache ==> cache[stairsLeft := noSolutions] == cache
  {
  }

  /** The cache owned by one outer call, and the inner recursive procedure that fills it. */
  class Memo {
    var cache: map<nat, nat>

    ghost predicate Valid()
      reads this
    {
      CacheInvariant(cache)
    }

    constructor ()
      ensures Valid() && cache == map[]
    {
      cache := map[];
    }

    /**
     * The inner procedure: returns the fixed-step count, leaves the cache
     * holding every staircase up to `stairsLeft` besides what it held, and on
     * a hit rewrites the stored value, so the cache is unchanged.
     */
    method Count(stairsLeft: nat) returns (noSolutions: nat)
      requires Valid()
      modifies this
      ensures Valid()
      ensures noSolutions == FixedNaive.CountSteps(stairsLeft)
      ensures forall k: nat :: k in cache <==> k in old(cache) || k <= stairsLeft
      ensures stairsLeft in old(cache) ==> cache == old(cache)
      decreases stairsLeft
    {
      noSolutions := 0;
      if stairsLeft in cache {
        noSolutions := cache[stairsLeft];
      } else if stairsLeft == 0 {
        noSolutions := 1;
      } else if stairsLeft == 1 {
        noSolutions := Count(stairsLeft - 1);
      } else {
        var oneStep := Count(stairsLeft - 1);
        var twoSteps := Count(stairsLeft - 2);
        noSolutions := oneStep + twoSteps;
      }
      Store(cache, stairsLeft, noSolutions);
      cache := cache[stairsLeft := noSolutions];
    }
  }

  /**
   * The outer call: a fresh cache every time, the same answer as the plain
   * recursion. The cache it discards held exactly the staircases
   * 0..stairsLeft, one entry per sub-problem.
   */
  method CountSteps(stairsLeft: nat) returns (noSolutions: nat, ghost keys: set<nat>)
    ensures noSolutions == FixedNaive.CountSteps(stairsLeft)
    ensures keys == UpTo(stairsLeft) && |keys| == stairsLeft + 1
  {
    var memo := new Memo();
    noSolutions := memo.Count(stairsLeft);
    keys := memo.cache.Keys;
    assert keys == UpTo(stairsLeft);
  }
}
