/**
 * The fourth counter of count-steps.js: the generalized loop behind a cache
 * keyed on the stairs left only. The options stay fixed for the lifetime of
 * one cache, because each outer call makes its own.
 */
module GeneralMemo {
  import opened StepsSpec

  /**
   * The distances the generalized recursion visits from `stepsLeft`: the
   * distance itself and, for each option that stays below the top, the
   * distances visited from what remains.
   */
  function Subproblems(stepsLeft: int, options: seq<int>): set<int>
    requires AllPositive(options)
    decreases stepsLeft, 1
  {
    {stepsLeft} + SubproblemsOver(stepsLeft, options, options)
  }

  /** The distances visited below `stepsLeft` through the options in `visited`. */
  function SubproblemsOver(stepsLeft: int, visited: seq<int>, options: seq<int>): set<int>
    requires AllPositive(visited) && AllPositive(options)
    decreases stepsLeft, 0, |visited|
  {
    if visited == [] then {}
    else
      var opt := visited[|visited| - 1];
      SubproblemsOver(stepsLeft, visited[..|visited| - 1], options)
      + (if stepsLeft - opt > 0 then Subproblems(stepsLeft - opt, options) else {})
  }

  /** One more option visited adds the distances reached through it. */
  lemma SubproblemsOverExtend(stepsLeft: int, options: seq<int>, i: nat)
    requires AllPositive(options) && i < |options|
    ensures AllPositive(options[..i]) && AllPositive(options[..i + 1])
    ensures SubproblemsOver(stepsLeft, options[..i + 1], options)
         == SubproblemsOver(stepsLeft, options[..i], options)
            + (if stepsLeft - options[i] > 0 then Subproblems(stepsLeft - options[i], options) else {})
  {
    assert options[..i + 1][..i] == options[..i];
  }

  lemma {:induction false} SubproblemsOverBounds(stepsLeft: int, visited: seq<int>, options: seq<int>)
    requires AllPositive(visited) && AllPositive(options)
    ensures forall k :: k in SubproblemsOver(stepsLeft, visited, options) ==> 1 <= k < stepsLeft
    decreases stepsLeft, 0, |visited|
  {
    if visited != [] {
      var opt := visited[|visited| - 1];
      SubproblemsOverBounds(stepsLeft, visited[..|visited| - 1], options);
      if stepsLeft - opt > 0 {
        SubproblemsBounds(stepsLeft - opt, options);
      }
    }
  }

  /** Besides `stepsLeft` itself, every visited distance lies strictly between 0 and `stepsLeft`. */
  lemma SubproblemsBounds(stepsLeft: int, options: seq<int>)
    requires AllPositive(options)
    ensures stepsLeft in Subproblems(stepsLeft, options)
    ensures forall k :: k in Subproblems(stepsLeft, options) ==> k == stepsLeft || 1 <= k < stepsLeft
    ensures stepsLeft < 1 ==> Subproblems(stepsLeft, options) == {stepsLeft}
    decreases stepsLeft, 1
  {
    SubproblemsOverBounds(stepsLeft, options, options);
    if stepsLeft < 1 {
      var below := SubproblemsOver(stepsLeft, options, options);
      assert forall k :: k !in below;
      assert below == {};
    }
  }

  /** Through each visited option that stays below the top, the loop reaches what remains. */
  lemma {:induction false} SubproblemsOverChildren(stepsLeft: int, visited: seq<int>, options: seq<int>)
    requires AllPositive(visited) && AllPositive(options)
    ensures forall j :: 0 <= j < |visited| && stepsLeft - visited[j] > 0 ==>
              stepsLeft - visited[j] in SubproblemsOver(stepsLeft, visited, options)
    decreases |visited|
  {
    if visited != [] {
      var front := visited[..|visited| - 1];
      SubproblemsOverChildren(stepsLeft, front, options);
      var opt := visited[|visited| - 1];
      if stepsLeft - opt > 0 {
        SubproblemsBounds(stepsLeft - opt, options);
      }
    }
  }

  /**
   * A set of keys that holds, with every key, each smaller distance the loop
   * recurses into from it.
   */
  ghost predicate Closed(keys: set<int>, options: seq<int>)
  {
    forall k, i :: k in keys && 0 <= i < |options| && k - options[i] > 0 ==> k - options[i] in keys
  }

  lemma {:induction false} ClosedHoldsOver(keys: set<int>, stepsLeft: int, visited: seq<int>, options: seq<int>)
    requires AllPositive(visited) && AllPositive(options)
    requires Closed(keys, options) && stepsLeft in keys
    requires forall j :: 0 <= j < |visited| ==> visited[j] in options
    ensures SubproblemsOver(stepsLeft, visited, options) <= keys
    decreases stepsLeft, 0, |visited|
  {
    if visited != [] {
      var opt := visited[|visited| - 1];
      ClosedHoldsOver(keys, stepsLeft, visited[..|visited| - 1], options);
      if stepsLeft - opt > 0 {
        var i :| 0 <= i < |options| && options[i] == opt;
        assert stepsLeft - options[i] in keys;
        ClosedHolds(keys, stepsLeft - opt, options);
      }
    }
  }

  /** A closed set of keys that holds a distance holds every distance visited from it. */
  lemma {:induction false} ClosedHolds(keys: set<int>, stepsLeft: int, options: seq<int>)
    requires AllPositive(options)
    requires Closed(keys, options) && stepsLeft in keys
    ensures Subproblems(stepsLeft, options) <= keys
    decreases stepsLeft, 1
  {
    ClosedHoldsOver(keys, stepsLeft, options, options);
  }

  /**
   * Every entry holds the count for its key under `options`, and the keys
   * are closed under the loop's recursion.
   */
  ghost predicate CacheInvariant(cache: map<int, nat>, options: seq<int>)
    requires AllPositive(options)
  {
    && (forall k :: k in cache ==> cache[k] == Ways(k, options))
    && Closed(cache.Keys, options)
  }

  /**
   * Storing the right count for a distance whose smaller distances are all
   * cached keeps the invariant, adds just that key, and changes nothing when
   * the key was already there.
   */
  lemma Store(cache: map<int, nat>, options: seq<int>, stepsLeft: int, count: nat)
    requires AllPositive(options) && CacheInvariant(cache, options)
    requires forall i :: 0 <= i < |options| && stepsLeft - options[i] > 0 ==> stepsLeft - options[i] in cache
    requires count == Ways(stepsLeft, options)
    ensures CacheInvariant(cache[stepsLeft := count], options)
    ensures forall k :: k in cache[stepsLeft := count] <==> k in cache || k == stepsLeft
    ensures stepsLeft in cache ==> cache[stepsLeft := count] == cache
  {
  }

  /** One pass of the loop body: the option's contribution and the distances reached through it. */
  lemma Advance(stepsLeft: int, options: seq<int>, i: nat, count: nat, via: nat, reached: set<int>, added: set<int>)
    requires AllPositive(options) && i < |options|
    requires AllPositive(options[..i])
    requires count == WaysOver(stepsLeft, options[..i], options)
    requires reached == SubproblemsOver(stepsLeft, options[..i], options)
    requires via == WaysVia(stepsLeft, options[i], options)
    requires added == if stepsLeft - options[i] > 0 then Subproblems(stepsLeft - options[i], options) else {}
    ensures AllPositive(options[..i + 1])
    ensures count + via == WaysOver(stepsLeft, options[..i + 1], options)
    ensures reached + added == SubproblemsOver(stepsLeft, options[..i + 1], options)
  {
    WaysOverExtend(stepsLeft, options, i);
    SubproblemsOverExtend(stepsLeft, options, i);
  }

  /** The keys after a pass are the keys before the loop plus everything reached so far. */
  lemma Regroup(start: set<int>, reached: set<int>, added: set<int>, before: set<int>, after: set<int>)
    requires before == start + reached && after == before + added
    ensures after == start + (reached + added)
  {
  }

  /** The cache owned by one outer call, with the options it was made for. */
  class Memo {
    const options: seq<int>
    var cache: map<int, nat>

    ghost predicate Valid()
      reads this
    {
      AllPositive(options) && CacheInvariant(cache, options)
    }

    constructor (options: seq<int>)
      requires AllPositive(options)
      ensures Valid() && this.options == options && cache == map[]
    {
      this.options := options;
      cache := map[];
    }

    /**
     * The inner procedure: returns the generalized count, and leaves the
     * cache holding exactly its old keys plus every distance the recursion
     * visits from `stepsLeft`; on a hit it rewrites the stored value, so the
     * cache is unchanged.
     */
    method Count(stepsLeft: int) returns (count: nat)
      requires Valid()
      modifies this
      ensures Valid()
      ensures count == Ways(stepsLeft, options)
      ensures cache.Keys == old(cache.Keys) + Subproblems(stepsLeft, options)
      ensures stepsLeft in old(cache) ==> cache == old(cache)
      decreases stepsLeft
    {
      count := 0;
      if stepsLeft in cache {
        count := cache[stepsLeft];
        ClosedHolds(cache.Keys, stepsLeft, options);
      } else {
        var i := 0;
        ghost var reached: set<int> := {};
        while i < |options|
          invariant 0 <= i <= |options|
          invariant Valid()
          invariant AllPositive(options[..i])
          invariant count == WaysOver(stepsLeft, options[..i], options)
          invariant reached == SubproblemsOver(stepsLeft, options[..i], options)
          invariant cache.Keys == old(cache.Keys) + reached
        {
          var opt := options[i];
          var via := 0;
          ghost var added: set<int> := {};
          ghost var before := cache.Keys;
          if stepsLeft - opt == 0 {
            via := 1;
          } else if stepsLeft - opt > 0 {
            via := Count(stepsLeft - opt);
            added := Subproblems(stepsLeft - opt, options);
          }
          Advance(stepsLeft, options, i, count, via, reached, added);
          Regroup(old(cache.Keys), reached, added, before, cache.Keys);
          count := count + via;
          reached := reached + added;
          i := i + 1;
        }
        assert options[..i] == options;
        SubproblemsOverChildren(stepsLeft, options, options);
      }
      Store(cache, options, stepsLeft, count);
      cache := cache[stepsLeft := count];
    }
  }

  /**
   * The outer call: a fresh cache every time, the same answer as the plain
   * recursion. The cache it discards held exactly the distances visited from
   * `stepsLeft`: closed under the recursion, and besides `stepsLeft` all
   * between 1 and `stepsLeft`.
   */
  method CountSteps(stepsLeft: int, options: seq<int>) returns (count: nat, ghost keys: set<int>)
    requires AllPositive(options)
    ensures count == Ways(stepsLeft, options)
    ensures keys == Subproblems(stepsLeft, options) && Closed(keys, options)
    ensures stepsLeft in keys
    ensures stepsLeft >= 1 ==> forall k :: k in keys ==> 1 <= k <= stepsLeft
    ensures stepsLeft < 1 ==> keys == {stepsLeft}
  {
    var memo := new Memo(options);
    count := memo.Count(stepsLeft);
    keys := memo.cache.Keys;
    SubproblemsBounds(stepsLeft, options);
  }
}
