/**
 * The recurrence behind the generalized stair counter of count-steps.js:
 * the number of ways to cover `stepsLeft` stairs when each move takes one
 * of the step sizes listed in `options`.
 *
 * The counter walks the options array in order and, for each option,
 *   - adds 1 when the option lands exactly on the top,
 *   - adds the count for the remaining distance when it stays below it,
 *   - adds nothing when it overshoots.
 * There is no separate base case: a distance of 0 (or less) gets no
 * contribution from any positive option and counts 0.
 *
 * Options are a sequence, not a set: a duplicated option is visited, and so
 * counted, once per occurrence.
 */
module StepsSpec {

  /** Every option is a step forward. This is what makes the recursion terminate. */
  predicate AllPositive(options: seq<int>)
  {
    forall i :: 0 <= i < |options| ==> options[i] > 0
  }

  /** What the generalized counter returns for `stepsLeft` and `options`. */
  function Ways(stepsLeft: int, options: seq<int>): nat
    requires AllPositive(options)
    decreases stepsLeft, 1
  {
    WaysOver(stepsLeft, options, options)
  }

  /**
   * The running total after the loop has visited `visited` (a prefix of the
   * options array, or any rearrangement of it); recursive counts are always
   * taken with the full `options`.
   */
  function WaysOver(stepsLeft: int, visited: seq<int>, options: seq<int>): nat
    requires AllPositive(visited) && AllPositive(options)
    decreases stepsLeft, 0, |visited|
  {
    if visited == [] then 0
    else WaysOver(stepsLeft, visited[..|visited| - 1], options)
         + WaysVia(stepsLeft, visited[|visited| - 1], options)
  }

  /** What one pass of the loop body adds for the option `opt`. */
  function WaysVia(stepsLeft: int, opt: int, options: seq<int>): nat
    requires opt > 0 && AllPositive(options)
    decreases stepsLeft, 0, 0
  {
    if stepsLeft - opt == 0 then 1
    else if stepsLeft - opt > 0 then Ways(stepsLeft - opt, options)
    else 0
  }

  /** Summing over a prefix one option longer adds that option's contribution. */
  lemma WaysOverExtend(stepsLeft: int, options: seq<int>, i: nat)
    requires AllPositive(options) && i < |options|
    ensures AllPositive(options[..i]) && AllPositive(options[..i + 1])
    ensures WaysOver(stepsLeft, options[..i + 1], options)
         == WaysOver(stepsLeft, options[..i], options) + WaysVia(stepsLeft, options[i], options)
  {
    assert options[..i + 1][..i] == options[..i];
  }

  /** The loop's total is additive over a split of the visited options. */
  lemma {:induction false} WaysOverAppend(stepsLeft: int, a: seq<int>, b: seq<int>, options: seq<int>)
    requires AllPositive(a) && AllPositive(b) && AllPositive(options)
    ensures AllPositive(a + b)
    ensures WaysOver(stepsLeft, a + b, options)
         == WaysOver(stepsLeft, a, options) + WaysOver(stepsLeft, b, options)
    decreases |b|
  {
    if b == [] {
      assert a + b == a;
    } else {
      var b' := b[..|b| - 1];
      assert (a + b)[..|a + b| - 1] == a + b';
      assert (a + b)[|a + b| - 1] == b[|b| - 1];
      WaysOverAppend(stepsLeft, a, b', options);
    }
  }

  /** Taking the same element out of two equal multisets leaves equal multisets. */
  lemma MultisetRemove(rest: seq<int>, x: int, l: seq<int>, r: seq<int>)
    requires multiset(rest + [x]) == multiset(l + [x] + r)
    ensures multiset(rest) == multiset(l + r)
  {
    calc {
      multiset(rest);
      multiset(rest + [x]) - multiset{x};
      multiset(l + [x] + r) - multiset{x};
      multiset(l + r);
    }
  }

  /** Taking one option out of the visited run removes exactly its contribution. */
  lemma WaysOverRemove(stepsLeft: int, l: seq<int>, x: int, r: seq<int>, options: seq<int>)
    requires AllPositive(l) && x > 0 && AllPositive(r) && AllPositive(options)
    ensures AllPositive(l + [x] + r) && AllPositive(l + r)
    ensures WaysOver(stepsLeft, l + [x] + r, options)
         == WaysOver(stepsLeft, l + r, options) + WaysVia(stepsLeft, x, options)
  {
    var lx := l + [x];
    assert lx[..|lx| - 1] == l;
    WaysOverAppend(stepsLeft, l, r, options);
    WaysOverAppend(stepsLeft, lx, r, options);
  }

  /**
   * The order in which the loop visits the options does not change the total:
   * it depends only on the multiset of visited options.
   */
  lemma {:induction false} WaysOverPermutation(stepsLeft: int, a: seq<int>, b: seq<int>, options: seq<int>)
    requires AllPositive(a) && AllPositive(b) && AllPositive(options)
    requires multiset(a) == multiset(b)
    ensures WaysOver(stepsLeft, a, options) == WaysOver(stepsLeft, b, options)
    decreases |a|
  {
    if a == [] {
      assert |b| == |multiset(b)| == 0;
    } else {
      var x, rest := a[|a| - 1], a[..|a| - 1];
      assert a == rest + [x];
      assert x in multiset(b);
      var j :| 0 <= j < |b| && b[j] == x;
      var l, r := b[..j], b[j + 1..];
      assert b == l + [x] + r;
      WaysOverRemove(stepsLeft, l, x, r, options);
      MultisetRemove(rest, x, l, r);
      WaysOverPermutation(stepsLeft, rest, l + r, options);
    }
  }

  /**
   * Recursive counts taken against two arrangements of the same options agree,
   * for every visited sequence.
   */
  lemma {:induction false} WaysOverContext(stepsLeft: int, visited: seq<int>, o1: seq<int>, o2: seq<int>)
    requires AllPositive(visited) && AllPositive(o1) && AllPositive(o2)
    requires multiset(o1) == multiset(o2)
    ensures WaysOver(stepsLeft, visited, o1) == WaysOver(stepsLeft, visited, o2)
    decreases stepsLeft, 0, |visited|
  {
    if visited != [] {
      var opt := visited[|visited| - 1];
      WaysOverContext(stepsLeft, visited[..|visited| - 1], o1, o2);
      if stepsLeft - opt > 0 {
        WaysPermutation(stepsLeft - opt, o1, o2);
      }
    }
  }

  /** The count does not depend on the order of the options array. */
  lemma {:induction false} WaysPermutation(stepsLeft: int, o1: seq<int>, o2: seq<int>)
    requires AllPositive(o1) && AllPositive(o2)
    requires multiset(o1) == multiset(o2)
    ensures Ways(stepsLeft, o1) == Ways(stepsLeft, o2)
    decreases stepsLeft, 1
  {
    WaysOverContext(stepsLeft, o1, o1, o2);
    WaysOverPermutation(stepsLeft, o1, o2, o2);
  }

  /** With no stairs left (or fewer than none), no visited option contributes. */
  lemma {:induction false} WaysOverNonPositive(stepsLeft: int, visited: seq<int>, options: seq<int>)
    requires AllPositive(visited) && AllPositive(options)
    requires stepsLeft <= 0
    ensures WaysOver(stepsLeft, visited, options) == 0
    decreases |visited|
  {
    if visited != [] {
      WaysOverNonPositive(stepsLeft, visited[..|visited| - 1], options);
    }
  }

  /** With no stairs left (or fewer than none) the count is 0, unlike the fixed-step counter. */
  lemma WaysNonPositive(stepsLeft: int, options: seq<int>)
    requires AllPositive(options)
    requires stepsLeft <= 0
    ensures Ways(stepsLeft, options) == 0
  {
    WaysOverNonPositive(stepsLeft, options, options);
  }

  /** The total over the options is at least the contribution of any one of them. */
  lemma WaysOverAtLeastOne(stepsLeft: int, visited: seq<int>, options: seq<int>, i: nat)
    requires AllPositive(visited) && AllPositive(options) && i < |visited|
    ensures WaysOver(stepsLeft, visited, options) >= WaysVia(stepsLeft, visited[i], options)
  {
  }

  /** When a single stair is an option, one more stair never means fewer ways. */
  lemma WaysMonotone(stepsLeft: int, options: seq<int>)
    requires AllPositive(options) && 1 in options
    ensures Ways(stepsLeft + 1, options) >= Ways(stepsLeft, options)
  {
    if stepsLeft > 0 {
      var i :| 0 <= i < |options| && options[i] == 1;
      WaysOverAtLeastOne(stepsLeft + 1, options, options, i);
    } else {
      WaysNonPositive(stepsLeft, options);
    }
  }

  /** With the single option 1 there is exactly one way up any non-empty staircase. */
  lemma {:induction false} WaysSingleStep(stepsLeft: int)
    requires stepsLeft >= 1
    ensures AllPositive([1]) && Ways(stepsLeft, [1]) == 1
    decreases stepsLeft
  {
    assert [1][..0] == [];
    assert WaysOver(stepsLeft, [1], [1]) == WaysOver(stepsLeft, [], [1]) + WaysVia(stepsLeft, 1, [1]);
    if stepsLeft > 1 {
      WaysSingleStep(stepsLeft - 1);
    }
  }

  /** Duplicates are not removed: listing 1 twice doubles the choices at every stair. */
  lemma DuplicatesCountTwice()
    ensures AllPositive([1]) && AllPositive([1, 1])
    ensures Ways(2, [1]) == 1 && Ways(2, [1, 1]) == 4
  {
  }

  /** The counts for 1 to 6 stairs with steps of 1 or 2: the Fibonacci numbers from 1 on. */
  lemma OneOrTwoValues()
    ensures AllPositive([1, 2])
    ensures Ways(1, [1, 2]) == 1 && Ways(2, [1, 2]) == 2 && Ways(3, [1, 2]) == 3
    ensures Ways(4, [1, 2]) == 5 && Ways(5, [1, 2]) == 8 && Ways(6, [1, 2]) == 13
  {
    var two := [1, 2];
    assert two[..1] == [1] && [1][..0] == [];
    assert Ways(1, two) == 1;
    assert Ways(2, two) == 2;
    assert Ways(3, two) == 3;
    assert Ways(4, two) == 5;
    assert Ways(5, two) == 8;
  }

  /** The counts for 1 to 6 stairs with steps of 1, 2 or 3. */
  lemma UpToThreeValues()
    ensures AllPositive([1, 2, 3])
    ensures Ways(1, [1, 2, 3]) == 1 && Ways(2, [1, 2, 3]) == 2 && Ways(3, [1, 2, 3]) == 4
    ensures Ways(4, [1, 2, 3]) == 7 && Ways(5, [1, 2, 3]) == 13 && Ways(6, [1, 2, 3]) == 24
  {
    var three := [1, 2, 3];
    assert three[..2] == [1, 2] && three[..2][..1] == [1] && [1][..0] == [];
    assert Ways(1, three) == 1;
    assert Ways(2, three) == 2;
    assert Ways(3, three) == 4;
    assert Ways(4, three) == 7;
    assert Ways(5, three) == 13;
  }

  /** Sample values: 4, 5 and 6 stairs with steps of 1 or 2, and 6 stairs with steps of 1, 2 or 3. */
  lemma SampleValues()
    ensures AllPositive([1, 2]) && AllPositive([1, 2, 3])
    ensures Ways(4, [1, 2]) == 5 && Ways(5, [1, 2]) == 8 && Ways(6, [1, 2]) == 13
    ensures Ways(6, [1, 2, 3]) == 24
  {
    OneOrTwoValues();
    UpToThreeValues();
  }
}
