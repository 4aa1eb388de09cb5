/**
 * What the generalized count counts: the ordered sequences of options that
 * climb exactly `stepsLeft` stairs. `Paths` enumerates them along the same
 * recursion as `Ways`; the lemmas show that the enumeration has `Ways`
 * entries, holds only climbs, holds every climb, and, when the options are
 * distinct, holds each climb once.
 */
module StepPaths {
  import opened StepsSpec

  /** Total height covered by a sequence of steps. */
  function Sum(steps: seq<int>): int
  {
    if steps == [] then 0 else steps[0] + Sum(steps[1..])
  }

  /** `path` is a non-empty sequence of options that covers exactly `stepsLeft` stairs. */
  ghost predicate IsClimb(path: seq<int>, stepsLeft: int, options: seq<int>)
  {
    |path| >= 1 && Sum(path) == stepsLeft && forall i :: 0 <= i < |path| ==> path[i] in options
  }

  /** No element occurs twice. */
  ghost predicate Distinct<T>(s: seq<T>)
  {
    forall i, j :: 0 <= i < j < |s| ==> s[i] != s[j]
  }

  function Prepend(opt: int, paths: seq<seq<int>>): seq<seq<int>>
  {
    seq(|paths|, i requires 0 <= i < |paths| => [opt] + paths[i])
  }

  /** Every climb, listed in the order the counter's recursion discovers them. */
  function Paths(stepsLeft: int, options: seq<int>): seq<seq<int>>
    requires AllPositive(options)
    decreases stepsLeft, 1
  {
    PathsOver(stepsLeft, options, options)
  }

  function PathsOver(stepsLeft: int, visited: seq<int>, options: seq<int>): seq<seq<int>>
    requires AllPositive(visited) && AllPositive(options)
    decreases stepsLeft, 0, |visited|
  {
    if visited == [] then []
    else PathsOver(stepsLeft, visited[..|visited| - 1], options)
         + PathsVia(stepsLeft, visited[|visited| - 1], options)
  }

  /** The climbs whose first step is `opt`. */
  function PathsVia(stepsLeft: int, opt: int, options: seq<int>): seq<seq<int>>
    requires opt > 0 && AllPositive(options)
    decreases stepsLeft, 0, 0
  {
    if stepsLeft - opt == 0 then [[opt]]
    else if stepsLeft - opt > 0 then Prepend(opt, Paths(stepsLeft - opt, options))
    else []
  }

  /** The set of climbs the count is about. */
  ghost function Climbs(stepsLeft: int, options: seq<int>): set<seq<int>>
    requires AllPositive(options)
  {
    set p | p in Paths(stepsLeft, options)
  }

  lemma {:induction false} PathsOverCount(stepsLeft: int, visited: seq<int>, options: seq<int>)
    requires AllPositive(visited) && AllPositive(options)
    ensures |PathsOver(stepsLeft, visited, options)| == WaysOver(stepsLeft, visited, options)
    decreases stepsLeft, 0, |visited|
  {
    if visited != [] {
      var opt := visited[|visited| - 1];
      PathsOverCount(stepsLeft, visited[..|visited| - 1], options);
      if stepsLeft - opt > 0 {
        PathsCount(stepsLeft - opt, options);
      }
    }
  }

  /** The enumeration has exactly as many entries as the count. */
  lemma {:induction false} PathsCount(stepsLeft: int, options: seq<int>)
    requires AllPositive(options)
    ensures |Paths(stepsLeft, options)| == Ways(stepsLeft, options)
    decreases stepsLeft, 1
  {
    PathsOverCount(stepsLeft, options, options);
  }

  lemma SumPrepend(opt: int, rest: seq<int>)
    ensures Sum([opt] + rest) == opt + Sum(rest)
  {
  }

  /** A non-empty sequence of positive steps climbs a positive height. */
  lemma {:induction false} SumPositive(path: seq<int>, options: seq<int>)
    requires AllPositive(options)
    requires forall i :: 0 <= i < |path| ==> path[i] in options
    ensures Sum(path) >= |path|
    decreases |path|
  {
    if path != [] {
      SumPositive(path[1..], options);
      assert path[0] in options;
    }
  }

  lemma {:induction false} PathsOverSound(stepsLeft: int, visited: seq<int>, options: seq<int>)
    requires AllPositive(visited) && AllPositive(options)
    requires forall i :: 0 <= i < |visited| ==> visited[i] in options
    ensures forall p :: p in PathsOver(stepsLeft, visited, options) ==>
              IsClimb(p, stepsLeft, options) && p[0] in visited
    decreases stepsLeft, 0, |visited|
  {
    if visited != [] {
      var front, opt := visited[..|visited| - 1], visited[|visited| - 1];
      PathsOverSound(stepsLeft, front, options);
      if stepsLeft - opt > 0 {
        PathsSound(stepsLeft - opt, options);
        var rest := Paths(stepsLeft - opt, options);
        forall p | p in PathsVia(stepsLeft, opt, options)
          ensures IsClimb(p, stepsLeft, options) && p[0] == opt
        {
          var k :| 0 <= k < |rest| && p == [opt] + rest[k];
          SumPrepend(opt, rest[k]);
          assert rest[k] in rest;
        }
      }
      forall p | p in PathsOver(stepsLeft, visited, options)
        ensures IsClimb(p, stepsLeft, options) && p[0] in visited
      {
        if p in PathsOver(stepsLeft, front, options) {
          assert p[0] in front;
        }
      }
    }
  }

  /** Every enumerated path is a climb of `stepsLeft` stairs made of options. */
  lemma PathsSound(stepsLeft: int, options: seq<int>)
    requires AllPositive(options)
    ensures forall p :: p in Paths(stepsLeft, options) ==> IsClimb(p, stepsLeft, options)
    decreases stepsLeft, 1
  {
    PathsOverSound(stepsLeft, options, options);
  }

  /** The climbs starting with the `k`-th visited option are among those of the whole loop. */
  lemma {:induction false} PathsOverHolds(stepsLeft: int, visited: seq<int>, options: seq<int>, k: nat)
    requires AllPositive(visited) && AllPositive(options) && k < |visited|
    ensures forall p :: p in PathsVia(stepsLeft, visited[k], options) ==>
              p in PathsOver(stepsLeft, visited, options)
    decreases |visited|
  {
    if k < |visited| - 1 {
      PathsOverHolds(stepsLeft, visited[..|visited| - 1], options, k);
    }
  }

  /** Every climb of `stepsLeft` stairs made of options is enumerated. */
  lemma {:induction false} PathsComplete(stepsLeft: int, options: seq<int>, path: seq<int>)
    requires AllPositive(options)
    requires IsClimb(path, stepsLeft, options)
    ensures path in Paths(stepsLeft, options)
    decreases |path|
  {
    var opt, rest := path[0], path[1..];
    assert path == [opt] + rest;
    SumPrepend(opt, rest);
    var k :| 0 <= k < |options| && options[k] == opt;
    if rest == [] {
      assert path == [opt] && stepsLeft == opt;
      assert PathsVia(stepsLeft, opt, options) == [path];
    } else {
      SumPositive(rest, options);
      PathsComplete(stepsLeft - opt, options, rest);
      var sub := Paths(stepsLeft - opt, options);
      var i :| 0 <= i < |sub| && sub[i] == rest;
      assert Prepend(opt, sub)[i] == path;
    }
    PathsOverHolds(stepsLeft, options, options, k);
  }

  /** Joining two duplicate-free lists with no common element gives a duplicate-free list. */
  lemma DistinctConcat<T>(a: seq<T>, b: seq<T>)
    requires Distinct(a) && Distinct(b)
    requires forall x :: x in a ==> x !in b
    ensures Distinct(a + b)
  {
    forall i, j | 0 <= i < j < |a + b| ensures (a + b)[i] != (a + b)[j] {
      if i < |a| && j >= |a| {
        assert (a + b)[i] in a && (a + b)[j] in b;
      }
    }
  }

  lemma {:induction false} PathsOverDistinct(stepsLeft: int, visited: seq<int>, options: seq<int>)
    requires AllPositive(visited) && AllPositive(options)
    requires Distinct(visited) && Distinct(options)
    requires forall i :: 0 <= i < |visited| ==> visited[i] in options
    ensures Distinct(PathsOver(stepsLeft, visited, options))
    decreases stepsLeft, 0, |visited|
  {
    if visited != [] {
      var front, opt := visited[..|visited| - 1], visited[|visited| - 1];
      PathsOverDistinct(stepsLeft, front, options);
      PathsOverSound(stepsLeft, front, options);
      var via := PathsVia(stepsLeft, opt, options);
      if stepsLeft - opt > 0 {
        PathsDistinct(stepsLeft - opt, options);
        var rest := Paths(stepsLeft - opt, options);
        forall i, j | 0 <= i < j < |via| ensures via[i] != via[j] {
          assert via[i][1..] == rest[i] && via[j][1..] == rest[j];
        }
      }
      assert forall p :: p in PathsOver(stepsLeft, front, options) ==> p !in via;
      DistinctConcat(PathsOver(stepsLeft, front, options), via);
    }
  }

  /** With distinct options, no climb is enumerated twice. */
  lemma PathsDistinct(stepsLeft: int, options: seq<int>)
    requires AllPositive(options) && Distinct(options)
    ensures Distinct(Paths(stepsLeft, options))
    decreases stepsLeft, 1
  {
    PathsOverDistinct(stepsLeft, options, options);
  }

  /** A duplicate-free list has as many distinct elements as entries. */
  lemma {:induction false} DistinctCardinality<T>(s: seq<T>)
    requires Distinct(s)
    ensures |set x | x in s| == |s|
    decreases |s|
  {
    if s != [] {
      var front := s[..|s| - 1];
      DistinctCardinality(front);
      assert (set x | x in s) == (set x | x in front) + {s[|s| - 1]};
      assert s[|s| - 1] !in (set x | x in front);
    }
  }

  /**
   * The generalized counter counts climbs: `Climbs` holds exactly the climbs
   * of `stepsLeft` stairs made of options, and when the options are distinct
   * there are `Ways` of them.
   */
  lemma WaysCountsClimbs(stepsLeft: int, options: seq<int>)
    requires AllPositive(options)
    ensures forall p :: p in Climbs(stepsLeft, options) <==> IsClimb(p, stepsLeft, options)
    ensures Distinct(options) ==> |Climbs(stepsLeft, options)| == Ways(stepsLeft, options)
  {
    PathsSound(stepsLeft, options);
    forall p | IsClimb(p, stepsLeft, options) ensures p in Climbs(stepsLeft, options) {
      PathsComplete(stepsLeft, options, p);
    }
    if Distinct(options) {
      PathsDistinct(stepsLeft, options);
      DistinctCardinality(Paths(stepsLeft, options));
      PathsCount(stepsLeft, options);
    }
  }
}
