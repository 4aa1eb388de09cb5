# Counting ways up a staircase

A model of `count-steps.js`, which counts the ways to climb a staircase when
each move takes one of a few allowed step sizes. Order matters, so the
counts are numbers of ordered compositions. The file develops four counters,
and all four are modelled:

1. a fixed-step counter for steps of 1 or 2, a plain recursion
   (`FixedNaive.CountSteps`, a function);
2. the same recursion behind a cache that each outer call creates afresh
   (`FixedMemo`: the cache is the `cache` field of a `Memo` object, and the
   inner procedure `_countSteps` is the recursive method `Memo.Count`);
3. a generalized counter over an array of options, a recursion with a loop
   that accumulates a running count (`GeneralNaive.CountSteps`, a method);
4. the generalized counter behind a cache keyed on the stairs left only
   (`GeneralMemo`, shaped like `FixedMemo`).

The recurrence of the generalized counter is the specification function
`StepsSpec.Ways`, and `StepPaths` gives it its meaning: `Ways(n, options)`
is the number of non-empty sequences of options that add up to `n`, each
counted once when the options are distinct. The fixed-step function agrees
with `Ways(n, [1, 2])` on every non-empty staircase. Each memoized method is
proved to return the value of its plain recursion. Its cache invariant is
proved too: every entry holds the right count. One call leaves exactly the
distances its recursion visits as keys: 0..n for the fixed-step counter, and
`GeneralMemo.Subproblems` for the generalized one.

The model follows the code, including at these points:

- The generalized counter has no base case. With no stairs left (or fewer) it
  returns 0, while the fixed-step counter returns 1 for an empty staircase
  (`StepsSpec.WaysNonPositive`, `FixedNaive.ZeroDiffers`).
- Options are an array and are not deduplicated. A repeated option is counted
  once per occurrence (`StepsSpec.DuplicatesCountTwice`).
- The inner procedure of the memoized generalized counter receives `options`
  again on every call, but every call passes the same array. The model keeps
  the options as a constant of the cache object.
- The comment beside the 60-stair call says it returns 13. The recursion
  gives 2504730781961 there (`FixedNaive.SixtyStairs`).

Stairs counts are unbounded integers. The fixed-step counters take natural
numbers. The generalized ones take any integer, because the code handles
negative distances: no option fires and the count is 0. The options must all
be positive (`StepsSpec.AllPositive`). The code leaves this to the caller,
and without it the recursion does not terminate.

## Model

| member | source | states |
|---|---|---|
| `FixedNaive.CountSteps` | count-steps.js:70-82 | every staircase, the empty one included, can be climbed in at least one way |
| `FixedNaive.AgreesWithGeneral` | count-steps.js:70-82 | for one or more stairs the fixed counter equals the generalized count with options [1, 2] |
| `FixedNaive.ZeroDiffers` | count-steps.js:73-74 | with no stairs left the fixed counter gives 1 and the generalized counter with [1, 2] gives 0 |
| `FixedNaive.CountsClimbs` | count-steps.js:70-82 | the fixed count is 1 for no stairs, else the number of distinct sequences of 1s and 2s summing to the stairs |
| `FixedNaive.SampleValues` | count-steps.js:84-86 | 4, 5 and 6 stairs give 5, 8 and 13 |
| `FixedNaive.SixtyStairs` | count-steps.js:158 | 60 stairs give 2504730781961 |
| `FixedMemo.Memo.constructor` | count-steps.js:128 | a new cache is empty and satisfies the cache invariant |
| `FixedMemo.Store` | count-steps.js:147 | storing the correct count keeps every entry correct and the keys gap-free, and storing on a hit leaves the cache unchanged |
| `FixedMemo.Memo.Count` | count-steps.js:130-149 | returns the plain recursive count; afterwards the cache keeps its invariant and holds exactly its old keys plus 0..stairsLeft; on a hit the cache is unchanged |
| `FixedMemo.CacheInvariant` | count-steps.js:135-147 | a cache entry holds the fixed-step count of its key, and the keys have no gaps |
| `FixedMemo.CountSteps` | count-steps.js:127-152 | a fresh cache per call, the same value as the plain recursion for every staircase, so independent calls agree; the discarded cache held exactly the keys 0..stairsLeft, stairsLeft + 1 of them |
| `FixedMemo.UpTo` | count-steps.js:135-148 | the staircases 0..n are exactly n + 1 keys |
| `StepsSpec.Ways` | count-steps.js:299-311 | the generalized count: the loop's total over the whole options array, recursing with the same array |
| `StepsSpec.WaysOver` | count-steps.js:300-308 | the running count after the loop has visited some of the options |
| `StepsSpec.WaysVia` | count-steps.js:303-307 | one option adds 1 on an exact hit, the count of what remains when below the top, and nothing on an overshoot |
| `StepsSpec.WaysOverExtend` | count-steps.js:302-308 | one more pass of the loop adds 1 for an exact hit, the count of the rest for an option below the top, and nothing for an overshoot |
| `StepsSpec.WaysOverAppend` | count-steps.js:302-308 | the loop's total over two runs of options is the sum of their totals |
| `StepsSpec.WaysOverPermutation` | count-steps.js:302-308 | visiting the options in any order gives the same total |
| `StepsSpec.WaysPermutation` | count-steps.js:299-311 | the count depends only on the multiset of options, not on their order in the array |
| `StepsSpec.WaysNonPositive` | count-steps.js:303-306 | with zero or fewer stairs left no option fires and the count is 0 |
| `StepsSpec.WaysMonotone` | count-steps.js:299-311 | when 1 is an option, one more stair never gives fewer ways |
| `StepsSpec.WaysSingleStep` | count-steps.js:299-311 | with the single option 1 every non-empty staircase has exactly one way |
| `StepsSpec.DuplicatesCountTwice` | count-steps.js:302-308 | duplicate options are counted per occurrence: 2 stairs give 1 way with [1] and 4 with [1, 1] |
| `StepsSpec.SampleValues` | count-steps.js:313-317 | [1, 2] gives 5, 8 and 13 for 4, 5 and 6 stairs; [1, 2, 3] gives 24 for 6 stairs |
| `StepPaths.PathsCount` | count-steps.js:299-311 | the enumeration of climbs along the counter's recursion has exactly as many entries as the count |
| `StepPaths.PathsSound` | count-steps.js:299-311 | every enumerated sequence is non-empty, made of options, and sums to the stairs left |
| `StepPaths.PathsComplete` | count-steps.js:299-311 | every non-empty sequence of options summing to the stairs left is enumerated |
| `StepPaths.PathsDistinct` | count-steps.js:299-311 | with distinct options no sequence is enumerated twice |
| `StepPaths.WaysCountsClimbs` | count-steps.js:299-311 | the counted set is exactly the climbs made of options, and with distinct options its size is the count |
| `GeneralNaive.CountSteps` | count-steps.js:299-311 | the loop-and-recursion counter returns the sum over the options, in array order, of the three cases |
| `GeneralMemo.Memo.constructor` | count-steps.js:330 | a new cache is empty, tied to the options of this call, and satisfies the cache invariant |
| `GeneralMemo.Subproblems` | count-steps.js:334-343 | the distances the recursion visits from stepsLeft: itself and those reached through each option below the top |
| `GeneralMemo.SubproblemsBounds` | count-steps.js:338-341 | stepsLeft is visited, every other visited distance lies strictly between 0 and stepsLeft, and with zero or fewer stairs left stepsLeft is the only one |
| `GeneralMemo.ClosedHolds` | count-steps.js:334-336 | a key set closed under the recursion that holds a distance holds every distance visited from it, so a hit needs no new keys |
| `GeneralMemo.CacheInvariant` | count-steps.js:334-346 | a cache entry holds the generalized count of its key under the call's options, and the keys are closed under the recursion |
| `GeneralMemo.Store` | count-steps.js:346 | storing the correct count, once every smaller distance reached through an option is cached, keeps the invariant, adds only that key, and leaves the cache unchanged on a hit |
| `GeneralMemo.Memo.Count` | count-steps.js:332-348 | returns the generalized count; afterwards the cache keeps its invariant and holds exactly its old keys plus the distances visited from stepsLeft; on a hit the cache is unchanged |
| `GeneralMemo.CountSteps` | count-steps.js:329-351 | a fresh cache per call, the same value as the plain recursion, so independent calls agree; the discarded cache held exactly the visited distances, closed under the recursion, and only keys in 1..stepsLeft when stepsLeft is at least 1 (only stepsLeft otherwise) |

## Left out

- The `console.log` demonstrations and the immediately invoked wrappers around each counter are output glue. Their sample values are stated as lemmas instead.
- JavaScript numbers are doubles. The counts here are unbounded integers, so precision loss above 2^53 is not modelled.
- A negative staircase in the fixed-step counters recurses without end in the code. Those counters take natural numbers.
- Zero or negative options make the generalized counters loop forever or miscount. Callers must pass positive options.
- The running-time and memory claims in the comments are not modelled. What is modelled is which keys one call leaves in its cache, for both memoized counters.
- The closures that capture the cache become a short-lived object. Each outer call allocates its own.
