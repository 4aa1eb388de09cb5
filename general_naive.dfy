/**
 * The third counter of count-steps.js: any list of step sizes. A loop over
 * the options adds 1 for an option that lands exactly on the top, recurses
 * for one that stays below it, and skips one that overshoots.
 */
module GeneralNaive {
  import opened StepsSpec

  /** The plain recursive counter; its total is the sum over the options, in order. */
  method CountSteps(stepsLeft: int, options: seq<int>) returns (count: nat)
    requires AllPositive(options)
    ensures count == Ways(stepsLeft, options)
    decreases stepsLeft
  {
    count := 0;
    var i := 0;
    while i < |options|
      invariant 0 <= i <= |options|
      invariant AllPositive(options[..i])
      invariant count == WaysOver(stepsLeft, options[..i], options)
    {
      var opt := options[i];
      WaysOverExtend(stepsLeft, options, i);
      if stepsLeft - opt == 0 {
        count := count + 1;
      } else if stepsLeft - opt > 0 {
        var rest := CountSteps(stepsLeft - opt, options);
        count := count + rest;
      }
      i := i + 1;
    }
    assert options[..i] == options;
  }
}
