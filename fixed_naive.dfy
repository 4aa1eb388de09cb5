/**
 * The first counter of count-steps.js: steps of 1 or 2 stairs, written as
 * a plain recursion with the two smallest staircases handled by hand.
 */
module FixedNaive {
  import opened StepsSpec
  import opened StepPaths

  /**
   * Ways to climb `stairsLeft` stairs with steps of 1 or 2. An empty staircase
   * is climbed one way (by taking no step); every staircase is climbable.
   */
  function CountSteps(stairsLeft: nat): (noSolutions: nat)
    ensures noSolutions >= 1
  {
    if stairsLeft == 0 then 1
    else if stairsLeft == 1 then CountSteps(stairsLeft - 1)
    else CountSteps(stairsLeft - 1) + CountSteps(stairsLeft - 2)
  }

  /**
   * On any non-empty staircase the fixed counter agrees with the generalized
   * one given the options [1, 2].
   */
  lemma {:induction false} AgreesWithGeneral(stairsLeft: nat)
    requires stairsLeft >= 1
    ensures AllPositive([1, 2]) && CountSteps(stairsLeft) == Ways(stairsLeft, [1, 2])
    decreases stairsLeft
  {
    var two := [1, 2];
    assert two[..1] == [1] && [1][..0] == [];
    assert WaysOver(stairsLeft, [1], two) == WaysVia(stairsLeft, 1, two);
    assert Ways(stairsLeft, two) == WaysVia(stairsLeft, 1, two) + WaysVia(stairsLeft, 2, two);
    if stairsLeft >= 2 {
      AgreesWithGeneral(stairsLeft - 1);
      if stairsLeft >= 3 {
        AgreesWithGeneral(stairsLeft - 2);
      }
    }
  }

  /**
   * The one place the two counters part: with no stairs left the fixed counter
   * answers 1 and the generalized one 0.
   */
  lemma ZeroDiffers()
    ensures AllPositive([1, 2])
    ensures CountSteps(0) == 1 && Ways(0, [1, 2]) == 0
  {
  }

  /**
   * The fixed counter counts climbs with steps of 1 and 2: the empty climb for
   * an empty staircase, otherwise every sequence of 1s and 2s adding up to
   * `stairsLeft`, each once.
   */
  lemma CountsClimbs(stairsLeft: nat)
    ensures AllPositive([1, 2])
    ensures stairsLeft == 0 ==> CountSteps(stairsLeft) == 1
    ensures stairsLeft >= 1 ==> CountSteps(stairsLeft) == |Climbs(stairsLeft, [1, 2])|
    ensures forall p :: p in Climbs(stairsLeft, [1, 2]) <==> IsClimb(p, stairsLeft, [1, 2])
  {
    var two := [1, 2];
    WaysCountsClimbs(stairsLeft, two);
    if stairsLeft >= 1 {
      AgreesWithGeneral(stairsLeft);
    }
  }

  /** 4, 5 and 6 stairs are climbed in 5, 8 and 13 ways. */
  lemma SampleValues()
    ensures CountSteps(4) == 5 && CountSteps(5) == 8 && CountSteps(6) == 13
  {
  }

  /** The count the code prints for 60 stairs, found one staircase at a time. */
  lemma SixtyStairs()
    ensures CountSteps(60) == 2504730781961
  {
    assert CountSteps(2) == 2;
    assert CountSteps(3) == 3;
    assert CountSteps(4) == 5;
    assert CountSteps(5) == 8;
    assert CountSteps(6) == 13;
    assert CountSteps(7) == 21;
    assert CountSteps(8) == 34;
    assert CountSteps(9) == 55;
    assert CountSteps(10) == 89;
    assert CountSteps(11) == 144;
    assert CountSteps(12) == 233;
    assert CountSteps(13) == 377;
    assert CountSteps(14) == 610;
    assert CountSteps(15) == 987;
    assert CountSteps(16) == 1597;
    assert CountSteps(17) == 2584;
    assert CountSteps(18) == 4181;
    assert CountSteps(19) == 6765;
    assert CountSteps(20) == 10946;
    assert CountSteps(21) == 17711;
    assert CountSteps(22) == 28657;
    assert CountSteps(23) == 46368;
    assert CountSteps(24) == 75025;
    assert CountSteps(25) == 121393;
    assert CountSteps(26) == 196418;
    assert CountSteps(27) == 317811;
    assert CountSteps(28) == 514229;
    assert CountSteps(29) == 832040;
    assert CountSteps(30) == 1346269;
    assert CountSteps(31) == 2178309;
    assert CountSteps(32) == 3524578;
    assert CountSteps(33) == 5702887;
    assert CountSteps(34) == 9227465;
    assert CountSteps(35) == 14930352;
    assert CountSteps(36) == 24157817;
    assert CountSteps(37) == 39088169;
    assert CountSteps(38) == 63245986;
    assert CountSteps(39) == 102334155;
    assert CountSteps(40) == 165580141;
    assert CountSteps(41) == 267914296;
    assert CountSteps(42) == 433494437;
    assert CountSteps(43) == 701408733;
    assert CountSteps(44) == 1134903170;
    assert CountSteps(45) == 1836311903;
    assert CountSteps(46) == 2971215073;
    assert CountSteps(47) == 4807526976;
    assert CountSteps(48) == 7778742049;
    assert CountSteps(49) == 12586269025;
    assert CountSteps(50) == 20365011074;
    assert CountSteps(51) == 32951280099;
    assert CountSteps(52) == 53316291173;
    assert CountSteps(53) == 86267571272;
    assert CountSteps(54) == 139583862445;
    assert CountSteps(55) == 225851433717;
    assert CountSteps(56) == 365435296162;
    assert CountSteps(57) == 591286729879;
    assert CountSteps(58) == 956722026041;
    assert CountSteps(59) == 1548008755920;
    assert CountSteps(60) == 2504730781961;
  }
}
