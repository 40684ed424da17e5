/**
 Where the room's cursor stands after a number of rounds. Each round moves it one to MAX_STEP
 nodes forward on a ring of n questions; it starts on the last one loaded and is never reset.
 */
module RingWalk {
  import Modular

  const MAX_STEP := 5

  function Sum(steps: seq<nat>): nat
  {
    if steps == [] then 0 else Sum(steps[..|steps| - 1]) + steps[|steps| - 1]
  }

  /** A step is rand() % MAX_STEP + 1. */
  predicate Steps(walk: seq<nat>)
  {
    forall i :: 0 <= i < |walk| ==> 1 <= walk[i] <= MAX_STEP
  }

  /** The load position of the question asked in the given round; round 0 is the start. */
  function Position(n: nat, walk: seq<nat>, round: nat): (p: nat)
    requires n > 0 && round <= |walk|
    ensures p < n
  {
    (n - 1 + Sum(walk[..round])) % n
  }

  // One more round moves the cursor by one more step.
  lemma PositionAdvances(n: nat, walk: seq<nat>, step: nat)
    requires n > 0
    ensures Position(n, walk + [step], |walk| + 1) == (Position(n, walk, |walk|) + step) % n
  {
    assert walk[..|walk|] == walk;
    assert (walk + [step])[..|walk| + 1] == walk + [step];
    assert (walk + [step])[..|walk|] == walk;
    Modular.AddRemainder(n - 1 + Sum(walk), step, n);
  }

  lemma {:induction false} SumSplits(steps: seq<nat>, i: nat)
    requires i <= |steps|
    ensures Sum(steps) == Sum(steps[..i]) + Sum(steps[i..])
  {
    if i == |steps| {
      assert steps[..i] == steps && steps[i..] == [];
    } else {
      var init := steps[..|steps| - 1];
      SumSplits(init, i);
      assert init[..i] == steps[..i];
      assert steps[i..][..|steps[i..]| - 1] == init[i..];
    }
  }

  lemma {:induction false} SumBounds(walk: seq<nat>)
    requires Steps(walk)
    ensures |walk| <= Sum(walk) <= MAX_STEP * |walk|
  {
    if walk != [] {
      SumBounds(walk[..|walk| - 1]);
    }
  }

  // Two rounds share a question exactly when the steps between them go round the ring.
  lemma SameQuestionIff(n: nat, walk: seq<nat>, i: nat, j: nat)
    requires n > 0 && i <= j <= |walk|
    ensures Position(n, walk, i) == Position(n, walk, j) <==> Sum(walk[i..j]) % n == 0
  {
    SumSplits(walk[..j], i);
    assert walk[..j][..i] == walk[..i] && walk[..j][i..] == walk[i..j];
    Modular.SameResidue(n - 1 + Sum(walk[..i]), Sum(walk[i..j]), n);
  }

  // Rounds i < j of one room never share a question on a ring of more than MAX_STEP * (j - i).
  lemma NoRepeatedQuestion(n: nat, walk: seq<nat>, i: nat, j: nat)
    requires Steps(walk) && i < j <= |walk| && n > MAX_STEP * (j - i)
    ensures Position(n, walk, i) != Position(n, walk, j)
  {
    SumBounds(walk[i..j]);
    SameQuestionIff(n, walk, i, j);
    Modular.Small(Sum(walk[i..j]), n);
  }

  /** count steps that add up to total. */
  function Filling(count: nat, total: nat): (steps: seq<nat>)
    requires count <= total <= MAX_STEP * count
    ensures |steps| == count && Steps(steps) && Sum(steps) == total
  {
    if count == 0 then []
    else
      var last := if total - (count - 1) <= MAX_STEP then total - (count - 1) else MAX_STEP;
      Filling(count - 1, total - last) + [last]
  }

  // The bound is sharp: on any smaller ring some walk repeats the question after d rounds.
  lemma RepeatOnSmallRing(n: nat, d: nat) returns (walk: seq<nat>)
    requires 0 < n <= MAX_STEP * d
    ensures Steps(walk) && |walk| == d + 1 && Position(n, walk, 1) == Position(n, walk, d + 1)
  {
    var total := MAX_STEP * d - MAX_STEP * d % n;
    assert total == n * (MAX_STEP * d / n);
    Modular.Unique(total, n, MAX_STEP * d / n, 0);
    if n > 4 * d {
      Modular.AtLeast(n, MAX_STEP * d / n);
    }
    walk := [1] + Filling(d, total);
    assert walk[1..d + 1] == Filling(d, total);
    SameQuestionIff(n, walk, 1, d + 1);
  }

  /** No walk asks the same question in two rounds d apart. */
  ghost predicate NeverRepeatsAfter(n: nat, d: nat)
    requires n > 0
  {
    forall walk: seq<nat>, i: nat | Steps(walk) && i + d <= |walk| ::
      Position(n, walk, i) != Position(n, walk, i + d)
  }

  // Exactly how many questions keep two rounds d apart from sharing one.
  lemma NeverRepeatsIff(n: nat, d: nat)
    requires n > 0 && d > 0
    ensures NeverRepeatsAfter(n, d) <==> n > MAX_STEP * d
  {
    if n > MAX_STEP * d {
      forall walk: seq<nat>, i: nat | Steps(walk) && i + d <= |walk|
        ensures Position(n, walk, i) != Position(n, walk, i + d)
      {
        NoRepeatedQuestion(n, walk, i, i + d);
      }
    } else {
      var walk := RepeatOnSmallRing(n, d);
      assert !(Position(n, walk, 1) != Position(n, walk, 1 + d));
    }
  }

  // With more than 70 questions the 15 rounds of a game, wherever it starts, ask 15 different ones.
  lemma GameQuestionsDiffer(n: nat, walk: seq<nat>, start: nat, i: nat, j: nat)
    requires n > 70 && Steps(walk) && start + 15 <= |walk|
    requires 1 <= i < j <= 15
    ensures Position(n, walk, start + i) != Position(n, walk, start + j)
  {
    NoRepeatedQuestion(n, walk, start + i, start + j);
  }
}
