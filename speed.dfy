/**
 * The speed controller: the tick interval, in milliseconds, as a clamped step
 * function of the score.
 */
module Speed {

  /** Interval of a new game. */
  const SpeedInit := 120
  /** The interval shrinks once per this many points. */
  const SpeedStepEvery := 5
  /** By this many milliseconds each time. */
  const SpeedDecrease := 10
  /** The fastest interval, a floor the interval never goes below. */
  const SpeedMin := 40

  /** The interval adjustSpeed computes for `score`:
      speedInit - floor(score / speedStepEvery) * speedDecrease, raised to speedMin. */
  function SpeedFor(score: nat): (ms: int)
    ensures SpeedMin <= ms <= SpeedInit
  {
    var steps := score / SpeedStepEvery;
    var raw := SpeedInit - steps * SpeedDecrease;
    if raw < SpeedMin then SpeedMin else raw
  }

  /** A higher score never gives a slower game. */
  lemma SpeedNonIncreasing(s1: nat, s2: nat)
    requires s1 <= s2
    ensures SpeedFor(s1) >= SpeedFor(s2)
  {
  }

  /** The floor is reached exactly from score 40 on: 8 steps of 10 ms take 120 ms to 40 ms. */
  lemma SpeedAtFloorIff(score: nat)
    ensures SpeedFor(score) == SpeedMin <==> score >= 40
  {
  }

  /** Between two multiples of speedStepEvery the interval stays the same,
      so it changes only on scores that are multiples of 5. */
  lemma SpeedChangesOnlyAtMultiples(score: nat)
    requires score % SpeedStepEvery != 0
    ensures SpeedFor(score) == SpeedFor(score - 1)
  {
  }

  /** The worked values: 0 gives 120, 5 gives 110, 20 gives 80, 200 is clamped to 40. */
  lemma SpeedExamples()
    ensures SpeedFor(0) == 120 && SpeedFor(5) == 110
    ensures SpeedFor(20) == 80 && SpeedFor(200) == 40
  {
  }
}
