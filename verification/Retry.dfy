/** The retry schedule of one operation. */
module Retry {
  import opened Limits
  import opened Numbers

  datatype RetryDecision = Immediate | Backoff(delayMs: nat) | Exhausted

  /** The spacing of doubles just above 1. */
  const EPSILON: real := 1.0 / 4503599627370496.0

  function Clamp(x: real): (r: real)
    ensures 0.0 <= r < 1.0
  {
    if x < 0.0 then 0.0 else if x > 1.0 - EPSILON then 1.0 - EPSILON else x
  }

  /** `BASE * 2^(attempt - 1)`, at most 64 times the base. */
  function CeilingMs(attempt: nat): nat
    requires attempt > 0
  {
    RETRY_BACKOFF_BASE_MS * Pow2(if attempt - 1 < 6 then attempt - 1 else 6)
  }

  function Decide(attempt: nat, jitter: real): RetryDecision
  {
    if attempt == 0 then Immediate
    else if attempt >= RETRY_MAX_ATTEMPTS then Exhausted
    else Backoff(Delay(CeilingMs(attempt), jitter))
  }

  function Delay(ceilingMs: nat, jitter: real): nat
  {
    DelayIsBelow(ceilingMs, jitter);
    (Clamp(jitter) * ceilingMs as real).Floor
  }

  /** Full jitter stays strictly below the ceiling, whatever the random source returns. */
  lemma DelayIsBelow(ceilingMs: nat, jitter: real)
    ensures 0 <= (Clamp(jitter) * ceilingMs as real).Floor
    ensures ceilingMs > 0 ==> (Clamp(jitter) * ceilingMs as real).Floor < ceilingMs
  {
    var c, m := Clamp(jitter), ceilingMs as real;
    assert 0.0 <= c * m;
    if ceilingMs > 0 {
      assert c * m < 1.0 * m;
    }
  }

  /** The delay made before an attempt. */
  function WaitMs(attempt: nat, jitter: real): nat
  {
    match Decide(attempt, jitter)
    case Backoff(ms) => ms
    case _ => 0
  }

  /** The longest total delay before all attempts from `attempt` on. */
  function WorstMs(attempt: nat): nat
    decreases RETRY_MAX_ATTEMPTS - attempt
  {
    if attempt >= RETRY_MAX_ATTEMPTS then 0
    else (if attempt == 0 then 0 else CeilingMs(attempt) - 1) + WorstMs(attempt + 1)
  }

  lemma WaitIsAtMost(attempt: nat, jitter: real)
    ensures WaitMs(attempt, jitter)
            <= if 0 < attempt < RETRY_MAX_ATTEMPTS then CeilingMs(attempt) - 1 else 0
  {
    if 0 < attempt < RETRY_MAX_ATTEMPTS {
      DelayIsBelow(CeilingMs(attempt), jitter);
    }
  }

  /** The bound is reached when the random source returns its most. */
  lemma WaitIsReached(attempt: nat, jitter: real)
    requires 0 < attempt < RETRY_MAX_ATTEMPTS && jitter >= 1.0
    ensures WaitMs(attempt, jitter) == CeilingMs(attempt) - 1
  {
    assert Pow2(0) == 1 && Pow2(1) == 2 && Pow2(2) == 4 && Pow2(3) == 8;
    var m := CeilingMs(attempt) as real;
    assert m == 1000.0 || m == 2000.0 || m == 4000.0 || m == 8000.0;
    assert Clamp(jitter) * m == m - EPSILON * m;
    assert 0.0 < EPSILON * m < 1.0;
  }

  /**
   * The share of the ceiling that the random source names, in whole milliseconds: of 1, 2, 4 and
   * 8 seconds before the second to the fifth attempt, and of nothing before the first.
   */
  lemma WaitIs(attempt: nat, jitter: real)
    requires attempt < RETRY_MAX_ATTEMPTS
    ensures
      var ceiling, wait := [0, 1_000, 2_000, 4_000, 8_000][attempt] as real, WaitMs(attempt, jitter);
      && (jitter <= 0.0 ==> wait == 0)
      && (0.0 <= jitter <= 1.0 - EPSILON ==> wait as real <= jitter * ceiling < wait as real + 1.0)
  {
    assert Pow2(0) == 1 && Pow2(1) == 2 && Pow2(2) == 4 && Pow2(3) == 8;
    if attempt > 0 {
      DelayIsBelow(CeilingMs(attempt), jitter);
    }
  }

  /** All waits of one operation together: at most 999 + 1999 + 3999 + 7999 ms. */
  lemma WorstTotal()
    ensures WorstMs(0) == 14_996
  {
    assert Pow2(0) == 1 && Pow2(1) == 2 && Pow2(2) == 4 && Pow2(3) == 8;
    assert WorstMs(5) == 0;
    assert WorstMs(4) == 7_999;
    assert WorstMs(3) == 3_999 + 7_999;
    assert WorstMs(2) == 1_999 + 3_999 + 7_999;
    assert WorstMs(1) == 999 + 1_999 + 3_999 + 7_999;
  }
}
