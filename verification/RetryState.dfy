// Session retry accounting and the wait bands of Table 3, section 3.2.1.1 of
// TR-069 (internal/cwmp/retry.go). Waits are whole nanoseconds.
module RetryStates {
  import opened Powers

  const SECOND: nat := 1_000_000_000
  const MINIMUM_WAIT: nat := 5 * SECOND
  const MULTIPLIER: nat := 2
  const ATTEMPT_CAP: nat := 10

  /** Lower end of the band of the n-th consecutive failure. */
  function BandStart(n: nat): nat
    requires n >= 1
  {
    MINIMUM_WAIT * Pow2((if n > ATTEMPT_CAP then ATTEMPT_CAP else n) - 1)
  }

  /** First wait past that band. */
  function BandEnd(n: nat): nat
    requires n >= 1
  {
    2 * BandStart(n)
  }

  /** The bands tile: each is twice as far at its end as at its start and begins where the
      one before ended, they are flat from the tenth failure, and they run from 5..10 s to 2560..5120 s. */
  lemma BandsAreAdjacent(n: nat)
    requires n >= 1
    ensures BandEnd(n) == 2 * BandStart(n)
    ensures n < 10 ==> BandStart(n + 1) == BandEnd(n)
    ensures n >= 10 ==> BandStart(n) == 2560 * SECOND && BandEnd(n) == 5120 * SECOND
    ensures BandStart(1) == 5 * SECOND && BandEnd(1) == 10 * SECOND
  {
    assert Pow2(9) == 512 by {
      assert Pow2(3) == 8;
      assert Pow2(6) == 64;
    }
  }

  class RetryState {
    var count: nat

    constructor ()
      ensures count == 0
    {
      count := 0;
    }

    /** Counts the failure and draws the wait before the next attempt; draw stands
        for the random source, and is 0 when there is none. */
    method OnFailure(draw: nat) returns (n: nat, wait: nat)
      modifies this
      ensures n == count == old(count) + 1
      ensures BandStart(n) <= wait < BandEnd(n)
      ensures wait == BandStart(n) + draw % (BandEnd(n) - BandStart(n))
    {
      count := count + 1;
      var attempt := count;
      if attempt > ATTEMPT_CAP {
        attempt := ATTEMPT_CAP;
      }
      var minWait := MINIMUM_WAIT;
      for i := 1 to attempt
        invariant minWait == MINIMUM_WAIT * Pow2(i - 1)
      {
        minWait := minWait * MULTIPLIER;
      }
      var maxWait := minWait * MULTIPLIER;
      wait := minWait + draw % (maxWait - minWait);
      n := count;
    }

    method Reset()
      modifies this
      ensures count == 0
    {
      count := 0;
    }
  }
}
