/** The retry delay: it doubles with each failure up to a maximum, without ever computing a larger product. */
module Backoff {
  import opened Domain

  function Pow2(n: nat): (p: nat)
    ensures p >= 1
  {
    if n == 0 then 1 else 2 * Pow2(n - 1)
  }

  /** The loop after its first `i - 1` doublings: the delay, or the maximum once half of it is reached. */
  function Doubled(delay: int, times: nat, maximum: int): (d: int)
    requires delay > 0 && maximum >= 0
    ensures d <= maximum
    ensures d > 0 || maximum == 0
    decreases times
  {
    if times == 0 then (if delay > maximum then maximum else delay)
    else if delay >= maximum / 2 then maximum
    else Doubled(delay * 2, times - 1, maximum)
  }

  /** Durations are positive; `peak` is the largest product the loop computes. Go's division of a positive number. */
  method Delay(base: int, failures: int, maximum: int) returns (delay: int, ghost peak: int)
    requires base > 0 && maximum > 0
    ensures failures <= 0 ==> delay == base
    ensures failures > 0 ==> delay == Doubled(base, failures - 1, maximum)
    ensures base <= peak && (peak == base || peak <= maximum)
  {
    delay, peak := base, base;
    if failures <= 0 {
      return;
    }
    var i := 1;
    while i < failures
      invariant 1 <= i <= failures && delay > 0
      invariant Doubled(delay, failures - i, maximum) == Doubled(base, failures - 1, maximum)
      invariant base <= peak && (peak == base || peak <= maximum)
    {
      if delay >= maximum / 2 {
        return maximum, peak;
      }
      delay := delay * 2;
      peak := if delay > peak then delay else peak;
      i := i + 1;
    }
    if delay > maximum {
      delay := maximum;
    }
  }

  lemma AtLeast(x: int, p: nat)
    requires x > 0 && p >= 1
    ensures x * p >= x
  {
    assert x * p == x + x * (p - 1);
  }

  lemma Shifted(delay: int, times: nat)
    requires times > 0
    ensures delay * Pow2(times) == (delay * 2) * Pow2(times - 1)
  {
  }

  /**
   The exponential law, exactly: it fails only when the doubled delay would be one nanosecond below an (odd)
   maximum, and then the delay is that maximum.
   */
  lemma {:induction false} DelayIsExponential(delay: int, times: nat, maximum: int)
    requires delay > 0 && maximum > 0
    ensures Doubled(delay, times, maximum) == Min(maximum, delay * Pow2(times))
       <==> !(times > 0 && delay * Pow2(times) == maximum - 1)
    decreases times
  {
    if times == 0 {
    } else {
      Shifted(delay, times);
      AtLeast(delay * 2, Pow2(times - 1));
      if delay >= maximum / 2 {
        if times > 1 {
          Shifted(delay * 2, times - 1);
          AtLeast(delay * 4, Pow2(times - 2));
        }
      } else {
        DelayIsExponential(delay * 2, times - 1, maximum);
      }
    }
  }

  /** One more failure never shortens the delay. */
  lemma {:induction false} MoreFailuresWaitLonger(delay: int, times: nat, maximum: int)
    requires delay > 0 && maximum > 0
    ensures Doubled(delay, times, maximum) <= Doubled(delay, times + 1, maximum)
    decreases times
  {
    if times > 0 && delay < maximum / 2 {
      MoreFailuresWaitLonger(delay * 2, times - 1, maximum);
    }
  }
}
