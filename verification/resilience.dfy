/**
 * The arithmetic and constants of the policies that guard every call to the
 * remote catalog service: an exponential-backoff retry, a circuit breaker and a
 * per-attempt timeout. Durations are whole seconds.
 */
module Resilience {
  import opened Wrappers

  /** Retries the retry policy makes after the first failed attempt. */
  const RetryCount: nat := 5

  /** Handled failures in a row after which the circuit breaker opens. */
  const BreakerThreshold: nat := 3

  /** How long the circuit stays open, in seconds. */
  const BreakDurationSeconds: nat := 15

  /** The per-attempt timeout, in seconds. */
  const TimeoutSeconds: nat := 1

  /** `Math.Pow(2, n)` on the naturals; the double is exact for these exponents. */
  function Pow2(n: nat): (r: nat)
    ensures r >= 1
  {
    if n == 0 then 1 else 2 * Pow2(n - 1)
  }

  /** The backoff lambda: seconds to wait before retry number `retryAttempt` (counted from 1). */
  function RetryDelaySeconds(retryAttempt: nat): (d: nat)
    ensures d >= 1
    ensures retryAttempt >= 1 ==> d % 2 == 0 && d >= 2
  {
    Pow2(retryAttempt)
  }

  /** Powers of two multiply by adding exponents: `Pow2` is the power function. */
  lemma {:induction false} Pow2Add(a: nat, b: nat)
    ensures Pow2(a + b) == Pow2(a) * Pow2(b)
    decreases a
  {
    if a > 0 {
      Pow2Add(a - 1, b);
    }
  }

  /** Every delay is positive and each one is exactly twice the one before. */
  lemma DelayDoubles(n: nat)
    ensures RetryDelaySeconds(n) > 0
    ensures RetryDelaySeconds(n + 1) == 2 * RetryDelaySeconds(n)
  {
  }

  /** Later retries wait strictly longer. */
  lemma {:induction false} DelayStrictlyIncreasing(a: nat, b: nat)
    requires a < b
    ensures RetryDelaySeconds(a) < RetryDelaySeconds(b)
    decreases b - a
  {
    if a + 1 < b {
      DelayStrictlyIncreasing(a + 1, b);
    }
  }

  /** The delays before retries 1, 2, ..., `retries`, in order. */
  function Schedule(retries: nat): (s: seq<nat>)
    ensures |s| == retries
    ensures forall i :: 0 <= i < retries ==> s[i] == RetryDelaySeconds(i + 1)
  {
    if retries == 0 then [] else Schedule(retries - 1) + [RetryDelaySeconds(retries)]
  }

  function Sum(s: seq<nat>): nat {
    if |s| == 0 then 0 else Sum(s[..|s| - 1]) + s[|s| - 1]
  }

  /** Waiting through `n` retries takes 2 + 4 + ... + 2^n = 2^(n+1) - 2 seconds. */
  lemma {:induction false} TotalWaitClosedForm(n: nat)
    ensures Sum(Schedule(n)) == Pow2(n + 1) - 2
  {
    if n > 0 {
      var s := Schedule(n);
      assert s[..n - 1] == Schedule(n - 1);
      TotalWaitClosedForm(n - 1);
    }
  }

  /** What one call attempt to the catalog service produced. */
  datatype Outcome =
    | Response(statusCode: int)  // an HTTP response with this status code
    | HttpRequestFailure         // the request failed without a response
    | TimeoutRejected            // the timeout policy abandoned the attempt
    | OtherFailure               // any other exception

  /** The transient HTTP errors: no response at all, a 5xx status, or 408 Request Timeout. */
  predicate IsTransientHttpError(o: Outcome) {
    || o.HttpRequestFailure?
    || (o.Response? && (o.statusCode >= 500 || o.statusCode == 408))
  }

  /** The failures both the retry policy and the circuit breaker handle: transient errors or a timeout. */
  predicate IsHandledFailure(o: Outcome): (b: bool)
    ensures o.TimeoutRejected? ==> b
    ensures o.OtherFailure? ==> !b
  {
    IsTransientHttpError(o) || o.TimeoutRejected?
  }

  /**
   * A timeout rejection is handled only because the policies add it to the
   * transient errors; a successful or client-error response is never handled.
   */
  lemma HandledFailureClassification(o: Outcome)
    ensures IsHandledFailure(TimeoutRejected) && !IsTransientHttpError(TimeoutRejected)
    ensures IsHandledFailure(o) <==>
              o.TimeoutRejected? || o.HttpRequestFailure? || (o.Response? && (o.statusCode >= 500 || o.statusCode == 408))
    ensures o.Response? && o.statusCode < 500 && o.statusCode != 408 ==> !IsHandledFailure(o)
    ensures o.OtherFailure? ==> !IsHandledFailure(o)
  {
  }

  /**
   * The retry policy's decision, on its own, after an attempt with outcome `o`, when
   * `retriesSoFar` retries have already been made: the seconds to wait before
   * retrying, or None when the outcome is passed to the caller. The waits it
   * chooses are the entries of the configured schedule, in order.
   */
  function RetryAfter(retriesSoFar: nat, o: Outcome): (r: Option<nat>)
    ensures r.Some? <==> IsHandledFailure(o) && retriesSoFar < |Schedule(RetryCount)|
    ensures r.Some? ==> r.value == Schedule(RetryCount)[retriesSoFar] && r.value >= 2
  {
    if IsHandledFailure(o) && retriesSoFar < RetryCount then Some(RetryDelaySeconds(retriesSoFar + 1))
    else None
  }

  /**
   * Waits the retry policy on its own takes while every attempt fails with a handled
   * failure, starting after `retriesSoFar` retries. In the service the circuit
   * breaker nested inside the retry can end such a run earlier.
   */
  function WaitsWhileFailing(retriesSoFar: nat, failure: Outcome): (waits: seq<nat>)
    requires IsHandledFailure(failure)
    ensures |waits| == if retriesSoFar < RetryCount then RetryCount - retriesSoFar else 0
    ensures forall i :: 0 <= i < |waits| ==> waits[i] == RetryDelaySeconds(retriesSoFar + i + 1)
    decreases RetryCount - retriesSoFar
  {
    match RetryAfter(retriesSoFar, failure)
    case None => []
    case Some(d) => [d] + WaitsWhileFailing(retriesSoFar + 1, failure)
  }

  /**
   * The configured policies. The retry policy on its own retries a dependency that
   * keeps failing exactly five times, after 2, 4, 8, 16 and 32 seconds, 62 seconds in
   * all. The breaker's threshold is three handled failures and it breaks for 15
   * seconds; each attempt may take one second.
   */
  lemma ConfiguredPolicies(failure: Outcome)
    requires IsHandledFailure(failure)
    ensures WaitsWhileFailing(0, failure) == Schedule(RetryCount) == [2, 4, 8, 16, 32]
    ensures Sum(Schedule(RetryCount)) == 62
    ensures BreakerThreshold == 3 && BreakDurationSeconds == 15 && TimeoutSeconds == 1
  {
    var w := WaitsWhileFailing(0, failure);
    assert Pow2(1) == 2 && Pow2(2) == 4 && Pow2(3) == 8 && Pow2(4) == 16 && Pow2(5) == 32;
    assert w == Schedule(RetryCount);
    TotalWaitClosedForm(RetryCount);
    assert Pow2(6) == 64;
  }
}
