/** Retries with jittered backoff: packages/nice-grpc-client-middleware-retry/src/index.ts. */
module Retry {
  import opened Basics

  datatype Error = ClientError(code: nat) | AbortError | OtherError

  /** The outcome of one call of `next`. */
  datatype Attempt<T> = Success(value: T) | Failure(error: Error)

  /** What the calls, the random source, the user's callback and the abort signal do, by attempt number. */
  datatype World<!T> = World(
    call: nat -> Attempt<T>,
    random: nat -> real,
    onRetryableError: nat -> Option<Error>,   // the error the callback throws, if it does
    abortedInDelay: nat -> bool)

  /** `enabled` is false for streaming calls and where retrying is switched off; no maximum stands for `Infinity`. */
  datatype Options = Options(enabled: bool, baseDelay: nat, maxDelay: nat,
                             maxAttempts: Option<nat>, retryable: set<nat>)

  ghost predicate RandomInRange<T>(w: World<T>) {
    forall n :: 0.0 <= w.random(n) < 1.0
  }

  function Pow2(n: nat): (p: nat)
    ensures p >= 1
  {
    if n == 0 then 1 else 2 * Pow2(n - 1)
  }

  function Min(a: int, b: int): int { if a <= b then a else b }

  function Backoff(o: Options, attempt: nat): nat { Min(o.maxDelay, Pow2(attempt) * o.baseDelay) }

  /** `Math.round`: to the nearest integer, halves upwards. */
  function Round(x: real): int { (x + 0.5).Floor }

  function Jitter(backoff: real, random: real): real { backoff * (1.0 + random) / 2.0 }

  function Delay<T>(o: Options, w: World<T>, attempt: nat): int {
    Round(Jitter(Backoff(o, attempt) as real, w.random(attempt)))
  }

  predicate AttemptsLeft(o: Options, attempt: nat) { o.maxAttempts.Some? ==> attempt < o.maxAttempts.value }

  predicate MayRetry(o: Options, error: Error, attempt: nat) {
    o.enabled && AttemptsLeft(o, attempt) && error.ClientError? && error.code in o.retryable
  }

  datatype LoopResult<T> = LoopResult(attempt: Attempt<T>, calls: nat, delays: seq<int>)

  /** Attempt k failed in a way that may be retried. */
  predicate Retryable<T>(o: Options, w: World<T>, k: nat) {
    w.call(k).Failure? && MayRetry(o, w.call(k).error, k)
  }

  /** Attempts 0 to n-1 all failed in a way that lets the next one happen. */
  ghost predicate AllRetried<T>(o: Options, w: World<T>, n: nat) {
    forall k :: 0 <= k < n ==> Retryable(o, w, k) && w.onRetryableError(k).None? && !w.abortedInDelay(k)
  }

  function Delays<T>(o: Options, w: World<T>, n: nat): (d: seq<int>)
    ensures |d| == n && forall k :: 0 <= k < n ==> d[k] == Delay(o, w, k)
  {
    seq(n, k requires 0 <= k => Delay(o, w, k))
  }

  /** How the call made last, number `n`, ended the loop, and the delays waited for until then. */
  ghost predicate Ended<T>(o: Options, w: World<T>, n: nat, attempt: Attempt<T>, delays: seq<int>) {
    if !Retryable(o, w, n) then attempt == w.call(n) && delays == Delays(o, w, n)
    else if w.onRetryableError(n).Some? then
      attempt == Failure(w.onRetryableError(n).value) && delays == Delays(o, w, n)
    else w.abortedInDelay(n) && attempt == Failure(AbortError) && delays == Delays(o, w, n + 1)
  }

  /**
   * The loop, watched for at most `horizon` calls: the result is that of the first call that succeeds or may not be
   * retried, unless the callback throws or the wait is aborted; everything before it was a retryable failure, and a
   * delay was waited for after each of those. With a maximum the loop ends after at most one call more than it; and
   * there is one call more exactly when as many calls as the maximum have failed and been retried.
   */
  method RetryLoop<T>(o: Options, w: World<T>, horizon: nat) returns (r: Option<LoopResult<T>>)
    ensures r.None? ==> AllRetried(o, w, horizon) && (o.maxAttempts.Some? ==> horizon <= o.maxAttempts.value)
    ensures r.Some? ==>
      && 1 <= r.value.calls && (o.maxAttempts.Some? ==> r.value.calls <= o.maxAttempts.value + 1)
      && AllRetried(o, w, r.value.calls - 1)
      && Ended(o, w, r.value.calls - 1, r.value.attempt, r.value.delays)
    ensures o.maxAttempts.Some? && horizon > o.maxAttempts.value ==>
      r.Some? && (r.value.calls > o.maxAttempts.value <==> AllRetried(o, w, o.maxAttempts.value))
  {
    if !o.enabled {
      return Some(LoopResult(w.call(0), 1, []));
    }
    var attempt := 0;
    var delays := [];
    while attempt < horizon
      invariant attempt <= horizon && (o.maxAttempts.Some? ==> attempt <= o.maxAttempts.value)
      invariant AllRetried(o, w, attempt) && delays == Delays(o, w, attempt)
    {
      var outcome := w.call(attempt);
      match outcome {
        case Success(_) => return Some(LoopResult(outcome, attempt + 1, delays));
        case Failure(error) =>
          if error.AbortError? {
            return Some(LoopResult(outcome, attempt + 1, delays));
          }
          if !AttemptsLeft(o, attempt) || !error.ClientError? || error.code !in o.retryable {
            return Some(LoopResult(outcome, attempt + 1, delays));
          }
          var backoff := Min(o.maxDelay, Pow2(attempt) * o.baseDelay);
          var delayMs := Round(Jitter(backoff as real, w.random(attempt)));
          var thrown := w.onRetryableError(attempt);
          if thrown.Some? {
            return Some(LoopResult(Failure(thrown.value), attempt + 1, delays));
          }
          delays := delays + [delayMs];
          assert delays == Delays(o, w, attempt + 1);
          if w.abortedInDelay(attempt) {
            return Some(LoopResult(Failure(AbortError), attempt + 1, delays));
          }
      }
      attempt := attempt + 1;
    }
    return None;
  }

  /** It does happen: with a maximum of one there are two calls. */
  method TwoCallsWithMaximumOne<T>() returns (r: Option<LoopResult<T>>)
    ensures r == Some(LoopResult(Failure(ClientError(14)), 2, [500]))
  {
    var o := Options(true, 1000, 30000, Some(1), {14});
    var w := World<T>.World(_ => Failure(ClientError(14)), _ => 0.0, _ => None, _ => false);
    r := RetryLoop(o, w, 2);
    assert AllRetried(o, w, 1);
    assert !Retryable(o, w, 1);
    assert Backoff(o, 0) == 1000 && Jitter(1000.0, 0.0) == 500.0;
    assert Delay(o, w, 0) == 500 && Delays(o, w, 1) == [500];
  }

  // ------------------------------------------------------------------------------------------
  // The waits

  /** Each wait is between half the backoff and the backoff. */
  lemma DelayBounds<T>(o: Options, w: World<T>, attempt: nat)
    requires RandomInRange(w)
    ensures Backoff(o, attempt) <= 2 * Delay(o, w, attempt)
    ensures 0 <= Delay(o, w, attempt) <= Backoff(o, attempt)
  {
    var b := Backoff(o, attempt) as real;
    var r := w.random(attempt);
    JitterBounds(b, r);
    RoundBounds(Jitter(b, r), Backoff(o, attempt));
  }

  lemma JitterBounds(b: real, r: real)
    requires 0.0 <= b && 0.0 <= r < 1.0
    ensures b / 2.0 <= Jitter(b, r) <= b
  {
    assert b * (1.0 + r) == b + b * r;
    assert 0.0 <= b * r;
    assert b * r <= b * 1.0 by {
      assert b * (1.0 - r) >= 0.0;
      assert b * (1.0 - r) == b - b * r;
    }
  }

  lemma RoundBounds(x: real, b: nat)
    requires b as real / 2.0 <= x <= b as real
    ensures b <= 2 * Round(x) && 0 <= Round(x) <= b
  {
    var f := Round(x);
    assert f as real <= x + 0.5 < f as real + 1.0;
    assert (b as real) < (2 * f + 1) as real;
    assert (f as real) < (b + 1) as real;
  }

  lemma {:induction false} BackoffGrows(o: Options, m: nat, n: nat)
    requires m <= n
    ensures Backoff(o, m) <= Backoff(o, n) <= o.maxDelay
    decreases n
  {
    if m < n {
      BackoffGrows(o, m, n - 1);
      var p := Pow2(n - 1) * o.baseDelay;
      assert Pow2(n) * o.baseDelay == 2 * p;
      assert p >= 0;
    } else {
      assert Pow2(n) * o.baseDelay >= 0;
    }
  }

  /** The backoff starts at the base, and doubles until it reaches the maximum. */
  lemma {:induction false} BackoffDoubles(o: Options, n: nat)
    ensures Backoff(o, 0) == Min(o.maxDelay, o.baseDelay)
    ensures Backoff(o, n + 1) == Min(o.maxDelay, 2 * Backoff(o, n))
  {
    var p := Pow2(n) * o.baseDelay;
    assert Pow2(n + 1) * o.baseDelay == 2 * p;
    assert p >= 0;
  }

  /** A wait is the whole number nearest to the backoff times a factor drawn evenly from one half to one. */
  lemma {:induction false} DelayNearest<T>(o: Options, w: World<T>, n: nat)
    ensures var wanted := Backoff(o, n) as real * (0.5 + w.random(n) / 2.0);
      Delay(o, w, n) as real - 0.5 <= wanted < Delay(o, w, n) as real + 0.5
  {
    var b, r := Backoff(o, n) as real, w.random(n);
    assert b * (1.0 + r) / 2.0 == b * (0.5 + r / 2.0);
  }

  /** What may be retried: a retryable status, with retries on and attempts left; never an abort or another error. */
  lemma {:induction false} RetryableExactly<T>(o: Options, w: World<T>, k: nat)
    ensures Retryable(o, w, k)
            <==> exists code :: w.call(k) == Failure(ClientError(code)) && code in o.retryable && o.enabled
                                && (o.maxAttempts == None || k < o.maxAttempts.value)
  {
    if Retryable(o, w, k) {
      assert w.call(k) == Failure(ClientError(w.call(k).error.code));
    }
  }

  function Sum(s: seq<int>): int {
    if s == [] then 0 else Sum(s[..|s| - 1]) + s[|s| - 1]
  }

  /** After k waits the total is at most both k times the maximum and the base times 2^k - 1. */
  lemma {:induction false} TotalDelay<T>(o: Options, w: World<T>, k: nat)
    requires RandomInRange(w)
    ensures 0 <= Sum(Delays(o, w, k)) <= Min(k * o.maxDelay, o.baseDelay * (Pow2(k) - 1))
  {
    if k > 0 {
      TotalDelay(o, w, k - 1);
      DelayBounds(o, w, k - 1);
      assert Delays(o, w, k)[..k - 1] == Delays(o, w, k - 1);
      TotalStep(Sum(Delays(o, w, k - 1)), Delay(o, w, k - 1), o.baseDelay, o.maxDelay, Pow2(k - 1), k);
    }
  }

  lemma TotalStep(total: int, delay: int, base: int, max: int, p: int, k: int)
    requires total <= (k - 1) * max && total <= base * (p - 1)
    requires delay <= max && delay <= p * base
    ensures total + delay <= k * max && total + delay <= base * (2 * p - 1)
  {
    assert (k - 1) * max + max == k * max;
    assert base * (p - 1) + p * base == base * (2 * p - 1);
  }
}
