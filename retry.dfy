/**
 * `withRetry` (src/utils/retry.ts): a bounded retry loop around an
 * asynchronous operation. The wrapped operation is modelled by `fn`, the
 * outcome of its i-th invocation (counting from 0), and `Math.random()` by
 * `draw`, the value drawn for the k-th sleep. `sleep(delay)` is recorded by
 * appending `delay` to the returned list of sleeps.
 */
module Retry {
  import opened Wrappers
  import Backoff
  import Jitter

  /** The options object; `retryOn` is absent (`None`) or a predicate on errors. */
  datatype RetryOptions<!E> = RetryOptions(
    retries: int,
    baseMs: int,
    factor: int,
    jitterMode: Jitter.JitterMode,
    retryOn: Option<E -> bool>)

  /** Options with only `retries` given: base 500 ms, factor 2, full jitter, retry on every error. */
  function WithDefaults<E>(retries: int): (o: RetryOptions<E>)
  {
    RetryOptions(retries, Backoff.DefaultBaseMs, Backoff.DefaultFactor, Jitter.Full, None)
  }

  /** `typeof retryOn === "function" ? retryOn(error) : true`. */
  predicate ShouldRetry<E>(retryOn: Option<E -> bool>, error: E) {
    match retryOn
    case None => true
    case Some(p) => p(error)
  }

  ghost predicate DrawsValid(draw: nat -> real) {
    forall k :: Jitter.IsDraw(draw(k))
  }

  /** The sleep before retry number `attempt` when the random draw is `r`. */
  function SleepFor<E>(o: RetryOptions<E>, attempt: int, r: real): int
    requires Jitter.IsDraw(r)
  {
    Jitter.ApplyJitter(Backoff.BackoffDelay(attempt, o.baseMs, o.factor), o.jitterMode, r)
  }

  /**
   * What one call of the wrapped operation does: it invoked `fn` `calls`
   * times, every invocation but the last failed with an error that was
   * retried within the budget, the last outcome is passed to the caller
   * unchanged, a failure is given up only when `retryOn` rejects it or the
   * budget is spent, and the k-th sleep (k from 1) is the jittered backoff
   * for attempt k.
   */
  ghost predicate IsRetryRun<R, E>(
    o: RetryOptions<E>, fn: nat -> Result<R, E>, draw: nat -> real,
    result: Result<R, E>, sleeps: seq<int>, calls: nat)
    requires DrawsValid(draw)
  {
    && calls >= 1
    && result == fn(calls - 1)
    && RetriedSoFar(o, fn, draw, sleeps, calls - 1)
    && (result.Err? ==> !ShouldRetry(o.retryOn, result.error) || calls > o.retries)
  }

  /**
   * The first `n` invocations all failed with errors that were retried
   * within the budget, and the sleep after each was its jittered backoff.
   */
  ghost predicate RetriedSoFar<R, E>(o: RetryOptions<E>, fn: nat -> Result<R, E>, draw: nat -> real, sleeps: seq<int>, n: nat)
    requires DrawsValid(draw)
  {
    && |sleeps| == n
    && (forall i :: 0 <= i < n ==> fn(i).Err? && ShouldRetry(o.retryOn, fn(i).error) && i + 1 <= o.retries)
    && (forall k :: 0 <= k < n ==> sleeps[k] == SleepFor(o, k + 1, draw(k)))
  }

  /** One call of the function `withRetry(fn, o)` returns. */
  method WithRetry<R, E>(fn: nat -> Result<R, E>, o: RetryOptions<E>, draw: nat -> real)
    returns (result: Result<R, E>, sleeps: seq<int>, calls: nat)
    requires DrawsValid(draw)
    ensures IsRetryRun(o, fn, draw, result, sleeps, calls)
  {
    var attempt: nat := 0;
    sleeps := [];
    while true
      invariant RetriedSoFar(o, fn, draw, sleeps, attempt)
      decreases o.retries - attempt
    {
      var outcome := fn(attempt);
      if outcome.Ok? {
        return outcome, sleeps, attempt + 1;
      }
      attempt := attempt + 1;
      var shouldRetry := ShouldRetry(o.retryOn, outcome.error);
      if !shouldRetry || attempt > o.retries {
        return outcome, sleeps, attempt;
      }
      var delay := SleepFor(o, attempt, draw(attempt - 1));
      sleeps := sleeps + [delay];
    }
  }

  /** A run is determined by the operation, the options and the draws. */
  lemma RunIsDetermined<R, E>(
    o: RetryOptions<E>, fn: nat -> Result<R, E>, draw: nat -> real,
    result1: Result<R, E>, sleeps1: seq<int>, calls1: nat,
    result2: Result<R, E>, sleeps2: seq<int>, calls2: nat)
    requires DrawsValid(draw)
    requires IsRetryRun(o, fn, draw, result1, sleeps1, calls1)
    requires IsRetryRun(o, fn, draw, result2, sleeps2, calls2)
    ensures result1 == result2 && sleeps1 == sleeps2 && calls1 == calls2
  {
    var last1, last2 := fn(calls1 - 1), fn(calls2 - 1);
    assert calls1 == calls2;
  }

  /** `fn` is invoked at most `retries + 1` times (once when `retries` is not positive). */
  lemma CallsBounded<R, E>(
    o: RetryOptions<E>, fn: nat -> Result<R, E>, draw: nat -> real,
    result: Result<R, E>, sleeps: seq<int>, calls: nat)
    requires DrawsValid(draw)
    requires IsRetryRun(o, fn, draw, result, sleeps, calls)
    ensures calls <= if o.retries >= 0 then o.retries + 1 else 1
  {
    if calls >= 2 {
      assert fn(calls - 2).Err?;
    }
  }

  /** A first-call success is returned as it is, without any sleep. */
  lemma FirstCallSucceeds<R, E>(
    o: RetryOptions<E>, fn: nat -> Result<R, E>, draw: nat -> real,
    result: Result<R, E>, sleeps: seq<int>, calls: nat)
    requires DrawsValid(draw)
    requires IsRetryRun(o, fn, draw, result, sleeps, calls)
    requires fn(0).Ok?
    ensures calls == 1 && result == fn(0) && sleeps == []
  {
    var first := fn(0);
  }

  /** An error that `retryOn` rejects is rethrown after one invocation and no sleep. */
  lemma RejectedErrorIsRethrown<R, E>(
    o: RetryOptions<E>, fn: nat -> Result<R, E>, draw: nat -> real,
    result: Result<R, E>, sleeps: seq<int>, calls: nat)
    requires DrawsValid(draw)
    requires IsRetryRun(o, fn, draw, result, sleeps, calls)
    requires fn(0).Err? && !ShouldRetry(o.retryOn, fn(0).error)
    ensures calls == 1 && result == fn(0) && sleeps == []
  {
    var first := fn(0);
  }

  /**
   * An operation that fails `k` times with retried errors and then succeeds,
   * with `k <= retries`, yields its success value after exactly `k` sleeps.
   */
  lemma FailuresThenSuccess<R, E>(
    o: RetryOptions<E>, fn: nat -> Result<R, E>, draw: nat -> real, k: nat,
    result: Result<R, E>, sleeps: seq<int>, calls: nat)
    requires DrawsValid(draw)
    requires IsRetryRun(o, fn, draw, result, sleeps, calls)
    requires k <= o.retries
    requires forall i :: 0 <= i < k ==> fn(i).Err? && ShouldRetry(o.retryOn, fn(i).error)
    requires fn(k).Ok?
    ensures calls == k + 1 && result == fn(k) && |sleeps| == k
  {
    var last, kth := fn(calls - 1), fn(k);
    assert calls == k + 1;
  }

  /**
   * Under the default retry predicate an operation that always fails is
   * invoked `retries + 1` times and the last error is the one propagated.
   */
  lemma AlwaysFailing<R, E>(
    o: RetryOptions<E>, fn: nat -> Result<R, E>, draw: nat -> real,
    result: Result<R, E>, sleeps: seq<int>, calls: nat)
    requires DrawsValid(draw)
    requires IsRetryRun(o, fn, draw, result, sleeps, calls)
    requires o.retries >= 0 && o.retryOn.None?
    requires forall i :: fn(i).Err?
    ensures calls == o.retries + 1
    ensures result == fn(o.retries) && result.Err?
    ensures |sleeps| == o.retries
  {
    CallsBounded(o, fn, draw, result, sleeps, calls);
  }

  /**
   * With the defaults (base 500 ms, factor 2, full jitter) the k-th sleep
   * lies below the k-th backoff delay `500 * 2^(k-1)`.
   */
  lemma DefaultSleepsBelowBackoff<R, E>(
    retries: int, fn: nat -> Result<R, E>, draw: nat -> real,
    result: Result<R, E>, sleeps: seq<int>, calls: nat, k: nat)
    requires DrawsValid(draw)
    requires IsRetryRun(WithDefaults(retries), fn, draw, result, sleeps, calls)
    requires 1 <= k <= |sleeps|
    ensures 0 <= sleeps[k - 1] < Backoff.BackoffDelay(k, 500, 2)
  {
    var o: RetryOptions<E> := WithDefaults(retries);
    var p := Backoff.Pow(2, Backoff.Exponent(k));
    var d := Backoff.BackoffDelay(k, 500, 2);
    assert o.baseMs == 500 && o.factor == 2;
    assert d == 500 * p && p >= 1 && d > 0;
    assert Jitter.IsDraw(draw(k - 1));
    assert RetriedSoFar(o, fn, draw, sleeps, calls - 1);
    assert sleeps[k - 1] == SleepFor(o, k, draw(k - 1));
    assert sleeps[k - 1] == Jitter.ApplyJitter(d, Jitter.Full, draw(k - 1));
  }

  /** Without jitter and with `factor >= 1` the sleeps never get shorter. */
  lemma SleepsGrowWithoutJitter<R, E>(
    o: RetryOptions<E>, fn: nat -> Result<R, E>, draw: nat -> real,
    result: Result<R, E>, sleeps: seq<int>, calls: nat, j: nat, k: nat)
    requires DrawsValid(draw)
    requires IsRetryRun(o, fn, draw, result, sleeps, calls)
    requires o.jitterMode == Jitter.NoJitter && o.baseMs >= 0 && o.factor >= 1
    requires j <= k < |sleeps|
    ensures sleeps[j] <= sleeps[k]
  {
    assert RetriedSoFar(o, fn, draw, sleeps, calls - 1);
    assert sleeps[j] == SleepFor(o, j + 1, draw(j)) == Backoff.BackoffDelay(j + 1, o.baseMs, o.factor);
    assert sleeps[k] == SleepFor(o, k + 1, draw(k)) == Backoff.BackoffDelay(k + 1, o.baseMs, o.factor);
    Backoff.Monotone(j + 1, k + 1, o.baseMs, o.factor);
  }
}
