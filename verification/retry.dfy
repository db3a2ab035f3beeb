/**
 * `RetryWithBackoff` (src/interactions/retry.go): call an operation until it
 * succeeds, fails with something other than the interactions package's
 * `ErrRateLimited`, or the attempts run out, sleeping a capped exponential
 * delay between rate-limited attempts.
 *
 * Durations are integer nanoseconds, as Go's `time.Duration`. The operation's
 * outcome on attempt `k` is the oracle `op(k)`; sleeps are returned in order
 * instead of being slept.
 */
module Retry {
  import opened Common

  const Second: int := 1_000_000_000
  const Minute: int := 60 * Second

  datatype RetryConfig = RetryConfig(
    maxRetries: int,
    initialDelay: int,
    maxDelay: int,
    backoffFactor: nat)

  /** `DefaultRetryConfig`. */
  const DefaultRetryConfig := RetryConfig(10, Second, 5 * Minute, 2)

  /** What one call of the operation returned: a value and maybe an error
      (Go returns both, and the value is passed on even with an error). */
  datatype Outcome<T> = Outcome(value: T, err: Option<Error>)

  /** What `RetryWithBackoff` returned, how many calls it made and the
      delays it slept, in order. */
  datatype RetryRun<T> = RetryRun(value: T, err: Option<Error>, calls: nat, sleeps: seq<int>)

  function Pow(b: nat, k: nat): nat {
    if k == 0 then 1 else b * Pow(b, k - 1)
  }

  /** `initialDelay * factor^k`, the back-off before the cap, computed exactly. */
  function Scaled(cfg: RetryConfig, k: nat): int {
    cfg.initialDelay * Pow(cfg.backoffFactor, k)
  }

  /** The product is a value `time.Duration` can hold. */
  predicate Fits(cfg: RetryConfig, k: nat) {
    MinInt64 <= Scaled(cfg, k) <= MaxInt64
  }

  /** Go's conversion of a `float64` to `time.Duration` (an `int64`). The
      language leaves an out-of-range conversion implementation-defined; on
      amd64 the conversion instruction yields the "integer indefinite" value,
      the least `int64`, which is what this model takes. */
  function ToDuration(x: int): (r: int)
    ensures MinInt64 <= r <= MaxInt64
    ensures MinInt64 <= x <= MaxInt64 ==> r == x
  {
    if MinInt64 <= x <= MaxInt64 then x else MinInt64
  }

  /** The sleep after failed attempt `k`: `initialDelay * factor^k`,
      converted to a duration, then capped. A product too large for a
      duration converts to the least `int64`, which the cap lets through. */
  function Delay(cfg: RetryConfig, k: nat): (d: int)
    ensures d <= cfg.maxDelay
    ensures Fits(cfg, k) && Scaled(cfg, k) <= cfg.maxDelay ==> d == Scaled(cfg, k)
    ensures Fits(cfg, k) && Scaled(cfg, k) > cfg.maxDelay ==> d == cfg.maxDelay
    ensures !Fits(cfg, k) && cfg.maxDelay >= MinInt64 ==> d == MinInt64
  {
    var d := ToDuration(cfg.initialDelay * Pow(cfg.backoffFactor, k));
    if d > cfg.maxDelay then cfg.maxDelay else d
  }

  /** After attempt `k`, the loop stops: success, an error that is not rate
      limiting, or the last permitted attempt. */
  predicate Stops<T>(cfg: RetryConfig, o: Outcome<T>, k: nat) {
    o.err.None? || !IsRateLimited(o.err.value) || k == cfg.maxRetries
  }

  /** The loop from attempt `attempt` on; `last` is what the previous attempt
      returned (the zero value and no error before the first). */
  function RetryLoop<T>(cfg: RetryConfig, op: nat -> Outcome<T>, attempt: nat, last: Outcome<T>): (r: RetryRun<T>)
    ensures attempt > cfg.maxRetries ==> r == RetryRun(last.value, last.err, attempt, [])
    ensures attempt <= cfg.maxRetries ==>
              && attempt < r.calls <= cfg.maxRetries + 1
              && (forall k :: attempt <= k < r.calls - 1 ==> !Stops(cfg, op(k), k))
              && Stops(cfg, op(r.calls - 1), r.calls - 1)
              && r.value == op(r.calls - 1).value && r.err == op(r.calls - 1).err
              && |r.sleeps| == r.calls - 1 - attempt
              && (forall k :: 0 <= k < |r.sleeps| ==> r.sleeps[k] == Delay(cfg, attempt + k))
    decreases cfg.maxRetries - attempt
  {
    if attempt > cfg.maxRetries then RetryRun(last.value, last.err, attempt, [])
    else
      var o := op(attempt);
      if o.err.None? || !IsRateLimited(o.err.value) || attempt == cfg.maxRetries then
        RetryRun(o.value, o.err, attempt + 1, [])
      else
        var rest := RetryLoop(cfg, op, attempt + 1, o);
        rest.(sleeps := [Delay(cfg, attempt)] + rest.sleeps)
  }

  /** `RetryWithBackoff`; `zero` is the zero value of the result type. */
  function RetryWithBackoff<T>(cfg: RetryConfig, op: nat -> Outcome<T>, zero: T): (r: RetryRun<T>)
    ensures cfg.maxRetries < 0 ==> r == RetryRun(zero, None, 0, [])
    ensures cfg.maxRetries >= 0 ==>
              && 1 <= r.calls <= cfg.maxRetries + 1
              && (forall k :: 0 <= k < r.calls - 1 ==> op(k).err.Some? && IsRateLimited(op(k).err.value))
              && Stops(cfg, op(r.calls - 1), r.calls - 1)
              && r.value == op(r.calls - 1).value && r.err == op(r.calls - 1).err
              && |r.sleeps| == r.calls - 1
              && (forall k :: 0 <= k < |r.sleeps| ==> r.sleeps[k] == Delay(cfg, k))
  {
    RetryLoop(cfg, op, 0, Outcome(zero, None))
  }

  /** Every sleep is at most `maxDelay`, and with a factor of at least one, a
      non-negative initial delay and no overflow at the later attempt the
      sleeps never shrink. */
  lemma {:induction false} DelayMonotone(cfg: RetryConfig, k: nat, k': nat)
    requires cfg.backoffFactor >= 1 && cfg.initialDelay >= 0
    requires k <= k'
    requires Scaled(cfg, k') <= MaxInt64
    ensures Delay(cfg, k) <= Delay(cfg, k') <= cfg.maxDelay
  {
    ScaledMonotone(cfg, k, k');
  }

  lemma {:induction false} ScaledMonotone(cfg: RetryConfig, k: nat, k': nat)
    requires cfg.backoffFactor >= 1 && cfg.initialDelay >= 0
    requires k <= k'
    ensures 0 <= Scaled(cfg, k) <= Scaled(cfg, k')
    decreases k' - k
  {
    if k < k' {
      PowStep(cfg.backoffFactor, k' - 1);
      MulMonotone(cfg.initialDelay, Pow(cfg.backoffFactor, k' - 1), Pow(cfg.backoffFactor, k'));
      ScaledMonotone(cfg, k, k' - 1);
    } else {
      MulMonotone(cfg.initialDelay, 0, Pow(cfg.backoffFactor, k));
    }
  }

  lemma PowStep(b: nat, k: nat)
    requires b >= 1
    ensures Pow(b, k) <= Pow(b, k + 1)
  {
    assert Pow(b, k + 1) == b * Pow(b, k);
    MulMonotone(Pow(b, k), 1, b);
  }

  lemma MulMonotone(a: int, x: int, y: int)
    requires a >= 0 && x <= y
    ensures a * x <= a * y
  {
  }

  /** The sleeps of a run never exceed `maxDelay` and never shrink, as long
      as the delay before the last permitted attempt does not overflow. */
  lemma SleepsBoundedAndSorted<T>(cfg: RetryConfig, op: nat -> Outcome<T>, zero: T)
    requires cfg.backoffFactor >= 1 && cfg.initialDelay >= 0
    requires cfg.maxRetries <= 0 || Scaled(cfg, cfg.maxRetries - 1) <= MaxInt64
    ensures var s := RetryWithBackoff(cfg, op, zero).sleeps;
      forall i, j :: 0 <= i <= j < |s| ==> s[i] <= s[j] <= cfg.maxDelay
  {
    var s := RetryWithBackoff(cfg, op, zero).sleeps;
    forall i, j | 0 <= i <= j < |s|
      ensures s[i] <= s[j] <= cfg.maxDelay
    {
      ScaledMonotone(cfg, j, cfg.maxRetries - 1);
      DelayMonotone(cfg, i, j);
    }
  }

  lemma {:induction false} PowAdd(b: nat, m: nat, n: nat)
    ensures Pow(b, m + n) == Pow(b, m) * Pow(b, n)
    decreases m
  {
    if m > 0 {
      PowAdd(b, m - 1, n);
      assert Pow(b, m + n) == b * Pow(b, m - 1 + n);
    }
  }

  /** A budget of 40 retries with the default delays: the product passes the
      `int64` range at attempt 34, the duration comes out negative, the cap
      does not catch it, and the 35th sleep returns at once. */
  lemma LongBudgetOverflows<T>(op: nat -> Outcome<T>, zero: T)
    requires forall k :: op(k).err == Some(SentinelError(InteractionsRateLimited))
    ensures var cfg := DefaultRetryConfig.(maxRetries := 40);
      var s := RetryWithBackoff(cfg, op, zero).sleeps;
      && |s| == 40 && s[33] == 5 * Minute && s[34] == MinInt64
  {
    var cfg := DefaultRetryConfig.(maxRetries := 40);
    var r := RetryWithBackoff(cfg, op, zero);
    assert r.calls == 41;
    PowersOfTwo();
    assert !Fits(cfg, 34) && Fits(cfg, 33);
  }

  lemma PowersOfTwo()
    ensures Pow(2, 33) == 8589934592 && Pow(2, 34) == 17179869184
  {
    assert Pow(2, 1) == 2 && Pow(2, 2) == 4 && Pow(2, 3) == 8 && Pow(2, 4) == 16 && Pow(2, 5) == 32;
    PowAdd(2, 5, 5);
    PowAdd(2, 10, 10);
    PowAdd(2, 20, 10);
    PowAdd(2, 30, 3);
    PowAdd(2, 30, 4);
  }

  /** With the default configuration, a run that is rate limited every time
      makes 11 calls and sleeps 1, 2, 4, ..., 256 seconds, then 5 minutes. */
  lemma DefaultSchedule<T>(op: nat -> Outcome<T>, zero: T)
    requires forall k :: op(k).err == Some(SentinelError(InteractionsRateLimited))
    ensures RetryWithBackoff(DefaultRetryConfig, op, zero).calls == 11
    ensures RetryWithBackoff(DefaultRetryConfig, op, zero).sleeps ==
              [1 * Second, 2 * Second, 4 * Second, 8 * Second, 16 * Second,
               32 * Second, 64 * Second, 128 * Second, 256 * Second, 300 * Second]
    ensures RetryWithBackoff(DefaultRetryConfig, op, zero).err == Some(SentinelError(InteractionsRateLimited))
  {
    var r := RetryWithBackoff(DefaultRetryConfig, op, zero);
    assert r.calls == 11;
    DefaultDelays();
    var expected := [1 * Second, 2 * Second, 4 * Second, 8 * Second, 16 * Second,
                     32 * Second, 64 * Second, 128 * Second, 256 * Second, 300 * Second];
    assert forall k :: 0 <= k < 10 ==> r.sleeps[k] == Delay(DefaultRetryConfig, k) == expected[k];
  }

  /** The default delays: doubling from one second until five minutes caps them. */
  lemma DefaultDelays()
    ensures Delay(DefaultRetryConfig, 0) == 1 * Second && Delay(DefaultRetryConfig, 1) == 2 * Second
    ensures Delay(DefaultRetryConfig, 2) == 4 * Second && Delay(DefaultRetryConfig, 3) == 8 * Second
    ensures Delay(DefaultRetryConfig, 4) == 16 * Second && Delay(DefaultRetryConfig, 5) == 32 * Second
    ensures Delay(DefaultRetryConfig, 6) == 64 * Second && Delay(DefaultRetryConfig, 7) == 128 * Second
    ensures Delay(DefaultRetryConfig, 8) == 256 * Second && Delay(DefaultRetryConfig, 9) == 300 * Second
  {
    assert Pow(2, 9) == 512 && Pow(2, 8) == 256;
    assert Pow(2, 7) == 128 && Pow(2, 6) == 64 && Pow(2, 5) == 32;
    assert Pow(2, 4) == 16 && Pow(2, 3) == 8 && Pow(2, 2) == 4 && Pow(2, 1) == 2 && Pow(2, 0) == 1;
  }

  /** `n` rate-limited attempts followed by a success within the budget:
      the success is returned with no error after exactly `n` sleeps. */
  lemma RecoversAfterRateLimits<T>(cfg: RetryConfig, op: nat -> Outcome<T>, zero: T, n: nat)
    requires n <= cfg.maxRetries
    requires forall k :: 0 <= k < n ==> op(k).err.Some? && IsRateLimited(op(k).err.value)
    requires op(n).err.None?
    ensures RetryWithBackoff(cfg, op, zero) == RetryRun(op(n).value, None, n + 1, RetryWithBackoff(cfg, op, zero).sleeps)
    ensures |RetryWithBackoff(cfg, op, zero).sleeps| == n
  {
    var r := RetryWithBackoff(cfg, op, zero);
    assert Stops(cfg, op(n), n);
  }

  /** An error that is not rate limiting is returned after that one call. */
  lemma OtherErrorStopsAtOnce<T>(cfg: RetryConfig, op: nat -> Outcome<T>, zero: T)
    requires cfg.maxRetries >= 0
    requires op(0).err.Some? && !IsRateLimited(op(0).err.value)
    ensures RetryWithBackoff(cfg, op, zero) == RetryRun(op(0).value, op(0).err, 1, [])
  {
  }

  /** A wrapped rate-limit error is still retried: `%w` keeps it visible. */
  lemma WrappedRateLimitRetried<T>(cfg: RetryConfig, op: nat -> Outcome<T>, zero: T, context: string)
    requires cfg.maxRetries >= 1
    requires op(0).err == Some(Wrap(context, SentinelError(InteractionsRateLimited)))
    ensures RetryWithBackoff(cfg, op, zero).calls >= 2
  {
    assert IsRateLimited(op(0).err.value);
    assert !Stops(cfg, op(0), 0);
  }

  /** The blue_sky_api package's own sentinel is never retried. */
  lemma BlueskySentinelNotRetried<T>(cfg: RetryConfig, op: nat -> Outcome<T>, zero: T)
    requires cfg.maxRetries >= 0
    requires op(0).err == Some(SentinelError(BlueskyApiRateLimited))
    ensures RetryWithBackoff(cfg, op, zero).calls == 1
  {
  }
}
