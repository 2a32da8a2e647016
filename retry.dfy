/** The SQLite retry executor of retry.go: an operation is called again, after an
    exponentially growing and jittered sleep, for as long as it fails with a "database is
    locked" / SQLITE_BUSY error and the time budget lasts.

    Time is an abstract clock of integer nanoseconds that starts at 0 when the executor
    starts; it advances by the duration of each call and by each sleep. The operation is a
    function from the call index to what that call does (its error and how long it took),
    and the random draws of `rand.Float64` are a function from the attempt number to a
    fraction in [0, 1). */
module RetryExecutor {
  import opened Common
  import opened Text

  const Millisecond: int := 1_000_000
  const Second: int := 1_000_000_000

  const DefaultMaxRetryDuration: int := 30 * Second
  const DefaultBaseDelay: int := 10 * Millisecond
  const DefaultMaxDelay: int := 1 * Second
  const DefaultJitterPercent: real := 0.25

  /** `RetryConfig`; the durations are nanoseconds. */
  datatype RetryConfig = RetryConfig(maxRetryDuration: int, baseDelay: int, maxDelay: int, jitterPercent: real)

  /** `DefaultRetryConfig`: 30s budget, 10ms base delay, 1s cap, ±25% jitter. */
  function DefaultRetryConfig(): (c: RetryConfig)
    ensures c.maxRetryDuration == 30_000_000_000 && c.baseDelay == 10_000_000
    ensures c.maxDelay == 1_000_000_000 && c.jitterPercent == 0.25
    ensures 0 < c.baseDelay < c.maxDelay < c.maxRetryDuration && 0.0 <= c.jitterPercent < 1.0
  {
    RetryConfig(DefaultMaxRetryDuration, DefaultBaseDelay, DefaultMaxDelay, DefaultJitterPercent)
  }

  /** The errors worth retrying: their text mentions "database is locked" or "SQLITE_BUSY". */
  predicate IsLockError(e: string) {
    Contains(e, "database is locked") || Contains(e, "SQLITE_BUSY")
  }

  /** A driver error that carries either phrase anywhere in its text is retried. */
  lemma LockErrorInContext(before: string, after: string)
    ensures IsLockError(before + "database is locked" + after)
    ensures IsLockError(before + "SQLITE_BUSY" + after)
  {
    ContainsInside(before, "database is locked", after);
    ContainsInside(before, "SQLITE_BUSY", after);
  }

  // ---------------------------------------------------------------------------
  // Backoff and jitter

  function Pow2(k: nat): (p: nat)
    ensures p >= 1
  {
    if k == 0 then 1 else 2 * Pow2(k - 1)
  }

  /** `base * 2^k`, written as k doublings. */
  function Doubled(base: int, k: nat): int {
    if k == 0 then base else 2 * Doubled(base, k - 1)
  }

  lemma {:induction false} DoubledIsProduct(base: int, k: nat)
    ensures Doubled(base, k) == base * Pow2(k)
    decreases k
  {
    if k > 0 {
      DoubledIsProduct(base, k - 1);
      assert base * Pow2(k) == 2 * (base * Pow2(k - 1));
    }
  }

  /** min(BaseDelay * 2^attempt, MaxDelay), the delay before jitter. */
  function BackoffDelay(config: RetryConfig, attempt: nat): (d: int)
    ensures d <= config.maxDelay
    ensures d == config.maxDelay || d == Doubled(config.baseDelay, attempt)
    ensures d <= Doubled(config.baseDelay, attempt)
  {
    var grown := Doubled(config.baseDelay, attempt);
    if grown > config.maxDelay then config.maxDelay else grown
  }

  lemma {:induction false} Pow2Monotone(j: nat, k: nat)
    requires j <= k
    ensures Pow2(j) <= Pow2(k)
    decreases k
  {
    if j < k {
      Pow2Monotone(j, k - 1);
    }
  }

  /** With a non-negative base delay the backoff never shrinks from one attempt to the next. */
  lemma BackoffMonotone(config: RetryConfig, j: nat, k: nat)
    requires 0 <= config.baseDelay && j <= k
    ensures BackoffDelay(config, j) <= BackoffDelay(config, k)
  {
    DoubledIsProduct(config.baseDelay, j);
    DoubledIsProduct(config.baseDelay, k);
    Pow2Monotone(j, k);
    MulMonotone(config.baseDelay, Pow2(j), Pow2(k));
  }

  lemma MulMonotone(a: nat, x: nat, y: nat)
    requires x <= y
    ensures a * x <= a * y
  {
  }

  /** The backoff reaches the cap once BaseDelay * 2^attempt passes it, and stays there. */
  lemma BackoffReachesCap(config: RetryConfig, j: nat, k: nat)
    requires 0 <= config.baseDelay && j <= k
    requires config.baseDelay * Pow2(j) >= config.maxDelay
    ensures BackoffDelay(config, k) == config.maxDelay
  {
    DoubledIsProduct(config.baseDelay, k);
    Pow2Monotone(j, k);
    MulMonotone(config.baseDelay, Pow2(j), Pow2(k));
  }

  /** A value of `rand.Float64()`. */
  type Fraction = r: real | 0.0 <= r < 1.0

  function Abs(x: real): real {
    if x < 0.0 then -x else x
  }

  /** Go's conversion of a float to an integer type: the fraction is dropped toward zero. */
  function Truncate(x: real): (t: int)
    ensures Abs(t as real) <= Abs(x) && Abs(x) < Abs(t as real) + 1.0
    ensures (x >= 0.0 ==> t >= 0) && (x <= 0.0 ==> t <= 0)
  {
    if x >= 0.0 then x.Floor else -((-x).Floor)
  }

  /** `time.Duration(rand.Float64()*jitterRange*2 - jitterRange)` with
      `jitterRange = float64(base) * percent`, for the draw `u`. */
  function Jitter(base: int, percent: real, u: Fraction): int {
    var range := base as real * percent;
    Truncate(u * range * 2.0 - range)
  }

  /** The jitter added to a delay lies within ± base * percent. */
  lemma JitterBounds(base: int, percent: real, u: Fraction)
    ensures Abs(Jitter(base, percent, u) as real) <= Abs(base as real * percent)
  {
    var range := base as real * percent;
    var x := u * range * 2.0 - range;
    assert x == (2.0 * u - 1.0) * range;
    FactorBound(2.0 * u - 1.0, range);
  }

  /** |f * y| <= |y| for a factor f in [-1, 1]. */
  lemma FactorBound(f: real, y: real)
    requires -1.0 <= f <= 1.0
    ensures Abs(f * y) <= Abs(y)
  {
    if y >= 0.0 {
      if f >= 0.0 {
        assert f * y <= 1.0 * y;
      } else {
        assert -(f * y) == (-f) * y <= 1.0 * y;
      }
    } else {
      if f >= 0.0 {
        assert -(f * y) == f * (-y) <= 1.0 * (-y);
      } else {
        assert f * y == (-f) * (-y) <= 1.0 * (-y);
      }
    }
  }

  /** The jitter drawn before each sleep: `rand.Float64()` yields `noise(k)` before sleep
      number k, and the jitter is computed from it and that attempt's backoff. */
  function DrawnJitter(config: RetryConfig, noise: nat -> Fraction): nat -> int {
    (k: nat) => Jitter(BackoffDelay(config, k), config.jitterPercent, noise(k))
  }

  /** The delay after adding the jitter `j`; a negative one becomes `BaseDelay` (not zero). */
  function JitteredDelay(config: RetryConfig, attempt: nat, j: int): (d: int)
    ensures d >= 0 || d == config.baseDelay
    ensures d == config.baseDelay || d == BackoffDelay(config, attempt) + j
  {
    var delay := BackoffDelay(config, attempt) + j;
    if delay < 0 then config.baseDelay else delay
  }

  /** A jitter within ±range (as `JitterBounds` gives for range = |base * JitterPercent|)
      leaves the delay within base ± range of the backoff, or a negative delay is replaced
      by `BaseDelay`. */
  lemma JitteredDelayBounds(config: RetryConfig, attempt: nat, j: int, range: real)
    requires Abs(j as real) <= range
    ensures var base := BackoffDelay(config, attempt); var d := JitteredDelay(config, attempt, j);
      || (d >= 0 && base as real - range <= d as real <= base as real + range)
      || (d == config.baseDelay && base as real - range < 0.0)
  {
    var base := BackoffDelay(config, attempt);
    assert -range <= j as real <= range;
    if base + j < 0 {
      assert base as real + j as real < 0.0;
    }
  }

  /** The delay the executor sleeps after the jitter `j` when `elapsed` of the budget is gone:
      the jittered delay clamped to what remains. */
  function SleepDelay(config: RetryConfig, attempt: nat, j: int, elapsed: int): (d: int)
    ensures d <= config.maxRetryDuration - elapsed
    ensures d == JitteredDelay(config, attempt, j) || d == config.maxRetryDuration - elapsed
  {
    var delay := JitteredDelay(config, attempt, j);
    var remaining := config.maxRetryDuration - elapsed;
    if delay > remaining then remaining else delay
  }

  /** Under the default configuration every sleep computed while time remains is positive:
      the backoff is at least 10ms and the jitter takes off at most a quarter of it. */
  lemma DefaultDelayPositive(attempt: nat, u: Fraction, elapsed: int)
    requires elapsed < DefaultMaxRetryDuration
    ensures var config := DefaultRetryConfig();
      SleepDelay(config, attempt, Jitter(BackoffDelay(config, attempt), config.jitterPercent, u), elapsed) > 0
  {
    var config := DefaultRetryConfig();
    var base := BackoffDelay(config, attempt);
    assert base >= config.baseDelay by {
      DoubledIsProduct(config.baseDelay, attempt);
      MulMonotone(config.baseDelay, 1, Pow2(attempt));
    }
    JitterBounds(base, config.jitterPercent, u);
    var j := Jitter(base, config.jitterPercent, u);
    assert Abs(base as real * 0.25) == base as real * 0.25;
    assert base + j > 0;
  }

  // ---------------------------------------------------------------------------
  // retryDatabaseOperation

  /** What one call of the operation does: the error it returns (`None`: nil) and the time it
      takes, including any time a preceding sleep overran. */
  datatype Attempt = Attempt(error: Option<string>, duration: nat)

  /** One `time.Sleep(delay)`, made when `at` nanoseconds of the budget had gone. */
  datatype Sleep = Sleep(at: int, delay: int)

  /** The error the executor returns and the sleeps it made, in order. One more call is made
      than there are sleeps. */
  datatype Run = Run(error: Option<string>, sleeps: seq<Sleep>)

  /** The executor from call number `attempt` on, `start` nanoseconds into the budget. */
  function RetryFrom(config: RetryConfig, ops: nat -> Attempt, jitter: nat -> int, attempt: nat, start: int): Run
    decreases config.maxRetryDuration - start
  {
    var op := ops(attempt);
    var elapsed := start + op.duration;
    match op.error
    case None => Run(None, [])
    case Some(e) =>
      if !IsLockError(e) || elapsed >= config.maxRetryDuration then Run(Some(e), [])
      else
        var delay := SleepDelay(config, attempt, jitter(attempt), elapsed);
        if delay <= 0 then Run(Some(e), [])
        else
          var rest := RetryFrom(config, ops, jitter, attempt + 1, elapsed + delay);
          Run(rest.error, [Sleep(elapsed, delay)] + rest.sleeps)
  }

  function Retry(config: RetryConfig, ops: nat -> Attempt, jitter: nat -> int): Run {
    RetryFrom(config, ops, jitter, 0, 0)
  }

  /** `retryDatabaseOperation`. */
  method RetryDatabaseOperation(config: RetryConfig, ops: nat -> Attempt, jitter: nat -> int) returns (r: Run)
    ensures r == Retry(config, ops, jitter)
  {
    var attempt: nat := 0;
    var start := 0;
    var sleeps: seq<Sleep> := [];
    ghost var goal := Retry(config, ops, jitter);
    while true
      invariant goal.error == RetryFrom(config, ops, jitter, attempt, start).error
      invariant goal.sleeps == sleeps + RetryFrom(config, ops, jitter, attempt, start).sleeps
      decreases config.maxRetryDuration - start
    {
      var op := ops(attempt);
      var elapsed := start + op.duration;
      if op.error == None {
        assert sleeps + [] == sleeps;
        return Run(None, sleeps);
      }
      var e := op.error.value;
      if !IsLockError(e) || elapsed >= config.maxRetryDuration {
        assert sleeps + [] == sleeps;
        return Run(Some(e), sleeps);
      }
      var baseDelay := Doubled(config.baseDelay, attempt);
      if baseDelay > config.maxDelay {
        baseDelay := config.maxDelay;
      }
      var delay := baseDelay + jitter(attempt);
      if delay < 0 {
        delay := config.baseDelay;
      }
      var remaining := config.maxRetryDuration - elapsed;
      if delay > remaining {
        delay := remaining;
      }
      assert delay == SleepDelay(config, attempt, jitter(attempt), elapsed);
      if delay <= 0 {
        assert sleeps + [] == sleeps;
        return Run(Some(e), sleeps);
      }
      RetryLoopStep(config, ops, jitter, attempt, start, elapsed, delay, sleeps, goal);
      sleeps := sleeps + [Sleep(elapsed, delay)];
      attempt := attempt + 1;
      start := elapsed + delay;
    }
  }

  /** A lock error with time left and a positive delay: the executor sleeps and goes on, and
      the run still to come is the one from the next call on. */
  lemma RetryLoopStep(config: RetryConfig, ops: nat -> Attempt, jitter: nat -> int, attempt: nat, start: int,
                      elapsed: int, delay: int, sleeps: seq<Sleep>, goal: Run)
    requires ops(attempt).error.Some? && IsLockError(ops(attempt).error.value)
    requires elapsed == start + ops(attempt).duration < config.maxRetryDuration
    requires delay == SleepDelay(config, attempt, jitter(attempt), elapsed) > 0
    requires goal.error == RetryFrom(config, ops, jitter, attempt, start).error
    requires goal.sleeps == sleeps + RetryFrom(config, ops, jitter, attempt, start).sleeps
    ensures goal.error == RetryFrom(config, ops, jitter, attempt + 1, elapsed + delay).error
    ensures goal.sleeps == (sleeps + [Sleep(elapsed, delay)]) + RetryFrom(config, ops, jitter, attempt + 1, elapsed + delay).sleeps
  {
    var rest := RetryFrom(config, ops, jitter, attempt + 1, elapsed + delay);
    assert RetryFrom(config, ops, jitter, attempt, start) == Run(rest.error, [Sleep(elapsed, delay)] + rest.sleeps);
    assert sleeps + ([Sleep(elapsed, delay)] + rest.sleeps) == (sleeps + [Sleep(elapsed, delay)]) + rest.sleeps;
  }

  /** A nil result on the first call is returned at once, with no sleep and no further call. */
  lemma ImmediateSuccess(config: RetryConfig, ops: nat -> Attempt, jitter: nat -> int)
    requires ops(0).error == None
    ensures Retry(config, ops, jitter) == Run(None, [])
  {
  }

  /** An error that is not a lock error is returned after exactly one call. */
  lemma NonRetryableError(config: RetryConfig, ops: nat -> Attempt, jitter: nat -> int)
    requires ops(0).error.Some? && !IsLockError(ops(0).error.value)
    ensures Retry(config, ops, jitter) == Run(ops(0).error, [])
  {
  }

  /** Where the clock stands when sleep `i` has ended (`start` for i = 0): the time from which
      call number i + 1 runs. */
  function ResumeTime(start: int, sleeps: seq<Sleep>, i: nat): int
    requires i <= |sleeps|
  {
    if i == 0 then start else sleeps[i - 1].at + sleeps[i - 1].delay
  }

  /** Which calls are made and what is returned: calls `attempt` to `attempt + |sleeps|` are
      made, every one but the last failed with a lock error, and the result is the error of
      the last one. */
  lemma {:induction false} RetryCalls(config: RetryConfig, ops: nat -> Attempt, jitter: nat -> int, attempt: nat, start: int)
    ensures var r := RetryFrom(config, ops, jitter, attempt, start);
      && r.error == ops(attempt + |r.sleeps|).error
      && forall k :: attempt <= k < attempt + |r.sleeps| ==> ops(k).error.Some? && IsLockError(ops(k).error.value)
    decreases config.maxRetryDuration - start
  {
    var op := ops(attempt);
    var elapsed := start + op.duration;
    if op.error.Some? && IsLockError(op.error.value) && elapsed < config.maxRetryDuration {
      var delay := SleepDelay(config, attempt, jitter(attempt), elapsed);
      if delay > 0 {
        RetryCalls(config, ops, jitter, attempt + 1, elapsed + delay);
      }
    }
  }

  /** Sleep i is positive and ends within the budget; it starts when call `attempt + i`, which
      began as the previous sleep ended (or at `start`), has ended, and it lasts the clamped
      delay for that attempt. */
  predicate TimedSleep(config: RetryConfig, ops: nat -> Attempt, jitter: nat -> int, attempt: nat, start: int, s: seq<Sleep>, i: nat)
    requires i < |s|
  {
    && s[i].at == ResumeTime(start, s, i) + ops(attempt + i).duration
    && s[i].delay == SleepDelay(config, attempt + i, jitter(attempt + i), s[i].at)
    && 0 < s[i].delay && s[i].at + s[i].delay <= config.maxRetryDuration
  }

  /** Every sleep the executor makes is timed as `TimedSleep` says. */
  lemma {:induction false} RetryTiming(config: RetryConfig, ops: nat -> Attempt, jitter: nat -> int, attempt: nat, start: int)
    ensures forall i :: 0 <= i < |RetryFrom(config, ops, jitter, attempt, start).sleeps| ==>
      TimedSleep(config, ops, jitter, attempt, start, RetryFrom(config, ops, jitter, attempt, start).sleeps, i)
    decreases config.maxRetryDuration - start
  {
    var op := ops(attempt);
    var elapsed := start + op.duration;
    if op.error.Some? && IsLockError(op.error.value) && elapsed < config.maxRetryDuration {
      var delay := SleepDelay(config, attempt, jitter(attempt), elapsed);
      if delay > 0 {
        var next := elapsed + delay;
        RetryTiming(config, ops, jitter, attempt + 1, next);
        var t := RetryFrom(config, ops, jitter, attempt + 1, next).sleeps;
        var s := [Sleep(elapsed, delay)] + t;
        assert RetryFrom(config, ops, jitter, attempt, start).sleeps == s;
        forall i | 0 <= i < |s|
          ensures TimedSleep(config, ops, jitter, attempt, start, s, i)
        {
          if i > 0 {
            var k := i - 1;
            assert TimedSleep(config, ops, jitter, attempt + 1, next, t, k);
            assert s[i] == t[k];
            assert attempt + i == (attempt + 1) + k;
            if k > 0 {
              assert s[i - 1] == t[k - 1];
            }
            assert ResumeTime(start, s, i) == ResumeTime(next, t, k);
          }
        }
      }
    }
  }

  /** Why a lock error is given up: after the last call either the budget is used up or the
      delay computed for it is not positive. */
  lemma {:induction false} RetryStopReason(config: RetryConfig, ops: nat -> Attempt, jitter: nat -> int, attempt: nat, start: int)
    ensures var r := RetryFrom(config, ops, jitter, attempt, start);
      var n := attempt + |r.sleeps|; var elapsed := ResumeTime(start, r.sleeps, |r.sleeps|) + ops(n).duration;
      r.error.Some? && IsLockError(r.error.value) ==>
        elapsed >= config.maxRetryDuration || SleepDelay(config, n, jitter(n), elapsed) <= 0
    decreases config.maxRetryDuration - start
  {
    var op := ops(attempt);
    var elapsed := start + op.duration;
    if op.error.Some? && IsLockError(op.error.value) && elapsed < config.maxRetryDuration {
      var delay := SleepDelay(config, attempt, jitter(attempt), elapsed);
      if delay > 0 {
        var next := elapsed + delay;
        RetryStopReason(config, ops, jitter, attempt + 1, next);
        var rest := RetryFrom(config, ops, jitter, attempt + 1, next);
        var s := [Sleep(elapsed, delay)] + rest.sleeps;
        assert RetryFrom(config, ops, jitter, attempt, start) == Run(rest.error, s);
        assert attempt + |s| == attempt + 1 + |rest.sleeps|;
        assert ResumeTime(start, s, |s|) == ResumeTime(next, rest.sleeps, |rest.sleeps|);
      }
    }
  }

  /** When every delay computed while time remains is positive, a lock error is given up only
      once the whole budget is used. */
  lemma PositiveDelaysUseWholeBudget(config: RetryConfig, ops: nat -> Attempt, jitter: nat -> int)
    requires forall k: nat, elapsed: int :: elapsed < config.maxRetryDuration ==> SleepDelay(config, k, jitter(k), elapsed) > 0
    ensures var r := Retry(config, ops, jitter);
      r.error.Some? && IsLockError(r.error.value) ==>
        ResumeTime(0, r.sleeps, |r.sleeps|) + ops(|r.sleeps|).duration >= config.maxRetryDuration
  {
    RetryStopReason(config, ops, jitter, 0, 0);
  }

  /** Under the default configuration a lock error is given up only once the whole budget is
      used: the time after the last call is at least 30 seconds. */
  lemma DefaultRetriesForWholeBudget(ops: nat -> Attempt, noise: nat -> Fraction)
    ensures var r := Retry(DefaultRetryConfig(), ops, DrawnJitter(DefaultRetryConfig(), noise));
      r.error.Some? && IsLockError(r.error.value) ==>
        ResumeTime(0, r.sleeps, |r.sleeps|) + ops(|r.sleeps|).duration >= DefaultMaxRetryDuration
  {
    var config := DefaultRetryConfig();
    var jitter := DrawnJitter(config, noise);
    forall k: nat, elapsed: int | elapsed < config.maxRetryDuration
      ensures SleepDelay(config, k, jitter(k), elapsed) > 0
    {
      DrawnDelayPositive(noise, k, elapsed);
    }
    PositiveDelaysUseWholeBudget(config, ops, jitter);
  }

  lemma DrawnDelayPositive(noise: nat -> Fraction, n: nat, elapsed: int)
    requires elapsed < DefaultMaxRetryDuration
    ensures SleepDelay(DefaultRetryConfig(), n, DrawnJitter(DefaultRetryConfig(), noise)(n), elapsed) > 0
  {
    var config := DefaultRetryConfig();
    DefaultDelayPositive(n, noise(n), elapsed);
    assert DrawnJitter(config, noise)(n) == Jitter(BackoffDelay(config, n), config.jitterPercent, noise(n));
  }

  function TotalDelay(s: seq<Sleep>): int {
    if s == [] then 0 else TotalDelay(s[..|s| - 1]) + s[|s| - 1].delay
  }

  /** The sleeps together never exceed the budget. */
  lemma TotalSleepWithinBudget(config: RetryConfig, ops: nat -> Attempt, jitter: nat -> int)
    ensures var s := Retry(config, ops, jitter).sleeps;
      s != [] ==> TotalDelay(s) <= config.maxRetryDuration
  {
    var s := Retry(config, ops, jitter).sleeps;
    RetryTiming(config, ops, jitter, 0, 0);
    forall i | 0 <= i < |s| ensures s[i].at >= ResumeTime(0, s, i) {
      assert TimedSleep(config, ops, jitter, 0, 0, s, i);
    }
    SleepsFitBetween(s, 0, |s|);
    assert s[..|s|] == s;
    if s != [] {
      assert TimedSleep(config, ops, jitter, 0, 0, s, |s| - 1);
    }
  }

  /** For sleeps that each start no earlier than the one before ended, the delays of the
      first `n` add up to at most the time at which the n-th ends. */
  lemma {:induction false} SleepsFitBetween(s: seq<Sleep>, start: int, n: nat)
    requires 0 <= start && n <= |s|
    requires forall i :: 0 <= i < |s| ==> s[i].at >= ResumeTime(start, s, i)
    ensures TotalDelay(s[..n]) <= ResumeTime(start, s, n)
    decreases n
  {
    if n > 0 {
      SleepsFitBetween(s, start, n - 1);
      assert s[..n][..n - 1] == s[..n - 1];
      assert s[..n][n - 1] == s[n - 1];
    }
  }

  // ---------------------------------------------------------------------------
  // The overflow of the backoff multiplication

  const Int64Min: int := -0x8000_0000_0000_0000
  const Int64Modulus: int := 0x1_0000_0000_0000_0000

  /** Two's complement wrap-around to 64 bits. */
  function Wrap64(x: int): (w: int)
    ensures Int64Min <= w < -Int64Min
    ensures (w - x) % Int64Modulus == 0
  {
    (x - Int64Min) % Int64Modulus + Int64Min
  }

  /** `1 << uint(attempt)` on Go's 64-bit `int`. */
  function ShiftLeft64(attempt: nat): int {
    if attempt < 63 then Pow2(attempt) else if attempt == 63 then Int64Min else 0
  }

  /** The backoff as retry.go computes it: `int64(BaseDelay) * int64(multiplier)` wraps around. */
  function BackoffDelayAsWritten(config: RetryConfig, attempt: nat): (d: int)
    requires Int64Min <= config.baseDelay < -Int64Min
    ensures d <= config.maxDelay
  {
    var grown := Wrap64(config.baseDelay * ShiftLeft64(attempt));
    if grown > config.maxDelay then config.maxDelay else grown
  }

  /** As long as BaseDelay * 2^attempt fits in 64 bits, the written code computes the intended
      capped backoff. */
  lemma BackoffAsWrittenWhileItFits(config: RetryConfig, attempt: nat)
    requires 0 <= config.baseDelay && attempt < 63
    requires config.baseDelay * Pow2(attempt) < -Int64Min
    ensures BackoffDelayAsWritten(config, attempt) == BackoffDelay(config, attempt)
  {
    DoubledIsProduct(config.baseDelay, attempt);
    var x := config.baseDelay * Pow2(attempt);
    assert 0 <= x - Int64Min < Int64Modulus;
    assert (x - Int64Min) % Int64Modulus == x - Int64Min;
  }

  lemma Pow2At40()
    ensures Pow2(40) == 0x100_0000_0000
  {
    assert Pow2(10) == 1024;
    assert Pow2(20) == 1024 * 1024;
    assert Pow2(30) == 1024 * 1024 * 1024;
  }

  /** The backoff the written code computes under the default configuration at attempt 40:
      10ms * 2^40 wraps around to a negative number, which passes the cap check. */
  const WrappedBackoffAt40: int := -7_451_627_795_949_551_616

  lemma BackoffAsWrittenAt40()
    ensures BackoffDelayAsWritten(DefaultRetryConfig(), 40) == WrappedBackoffAt40
  {
    var config := DefaultRetryConfig();
    Pow2At40();
    var x := config.baseDelay * ShiftLeft64(40);
    assert x == 10_995_116_277_760_000_000;
    assert Wrap64(x) == x - Int64Modulus;
  }

  /** The delay after jitter, from the backoff as written: `baseDelay + jitter` is an `int64`
      addition too, and wraps around. */
  function JitteredDelayAsWritten(config: RetryConfig, attempt: nat, u: Fraction): (d: int)
    requires Int64Min <= config.baseDelay < -Int64Min
    ensures d >= 0 || d == config.baseDelay
    ensures d < -Int64Min
  {
    var base := BackoffDelayAsWritten(config, attempt);
    var delay := Wrap64(base + Jitter(base, config.jitterPercent, u));
    if delay < 0 then config.baseDelay else delay
  }

  /** The sleep the written code makes when `elapsed` of the budget is gone: the delay as
      written, clamped to what remains. */
  function SleepDelayAsWritten(config: RetryConfig, attempt: nat, u: Fraction, elapsed: int): (d: int)
    requires Int64Min <= config.baseDelay < -Int64Min
    ensures d <= config.maxRetryDuration - elapsed
  {
    var delay := JitteredDelayAsWritten(config, attempt, u);
    var remaining := config.maxRetryDuration - elapsed;
    if delay > remaining then remaining else delay
  }

  /** With a draw up to 0.975 the negative backoff plus its jitter stays within `int64` and
      stays negative. */
  lemma LowDrawAt40(u: Fraction)
    requires u <= 0.975
    ensures var sum := WrappedBackoffAt40 + Jitter(WrappedBackoffAt40, DefaultJitterPercent, u);
      Int64Min <= sum < 0
    ensures JitteredDelayAsWritten(DefaultRetryConfig(), 40, u) == DefaultBaseDelay
  {
    BackoffAsWrittenAt40();
    var range := WrappedBackoffAt40 as real * DefaultJitterPercent;
    assert range == -1_862_906_948_987_387_904.0;
    var x := u * range * 2.0 - range;
    assert x == (2.0 * u - 1.0) * range;
    assert x >= 0.95 * range;
    JitterBounds(WrappedBackoffAt40, DefaultJitterPercent, u);
    var sum := WrappedBackoffAt40 + Jitter(WrappedBackoffAt40, DefaultJitterPercent, u);
    assert Wrap64(sum) == sum by {
      assert 0 <= sum - Int64Min < Int64Modulus;
      assert (sum - Int64Min) % Int64Modulus == sum - Int64Min;
    }
  }

  /** With a draw from 0.976 on the sum falls below the `int64` range and wraps to a
      positive value far above the 30s budget. */
  lemma HighDrawAt40(u: Fraction)
    requires u >= 0.976
    ensures var sum := WrappedBackoffAt40 + Jitter(WrappedBackoffAt40, DefaultJitterPercent, u);
      sum < Int64Min && Wrap64(sum) == sum + Int64Modulus && Wrap64(sum) > DefaultMaxRetryDuration
    ensures JitteredDelayAsWritten(DefaultRetryConfig(), 40, u) > DefaultMaxRetryDuration
  {
    var sum := WrappedBackoffAt40 + Jitter(WrappedBackoffAt40, DefaultJitterPercent, u);
    assert -Int64Modulus <= sum - Int64Min < 0 by {
      var range := WrappedBackoffAt40 as real * DefaultJitterPercent;
      assert range == -1_862_906_948_987_387_904.0;
      var x := u * range * 2.0 - range;
      assert x == (2.0 * u - 1.0) * range;
      assert x <= 0.952 * range;
      JitterBounds(WrappedBackoffAt40, DefaultJitterPercent, u);
    }
    assert (sum - Int64Min) % Int64Modulus == sum - Int64Min + Int64Modulus;
    BackoffAsWrittenAt40();
  }

  /** Under the defaults the intended delay at attempt 40 is the 1s cap plus at most 25%
      jitter either way. */
  lemma IntendedDelayAt40(u: Fraction)
    ensures BackoffDelay(DefaultRetryConfig(), 40) == DefaultMaxDelay
    ensures var config := DefaultRetryConfig();
      var intended := JitteredDelay(config, 40, Jitter(BackoffDelay(config, 40), config.jitterPercent, u));
      750 * Millisecond <= intended <= 1250 * Millisecond
  {
    var config := DefaultRetryConfig();
    var good := BackoffDelay(config, 40);
    Pow2At40();
    DoubledIsProduct(config.baseDelay, 40);
    JitterBounds(good, config.jitterPercent, u);
    assert Abs(good as real * 0.25) == 250_000_000.0;
  }

  /** From attempt 64 on, `1 << uint(attempt)` is 0 in 64 bits for every configuration, so the
      written backoff, its jitter and the delay are all 0, and the executor gives up with the
      lock error however much of the budget remains. */
  lemma BackoffVanishesFromAttempt64(config: RetryConfig, attempt: nat, u: Fraction, elapsed: int)
    requires Int64Min <= config.baseDelay < -Int64Min && 0 <= config.maxDelay
    requires attempt >= 64 && elapsed < config.maxRetryDuration
    ensures BackoffDelayAsWritten(config, attempt) == 0
    ensures JitteredDelayAsWritten(config, attempt, u) == 0
    ensures SleepDelayAsWritten(config, attempt, u, elapsed) == 0
  {
    assert Wrap64(0) == 0;
    assert Jitter(0, config.jitterPercent, u) == 0 by {
      assert 0 as real * config.jitterPercent == 0.0;
    }
  }

  /** A caller's configuration: 30s budget, 1ms base delay, 10ms cap, ±25% jitter. */
  function MillisecondConfig(): RetryConfig {
    RetryConfig(30 * Second, Millisecond, 10 * Millisecond, 0.25)
  }

  lemma Pow2At58()
    ensures Pow2(58) == 0x400_0000_0000_0000
  {
    Pow2At40();
    assert Pow2(50) == 0x4_0000_0000_0000;
  }

  /** The product vanishes earlier when BaseDelay has factors of 2: 1ms = 2^6 * 15625, so
      1ms * 2^58 = 15625 * 2^64 wraps to 0 at attempt 58, and the written code sleeps 0 and
      gives up, while the intended delay there is the 10ms cap less at most a quarter. */
  lemma BackoffVanishesAtAttempt58(u: Fraction, elapsed: int)
    requires 0 <= elapsed < 30 * Second
    ensures BackoffDelayAsWritten(MillisecondConfig(), 58) == 0
    ensures SleepDelayAsWritten(MillisecondConfig(), 58, u, elapsed) == 0
    ensures var config := MillisecondConfig();
      SleepDelay(config, 58, Jitter(BackoffDelay(config, 58), config.jitterPercent, u), elapsed) > 0
  {
    var config := MillisecondConfig();
    Pow2At58();
    var x := config.baseDelay * ShiftLeft64(58);
    assert x == 15625 * Int64Modulus;
    assert (x - Int64Min) % Int64Modulus == -Int64Min;
    assert Jitter(0, config.jitterPercent, u) == 0 by {
      assert 0 as real * config.jitterPercent == 0.0;
    }
    assert Pow2(4) == 16;
    BackoffReachesCap(config, 4, 58);
    JitterBounds(config.maxDelay, config.jitterPercent, u);
  }

  /** With the default configuration the product overflows at attempt 40. For a draw up to
      0.975 the written code then computes a 10ms delay; for a draw from 0.976 on the addition of the
      jitter wraps again, and the code sleeps all that remains of the budget. The intended
      backoff has been 1s since attempt 7, and the intended delay lies within 750ms..1.25s. */
  lemma BackoffOverflowsAtAttempt40(u: Fraction, elapsed: int)
    requires 0 <= elapsed < DefaultMaxRetryDuration
    ensures BackoffDelayAsWritten(DefaultRetryConfig(), 40) < 0
    ensures u <= 0.975 ==> JitteredDelayAsWritten(DefaultRetryConfig(), 40, u) == DefaultBaseDelay
    ensures u >= 0.976 ==> SleepDelayAsWritten(DefaultRetryConfig(), 40, u, elapsed) == DefaultMaxRetryDuration - elapsed
    ensures BackoffDelay(DefaultRetryConfig(), 40) == DefaultMaxDelay
    ensures var config := DefaultRetryConfig();
      var intended := JitteredDelay(config, 40, Jitter(BackoffDelay(config, 40), config.jitterPercent, u));
      750 * Millisecond <= intended <= 1250 * Millisecond
  {
    BackoffAsWrittenAt40();
    if u <= 0.975 {
      LowDrawAt40(u);
    }
    if u >= 0.976 {
      HighDrawAt40(u);
    }
    IntendedDelayAt40(u);
  }

  // ---------------------------------------------------------------------------
  // The wrappers

  /** What a wrapped driver call gives: its value (a `sql.Result`, `*sql.Rows`, …), its error
      and how long it took. */
  datatype Call<T> = Call(value: T, error: Option<string>, duration: nat)

  function Attempts<T>(calls: nat -> Call<T>): nat -> Attempt {
    (k: nat) => Attempt(calls(k).error, calls(k).duration)
  }

  /** `ExecWithRetryConfig` / `QueryWithRetryConfig`: the value is the one the last call
      wrote into the captured variable, the error is the executor's. */
  method RetryCapturing<T>(config: RetryConfig, calls: nat -> Call<T>, noise: nat -> Fraction) returns (value: T, err: Option<string>)
    ensures var r := Retry(config, Attempts(calls), DrawnJitter(config, noise));
      err == r.error && value == calls(|r.sleeps|).value
  {
    var r := RetryDatabaseOperation(config, Attempts(calls), DrawnJitter(config, noise));
    value := calls(|r.sleeps|).value;
    err := r.error;
  }

  /** `ExecWithRetry`, `QueryWithRetry`, `TxExecWithRetry`, `TxQueryWithRetry`: the same
      with the default configuration. */
  method RetryCapturingDefault<T>(calls: nat -> Call<T>, noise: nat -> Fraction) returns (value: T, err: Option<string>)
    ensures var r := Retry(DefaultRetryConfig(), Attempts(calls), DrawnJitter(DefaultRetryConfig(), noise));
      err == r.error && value == calls(|r.sleeps|).value
  {
    value, err := RetryCapturing(DefaultRetryConfig(), calls, noise);
  }

  /** `RetryRow.Scan` / `TxRetryRow.Scan`: each attempt runs the query and the scan again; only
      the executor's error is returned. */
  method RetryScan(scans: nat -> Attempt, noise: nat -> Fraction) returns (err: Option<string>)
    ensures err == Retry(DefaultRetryConfig(), scans, DrawnJitter(DefaultRetryConfig(), noise)).error
  {
    var r := RetryDatabaseOperation(DefaultRetryConfig(), scans, DrawnJitter(DefaultRetryConfig(), noise));
    err := r.error;
  }

  /** The wrappers return the error of the last call they made: a value captured from a call
      that failed with a lock error is never returned when that error was retried. */
  lemma CapturedValueIsFromLastCall<T>(config: RetryConfig, calls: nat -> Call<T>, noise: nat -> Fraction)
    ensures var r := Retry(config, Attempts(calls), DrawnJitter(config, noise));
      r.error == calls(|r.sleeps|).error
  {
    RetryCalls(config, Attempts(calls), DrawnJitter(config, noise), 0, 0);
  }

  // ---------------------------------------------------------------------------
  // WithTransactionRetry

  /** What one attempt of the transaction unit meets: the outcome of `GetDB`, `Begin`, the
      caller's function, `Rollback` and `Commit`, and how long it all took. */
  datatype TxAttempt = TxAttempt(
    getDb: Option<string>, begin: Option<string>, body: Option<string>,
    rollback: Option<string>, commit: Option<string>, duration: nat)

  datatype TxStep = OpenDb | BeginTx | RunBody | RollbackTx | CommitTx | CloseDb

  /** One attempt of the unit: open, begin, run the function, then roll back on its failure
      or commit; the connection opened is closed last (`defer db.Close()`). A failed rollback
      is only logged. */
  function TransactionUnit(a: TxAttempt): (Option<string>, seq<TxStep>) {
    if a.getDb.Some? then (a.getDb, [OpenDb])
    else if a.begin.Some? then (a.begin, [OpenDb, BeginTx, CloseDb])
    else if a.body.Some? then (a.body, [OpenDb, BeginTx, RunBody, RollbackTx, CloseDb])
    else (a.commit, [OpenDb, BeginTx, RunBody, CommitTx, CloseDb])
  }

  /** A failing function is rolled back and its own error reported (even if the rollback
      fails); otherwise the commit decides the result. Nothing is committed after a failure,
      and a connection that was opened is closed. */
  lemma TransactionUnitOutcome(a: TxAttempt)
    ensures var (err, steps) := TransactionUnit(a);
      && (a.getDb.None? && a.begin.None? && a.body.Some? ==>
            err == a.body && RollbackTx in steps && CommitTx !in steps)
      && (a.getDb.None? && a.begin.None? && a.body.None? ==>
            err == a.commit && CommitTx in steps && RollbackTx !in steps)
      && (a.getDb.None? ==> steps[|steps| - 1] == CloseDb)
      && (RunBody in steps <==> a.getDb.None? && a.begin.None?)
  {
  }

  function TxAttempts(attempts: nat -> TxAttempt): nat -> Attempt {
    (k: nat) => Attempt(TransactionUnit(attempts(k)).0, attempts(k).duration)
  }

  /** `WithTransactionRetry`: the whole unit is retried by the executor with the default
      configuration. */
  method WithTransactionRetry(attempts: nat -> TxAttempt, noise: nat -> Fraction) returns (err: Option<string>)
    ensures err == Retry(DefaultRetryConfig(), TxAttempts(attempts), DrawnJitter(DefaultRetryConfig(), noise)).error
  {
    var r := RetryDatabaseOperation(DefaultRetryConfig(), TxAttempts(attempts), DrawnJitter(DefaultRetryConfig(), noise));
    err := r.error;
  }

  /** A unit whose function fails with a lock error is rolled back and run again; one whose
      function fails otherwise is rolled back and that error is returned at once. */
  lemma TransactionBodyErrorNotRetried(attempts: nat -> TxAttempt, noise: nat -> Fraction)
    requires attempts(0).getDb.None? && attempts(0).begin.None?
    requires attempts(0).body.Some? && !IsLockError(attempts(0).body.value)
    ensures Retry(DefaultRetryConfig(), TxAttempts(attempts), DrawnJitter(DefaultRetryConfig(), noise)) == Run(attempts(0).body, [])
  {
    NonRetryableError(DefaultRetryConfig(), TxAttempts(attempts), DrawnJitter(DefaultRetryConfig(), noise));
  }
}
