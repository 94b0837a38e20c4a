/** Retrying with jittered exponential delays, under a budget and a deadline. */
module Retry {
  import opened Wrappers
  import opened Numerals
  import Deadline

  /** The nearest integer, halves upwards. */
  function Round(x: real): int { (x + 0.5).Floor }

  function RoundedProduct(n: int, factor: real): int { Round(n as real * factor) }

  function Clamped(x: real): (r: real)
    ensures 0.0 <= r <= 1.0
  {
    if x < 0.0 then 0.0 else if x > 1.0 then 1.0 else x
  }

  function Jitter(random: real): real { 0.8 + Clamped(random) * 0.4 }

  /** The delay before the retry with the given number, or `None` if an argument is not a positive integer. */
  function DelayMs(retryNumber: int, base: int, max: int, random: real): Option<int> {
    if IsPositiveInteger(retryNumber) && IsPositiveInteger(base) && IsPositiveInteger(max) then
      Some(Max(1, RoundedProduct(Min(max, base * Pow(2, retryNumber - 1)), Jitter(random))))
    else None
  }

  lemma RoundIsMonotone(x: real, y: real)
    requires x <= y
    ensures Round(x) <= Round(y)
  {
  }

  lemma Scaled(a: real, b: real, x: real, y: real)
    requires 0.0 <= a <= b && 0.0 <= x <= y
    ensures a * x <= b * y
  {
    assert a * x <= a * y;
    assert a * y <= b * y;
  }

  lemma RoundScaled(a: int, b: int, x: real, y: real)
    requires 0 <= a <= b && 0.0 <= x <= y
    ensures RoundedProduct(a, x) <= RoundedProduct(b, y)
  {
    Scaled(a as real, b as real, x, y);
    RoundIsMonotone(a as real * x, b as real * y);
  }

  /** Every delay is at least a millisecond and within the jitter of its bounds, whatever the random source returns. */
  lemma DelayInRange(retryNumber: int, base: int, max: int, random: real)
    requires DelayMs(retryNumber, base, max, random).Some?
    ensures var delay := DelayMs(retryNumber, base, max, random).value;
      1 <= delay && RoundedProduct(Min(max, base), 0.8) <= delay <= RoundedProduct(max, 1.2)
  {
    hide RoundedProduct, Jitter;
    var step := Min(max, base * Pow(2, retryNumber - 1));
    PowIsPositive(2, retryNumber - 1);
    MulLe(1, Pow(2, retryNumber - 1), base);
    JitterInRange(random);
    RoundScaled(step, max, Jitter(random), 1.2);
    RoundScaled(Min(max, base), step, 0.8, Jitter(random));
    RoundScaled(1, max, 1.0, 1.2);
    assert RoundedProduct(1, 1.0) == 1 by { RoundOfOne(); }
  }

  /** The step before jitter: the base, doubled for each retry, and never more than the maximum. */
  function Step(retryNumber: nat, base: int, max: int): int {
    if retryNumber <= 1 then Min(max, base) else Min(max, 2 * Step(retryNumber - 1, base, max))
  }

  lemma TwiceThePower(retryNumber: nat, base: int)
    requires retryNumber > 1
    ensures base * Pow(2, retryNumber - 1) == 2 * (base * Pow(2, retryNumber - 2))
  {
    var p := Pow(2, retryNumber - 2);
    assert base * (2 * p) == 2 * (base * p);
  }

  lemma MinOfTwice(max: int, x: int)
    requires max > 0
    ensures Min(max, 2 * Min(max, x)) == Min(max, 2 * x)
  {
  }

  lemma {:induction false} StepDoubles(retryNumber: nat, base: int, max: int)
    requires base > 0 && max > 0 && retryNumber > 0
    ensures Step(retryNumber, base, max) == Min(max, base * Pow(2, retryNumber - 1))
    ensures 0 < Step(retryNumber, base, max) <= max
  {
    if retryNumber > 1 {
      StepDoubles(retryNumber - 1, base, max);
      TwiceThePower(retryNumber, base);
      MinOfTwice(max, base * Pow(2, retryNumber - 2));
      hide Pow;
    } else {
      assert Pow(2, 0) == 1;
    }
  }

  /** The nearest integer to a product: at most half above it, and less than half below. */
  predicate IsNearest(r: int, n: int, factor: real) { r as real - 0.5 <= n as real * factor < r as real + 0.5 }

  /**
   A delay exists exactly for positive arguments. It is the doubled step, moved by
   at most a fifth either way and rounded to the nearest millisecond, but at least one.
   */
  lemma DelayExactly(retryNumber: int, base: int, max: int, random: real)
    ensures DelayMs(retryNumber, base, max, random).None? <==>
            !(0 < retryNumber <= 0x1f_ffff_ffff_ffff
              && 0 < base <= 0x1f_ffff_ffff_ffff && 0 < max <= 0x1f_ffff_ffff_ffff)
    ensures DelayMs(retryNumber, base, max, random).Some? ==>
      var delay, step := DelayMs(retryNumber, base, max, random).value, Step(retryNumber, base, max);
      && 1 <= delay && RoundedProduct(step, 0.8) <= delay <= RoundedProduct(step, 1.2)
      && (random <= 0.0 ==> delay == Max(1, RoundedProduct(step, 0.8)))
      && (random == 0.5 ==> delay == step)
      && (random >= 1.0 ==> delay == Max(1, RoundedProduct(step, 1.2)))
      && (0.0 <= random <= 1.0 ==> delay == Max(1, RoundedProduct(step, 0.8 + 0.4 * random)))
  {
    if DelayMs(retryNumber, base, max, random).Some? {
      StepDoubles(retryNumber, base, max);
      JitterInRange(random);
      hide RoundedProduct, Jitter, Pow;
      var step := Step(retryNumber, base, max);
      RoundScaled(step, step, 0.8, Jitter(random));
      RoundScaled(step, step, Jitter(random), 1.2);
      RoundScaled(1, step, 1.0, 1.2);
      RoundOfOne();
      RoundOfWhole(step);
      assert 0.8 + 0.4 * 0.5 == 1.0;
    }
  }

  lemma RoundOfWhole(n: int)
    ensures RoundedProduct(n, 1.0) == n
  {
  }

  /** Rounding goes to the nearest integer, halves upwards. */
  lemma RoundIsNearest(n: int, factor: real)
    ensures IsNearest(RoundedProduct(n, factor), n, factor)
  {
  }

  /** With the random source in the middle the delays double from the base up to the maximum. */
  lemma DelaysDouble(retryNumber: int, base: int, max: int)
    requires DelayMs(retryNumber + 1, base, max, 0.5).Some? && DelayMs(1, base, max, 0.5).Some? && retryNumber > 0
    ensures DelayMs(1, base, max, 0.5) == Some(Min(max, base))
    ensures DelayMs(retryNumber, base, max, 0.5).Some?
    ensures DelayMs(retryNumber + 1, base, max, 0.5) == Some(Min(max, 2 * DelayMs(retryNumber, base, max, 0.5).value))
  {
    DelayExactly(1, base, max, 0.5);
    DelayExactly(retryNumber, base, max, 0.5);
    DelayExactly(retryNumber + 1, base, max, 0.5);
    hide DelayMs;
  }

  lemma JitterInRange(random: real)
    ensures 0.8 <= Jitter(random) <= 1.2
    ensures random <= 0.0 ==> Jitter(random) == 0.8
    ensures random >= 1.0 ==> Jitter(random) == 1.2
    ensures 0.0 <= random <= 1.0 ==> Jitter(random) == 0.8 + 0.4 * random
  {
  }

  lemma RoundOfOne()
    ensures RoundedProduct(1, 1.0) == 1
  {
  }

  // ---------- The loop ----------

  datatype Options = Options(
    maxAttempts: int, baseDelayMs: int, maxDelayMs: int, retryBudgetMs: Option<int>,
    expiresAt: Option<int>, startedAt: int)
  {
    predicate Valid() {
      && IsPositiveInteger(maxAttempts) && IsPositiveInteger(baseDelayMs) && IsPositiveInteger(maxDelayMs)
      && (retryBudgetMs.Some? ==> IsPositiveInteger(retryBudgetMs.value))
    }
  }

  datatype Outcome = Succeeds | Fails(retryable: bool)

  /**
   What one attempt meets: whether a signal or the deadline had ended when it
   was due, how the operation ends, the random value and the clock when it
   failed, the clock when the deadline was asked, and whether sleeping is aborted.
   */
  datatype Attempt = Attempt(
    stopped: bool, outcome: Outcome, random: real, failedAt: int, checkedAt: int, sleepAborted: bool)

  datatype Ending =
    Stopped | Returned | Failed | PastDeadline | OverBudget | SleepAborted | InvalidOptions | FellThrough

  datatype RetryResult = Scheduled(attempt: int, delayMs: int) | Succeeded(attempt: int) | Exhausted(attempt: int)

  function Delay(o: Options, attempt: int, random: real): (delay: int)
    requires o.Valid() && 1 <= attempt <= o.maxAttempts
  {
    DelayMs(attempt, o.baseDelayMs, o.maxDelayMs, random).value
  }

  function Elapsed(o: Options, a: Attempt): nat { Max(0, a.failedAt - o.startedAt) }

  /** Whether an attempt is followed by another, and if not, how the call ends. */
  function Decision(o: Options, attempt: int, a: Attempt): Option<Ending>
    requires o.Valid() && 1 <= attempt <= o.maxAttempts
  {
    if a.stopped then Some(Stopped)
    else if a.outcome == Succeeds then Some(Returned)
    else if attempt == o.maxAttempts || !a.outcome.retryable then Some(Failed)
    else
      var delay := Delay(o, attempt, a.random);
      if o.expiresAt.Some? && delay >= Deadline.Remaining(o.expiresAt.value, a.checkedAt) then Some(PastDeadline)
      else if o.retryBudgetMs.Some? && delay > Max(0, o.retryBudgetMs.value - Elapsed(o, a)) then Some(OverBudget)
      else if a.sleepAborted then Some(SleepAborted)
      else None
  }

  /** The attempt with number `i` is the first that is not followed by another. */
  ghost predicate EndsAt(o: Options, attempts: int -> Attempt, n: int)
    requires o.Valid()
  {
    && 1 <= n <= o.maxAttempts && Decision(o, n, attempts(n)).Some?
    && forall i :: 1 <= i < n ==> Decision(o, i, attempts(i)) == None
  }

  /** A retry was scheduled after the attempt. */
  predicate IsScheduled(o: Options, attempt: int, a: Attempt)
    requires o.Valid() && 1 <= attempt <= o.maxAttempts
  {
    Decision(o, attempt, a) in {None, Some(SleepAborted)}
  }

  /** The reported results: one scheduled for each retry, then at most one that says how it ended. */
  ghost predicate Reports(o: Options, attempts: int -> Attempt, n: int, results: seq<RetryResult>)
    requires o.Valid() && EndsAt(o, attempts, n)
  {
    var scheduled := if IsScheduled(o, n, attempts(n)) then n else n - 1;
    var ending := Decision(o, n, attempts(n)).value;
    && |results| == scheduled + (if n > 1 && ending in {Returned, Failed, OverBudget} then 1 else 0)
    && (forall i :: 0 <= i < scheduled ==>
        results[i] == Scheduled(i + 1, Delay(o, i + 1, attempts(i + 1).random)))
    && (|results| > scheduled ==> results[scheduled] == if ending == Returned then Succeeded(n) else Exhausted(n))
  }

  /**
   Runs the operation with attempt numbers `1, 2, ...`; the call for attempt `i`
   meets `attempts(i)`. Returns the number of the last attempt that was due and
   how it ended. Invalid options end the call before the first; otherwise the
   loop is always left from inside.
   */
  method RunWithRetry(o: Options, attempts: int -> Attempt) returns (n: int, ending: Ending, results: seq<RetryResult>)
    ensures !o.Valid() ==> n == 0 && ending == InvalidOptions && results == []
    ensures o.Valid() ==>
      EndsAt(o, attempts, n) && ending == Decision(o, n, attempts(n)).value && Reports(o, attempts, n, results)
    ensures ending != FellThrough
  {
    hide DelayMs;
    if !o.Valid() {
      return 0, InvalidOptions, [];
    }
    var retried := false;
    results := [];
    n := 1;
    while n <= o.maxAttempts
      invariant 1 <= n <= o.maxAttempts
      invariant retried == (n > 1) && |results| == n - 1
      invariant forall i :: 1 <= i < n ==> Decision(o, i, attempts(i)) == None
      invariant forall i :: 0 <= i < n - 1 ==> results[i] == Scheduled(i + 1, Delay(o, i + 1, attempts(i + 1).random))
    {
      var attempt := attempts(n);
      if attempt.stopped {
        return n, Stopped, results;
      }
      if attempt.outcome.Succeeds? {
        return n, Returned, if retried then results + [Succeeded(n)] else results;
      }
      var canRetry := n < o.maxAttempts && attempt.outcome.retryable;
      if !canRetry {
        return n, Failed, if retried then results + [Exhausted(n)] else results;
      }
      var delay := Delay(o, n, attempt.random);
      var elapsed := Elapsed(o, attempt);
      if o.expiresAt.Some? && delay >= Deadline.Remaining(o.expiresAt.value, attempt.checkedAt) {
        return n, PastDeadline, results;
      }
      if o.retryBudgetMs.Some? && delay > Max(0, o.retryBudgetMs.value - elapsed) {
        return n, OverBudget, if retried then results + [Exhausted(n)] else results;
      }
      retried := true;
      results := results + [Scheduled(n, delay)];
      if attempt.sleepAborted {
        return n, SleepAborted, results;
      }
      n := n + 1;
    }
    ending := FellThrough;
  }

  // ---------- Whole runs ----------

  /** There is exactly one way to end. */
  lemma EndingIsUnique(o: Options, attempts: int -> Attempt, n: int, m: int)
    requires o.Valid() && EndsAt(o, attempts, n) && EndsAt(o, attempts, m)
    ensures n == m
  {
  }

  /** What decides an attempt, comparison by comparison. */
  lemma DecisionExactly(o: Options, attempt: int, a: Attempt)
    requires o.Valid() && 1 <= attempt <= o.maxAttempts
    ensures var decision := Decision(o, attempt, a);
      var elapsed := if a.failedAt < o.startedAt then 0 else a.failedAt - o.startedAt;
      if a.stopped then decision == Some(Stopped)
      else if a.outcome == Succeeds then decision == Some(Returned)
      else if a.outcome == Fails(false) || attempt == o.maxAttempts then decision == Some(Failed)
      else
        && DelayMs(attempt, o.baseDelayMs, o.maxDelayMs, a.random).Some?
        && var delay := DelayMs(attempt, o.baseDelayMs, o.maxDelayMs, a.random).value;
        if o.expiresAt.Some? && a.checkedAt + delay >= o.expiresAt.value then decision == Some(PastDeadline)
        else if o.retryBudgetMs.Some? && elapsed + delay > o.retryBudgetMs.value then decision == Some(OverBudget)
        else decision == if a.sleepAborted then Some(SleepAborted) else None
  {
    DelayInRange(attempt, o.baseDelayMs, o.maxDelayMs, a.random);
    hide DelayMs;
  }

  /** What the options must be. */
  lemma ValidOptions(o: Options)
    ensures o.Valid() <==>
            && 0 < o.maxAttempts <= 0x1f_ffff_ffff_ffff && 0 < o.baseDelayMs <= 0x1f_ffff_ffff_ffff
            && 0 < o.maxDelayMs <= 0x1f_ffff_ffff_ffff
            && (o.retryBudgetMs.Some? ==> 0 < o.retryBudgetMs.value <= 0x1f_ffff_ffff_ffff)
  {
  }

  /** Every scheduled delay is in range and ends before the deadline. */
  lemma ScheduledDelayFits(o: Options, attempt: int, a: Attempt)
    requires o.Valid() && 1 <= attempt <= o.maxAttempts && IsScheduled(o, attempt, a)
    ensures attempt < o.maxAttempts && 1 <= Delay(o, attempt, a.random) <= RoundedProduct(o.maxDelayMs, 1.2)
    ensures o.expiresAt.Some? ==> a.checkedAt + Delay(o, attempt, a.random) < o.expiresAt.value
  {
    DelayInRange(attempt, o.baseDelayMs, o.maxDelayMs, a.random);
  }

  /** The first `count` delays together. */
  function TotalDelay(o: Options, attempts: int -> Attempt, count: nat): int
    requires o.Valid() && count <= o.maxAttempts
  {
    if count == 0 then 0 else TotalDelay(o, attempts, count - 1) + Delay(o, count, attempts(count).random)
  }

  /** The clock moves on by at least each delay slept between two failures. */
  ghost predicate ClockHonoursSleep(o: Options, attempts: int -> Attempt, count: nat)
    requires o.Valid() && count <= o.maxAttempts
  {
    && (count > 0 ==> attempts(1).failedAt >= o.startedAt)
    && forall i :: 1 <= i < count ==> attempts(i + 1).failedAt >= attempts(i).failedAt + Delay(o, i, attempts(i).random)
  }

  /** The delays scheduled in a run sum to at most the budget. */
  lemma {:induction false} DelaysFitBudget(o: Options, attempts: int -> Attempt, count: nat)
    requires o.Valid() && count <= o.maxAttempts && o.retryBudgetMs.Some?
    requires forall i :: 1 <= i <= count ==> IsScheduled(o, i, attempts(i))
    requires ClockHonoursSleep(o, attempts, count)
    ensures TotalDelay(o, attempts, count) <= o.retryBudgetMs.value
    ensures count > 0 ==> TotalDelay(o, attempts, count - 1) <= attempts(count).failedAt - o.startedAt
  {
    hide DelayMs;
    if count > 0 {
      ScheduledDelayFits(o, count, attempts(count));
      if count > 1 {
        DelaysFitBudget(o, attempts, count - 1);
      }
    }
  }
}
