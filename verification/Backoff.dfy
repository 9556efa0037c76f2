/** Retry decisions and backoff delays, over exact real numbers. */
module Backoff {
  import opened Prelude

  datatype BackoffConfig = BackoffConfig(delay: Option<real>, maxDelay: Option<real>)

  datatype RetryConfig = RetryConfig(
    maxAttempts: Option<int>,
    backoffDelay: Option<real>,
    maxBackoffDelay: Option<real>)

  function BaseDelay(c: BackoffConfig): real { c.delay.GetOr(1000.0) }

  function MaxDelay(c: BackoffConfig): real { c.maxDelay.GetOr(60000.0) }

  function Min(a: real, b: real): real { if a <= b then a else b }

  function Pow2(n: nat): real {
    if n == 0 then 1.0 else 2.0 * Pow2(n - 1)
  }

  /** `base` doubled `n` times, that is base * 2**n (see `ScaledIsPower`). */
  function Scaled(base: real, n: nat): real {
    if n == 0 then base else 2.0 * Scaled(base, n - 1)
  }

  lemma {:induction false} ScaledIsPower(base: real, n: nat)
    ensures Scaled(base, n) == base * Pow2(n)
  {
    if n == 0 {
    } else {
      ScaledIsPower(base, n - 1);
    }
  }

  // ---------------------------------------------------------------- the three strategies

  function ExponentialDelay(attempt: nat, c: BackoffConfig): real {
    Min(Scaled(BaseDelay(c), attempt), MaxDelay(c))
  }

  function LinearDelay(attempt: nat, c: BackoffConfig): real {
    Min(BaseDelay(c) * (1.0 + attempt as real), MaxDelay(c))
  }

  /** `percentage` is fixed at construction, in [0, 1]; `random` is the draw from [0, 1). */
  function JitteredDelay(attempt: nat, c: BackoffConfig, percentage: real, random: real): real {
    var exponential := Scaled(BaseDelay(c), attempt);
    Min(exponential + Jitter(exponential, percentage, random), MaxDelay(c))
  }

  function Jitter(exponential: real, percentage: real, random: real): real {
    random * exponential * percentage
  }

  predicate ShouldRetry(attemptsMade: int, c: RetryConfig) {
    attemptsMade < c.maxAttempts.GetOr(3)
  }

  lemma {:induction false} Grows(base: real, i: nat, j: nat)
    requires base >= 0.0 && i <= j
    ensures 0.0 <= Scaled(base, i) <= Scaled(base, j)
    decreases j
  {
    if i < j {
      Grows(base, i, j - 1);
    } else if i > 0 {
      Grows(base, i - 1, i - 1);
    }
  }

  lemma DelaysNeverShrink(c: BackoffConfig, i: nat, j: nat)
    requires BaseDelay(c) >= 0.0 && i <= j
    ensures ExponentialDelay(i, c) <= ExponentialDelay(j, c)
  {
    Grows(BaseDelay(c), i, j);
  }

  // ---------------------------------------------------------------- saturation

  /** `s` is the first attempt whose uncapped delay reaches the maximum. */
  ghost predicate Saturates(c: BackoffConfig, s: nat) {
    && Scaled(BaseDelay(c), s) >= MaxDelay(c)
    && forall i :: 0 <= i < s ==> Scaled(BaseDelay(c), i) < MaxDelay(c)
  }

  /** Delays after `n` attempts have grown by at least `n` base delays. */
  lemma {:induction false} GrowsByBase(base: real, n: nat)
    requires base >= 0.0
    ensures Scaled(base, n) >= base * (1.0 + n as real)
  {
    if n == 0 {
    } else {
      GrowsByBase(base, n - 1);
      OneMore(n as real, base);
      NonNegative(base, n as real);
    }
  }

  lemma NonNegative(a: real, b: real)
    requires a >= 0.0 && b >= 0.0
    ensures a * b >= 0.0
  {
  }

  lemma OneMore(k: real, x: real)
    ensures (k + 1.0) * x == k * x + x
  {
  }

  lemma MulMonotone(a: real, b: real, x: real)
    requires a <= b && x >= 0.0
    ensures a * x <= b * x
  {
  }

  /** Every positive base delay reaches every maximum at some first attempt. */
  lemma SaturationExists(c: BackoffConfig) returns (s: nat)
    requires BaseDelay(c) > 0.0
    ensures Saturates(c, s)
  {
    var base, max := BaseDelay(c), MaxDelay(c);
    var bound := ReachingIndex(base, max);
    s := 0;
    while Scaled(base, s) < max
      invariant s <= bound
      invariant forall i :: 0 <= i < s ==> Scaled(base, i) < max
      decreases bound - s
    {
      s := s + 1;
    }
  }

  lemma ReachingIndex(base: real, max: real) returns (n: nat)
    requires base > 0.0
    ensures Scaled(base, n) >= max
  {
    if max <= base {
      n := 0;
    } else {
      var q := max / base;
      n := q.Floor + 1;
      GrowsByBase(base, n);
      MulMonotone(q, 1.0 + n as real, base);
    }
  }

  /** Below the saturation point the delay doubles uncapped; from it on the delay is the maximum. */
  lemma SaturatedDelay(c: BackoffConfig, s: nat, i: nat)
    requires BaseDelay(c) >= 0.0 && Saturates(c, s)
    ensures ExponentialDelay(i, c) == if i < s then BaseDelay(c) * Pow2(i) else MaxDelay(c)
  {
    ScaledIsPower(BaseDelay(c), i);
    if i >= s {
      Grows(BaseDelay(c), s, i);
    }
  }

  /** The exponential delays with nothing configured: 1, 2, 4, 8, 16, 32 seconds, and a minute from then on. */
  lemma DefaultSchedule(i: nat)
    ensures Saturates(BackoffConfig(None, None), 6)
    ensures ExponentialDelay(i, BackoffConfig(None, None)) == if i < 6 then 1000.0 * Pow2(i) else 60000.0
  {
    var c := BackoffConfig(None, None);
    assert Scaled(1000.0, 5) == 2.0 * Scaled(1000.0, 4) == 32000.0;
    assert Scaled(1000.0, 6) == 64000.0;
    forall j | 0 <= j < 6
      ensures Scaled(1000.0, j) < 60000.0
    {
      Grows(1000.0, j, 5);
    }
    SaturatedDelay(c, 6, i);
  }

  /** The waiting time over attempts 0..n-1. */
  function TotalDelay(n: nat, c: BackoffConfig): real {
    if n == 0 then 0.0 else TotalDelay(n - 1, c) + ExponentialDelay(n - 1, c)
  }

  lemma {:induction false} TotalBelowSaturation(c: BackoffConfig, s: nat, n: nat)
    requires Saturates(c, s) && n <= s
    ensures TotalDelay(n, c) == Scaled(BaseDelay(c), n) - BaseDelay(c)
  {
    if n == 0 {
    } else {
      TotalBelowSaturation(c, s, n - 1);
    }
  }

  lemma {:induction false} TotalAboveSaturation(c: BackoffConfig, s: nat, n: nat)
    requires BaseDelay(c) >= 0.0 && Saturates(c, s) && n >= s
    ensures TotalDelay(n, c) == TotalDelay(s, c) + AtMaximum(c, n - s)
    decreases n
  {
    if n == s {
    } else {
      TotalAboveSaturation(c, s, n - 1);
      SaturatedDelay(c, s, n - 1);
      OneMore((n - 1 - s) as real, MaxDelay(c));
    }
  }

  /** `n` delays of the maximum. */
  function AtMaximum(c: BackoffConfig, n: nat): real { n as real * MaxDelay(c) }

  /** 1 + 2 + ... + 2^(n-1) base delays. */
  function Geometric(base: real, n: nat): real { base * (Pow2(n) - 1.0) }

  lemma LessBase(base: real, n: nat)
    ensures Scaled(base, n) - base == Geometric(base, n)
  {
    ScaledIsPower(base, n);
  }

  /** Closed form of the total waiting time: a geometric sum up to the saturation point, then the
      maximum for every further attempt. */
  lemma TotalDelayClosedForm(c: BackoffConfig, s: nat, n: nat)
    requires BaseDelay(c) >= 0.0 && Saturates(c, s)
    ensures TotalDelay(n, c) == ClosedForm(c, s, n)
  {
    if n <= s {
      TotalBelowSaturation(c, s, n);
      LessBase(BaseDelay(c), n);
    } else {
      TotalBelowSaturation(c, s, s);
      LessBase(BaseDelay(c), s);
      TotalAboveSaturation(c, s, n);
    }
  }

  function ClosedForm(c: BackoffConfig, s: nat, n: nat): real {
    if n <= s then Geometric(BaseDelay(c), n) else Geometric(BaseDelay(c), s) + AtMaximum(c, n - s)
  }

  // ---------------------------------------------------------------- comparing the strategies

  lemma LinearNeverExceedsExponential(c: BackoffConfig, attempt: nat)
    requires BaseDelay(c) >= 0.0
    ensures LinearDelay(attempt, c) <= ExponentialDelay(attempt, c)
  {
    GrowsByBase(BaseDelay(c), attempt);
  }

  /** Linear delays start at the base and grow by it with every attempt, until that reaches the maximum. */
  lemma LinearGrowth(c: BackoffConfig, attempt: nat)
    requires BaseDelay(c) >= 0.0
    ensures LinearDelay(0, c) == Min(c.delay.GetOr(1000.0), c.maxDelay.GetOr(60000.0))
    ensures LinearDelay(attempt + 1, c) ==
            Min(c.delay.GetOr(1000.0) * (1.0 + attempt as real) + c.delay.GetOr(1000.0), c.maxDelay.GetOr(60000.0))
    ensures LinearDelay(attempt + 1, c) < c.maxDelay.GetOr(60000.0) ==>
              LinearDelay(attempt + 1, c) == LinearDelay(attempt, c) + c.delay.GetOr(1000.0)
  {
    OneMore(1.0 + attempt as real, BaseDelay(c));
  }

  /** Every delay from the exponential one up to, but not including, the one lengthened by the whole percentage
      comes from some draw, as long as it stays below the maximum. */
  lemma JitterReachesAll(c: BackoffConfig, attempt: nat, percentage: real, delay: real) returns (random: real)
    requires BaseDelay(c) > 0.0 && 0.0 < percentage <= 1.0 && delay <= MaxDelay(c)
    requires var e := Scaled(BaseDelay(c), attempt); e <= delay < e * (1.0 + percentage)
    ensures 0.0 <= random < 1.0 && JitteredDelay(attempt, c, percentage, random) == delay
  {
    var e := Scaled(BaseDelay(c), attempt);
    Grows(BaseDelay(c), 0, attempt);
    var span := e * percentage;
    assert span > 0.0;
    OneMore(percentage, e);
    random := (delay - e) / span;
    assert random * span == delay - e;
    assert delay - e < span;
    ProductOfThree(random, e, percentage);
    Quotient(delay - e, span);
  }

  lemma ProductOfThree(a: real, b: real, c: real)
    ensures a * b * c == a * (b * c)
  {
  }

  lemma Quotient(part: real, whole: real)
    requires 0.0 <= part < whole
    ensures 0.0 <= part / whole < 1.0
  {
  }

  /** Jitter only lengthens a delay, by at most its percentage, and never beyond the maximum. */
  lemma JitterBounds(c: BackoffConfig, attempt: nat, percentage: real, random: real)
    requires BaseDelay(c) >= 0.0 && 0.0 <= percentage <= 1.0 && 0.0 <= random < 1.0
    ensures ExponentialDelay(attempt, c) <= JitteredDelay(attempt, c, percentage, random)
    ensures JitteredDelay(attempt, c, percentage, random)
            <= Min(Lengthened(Scaled(BaseDelay(c), attempt), percentage), MaxDelay(c))
  {
    Grows(BaseDelay(c), attempt, attempt);
    JitterIsSmall(Scaled(BaseDelay(c), attempt), percentage, random);
  }

  function Lengthened(delay: real, percentage: real): real { delay * (1.0 + percentage) }

  lemma JitterIsSmall(e: real, percentage: real, random: real)
    requires e >= 0.0 && percentage >= 0.0 && 0.0 <= random < 1.0
    ensures 0.0 <= Jitter(e, percentage, random)
    ensures e + Jitter(e, percentage, random) <= Lengthened(e, percentage)
  {
    NonNegative(random, e);
    NonNegative(random * e, percentage);
    MulMonotone(random, 1.0, e);
    MulMonotone(random * e, e, percentage);
    OneMore(percentage, e);
  }

  // ---------------------------------------------------------------- the retry coordinator

  function ToBackoff(c: RetryConfig): BackoffConfig { BackoffConfig(c.backoffDelay, c.maxBackoffDelay) }

  /** `None` when the job is to be retried no more, else the delay before the retry. */
  function HandleFailure(attemptsMade: nat, c: RetryConfig): Option<real> {
    if ShouldRetry(attemptsMade, c) then Some(ExponentialDelay(attemptsMade, ToBackoff(c))) else None
  }

  /** A job with attempts left is retried after the exponential delay of its attempt, base and maximum being those
      of the retry configuration. */
  lemma RetryDelay(attemptsMade: nat, c: RetryConfig, base: real, max: real)
    requires base == c.backoffDelay.GetOr(1000.0) && max == c.maxBackoffDelay.GetOr(60000.0)
    ensures HandleFailure(attemptsMade, c) ==
            if attemptsMade < c.maxAttempts.GetOr(3) then Some(Min(base * Pow2(attemptsMade), max)) else None
  {
    assert BaseDelay(ToBackoff(c)) == base && MaxDelay(ToBackoff(c)) == max;
    ScaledIsPower(base, attemptsMade);
  }

  predicate CanRetry(attemptsMade: nat, c: RetryConfig) { attemptsMade < c.maxAttempts.GetOr(3) }

  function RemainingAttempts(attemptsMade: nat, c: RetryConfig): int {
    var remaining := c.maxAttempts.GetOr(3) - attemptsMade;
    if remaining < 0 then 0 else remaining
  }

  /** A job failing with attemptsMade = 0, 1, 2, ...: the delays granted before the first refusal. */
  function Delays(attemptsMade: nat, c: RetryConfig): seq<real>
    decreases RemainingAttempts(attemptsMade, c)
  {
    match HandleFailure(attemptsMade, c)
    case None => []
    case Some(delay) => [delay] + Delays(attemptsMade + 1, c)
  }

  function Sum(delays: seq<real>): real {
    if delays == [] then 0.0 else delays[0] + Sum(delays[1..])
  }

  /** From `attemptsMade` on a job is granted exactly the remaining attempts; the decision, `canRetry`
      and the remaining attempts agree. */
  lemma {:induction false} GrantsRemaining(attemptsMade: nat, c: RetryConfig)
    ensures |Delays(attemptsMade, c)| == RemainingAttempts(attemptsMade, c)
    ensures CanRetry(attemptsMade, c) <==> RemainingAttempts(attemptsMade, c) > 0
    ensures HandleFailure(attemptsMade, c).Some? <==> CanRetry(attemptsMade, c)
    decreases RemainingAttempts(attemptsMade, c)
  {
    if !ShouldRetry(attemptsMade, c) {
    } else {
      GrantsRemaining(attemptsMade + 1, c);
    }
  }

  lemma {:induction false} SumFrom(attemptsMade: nat, c: RetryConfig)
    ensures TotalDelay(attemptsMade, ToBackoff(c)) + Sum(Delays(attemptsMade, c)) ==
            TotalDelay(attemptsMade + RemainingAttempts(attemptsMade, c), ToBackoff(c))
    decreases RemainingAttempts(attemptsMade, c)
  {
    if !ShouldRetry(attemptsMade, c) {
    } else {
      SumFrom(attemptsMade + 1, c);
      var d := Delays(attemptsMade, c);
      assert d[1..] == Delays(attemptsMade + 1, c);
    }
  }

  /** A job that always fails is retried exactly `maxAttempts` times and waits, in total, the closed
      form of `TotalDelay`. */
  lemma AlwaysFailingJob(c: RetryConfig, s: nat)
    requires BaseDelay(ToBackoff(c)) >= 0.0 && Saturates(ToBackoff(c), s)
    ensures |Delays(0, c)| == RemainingAttempts(0, c)
    ensures Sum(Delays(0, c)) == ClosedForm(ToBackoff(c), s, RemainingAttempts(0, c))
  {
    GrantsRemaining(0, c);
    SumFrom(0, c);
    TotalDelayClosedForm(ToBackoff(c), s, RemainingAttempts(0, c));
  }
}
