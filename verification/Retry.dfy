/** The retry loop: which outcomes are tried again, how many attempts that
    makes, and how long it waits between them. */
module Retry {
  import opened Options
  import opened Errors
  import opened Powers

  datatype HttpMethod = GET | POST | PUT | PATCH | DELETE | HEAD

  datatype HttpCallOpts = HttpCallOpts(timeoutMs: Option<real>, idempotent: Option<bool>, retries: Option<real>)

  /** A budget is a number, not necessarily a whole one. */
  datatype RetryPolicy = RetryPolicy(maxAttempts: real, backoffMinMs: real, backoffMaxMs: real, jitterRatio: real)

  const RETRY_MAX_ATTEMPTS := 3.0
  const RETRY_BACKOFF_MIN_MS := 200.0
  const RETRY_BACKOFF_MAX_MS := 5000.0
  const RETRY_JITTER_RATIO := 0.5
  const RETRYABLE_STATUS_MIN := 500
  const IDEMPOTENT_METHODS := [GET, HEAD]

  function ResolveRetryPolicy(m: HttpMethod, opts: HttpCallOpts): RetryPolicy {
    var isIdempotent := m in IDEMPOTENT_METHODS || opts.idempotent == Some(true);
    var maxAttempts :=
      if !isIdempotent then 1.0
      else if opts.retries.Some? then opts.retries.value
      else RETRY_MAX_ATTEMPTS;
    RetryPolicy(maxAttempts, RETRY_BACKOFF_MIN_MS, RETRY_BACKOFF_MAX_MS, RETRY_JITTER_RATIO)
  }

  function ShouldRetry(e: Thrown, attempt: int, policy: RetryPolicy): bool {
    if attempt as real >= policy.maxAttempts then false
    else if e.HttpError? then e.status >= RETRYABLE_STATUS_MIN
    else if e.NetworkError? then true
    else if e.TimeoutError? then true
    else false
  }

  // ---------- Backoff ----------

  function Min(a: real, b: real): (m: real)
    ensures m <= a && m <= b && (m == a || m == b)
  {
    if a <= b then a else b
  }

  function Max(a: real, b: real): (m: real)
    ensures m >= a && m >= b && (m == a || m == b)
  {
    if a >= b then a else b
  }

  /** The clamped exponential before jitter; `attempt` counts from 1. */
  function BaseDelay(attempt: nat, policy: RetryPolicy): real
    requires attempt >= 1
  {
    Max(policy.backoffMinMs, Min(Exponential(policy, attempt - 1), policy.backoffMaxMs))
  }

  function BackoffWithJitter(attempt: nat, policy: RetryPolicy, random: real): real
    requires attempt >= 1
  {
    EqualJitter(BaseDelay(attempt, policy), random)
  }

  function EqualJitter(delay: real, random: real): real { delay / 2.0 + random * (delay / 2.0) }

  lemma Scale(k: real, a: real, b: real)
    requires 0.0 <= k && a <= b
    ensures k * a <= k * b
  {}

  /** backoffMin * 2^n. */
  function Exponential(policy: RetryPolicy, n: nat): real { policy.backoffMinMs * Pow2(n) as real }

  lemma Distributes(k: real, a: real)
    ensures k * (a + a) == k * a + k * a
    ensures k * (a - 1.0) == k * a - k
  {}

  lemma ExponentialStep(policy: RetryPolicy, n: nat)
    ensures Exponential(policy, n + 1) == Exponential(policy, n) + Exponential(policy, n)
    ensures policy.backoffMinMs * (Pow2(n) - 1) as real == Exponential(policy, n) - policy.backoffMinMs
    ensures Exponential(policy, 0) == policy.backoffMinMs
  {
    var a := Pow2(n) as real;
    assert Pow2(n + 1) as real == a + a;
    assert (Pow2(n) - 1) as real == a - 1.0;
    Distributes(policy.backoffMinMs, a);
  }

  lemma ExponentialGrows(policy: RetryPolicy, m: nat, n: nat)
    requires m <= n && 0.0 <= policy.backoffMinMs
    ensures policy.backoffMinMs <= Exponential(policy, m) <= Exponential(policy, n)
  {
    var k := policy.backoffMinMs;
    Pow2Grows(m, n);
    Scale(k, 1.0, Pow2(m) as real);
    Scale(k, Pow2(m) as real, Pow2(n) as real);
  }

  lemma ClampGrows(lo: real, hi: real, a: real, b: real)
    requires a <= b
    ensures Max(lo, Min(a, hi)) <= Max(lo, Min(b, hi))
    ensures lo <= a ==> Max(lo, Min(a, hi)) <= a
    ensures lo <= Max(lo, Min(a, hi)) <= Max(lo, hi)
  {}

  lemma Halfway(d: real, random: real)
    requires 0.0 <= d && 0.0 <= random < 1.0
    ensures d / 2.0 <= EqualJitter(d, random) <= d
  {
    Scale(d / 2.0, 0.0, random);
    Scale(d / 2.0, random, 1.0);
  }

  /** The bases never decrease, stay between the two limits (the lower one
      winning where they cross), and each sleep lies in the upper half of its
      base. */
  lemma BackoffShape(attempt: nat, later: nat, policy: RetryPolicy, random: real)
    requires 1 <= attempt <= later && 0.0 <= policy.backoffMinMs && 0.0 <= random < 1.0
    ensures BaseDelay(attempt, policy) <= BaseDelay(later, policy)
    ensures policy.backoffMinMs <= BaseDelay(attempt, policy) <= Max(policy.backoffMinMs, policy.backoffMaxMs)
    ensures BaseDelay(attempt, policy) <= Exponential(policy, attempt - 1)
    ensures var d := BaseDelay(attempt, policy);
            d / 2.0 <= BackoffWithJitter(attempt, policy, random) <= d
  {
    var lo, hi := policy.backoffMinMs, policy.backoffMaxMs;
    ExponentialGrows(policy, attempt - 1, later - 1);
    ClampGrows(lo, hi, Exponential(policy, attempt - 1), Exponential(policy, later - 1));
    Halfway(BaseDelay(attempt, policy), random);
  }

  /** The base of every attempt: the lower limit first, then twice the one before
      until that would pass the upper limit, and the upper limit from there on;
      the lower limit always where the two cross. */
  lemma BaseDoubles(attempt: nat, policy: RetryPolicy)
    requires attempt >= 1 && 0.0 <= policy.backoffMinMs
    ensures BaseDelay(1, policy) == policy.backoffMinMs
    ensures policy.backoffMaxMs < policy.backoffMinMs ==> BaseDelay(attempt, policy) == policy.backoffMinMs
    ensures policy.backoffMinMs <= policy.backoffMaxMs ==>
            var twice := BaseDelay(attempt, policy) + BaseDelay(attempt, policy);
            BaseDelay(attempt + 1, policy) == if twice <= policy.backoffMaxMs then twice else policy.backoffMaxMs
  {
    ExponentialStep(policy, 0);
    ExponentialStep(policy, attempt - 1);
    ExponentialGrows(policy, 0, attempt - 1);
  }

  /** The bases of every resolved policy: 200, 400, 800, 1600 and 3200
      milliseconds, and 5000 from then on. */
  lemma ResolvedBases(m: HttpMethod, opts: HttpCallOpts, attempt: nat)
    requires attempt >= 1
    ensures BaseDelay(attempt, ResolveRetryPolicy(m, opts))
         == match attempt
            case 1 => 200.0
            case 2 => 400.0
            case 3 => 800.0
            case 4 => 1600.0
            case 5 => 3200.0
            case _ => 5000.0
  {
    var policy := ResolveRetryPolicy(m, opts);
    if attempt >= 6 {
      Pow2Grows(5, attempt - 1);
      assert Pow2(5) == 32;
      ExponentialGrows(policy, 5, attempt - 1);
      assert Exponential(policy, 5) == 6400.0;
    } else {
      assert Pow2(1) == 2 && Pow2(2) == 4 && Pow2(3) == 8 && Pow2(4) == 16;
    }
  }

  function Sum(xs: seq<real>): real { if xs == [] then 0.0 else Sum(xs[..|xs| - 1]) + xs[|xs| - 1] }

  ghost predicate Draws(random: nat -> real) { forall i :: 0.0 <= random(i) < 1.0 }

  /** The loop's sleeps, in order. */
  ghost predicate AreSleeps(sleeps: seq<real>, policy: RetryPolicy, random: nat -> real) {
    forall i :: 0 <= i < |sleeps| ==> sleeps[i] == BackoffWithJitter(i + 1, policy, random(i + 1))
  }

  /** `n` sleeps of the longest base. */
  function Capped(policy: RetryPolicy, n: nat): real {
    n as real * Max(policy.backoffMinMs, policy.backoffMaxMs)
  }

  lemma CappedGrows(policy: RetryPolicy, n: nat)
    ensures Capped(policy, n + 1) == Capped(policy, n) + Max(policy.backoffMinMs, policy.backoffMaxMs)
    ensures Capped(policy, 0) == 0.0
  {
    assert (n + 1) as real == n as real + 1.0;
  }

  /** One sleep more. */
  lemma SleepAdds(sleeps: seq<real>, policy: RetryPolicy, random: nat -> real, n: nat)
    requires 0.0 <= policy.backoffMinMs && Draws(random) && AreSleeps(sleeps, policy, random) && |sleeps| == n + 1
    ensures Sum(sleeps[..n]) <= Sum(sleeps) <= Sum(sleeps[..n]) + Exponential(policy, n)
    ensures Sum(sleeps) <= Sum(sleeps[..n]) + Max(policy.backoffMinMs, policy.backoffMaxMs)
  {
    BackoffShape(n + 1, n + 1, policy, random(n + 1));
    assert sleeps[n] == BackoffWithJitter(n + 1, policy, random(n + 1));
  }

  /** Total waiting time: at most the geometric sum backoffMin * (2^n - 1), and
      at most the cap for every sleep. */
  lemma {:induction false} TotalSleepBounded(sleeps: seq<real>, policy: RetryPolicy, random: nat -> real)
    requires 0.0 <= policy.backoffMinMs && Draws(random) && AreSleeps(sleeps, policy, random)
    ensures 0.0 <= Sum(sleeps) <= Exponential(policy, |sleeps|) - policy.backoffMinMs
    ensures Sum(sleeps) <= Capped(policy, |sleeps|)
    decreases |sleeps|
  {
    if sleeps != [] {
      var n := |sleeps| - 1;
      TotalSleepBounded(sleeps[..n], policy, random);
      SleepAdds(sleeps, policy, random, n);
      ExponentialStep(policy, n);
      CappedGrows(policy, n);
    } else {
      ExponentialStep(policy, 0);
      CappedGrows(policy, 0);
    }
  }

  // ---------- The loop ----------

  datatype Returned<+T> = Value(value: T) | Threw(error: Thrown) | ThrewUndefined

  predicate RetryableError(e: Thrown) {
    (e.HttpError? && e.status >= 500) || e.NetworkError? || e.TimeoutError?
  }

  predicate Retryable<T>(o: Outcome<T>) { o.Rejected? && RetryableError(o.error) }

  /** The whole attempts a budget allows. */
  function Budget(policy: RetryPolicy): nat {
    if policy.maxAttempts < 1.0 then 0 else policy.maxAttempts.Floor
  }

  lemma BudgetExact(policy: RetryPolicy, i: nat)
    requires i >= 1
    ensures i as real <= policy.maxAttempts <==> i <= Budget(policy)
  {}

  /** Retryable failures from attempt `i` on, before the first other outcome, and
      no more than `n`. */
  function LeadingRetryable<T>(attempt: nat -> Outcome<T>, i: nat, n: nat): nat
    decreases n
  {
    if n == 0 || !Retryable(attempt(i)) then 0 else 1 + LeadingRetryable(attempt, i + 1, n - 1)
  }

  lemma {:induction false} LeadingIs<T>(attempt: nat -> Outcome<T>, i: nat, n: nat, k: nat)
    requires k <= n && (forall j :: i <= j < i + k ==> Retryable(attempt(j)))
    requires k == n || !Retryable(attempt(i + k))
    ensures LeadingRetryable(attempt, i, n) == k
    decreases n
  {
    if k > 0 { LeadingIs(attempt, i + 1, n - 1, k - 1); }
  }

  /** How many attempts a run makes. */
  function Attempts<T>(attempt: nat -> Outcome<T>, policy: RetryPolicy): nat {
    var n := Budget(policy);
    if n == 0 then 0
    else 1 + LeadingRetryable(attempt, 1, n - 1)
  }

  /** What a run answers: the outcome of its last attempt. */
  function Answer<T>(attempt: nat -> Outcome<T>, policy: RetryPolicy): Returned<T> {
    var k := Attempts(attempt, policy);
    if k == 0 then ThrewUndefined
    else match attempt(k)
      case Resolved(v) => Value(v)
      case Rejected(e) => Threw(e)
  }

  /** How often a run sleeps: between attempts, and once more after the last
      when a budget that is not whole runs out. */
  function Sleeps<T>(attempt: nat -> Outcome<T>, policy: RetryPolicy): nat {
    var k := Attempts(attempt, policy);
    if k == 0 then 0
    else if Retryable(attempt(k)) && k as real < policy.maxAttempts then k
    else k - 1
  }

  method Run<T>(attempt: nat -> Outcome<T>, policy: RetryPolicy, random: nat -> real)
      returns (r: Returned<T>, attempts: nat, sleeps: seq<real>)
    ensures r == Answer(attempt, policy)
    ensures attempts == Attempts(attempt, policy)
    ensures |sleeps| == Sleeps(attempt, policy) && AreSleeps(sleeps, policy, random)
    ensures forall i :: 0 <= i < |sleeps| ==>
              var half := BaseDelay(i + 1, policy) / 2.0; sleeps[i] == half + random(i + 1) * half
    ensures if attempts == 0 then r == ThrewUndefined
            else match attempt(attempts)
              case Resolved(v) => r == Value(v)
              case Rejected(e) => r == Threw(e)
  {
    var i := 1;
    attempts, sleeps := 0, [];
    r := ThrewUndefined;
    while i as real <= policy.maxAttempts
      invariant 1 <= i && attempts == i - 1 == |sleeps| && i <= Budget(policy) + 1
      invariant AreSleeps(sleeps, policy, random)
      invariant forall j :: 1 <= j < i ==> Retryable(attempt(j)) && j as real < policy.maxAttempts
      invariant i > 1 ==> r == Threw(attempt(i - 1).error)
      invariant i == 1 ==> r == ThrewUndefined
      decreases Budget(policy) + 1 - i
    {
      BudgetExact(policy, i);
      attempts := i;
      match attempt(i) {
        case Resolved(v) =>
          LeadingIs(attempt, 1, Budget(policy) - 1, i - 1);
          return Value(v), attempts, sleeps;
        case Rejected(e) =>
          r := Threw(e);
          if !ShouldRetry(e, i, policy) {
            LeadingIs(attempt, 1, Budget(policy) - 1, i - 1);
            return;
          }
          sleeps := sleeps + [BackoffWithJitter(i, policy, random(i))];
      }
      i := i + 1;
    }
    BudgetExact(policy, i);
    if i > 1 { LeadingIs(attempt, 1, Budget(policy) - 1, i - 2); }
  }

  /** A budget that is not whole and is used up costs one more sleep. */
  predicate SleepsAfterLast<T>(attempt: nat -> Outcome<T>, policy: RetryPolicy) {
    && policy.maxAttempts != Budget(policy) as real
    && LeadingRetryable(attempt, 1, Budget(policy)) == Budget(policy)
  }

  /** Attempts and sleeps exactly: the loop makes min(budget, 1 + leading
      retryable failures) attempts, every one but the last a retryable failure;
      it sleeps once less than that unless a fractional budget ran out. */
  lemma LoopExact<T>(attempt: nat -> Outcome<T>, policy: RetryPolicy)
    ensures var n := Budget(policy);
            Attempts(attempt, policy)
            == if n == 0 then 0
               else if LeadingRetryable(attempt, 1, n) < n then 1 + LeadingRetryable(attempt, 1, n) else n
    ensures forall j :: 1 <= j < Attempts(attempt, policy) ==> Retryable(attempt(j))
    ensures Attempts(attempt, policy) != 0 ==>
            Attempts(attempt, policy) == Budget(policy) || !Retryable(attempt(Attempts(attempt, policy)))
    ensures Budget(policy) >= 1 ==>
            (Sleeps(attempt, policy) == Attempts(attempt, policy) - 1 <==> !SleepsAfterLast(attempt, policy))
    ensures Attempts(attempt, policy) == 0 <==> policy.maxAttempts < 1.0
  {
    var n := Budget(policy);
    if n > 0 {
      LeadingCapped(attempt, 1, n - 1);
      LeadingPrefix(attempt, 1, n - 1);
    }
  }

  lemma {:induction false} LeadingCapped<T>(attempt: nat -> Outcome<T>, i: nat, n: nat)
    ensures LeadingRetryable(attempt, i, n) <= n
    ensures LeadingRetryable(attempt, i, n + 1)
         == LeadingRetryable(attempt, i, n)
            + (if LeadingRetryable(attempt, i, n) == n && Retryable(attempt(i + n)) then 1 else 0)
    decreases n
  {
    if n > 0 { LeadingCapped(attempt, i + 1, n - 1); }
  }

  lemma {:induction false} LeadingPrefix<T>(attempt: nat -> Outcome<T>, i: nat, n: nat)
    ensures var k := LeadingRetryable(attempt, i, n);
            k <= n && (forall j :: i <= j < i + k ==> Retryable(attempt(j))) && (k == n || !Retryable(attempt(i + k)))
    decreases n
  {
    if n > 0 && Retryable(attempt(i)) { LeadingPrefix(attempt, i + 1, n - 1); }
  }

  /** The waiting time of a run that makes A attempts under the resolver's
      limits: with n = A - 1, or A when a budget that is not whole is used up, at
      most 200 * (2^n - 1) and at most 5000 * n milliseconds. */
  lemma WaitingTime<T>(attempt: nat -> Outcome<T>, m: HttpMethod, opts: HttpCallOpts,
                       random: nat -> real, sleeps: seq<real>)
    requires Draws(random)
    requires var policy := ResolveRetryPolicy(m, opts);
             |sleeps| == Sleeps(attempt, policy) && AreSleeps(sleeps, policy, random)
    ensures var policy := ResolveRetryPolicy(m, opts);
            var a := Attempts(attempt, policy);
            var n: int := if a == 0 || SleepsAfterLast(attempt, policy) then a else a - 1;
            0.0 <= Sum(sleeps) <= 200.0 * (Pow2(n) - 1) as real && Sum(sleeps) <= n as real * 5000.0
  {
    var policy := ResolveRetryPolicy(m, opts);
    LoopExact(attempt, policy);
    LeadingCapped(attempt, 1, Budget(policy));
    TotalSleepBounded(sleeps, policy, random);
    ExponentialStep(policy, |sleeps|);
  }

  /** The input that sleeps after its last attempt: a GET with a budget of two
      and a half, whose first two attempts fail retryably. */
  lemma HalfAttemptSleeps<T>(attempt: nat -> Outcome<T>)
    requires Retryable(attempt(1)) && Retryable(attempt(2))
    ensures var policy := ResolveRetryPolicy(GET, HttpCallOpts(None, None, Some(2.5)));
            Attempts(attempt, policy) == 2 && Sleeps(attempt, policy) == 2
  {
    var policy := ResolveRetryPolicy(GET, HttpCallOpts(None, None, Some(2.5)));
    assert Budget(policy) == 2;
    LeadingIs(attempt, 1, 1, 1);
  }

  /** With the default budget, a request retried to the end makes three attempts
      and waits between 300 and 600 milliseconds in all. */
  lemma DefaultWait<T>(attempt: nat -> Outcome<T>, m: HttpMethod, opts: HttpCallOpts,
                       random: nat -> real, sleeps: seq<real>)
    requires Draws(random) && opts.retries.None? && (m in IDEMPOTENT_METHODS || opts.idempotent == Some(true))
    requires Retryable(attempt(1)) && Retryable(attempt(2))
    requires var policy := ResolveRetryPolicy(m, opts);
             |sleeps| == Sleeps(attempt, policy) && AreSleeps(sleeps, policy, random)
    ensures Attempts(attempt, ResolveRetryPolicy(m, opts)) == 3
    ensures 300.0 <= Sum(sleeps) <= 600.0
  {
    var policy := ResolveRetryPolicy(m, opts);
    assert Budget(policy) == 3;
    LeadingIs(attempt, 1, 2, 2);
    assert Pow2(1) == 2;
    assert BaseDelay(1, policy) == 200.0 && BaseDelay(2, policy) == 400.0;
    BackoffShape(1, 1, policy, random(1));
    BackoffShape(2, 2, policy, random(2));
    assert sleeps[0] == BackoffWithJitter(1, policy, random(1));
    assert sleeps[1] == BackoffWithJitter(2, policy, random(2));
    assert sleeps[..1][..0] == [] && sleeps[..1][0] == sleeps[0];
    assert Sum(sleeps[..1]) == Sum(sleeps[..1][..0]) + sleeps[0];
  }

  // ---------- From the error to the decision ----------

  /** The failures worth another attempt, as they come from fetch: a status of
      500 or more, an error with a timeout's name, a TypeError with a cause, or a
      foundation error that stands for one of these. */
  predicate WorthRetrying(f: Fetch) {
    match f
    case Responded(status) => status >= 500
    case Failed(HttpError(status, _)) => status >= 500
    case Failed(TimeoutError(_, _)) => true
    case Failed(NetworkError(_, _)) => true
    case Failed(CircuitOpenError(_)) => false
    case Failed(NativeError(name, _, isTypeError, cause)) =>
      name == "TimeoutError" || name == "AbortError" || (isTypeError && cause.Some?)
    case Failed(NonError(_)) => false
  }

  /** Through executor, mapper chain and classifier, with the chain's fallback
      mapper or without: an attempt is retried exactly when the budget has room
      and the status was 500 or more, the error carried a timeout's name, or it
      was a TypeError with a cause. */
  lemma RetriedExactly(f: Fetch, ctx: Context, attempt: int, policy: RetryPolicy, withFallback: bool)
    ensures var o := Attempt(if withFallback then Chain() else Chain()[..2], f, ctx);
            (o.Rejected? && ShouldRetry(o.error, attempt, policy))
            <==> attempt as real < policy.maxAttempts && WorthRetrying(f)
  {
    if f.Failed? {
      ChainNormalizes(f.error, ctx);
      FallbackRedundant(Chain()[..2], f.error, ctx);
      assert Chain()[..2] + [FallbackErrorMapper()] == Chain();
    }
  }
}
