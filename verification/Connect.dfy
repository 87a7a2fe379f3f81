/** Connecting with bounded retries: capped exponential delay plus jitter, in
    whole milliseconds. */
module Connect {
  import opened Options
  import opened Powers

  datatype RetryOptions = RetryOptions(maxRetries: int, baseDelayMs: int, maxDelayMs: int)

  const RETRY_DEFAULTS := RetryOptions(5, 200, 5000)

  datatype Partial = Partial(maxRetries: Option<int>, baseDelayMs: Option<int>, maxDelayMs: Option<int>)

  function Or(o: Option<int>, default: int): int { if o.Some? then o.value else default }

  /** `{ ...RETRY_DEFAULTS, ...options }`. */
  function Merged(options: Partial): RetryOptions {
    RetryOptions(Or(options.maxRetries, RETRY_DEFAULTS.maxRetries),
                 Or(options.baseDelayMs, RETRY_DEFAULTS.baseDelayMs),
                 Or(options.maxDelayMs, RETRY_DEFAULTS.maxDelayMs))
  }

  datatype Dial<+T> = Up(connection: T) | Down(message: string)

  /** The connection, or the error thrown: with the last failure's message, or
      without one when no attempt was made. */
  datatype Connected<+T> = Connection(value: T) | GaveUp(attempts: int, message: Option<string>)

  function Backoff(o: RetryOptions, attempt: nat): int
    requires attempt >= 1
  {
    var exponential := o.baseDelayMs * Pow2(attempt - 1);
    if exponential <= o.maxDelayMs then exponential else o.maxDelayMs
  }

  function Jitter(base: int, random: real): int { (random * base as real).Floor }

  function Delay(o: RetryOptions, attempt: nat, random: real): int
    requires attempt >= 1
  {
    Backoff(o, attempt) + Jitter(o.baseDelayMs, random)
  }

  function Total(delays: seq<int>): int {
    if delays == [] then 0 else Total(delays[..|delays| - 1]) + delays[|delays| - 1]
  }

  /** Failures from attempt `i` on before the first success, no more than `n`. */
  function LeadingFailures<T>(dial: nat -> Dial<T>, i: nat, n: nat): (k: nat)
    ensures k <= n && (forall j :: i <= j < i + k ==> dial(j).Down?)
    ensures k == n || dial(i + k).Up?
    decreases n
  {
    if n == 0 || dial(i).Up? then 0 else 1 + LeadingFailures(dial, i + 1, n - 1)
  }

  lemma {:induction false} LeadingFailuresIs<T>(dial: nat -> Dial<T>, i: nat, n: nat, k: nat)
    requires k <= n && (forall j :: i <= j < i + k ==> dial(j).Down?)
    requires k == n || dial(i + k).Up?
    ensures LeadingFailures(dial, i, n) == k
    decreases n
  {
    if k > 0 { LeadingFailuresIs(dial, i + 1, n - 1, k - 1); }
  }

  /** What a run comes to: it stops at the first success, or at the last allowed
      failure, whose message it reports. */
  function Verdict<T>(dial: nat -> Dial<T>, o: RetryOptions): Connected<T> {
    if o.maxRetries < 1 then GaveUp(o.maxRetries, None)
    else
      var failures := LeadingFailures(dial, 1, o.maxRetries);
      if failures < o.maxRetries then Connection(dial(failures + 1).connection)
      else GaveUp(o.maxRetries, Some(dial(o.maxRetries).message))
  }

  ghost predicate AreDelays(delays: seq<int>, o: RetryOptions, random: nat -> real) {
    forall i :: 0 <= i < |delays| ==> delays[i] == Delay(o, i + 1, random(i + 1))
  }

  /** Total delay: at most the longest single delay for every sleep, and so at
      most (maxRetries - 1) of them. */
  ghost predicate WaitBounded(delays: seq<int>, o: RetryOptions, random: nat -> real) {
    var longest := o.maxDelayMs + o.baseDelayMs - 1;
    o.baseDelayMs >= 1 && (forall i :: 0.0 <= random(i) < 1.0) ==>
      && Total(delays) <= |delays| * longest
      && (0 <= o.maxDelayMs ==> 0 <= Total(delays))
      && (0 <= longest && |delays| < o.maxRetries ==> Total(delays) <= (o.maxRetries - 1) * longest)
  }

  /** The wait after attempt `i + 1`, from the caller's options alone: the smaller
      of base * 2^i and the cap, and a jitter that is a whole number below the
      base, the draw's share of it rounded down. */
  predicate WaitAsStated(delay: int, options: Partial, i: nat, draw: real) {
    var base := if options.baseDelayMs.Some? then options.baseDelayMs.value else 200;
    var cap := if options.maxDelayMs.Some? then options.maxDelayMs.value else 5000;
    var exponential := base * Pow2(i);
    IsShare(delay - (if exponential <= cap then exponential else cap), base, draw)
  }

  predicate IsShare(jitter: int, base: int, draw: real) {
    && jitter as real <= draw * base as real < jitter as real + 1.0
    && (base >= 1 && 0.0 <= draw < 1.0 ==> 0 <= jitter <= base - 1)
  }

  /** Dials until the first success or the last allowed failure; every run's
      waiting is bounded. */
  method RetryConnect<T>(dial: nat -> Dial<T>, options: Partial, random: nat -> real)
      returns (r: Connected<T>, attempts: nat, delays: seq<int>)
    ensures var o := Merged(options);
            && r == Verdict(dial, o)
            && attempts == (if o.maxRetries < 1 then 0
                            else if LeadingFailures(dial, 1, o.maxRetries) < o.maxRetries
                            then LeadingFailures(dial, 1, o.maxRetries) + 1
                            else o.maxRetries)
            && |delays| == (if attempts == 0 then 0 else attempts - 1)
            && (o.maxRetries >= 1 ==> |delays| < o.maxRetries)
            && AreDelays(delays, o, random)
            && WaitBounded(delays, o, random)
    ensures forall i :: 0 <= i < |delays| ==> WaitAsStated(delays[i], options, i, random(i + 1))
    ensures var n := if options.maxRetries.Some? then options.maxRetries.value else 5;
            && (forall j :: 1 <= j < attempts ==> dial(j).Down?)
            && match r
               case Connection(value) => 1 <= attempts <= n && dial(attempts) == Up(value)
               case GaveUp(made, None) => made == n < 1 && attempts == 0
               case GaveUp(made, Some(message)) => made == n == attempts && dial(n) == Down(message)
  {
    var o := Merged(options);
    var attempt := 1;
    attempts, delays := 0, [];
    while attempt <= o.maxRetries
      invariant 1 <= attempt && attempts == attempt - 1 == |delays|
      invariant attempt > 1 ==> attempt <= o.maxRetries
      invariant AreDelays(delays, o, random)
      invariant forall j :: 1 <= j < attempt ==> dial(j).Down?
    {
      attempts := attempt;
      match dial(attempt) {
        case Up(connection) =>
          LeadingFailuresIs(dial, 1, o.maxRetries, attempt - 1);
          TotalDelayBounded(delays, o, random);
          DelaysAreStated(delays, options, random);
          return Connection(connection), attempts, delays;
        case Down(message) =>
          if attempt == o.maxRetries {
            LeadingFailuresIs(dial, 1, o.maxRetries, attempt);
            TotalDelayBounded(delays, o, random);
            DelaysAreStated(delays, options, random);
            return GaveUp(o.maxRetries, Some(message)), attempts, delays;
          }
          delays := delays + [Delay(o, attempt, random(attempt))];
      }
      attempt := attempt + 1;
    }
    DelaysAreStated(delays, options, random);
    return GaveUp(o.maxRetries, None), attempts, delays;
  }

  // ---------- Waiting time ----------

  lemma JitterIsShare(base: int, draw: real)
    ensures IsShare(Jitter(base, draw), base, draw)
  {
    if base >= 1 && 0.0 <= draw < 1.0 {
      assert 0.0 <= draw * base as real < base as real;
    }
  }

  lemma DelayIsStated(options: Partial, i: nat, draw: real)
    ensures WaitAsStated(Delay(Merged(options), i + 1, draw), options, i, draw)
  {
    var o := Merged(options);
    JitterIsShare(o.baseDelayMs, draw);
    assert Backoff(o, i + 1)
        == if o.baseDelayMs * Pow2(i) <= o.maxDelayMs then o.baseDelayMs * Pow2(i) else o.maxDelayMs;
  }

  lemma DelaysAreStated(delays: seq<int>, options: Partial, random: nat -> real)
    requires AreDelays(delays, Merged(options), random)
    ensures forall i :: 0 <= i < |delays| ==> WaitAsStated(delays[i], options, i, random(i + 1))
  {
    forall i | 0 <= i < |delays| ensures WaitAsStated(delays[i], options, i, random(i + 1)) {
      DelayIsStated(options, i, random(i + 1));
    }
  }

  /** The least delay is the base at first, within the cap; from then on it
      doubles until that would pass the cap, and is the cap from there on. */
  lemma LeastDelayDoubles(o: RetryOptions, attempt: nat)
    requires attempt >= 1 && 0 <= o.baseDelayMs && 0 <= o.maxDelayMs
    ensures Delay(o, 1, 0.0) == if o.baseDelayMs <= o.maxDelayMs then o.baseDelayMs else o.maxDelayMs
    ensures var least, next := Delay(o, attempt, 0.0), Delay(o, attempt + 1, 0.0);
            next == if 2 * least <= o.maxDelayMs then 2 * least else o.maxDelayMs
  {
    var exponential := o.baseDelayMs * Pow2(attempt - 1);
    Pow2Grows(0, attempt - 1);
    assert o.baseDelayMs * Pow2(attempt) == 2 * exponential;
    assert 0 <= exponential;
  }

  lemma DelayBounds(o: RetryOptions, attempt: nat, random: real)
    requires attempt >= 1 && o.baseDelayMs >= 1 && 0.0 <= random < 1.0
    ensures Backoff(o, attempt) <= Delay(o, attempt, random) <= o.maxDelayMs + o.baseDelayMs - 1
    ensures 0 <= o.maxDelayMs ==> 0 <= Delay(o, attempt, random)
  {
    JitterIsShare(o.baseDelayMs, random);
    Pow2Grows(0, attempt - 1);
    assert o.baseDelayMs * Pow2(attempt - 1) >= 0;
  }

  lemma {:induction false} TotalDelayBounded(delays: seq<int>, o: RetryOptions, random: nat -> real)
    requires AreDelays(delays, o, random)
    ensures WaitBounded(delays, o, random)
    decreases |delays|
  {
    var longest := o.maxDelayMs + o.baseDelayMs - 1;
    if o.baseDelayMs >= 1 && forall i :: 0.0 <= random(i) < 1.0 {
      if delays != [] {
        var n := |delays| - 1;
        TotalDelayBounded(delays[..n], o, random);
        DelayBounds(o, n + 1, random(n + 1));
        assert (n + 1) * longest == n * longest + longest;
      }
      if 0 <= longest && |delays| < o.maxRetries {
        Times(|delays|, o.maxRetries - 1, longest);
      }
    }
  }

  lemma Times(n: nat, m: nat, longest: nat)
    requires n <= m
    ensures n * longest <= m * longest
  {}
}
