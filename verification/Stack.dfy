/** One request through the whole stack, breaker over retry over a single
    attempt, and runs of requests one after another. */
module Stack {
  import opened Options
  import opened Breaker
  import opened BreakerAdapter
  import opened Errors
  import opened Retry

  /** A request, with what each of its attempts would meet. */
  datatype Call = Call(verb: HttpMethod, opts: HttpCallOpts, ctx: Context, fetches: nat -> Fetch)

  function Policy(call: Call): RetryPolicy { ResolveRetryPolicy(call.verb, call.opts) }

  function AttemptOf(call: Call): nat -> Outcome<Response> {
    (i: nat) => Attempt(Chain(), call.fetches(i), call.ctx)
  }

  /** What the retry loop answers when it runs. */
  function Answered(call: Call): Returned<Response> { Answer(AttemptOf(call), Policy(call)) }

  function AttemptsIfRun(call: Call): nat { Attempts(AttemptOf(call), Policy(call)) }

  predicate Fails(call: Call) { !Answered(call).Value? }

  const CB_BREAKER_OPEN_MESSAGE_SUBSTRING := "Breaker is open"

  predicate StandsAt(s: string, sub: string, i: nat) { i + |sub| <= |s| && s[i..i + |sub|] == sub }

  predicate Contains(s: string, sub: string) { exists i: nat | i <= |s| :: StandsAt(s, sub, i) }

  /** Whether an error's message contains the breaker's phrase, seen on the part
      of the message that is not fixed. */
  predicate MentionsOpen(e: Thrown) {
    match e
    case HttpError(_, url) => Contains(url, CB_BREAKER_OPEN_MESSAGE_SUBSTRING)
    case TimeoutError(url, _) => Contains(url, CB_BREAKER_OPEN_MESSAGE_SUBSTRING)
    case NetworkError(url, _) => Contains(url, CB_BREAKER_OPEN_MESSAGE_SUBSTRING)
    case CircuitOpenError(api) => Contains(api, CB_BREAKER_OPEN_MESSAGE_SUBSTRING)
    case NativeError(_, message, _, _) => Contains(message, CB_BREAKER_OPEN_MESSAGE_SUBSTRING)
    case NonError(_) => false
  }

  /** The message of an error, with `numeral` for the number it quotes. */
  function Message(e: Thrown, numeral: string): string
    requires IsError(e)
  {
    match e
    case HttpError(_, url) => "HTTP " + numeral + " for " + url
    case TimeoutError(url, _) => "Timed out after " + numeral + "ms for " + url
    case NetworkError(url, _) => "Network error for " + url
    case CircuitOpenError(api) => "Circuit open for " + api
    case NativeError(_, message, _, _) => message
  }

  /** Words without a capital B in front neither hold the phrase nor begin it. */
  lemma PhraseIsBehind(front: string, quoted: string)
    requires 'B' !in front
    ensures Contains(front + quoted, CB_BREAKER_OPEN_MESSAGE_SUBSTRING)
       <==> Contains(quoted, CB_BREAKER_OPEN_MESSAGE_SUBSTRING)
  {
    var sub, all := CB_BREAKER_OPEN_MESSAGE_SUBSTRING, front + quoted;
    if i: nat :| i <= |all| && StandsAt(all, sub, i) {
      assert all[i] == all[i..i + |sub|][0] == 'B';
      assert forall j :: 0 <= j < |front| ==> all[j] == front[j] && front[j] in front;
      assert |front| <= i;
      assert quoted[i - |front|..i - |front| + |sub|] == all[i..i + |sub|];
      assert StandsAt(quoted, sub, i - |front|);
    }
    if i: nat :| i <= |quoted| && StandsAt(quoted, sub, i) {
      assert all[i + |front|..i + |front| + |sub|] == quoted[i..i + |sub|];
      assert StandsAt(all, sub, i + |front|);
    }
  }

  /** Looking at the quoted part alone decides whether an error's message holds
      the words `Breaker is open`, however its number is printed. */
  lemma MentionsOpenExactly(e: Thrown, numeral: string)
    requires IsError(e) && 'B' !in numeral
    ensures MentionsOpen(e) <==> exists a, b :: Message(e, numeral) == a + "Breaker is open" + b
  {
    match e {
      case HttpError(_, url) => PhraseIsBehind("HTTP " + numeral + " for ", url);
      case TimeoutError(url, _) => PhraseIsBehind("Timed out after " + numeral + "ms for ", url);
      case NetworkError(url, _) => PhraseIsBehind("Network error for ", url);
      case CircuitOpenError(api) => PhraseIsBehind("Circuit open for ", api);
      case NativeError(_, _, _, _) =>
    }
    ContainsExactly(Message(e, numeral), "Breaker is open");
  }

  lemma ContainsExactly(s: string, sub: string)
    ensures Contains(s, sub) <==> exists a, b :: s == a + sub + b
  {
    if i: nat :| i <= |s| && StandsAt(s, sub, i) {
      assert s == s[..i] + sub + s[i + |sub|..];
    }
    if a, b :| s == a + sub + b {
      assert s[|a|..|a| + |sub|] == sub;
      assert StandsAt(s, sub, |a|);
    }
  }

  /** What fire() lets through: its catch block replaces the error when the
      breaker is open by then, or when the message is the breaker's own. */
  function Surface(api: string, circuit: Circuit, a: Returned<Response>): Returned<Response> {
    if a.Value? then a
    else if circuit == Opened || (a.Threw? && MentionsOpen(a.error)) then Threw(CircuitOpenError(api))
    else a
  }

  datatype Reply = Reply(state: State, answer: Returned<Response>, attempts: nat)

  /** No call is under way. */
  predicate Quiet(s: State) { s.running == {} && s.settled == map[] }

  /** No call under way bears this name. */
  predicate New(s: State, id: nat) { id !in s.running && id !in s.settled }

  /** An admitted call that nothing interrupts, whatever else is under way: it
      starts, settles and is made known to the breaker. */
  function AfterCall(c: Config, s: State, id: nat, resolved: bool): (r: State)
    requires New(s, id) && Admits(s)
    ensures r.running == s.running && r.settled == s.settled
  {
    var s1 := Step(c, s, Start(id)).value;
    var s2 := Step(c, s1, Settle(id, resolved)).value;
    Step(c, s2, Notify(id)).value
  }

  const REJECTION := NativeError("Error", CB_BREAKER_OPEN_MESSAGE_SUBSTRING, false, None)

  /** One uninterrupted request: the breaker around the retry loop. */
  function Request(c: Config, api: string, s: State, id: nat, call: Call): (r: Reply)
    requires New(s, id)
    ensures r.state.running == s.running && r.state.settled == s.settled
  {
    if Admits(s) then
      var s' := AfterCall(c, s, id, Answered(call).Value?);
      Reply(s', Surface(api, s'.circuit, Answered(call)), AttemptsIfRun(call))
    else
      Reply(s, Surface(api, s.circuit, Threw(REJECTION)), 0)
  }

  /** The same on the objects: the adapter's fire() around the retry loop. */
  method Serve(breaker: OpossumCircuitBreakerAdapter, api: string, id: nat, call: Call, random: nat -> real)
      returns (answer: Returned<Response>, attempts: nat)
    requires New(breaker.View(), id)
    modifies breaker
    ensures Reply(breaker.View(), answer, attempts) == Request(breaker.Rules(), api, old(breaker.View()), id, call)
  {
    var admitted := breaker.Fire(id);
    if !admitted {
      return Surface(api, breaker.circuit, Threw(REJECTION)), 0;
    }
    var sleeps;
    answer, attempts, sleeps := Run(AttemptOf(call), Policy(call), random);
    breaker.Wrap(id, answer.Value?);
    breaker.NotifySuccess(id);
    answer := Surface(api, breaker.circuit, answer);
  }

  // ---------- One request ----------

  /** What an admitted call does to the breaker, in one line per case, whatever
      other calls are under way. */
  lemma CallMoves(c: Config, s: State, id: nat, resolved: bool)
    requires New(s, id) && Inv(c, s) && Admits(s)
    ensures AfterCall(c, s, id, resolved)
         == if resolved then s.(circuit := Closed, probe := false, failures := 0)
            else if s.circuit == HalfOpen || s.failures + 1 == Threshold(c)
            then s.(circuit := Opened, probe := false, failures := 0)
            else s.(failures := s.failures + 1)
    ensures Inv(c, AfterCall(c, s, id, resolved))
  {
    assert s.running + {id} - {id} == s.running;
    assert s.settled[id := resolved] - {id} == s.settled;
  }

  lemma RejectionMentionsOpen()
    ensures MentionsOpen(REJECTION)
  {
    assert StandsAt(CB_BREAKER_OPEN_MESSAGE_SUBSTRING, CB_BREAKER_OPEN_MESSAGE_SUBSTRING, 0);
  }

  /** A rejected request runs nothing, changes nothing and is answered with
      CircuitOpenError, in every state and for every call. */
  lemma RejectedCostsNothing(c: Config, api: string, s: State, id: nat, call: Call)
    requires New(s, id) && !Admits(s)
    ensures Request(c, api, s, id, call) == Reply(s, Threw(CircuitOpenError(api)), 0)
  {
    RejectionMentionsOpen();
  }

  predicate Idempotent(call: Call) {
    call.verb == GET || call.verb == HEAD || call.opts.idempotent == Some(true)
  }

  /** Without an idempotent method or flag the loop makes one attempt, whatever
      `retries` says and whatever happens. */
  lemma SingleShot(call: Call)
    requires !Idempotent(call)
    ensures AttemptsIfRun(call) == 1
  {
    assert call.verb !in IDEMPOTENT_METHODS;
    assert Budget(Policy(call)) == 1;
  }

  /** So such a request runs the executor once when it is admitted and never
      when it is not, in every state of the breaker. */
  lemma AtMostOnce(c: Config, api: string, s: State, id: nat, call: Call)
    requires New(s, id) && !Idempotent(call)
    ensures Request(c, api, s, id, call).attempts == if Admits(s) then 1 else 0
  {
    SingleShot(call);
  }

  /** Exactly when the caller of an uninterrupted request sees CircuitOpenError:
      the breaker rejected the request, or the request failed and left the
      breaker open, or its own error said so. The second case is a call that did
      run: the failure that trips the breaker, or a failed probe, is reported as
      a rejection. Otherwise the caller sees what the retry loop answered. */
  lemma CircuitOpenSeenExactly(c: Config, api: string, s: State, id: nat, call: Call)
    requires New(s, id) && Inv(c, s)
    ensures var r := Request(c, api, s, id, call);
            r.answer == Threw(CircuitOpenError(api)) <==>
            || !Admits(s)
            || (Fails(call) && (s.circuit == HalfOpen || s.failures + 1 == Threshold(c)))
            || (Answered(call).Threw? && MentionsOpen(Answered(call).error))
            || Answered(call) == Threw(CircuitOpenError(api))
    ensures var r := Request(c, api, s, id, call);
            r.answer == Threw(CircuitOpenError(api)) || r.answer == Answered(call)
  {
    if Admits(s) {
      CallMoves(c, s, id, Answered(call).Value?);
    } else {
      RejectedCostsNothing(c, api, s, id, call);
    }
  }

  // ---------- The budget, from the call itself ----------

  lemma OutcomeWorthRetrying(call: Call, i: nat)
    ensures Retryable(AttemptOf(call)(i)) <==> WorthRetrying(call.fetches(i))
  {
    var policy := RetryPolicy((i + 1) as real, 0.0, 0.0, 0.0);
    RetriedExactly(call.fetches(i), call.ctx, i, policy, true);
  }

  /** A call whose attempts are all worth retrying makes as many as its fields
      allow: the whole part of `retries` where it is given and the call is
      idempotent, none if that is below one; three where it is not given; one
      where the call is not idempotent. */
  lemma BudgetFromCall(call: Call)
    requires forall i :: WorthRetrying(call.fetches(i))
    ensures AttemptsIfRun(call)
         == if call.verb != GET && call.verb != HEAD && call.opts.idempotent != Some(true) then 1
            else if call.opts.retries.None? then 3
            else if call.opts.retries.value < 1.0 then 0
            else call.opts.retries.value.Floor
  {
    var n := Budget(Policy(call));
    forall j: nat ensures Retryable(AttemptOf(call)(j)) {
      OutcomeWorthRetrying(call, j);
    }
    assert call.verb in IDEMPOTENT_METHODS <==> call.verb == GET || call.verb == HEAD;
    if n > 0 { LeadingIs(AttemptOf(call), 1, n - 1, n - 1); }
  }

  /** With a whole budget `n`, `k` failures worth retrying and then any other
      outcome are k + 1 attempts with k sleeps between them, answered by the last
      attempt; and `n` such failures are n attempts with n - 1 sleeps. */
  lemma AttemptsFromOutcomes(call: Call, n: nat, k: nat)
    requires Idempotent(call) && 1 <= n && k <= n
    requires call.opts.retries == Some(n as real) || (call.opts.retries.None? && n == 3)
    requires forall i :: 1 <= i <= k ==> WorthRetrying(call.fetches(i))
    requires k == n || !WorthRetrying(call.fetches(k + 1))
    ensures var a := if k < n then k + 1 else n;
            && AttemptsIfRun(call) == a
            && Sleeps(AttemptOf(call), Policy(call)) == a - 1
            && Answered(call) == match AttemptOf(call)(a)
                                 case Resolved(v) => Value(v)
                                 case Rejected(e) => Threw(e)
    ensures forall i :: IsOutcome(AttemptOf(call)(i), call.fetches(i), call.ctx)
  {
    forall i ensures IsOutcome(AttemptOf(call)(i), call.fetches(i), call.ctx) {
      AttemptIsOutcome(call.fetches(i), call.ctx);
    }
    assert call.verb in IDEMPOTENT_METHODS <==> call.verb == GET || call.verb == HEAD;
    assert Budget(Policy(call)) == n;
    forall j | 1 <= j <= k + 1 ensures Retryable(AttemptOf(call)(j)) <==> WorthRetrying(call.fetches(j)) {
      OutcomeWorthRetrying(call, j);
    }
    LeadingIs(AttemptOf(call), 1, n - 1, if k < n then k else n - 1);
  }

  // ---------- Runs of requests ----------

  datatype Happening = Ask(call: Call) | Reset

  /** What a run of non-overlapping requests and timer firings adds up to. */
  datatype Tally = Tally(state: State, admitted: nat, attempts: nat, halfOpens: nat)

  function Play(c: Config, api: string, s: State, hs: seq<Happening>): Tally
    requires Quiet(s)
    decreases |hs|
  {
    if hs == [] then Tally(s, 0, 0, 0)
    else match hs[0]
      case Ask(call) =>
        var r := Request(c, api, s, 0, call);
        var rest := Play(c, api, r.state, hs[1..]);
        rest.(admitted := rest.admitted + (if Admits(s) then 1 else 0), attempts := rest.attempts + r.attempts)
      case Reset =>
        var next := Step(c, s, Timer);
        if next.None? then Play(c, api, s, hs[1..])
        else
          var rest := Play(c, api, next.value, hs[1..]);
          rest.(halfOpens := rest.halfOpens + 1)
  }

  ghost predicate AllFail(hs: seq<Happening>, budget: nat) {
    forall h :: h in hs && h.Ask? ==> Fails(h.call) && Budget(Policy(h.call)) <= budget
  }

  /** How many more failing calls the breaker will admit before the next
      half-open period. */
  function Credit(c: Config, s: State): int {
    match s.circuit
    case Closed => Threshold(c) - s.failures
    case HalfOpen => 1
    case Opened => 0
  }

  lemma {:induction false} AdmittedBounded(c: Config, api: string, s: State, hs: seq<Happening>, budget: nat)
    requires Quiet(s) && Inv(c, s) && AllFail(hs, budget)
    ensures Play(c, api, s, hs).admitted <= Credit(c, s) + Play(c, api, s, hs).halfOpens
    decreases |hs|
  {
    if hs != [] {
      assert hs[0] in hs;
      match hs[0] {
        case Ask(call) =>
          if Admits(s) { CallMoves(c, s, 0, false); }
          AdmittedBounded(c, api, Request(c, api, s, 0, call).state, hs[1..], budget);
        case Reset =>
          var next := Step(c, s, Timer);
          AdmittedBounded(c, api, if next.Some? then next.value else s, hs[1..], budget);
      }
    }
  }

  lemma {:induction false} AttemptsPerAdmitted(c: Config, api: string, s: State, hs: seq<Happening>, budget: nat)
    requires Quiet(s) && Inv(c, s) && AllFail(hs, budget)
    ensures Play(c, api, s, hs).attempts <= Play(c, api, s, hs).admitted * budget
    decreases |hs|
  {
    if hs != [] {
      assert hs[0] in hs;
      match hs[0] {
        case Ask(call) =>
          LoopExact(AttemptOf(call), Policy(call));
          if Admits(s) { CallMoves(c, s, 0, false); }
          OneMore(Play(c, api, Request(c, api, s, 0, call).state, hs[1..]).admitted, budget);
          AttemptsPerAdmitted(c, api, Request(c, api, s, 0, call).state, hs[1..], budget);
        case Reset =>
          var next := Step(c, s, Timer);
          AttemptsPerAdmitted(c, api, if next.Some? then next.value else s, hs[1..], budget);
      }
    }
  }

  lemma OneMore(n: nat, budget: nat)
    ensures (n + 1) * budget == n * budget + budget
  {}

  lemma AtMost(n: nat, m: nat, budget: nat)
    requires n <= m
    ensures n * budget <= m * budget
  {}

  /** The whole-stack attempt budget: in any run of requests that all fail, from
      the closed start and with h half-open periods, the executor is run at most
      (threshold + h) * budget times. */
  lemma AttemptBudget(c: Config, api: string, hs: seq<Happening>, budget: nat)
    requires AllFail(hs, budget)
    ensures var t := Play(c, api, INITIAL, hs); t.attempts <= (Threshold(c) + t.halfOpens) * budget
  {
    var t := Play(c, api, INITIAL, hs);
    AdmittedBounded(c, api, INITIAL, hs, budget);
    AttemptsPerAdmitted(c, api, INITIAL, hs, budget);
    AtMost(t.admitted, Threshold(c) + t.halfOpens, budget);
  }

  /** The budget is reached: failing requests from a fresh breaker are all
      admitted up to the threshold, the last of them opens it, and not before. */
  lemma {:induction false} BurstOpens(c: Config, api: string, hs: seq<Happening>)
    requires |hs| <= Threshold(c) && forall h :: h in hs ==> h.Ask? && Fails(h.call)
    ensures var t := Play(c, api, INITIAL, hs);
            && t.admitted == |hs|
            && t.state == if |hs| == Threshold(c) then INITIAL.(circuit := Opened) else INITIAL.(failures := |hs|)
  {
    BurstFrom(c, api, hs, 0);
  }

  lemma {:induction false} BurstFrom(c: Config, api: string, hs: seq<Happening>, n: nat)
    requires n < Threshold(c) && n + |hs| <= Threshold(c) && forall h :: h in hs ==> h.Ask? && Fails(h.call)
    ensures var t := Play(c, api, INITIAL.(failures := n), hs);
            && t.admitted == |hs|
            && t.state == if n + |hs| == Threshold(c) then INITIAL.(circuit := Opened)
                          else INITIAL.(failures := n + |hs|)
    decreases |hs|
  {
    if hs != [] {
      assert hs[0] in hs;
      CallMoves(c, INITIAL.(failures := n), 0, false);
      if |hs| > 1 {
        BurstFrom(c, api, hs[1..], n + 1);
      } else {
        assert hs[1..] == [];
      }
    }
  }

  // ---------- After the timer ----------

  /** A run in two parts. */
  lemma {:induction false} PlayInParts(c: Config, api: string, s: State, hs: seq<Happening>, more: seq<Happening>)
    requires Quiet(s)
    ensures var t := Play(c, api, s, hs);
            && Quiet(t.state)
            && var u := Play(c, api, t.state, more);
               Play(c, api, s, hs + more)
               == Tally(u.state, t.admitted + u.admitted, t.attempts + u.attempts, t.halfOpens + u.halfOpens)
    decreases |hs|
  {
    if hs == [] {
      assert hs + more == more;
    } else {
      assert (hs + more)[1..] == hs[1..] + more;
      match hs[0] {
        case Ask(call) => PlayInParts(c, api, Request(c, api, s, 0, call).state, hs[1..], more);
        case Reset =>
          var next := Step(c, s, Timer);
          PlayInParts(c, api, if next.Some? then next.value else s, hs[1..], more);
      }
    }
  }

  /** On an open breaker, the first request after the timer is admitted and makes
      its attempts; it leaves the breaker closed at zero if it succeeds, and open
      if it fails. */
  lemma ProbeIsAdmitted(c: Config, api: string, s: State, call: Call)
    requires Quiet(s) && Inv(c, s) && s.circuit == Opened
    ensures Play(c, api, s, [Reset, Ask(call)])
         == Tally(if Fails(call) then INITIAL.(circuit := Opened) else INITIAL, 1, AttemptsIfRun(call), 1)
  {
    var half := Step(c, s, Timer).value;
    CallMoves(c, half, 0, Answered(call).Value?);
    assert [Reset, Ask(call)][1..] == [Ask(call)] && [Ask(call)][1..] == [];
    var r := Request(c, api, half, 0, call);
    assert Play(c, api, r.state, []) == Tally(r.state, 0, 0, 0);
    assert Play(c, api, half, [Ask(call)]) == Tally(r.state, 1, r.attempts, 0);
  }

  /** Failing requests, each after a timer. */
  function Probes(calls: seq<Call>): seq<Happening> {
    if calls == [] then [] else [Reset, Ask(calls[0])] + Probes(calls[1..])
  }

  lemma {:induction false} EveryProbeIsAdmitted(c: Config, api: string, calls: seq<Call>)
    requires forall call :: call in calls ==> Fails(call)
    ensures var t := Play(c, api, INITIAL.(circuit := Opened), Probes(calls));
            t.admitted == t.halfOpens == |calls|
    decreases |calls|
  {
    if calls != [] {
      var s := INITIAL.(circuit := Opened);
      assert calls[0] in calls;
      ProbeIsAdmitted(c, api, s, calls[0]);
      EveryProbeIsAdmitted(c, api, calls[1..]);
      PlayInParts(c, api, s, [Reset, Ask(calls[0])], Probes(calls[1..]));
    }
  }

  ghost predicate AllCost(hs: seq<Happening>, budget: nat) {
    forall h :: h in hs && h.Ask? ==> AttemptsIfRun(h.call) == budget
  }

  lemma {:induction false} AttemptsExact(c: Config, api: string, s: State, hs: seq<Happening>, budget: nat)
    requires Quiet(s) && AllCost(hs, budget)
    ensures Play(c, api, s, hs).attempts == Play(c, api, s, hs).admitted * budget
    decreases |hs|
  {
    if hs != [] {
      assert hs[0] in hs;
      match hs[0] {
        case Ask(call) =>
          OneMore(Play(c, api, Request(c, api, s, 0, call).state, hs[1..]).admitted, budget);
          AttemptsExact(c, api, Request(c, api, s, 0, call).state, hs[1..], budget);
        case Reset =>
          var next := Step(c, s, Timer);
          AttemptsExact(c, api, if next.Some? then next.value else s, hs[1..], budget);
      }
    }
  }

  /** The attempt budget is reached, for every threshold, every number h of
      half-open periods and every cost per request: a burst of failures up to the
      threshold, then one failing request after each timer, run the executor
      exactly (threshold + h) * budget times. */
  lemma BudgetReached(c: Config, api: string, burst: seq<Happening>, probes: seq<Call>, budget: nat)
    requires |burst| == Threshold(c) && forall h :: h in burst ==> h.Ask? && Fails(h.call)
    requires forall call :: call in probes ==> Fails(call)
    requires AllCost(burst + Probes(probes), budget)
    ensures var t := Play(c, api, INITIAL, burst + Probes(probes));
            t.halfOpens == |probes| && t.attempts == (Threshold(c) + |probes|) * budget
  {
    BurstOpens(c, api, burst);
    EveryProbeIsAdmitted(c, api, probes);
    PlayInParts(c, api, INITIAL, burst, Probes(probes));
    NoResets(c, api, INITIAL, burst);
    AttemptsExact(c, api, INITIAL, burst + Probes(probes), budget);
  }

  lemma {:induction false} NoResets(c: Config, api: string, s: State, hs: seq<Happening>)
    requires Quiet(s) && forall h :: h in hs ==> h.Ask?
    ensures Play(c, api, s, hs).halfOpens == 0
    decreases |hs|
  {
    if hs != [] {
      assert hs[0] in hs;
      NoResets(c, api, Request(c, api, s, 0, hs[0].call).state, hs[1..]);
    }
  }
}
