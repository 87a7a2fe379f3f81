/** Any number of requests at once through one client: every attempt is a step
    of its own, and steps of different requests interleave freely. */
module Traffic {
  import opened Options
  import opened Breaker
  import opened Errors
  import opened Retry
  import opened Stack

  // ---------- The retry loop, one attempt at a time ----------

  /** The loop makes another attempt after `k` of them. */
  predicate GoesOn(call: Call, k: nat) {
    && (k + 1) as real <= Policy(call).maxAttempts
    && (k > 0 ==> AttemptOf(call)(k).Rejected? && ShouldRetry(AttemptOf(call)(k).error, k, Policy(call)))
  }

  /** What the loop answers if it stops after `k` attempts. */
  function AnswerAfter(call: Call, k: nat): Returned<Response> {
    if k == 0 then ThrewUndefined
    else match AttemptOf(call)(k)
      case Resolved(v) => Value(v)
      case Rejected(e) => Threw(e)
  }

  /** Stepping through the loop is running it: it never passes the attempts of a
      run, and where it stops it has made them all and answers as the run does. */
  lemma LoopSteps(call: Call, k: nat)
    requires forall j: nat :: j < k ==> GoesOn(call, j)
    ensures k <= AttemptsIfRun(call)
    ensures !GoesOn(call, k) ==> k == AttemptsIfRun(call) && AnswerAfter(call, k) == Answered(call)
  {
    var policy, attempt := Policy(call), AttemptOf(call);
    var n := Budget(policy);
    BudgetExact(policy, k + 1);
    if k > 0 {
      assert GoesOn(call, k - 1);
      BudgetExact(policy, k);
      forall j | 1 <= j < k ensures Retryable(attempt(j)) {
        assert GoesOn(call, j);
      }
      LeadingPrefix(attempt, 1, n - 1);
      if !GoesOn(call, k) {
        LeadingIs(attempt, 1, n - 1, k - 1);
      }
    }
  }

  // ---------- The steps ----------

  datatype Client = Client(config: Config, api: string, calls: nat -> Call)

  /** `tries` counts the executor's runs for every request made so far;
      `refused` holds those the breaker rejected; `replies` what callers saw. */
  datatype World = World(
    breaker: State,
    tries: map<nat, nat>,
    refused: set<nat>,
    replies: map<nat, Returned<Response>>)

  const START := World(INITIAL, map[], {}, map[])

  /** A request is made; the executor runs once for it; its retry loop ends; the
      breaker hears of it; the reset timer fires; fire()'s catch block looks at
      the breaker and lets the answer through. */
  datatype Act = Arrive(id: nat) | Try(id: nat) | Finish(id: nat) | Hear(id: nat) | Tick | Return(id: nat)

  /** The breaker's own step in an act, if it has one. */
  function EventOf(t: Client, w: World, a: Act): Option<Event> {
    match a
    case Arrive(id) => Some(if Admits(w.breaker) then Start(id) else Reject)
    case Finish(id) =>
      if id in w.tries then Some(Settle(id, AnswerAfter(t.calls(id), w.tries[id]).Value?)) else None
    case Hear(id) => Some(Notify(id))
    case Tick => Some(Timer)
    case Try(_) => None
    case Return(_) => None
  }

  predicate Enabled(t: Client, w: World, a: Act) {
    match a
    case Arrive(id) => id !in w.tries
    case Try(id) => id in w.tries && id in w.breaker.running && GoesOn(t.calls(id), w.tries[id])
    case Finish(id) => id in w.tries && !GoesOn(t.calls(id), w.tries[id])
    case Hear(_) => true
    case Tick => true
    case Return(id) => id in w.tries && id !in w.replies && New(w.breaker, id)
  }

  function Seen(t: Client, w: World, id: nat): Returned<Response>
    requires id in w.tries
  {
    Surface(t.api, w.breaker.circuit,
            if id in w.refused then Threw(REJECTION) else AnswerAfter(t.calls(id), w.tries[id]))
  }

  /** What the act does apart from the breaker. */
  function Move(t: Client, w: World, a: Act): World
    requires Enabled(t, w, a)
  {
    match a
    case Arrive(id) =>
      w.(tries := w.tries[id := 0], refused := if Admits(w.breaker) then w.refused else w.refused + {id})
    case Try(id) => w.(tries := w.tries[id := w.tries[id] + 1])
    case Return(id) => w.(replies := w.replies[id := Seen(t, w, id)])
    case _ => w
  }

  /** One act, or None where it cannot happen. */
  function Next(t: Client, w: World, a: Act): Option<World> {
    if !Enabled(t, w, a) then None
    else match EventOf(t, w, a)
      case None => Some(Move(t, w, a))
      case Some(e) =>
        var b := Step(t.config, w.breaker, e);
        if b.None? then None else Some(Move(t, w, a).(breaker := b.value))
  }

  predicate HappensAt(t: Client, worlds: seq<World>, acts: seq<Act>, i: nat) {
    i < |acts| < |worlds| && Next(t, worlds[i], acts[i]) == Some(worlds[i + 1])
  }

  /** A run from the start, act by act. */
  ghost predicate Happens(t: Client, worlds: seq<World>, acts: seq<Act>) {
    && |worlds| == |acts| + 1
    && worlds[0] == START
    && forall i: nat :: i < |acts| ==> HappensAt(t, worlds, acts, i)
  }

  /** The breaker inside is the breaker alone: its states in any traffic are
      those of a run of its own. */
  lemma {:induction false} Projects(t: Client, worlds: seq<World>, acts: seq<Act>, i: nat)
      returns (states: seq<State>, events: seq<Event>)
    requires Happens(t, worlds, acts) && i <= |acts|
    ensures Behavior(t.config, states, events) && states[|events|] == worlds[i].breaker
  {
    if i == 0 {
      states, events := [INITIAL], [];
    } else {
      states, events := Projects(t, worlds, acts, i - 1);
      assert HappensAt(t, worlds, acts, i - 1);
      var e := EventOf(t, worlds[i - 1], acts[i - 1]);
      if e.Some? {
        states, events := states + [worlds[i].breaker], events + [e.value];
      }
    }
  }

  lemma BreakerInv(t: Client, worlds: seq<World>, acts: seq<Act>, i: nat)
    requires !t.config.lateTimer && Happens(t, worlds, acts) && i <= |acts|
    ensures Inv(t.config, worlds[i].breaker)
  {
    var states, events := Projects(t, worlds, acts, i);
    ReachableInv(t.config, states, events, |events|);
  }

  // ---------- At most once ----------

  /** Where a request stands: refused without an attempt, in its loop, or
      through it. */
  ghost predicate Progress(t: Client, w: World, id: nat)
    requires id in w.tries
  {
    && (forall j: nat :: j < w.tries[id] ==> GoesOn(t.calls(id), j))
    && (id in w.refused ==> w.tries[id] == 0 && New(w.breaker, id))
    && (id !in w.refused && id !in w.breaker.running ==> !GoesOn(t.calls(id), w.tries[id]))
  }

  ghost predicate InStep(t: Client, w: World) {
    && (forall id :: id in w.tries ==> Progress(t, w, id))
    && (forall id ::
          id in w.breaker.running || id in w.breaker.settled || id in w.refused || id in w.replies ==> id in w.tries)
  }

  lemma NextInStep(t: Client, w: World, a: Act)
    requires InStep(t, w) && Next(t, w, a).Some?
    ensures InStep(t, Next(t, w, a).value)
  {
    var w' := Next(t, w, a).value;
    forall id | id in w'.tries ensures Progress(t, w', id) {
      if id in w.tries { assert Progress(t, w, id); }
    }
  }

  lemma {:induction false} AllInStep(t: Client, worlds: seq<World>, acts: seq<Act>, i: nat)
    requires Happens(t, worlds, acts) && i <= |acts|
    ensures InStep(t, worlds[i])
  {
    if i > 0 {
      AllInStep(t, worlds, acts, i - 1);
      assert HappensAt(t, worlds, acts, i - 1);
      NextInStep(t, worlds[i - 1], acts[i - 1]);
    }
  }

  /** The executor's runs for one request in the first `i` acts. */
  function Runs(acts: seq<Act>, id: nat, i: nat): nat
    requires i <= |acts|
  {
    if i == 0 then 0 else Runs(acts, id, i - 1) + if acts[i - 1] == Try(id) then 1 else 0
  }

  lemma {:induction false} RunsAreTries(t: Client, worlds: seq<World>, acts: seq<Act>, id: nat, i: nat)
    requires Happens(t, worlds, acts) && i <= |acts|
    ensures Runs(acts, id, i) == if id in worlds[i].tries then worlds[i].tries[id] else 0
  {
    if i > 0 {
      RunsAreTries(t, worlds, acts, id, i - 1);
      assert HappensAt(t, worlds, acts, i - 1);
    }
  }

  /** In every interleaving and at every moment: a refused request has run the
      executor not at all, any other no more often than its retry loop does
      alone, and exactly that often once it has left the loop. */
  lemma RunsExactly(t: Client, worlds: seq<World>, acts: seq<Act>, id: nat, i: nat)
    requires Happens(t, worlds, acts) && i <= |acts|
    ensures Runs(acts, id, i) <= AttemptsIfRun(t.calls(id))
    ensures id in worlds[i].refused || id !in worlds[i].tries ==> Runs(acts, id, i) == 0
    ensures id in worlds[i].tries && id !in worlds[i].refused && id !in worlds[i].breaker.running ==>
            Runs(acts, id, i) == AttemptsIfRun(t.calls(id))
  {
    AllInStep(t, worlds, acts, i);
    RunsAreTries(t, worlds, acts, id, i);
    if id in worlds[i].tries {
      assert Progress(t, worlds[i], id);
      LoopSteps(t.calls(id), worlds[i].tries[id]);
    }
  }

  /** At most once, in every breaker state and failure pattern and whatever else
      is under way: a request without an idempotent method or flag never runs
      the executor twice; not once if it is rejected; and once if it is
      answered otherwise. */
  lemma NeverTwice(t: Client, worlds: seq<World>, acts: seq<Act>, id: nat, i: nat)
    requires Happens(t, worlds, acts) && i <= |acts| && !Idempotent(t.calls(id))
    ensures Runs(acts, id, i) <= 1
    ensures id in worlds[i].refused ==> Runs(acts, id, i) == 0
    ensures id in worlds[i].replies && id !in worlds[i].refused ==> Runs(acts, id, i) == 1
  {
    SingleShot(t.calls(id));
    RunsExactly(t, worlds, acts, id, i);
    RepliedAreThrough(t, worlds, acts, id, i);
  }

  /** A request that was answered is no longer under way. */
  lemma {:induction false} RepliedAreThrough(t: Client, worlds: seq<World>, acts: seq<Act>, id: nat, i: nat)
    requires Happens(t, worlds, acts) && i <= |acts|
    ensures id in worlds[i].replies ==> id in worlds[i].tries && New(worlds[i].breaker, id)
  {
    if i > 0 {
      RepliedAreThrough(t, worlds, acts, id, i - 1);
      assert HappensAt(t, worlds, acts, i - 1);
    }
  }

  /** Nothing keeps a request waiting for another one: in every world, one that
      has not been answered has a step of its own that can happen next, and a new
      one can arrive. */
  lemma NeverStuck(t: Client, worlds: seq<World>, acts: seq<Act>, id: nat, i: nat) returns (a: Act)
    requires Happens(t, worlds, acts) && i <= |acts| && id !in worlds[i].replies
    ensures a == Arrive(id) || a == Try(id) || a == Finish(id) || a == Hear(id) || a == Return(id)
    ensures a == Arrive(id) <==> id !in worlds[i].tries
    ensures Next(t, worlds[i], a).Some?
  {
    var w := worlds[i];
    AllInStep(t, worlds, acts, i);
    if id !in w.tries {
      a := Arrive(id);
    } else if id in w.breaker.running {
      a := if GoesOn(t.calls(id), w.tries[id]) then Try(id) else Finish(id);
    } else if id in w.breaker.settled {
      a := Hear(id);
    } else {
      a := Return(id);
    }
  }

  // ---------- Who sees CircuitOpenError ----------

  /** The loop of `id` ended in failure at act `j`, and that opened the
      breaker. */
  ghost predicate Trips(t: Client, worlds: seq<World>, acts: seq<Act>, j: nat, id: nat)
    requires Happens(t, worlds, acts)
  {
    && j < |acts|
    && acts[j] == Finish(id)
    && Fails(t.calls(id))
    && worlds[j].breaker.circuit != Opened
    && worlds[j + 1].breaker.circuit == Opened
  }

  ghost predicate NoTick(acts: seq<Act>, j: int, i: int) {
    forall k :: j <= k < i && 0 <= k < |acts| ==> acts[k] != Tick
  }

  /** `id` opened the breaker before act `i`, and no timer has fired since. */
  ghost predicate OpenedBy(t: Client, worlds: seq<World>, acts: seq<Act>, i: nat, id: nat)
    requires Happens(t, worlds, acts)
  {
    exists j: nat :: j < i && Trips(t, worlds, acts, j, id) && NoTick(acts, j, i)
  }

  lemma OpenStays(t: Client, worlds: seq<World>, acts: seq<Act>, i: nat, id: nat)
    requires Happens(t, worlds, acts) && i < |acts|
    requires OpenedBy(t, worlds, acts, i, id) && acts[i] != Tick
    ensures OpenedBy(t, worlds, acts, i + 1, id)
  {
    var j: nat :| j < i && Trips(t, worlds, acts, j, id) && NoTick(acts, j, i);
    assert NoTick(acts, j, i + 1);
  }

  /** An open breaker stays open until a timer; only the end of a failing loop
      opens it. */
  lemma CircuitMoves(t: Client, w: World, a: Act)
    requires InStep(t, w) && Next(t, w, a).Some?
    ensures var before, after := w.breaker.circuit, Next(t, w, a).value.breaker.circuit;
            && (before == Opened ==> (after == Opened <==> a != Tick))
            && (before != Opened && after == Opened ==> a.Finish? && Fails(t.calls(a.id)))
  {
    if a.Finish? {
      assert Progress(t, w, a.id);
      LoopSteps(t.calls(a.id), w.tries[a.id]);
    }
  }

  lemma CircuitMovesAt(t: Client, worlds: seq<World>, acts: seq<Act>, i: nat)
    requires Happens(t, worlds, acts) && i < |acts|
    ensures var before, after := worlds[i].breaker.circuit, worlds[i + 1].breaker.circuit;
            && (before == Opened ==> (after == Opened <==> acts[i] != Tick))
            && (before != Opened && after == Opened ==>
                  acts[i].Finish? && Trips(t, worlds, acts, i, acts[i].id))
  {
    assert HappensAt(t, worlds, acts, i);
    AllInStep(t, worlds, acts, i);
    CircuitMoves(t, worlds[i], acts[i]);
  }

  lemma {:induction false} OpenerOf(t: Client, worlds: seq<World>, acts: seq<Act>, i: nat) returns (id: nat)
    requires Happens(t, worlds, acts) && i <= |acts| && worlds[i].breaker.circuit == Opened
    ensures OpenedBy(t, worlds, acts, i, id)
  {
    CircuitMovesAt(t, worlds, acts, i - 1);
    if worlds[i - 1].breaker.circuit == Opened {
      id := OpenerOf(t, worlds, acts, i - 1);
      OpenStays(t, worlds, acts, i - 1, id);
    } else {
      id := acts[i - 1].id;
      assert NoTick(acts, i - 1, i);
    }
  }

  lemma {:induction false} OpenSince(t: Client, worlds: seq<World>, acts: seq<Act>, j: nat, i: nat)
    requires Happens(t, worlds, acts) && j <= i <= |acts|
    requires worlds[j].breaker.circuit == Opened && NoTick(acts, j, i)
    ensures worlds[i].breaker.circuit == Opened
    decreases i - j
  {
    if j < i {
      assert NoTick(acts, j, i - 1);
      OpenSince(t, worlds, acts, j, i - 1);
      CircuitMovesAt(t, worlds, acts, i - 1);
    }
  }

  lemma OpenedIsOpen(t: Client, worlds: seq<World>, acts: seq<Act>, i: nat, id: nat)
    requires Happens(t, worlds, acts) && i <= |acts| && OpenedBy(t, worlds, acts, i, id)
    ensures worlds[i].breaker.circuit == Opened
  {
    var j: nat :| j < i && Trips(t, worlds, acts, j, id) && NoTick(acts, j, i);
    assert NoTick(acts, j + 1, i);
    OpenSince(t, worlds, acts, j + 1, i);
  }

  /** The breaker is open exactly when some failure opened it with no timer
      since. */
  lemma OpenExactly(t: Client, worlds: seq<World>, acts: seq<Act>, i: nat)
    requires Happens(t, worlds, acts) && i <= |acts|
    ensures worlds[i].breaker.circuit == Opened <==> exists id :: OpenedBy(t, worlds, acts, i, id)
  {
    if worlds[i].breaker.circuit == Opened {
      var id := OpenerOf(t, worlds, acts, i);
    }
    if id :| OpenedBy(t, worlds, acts, i, id) {
      OpenedIsOpen(t, worlds, acts, i, id);
    }
  }

  /** Exactly when a caller sees CircuitOpenError, with any number of requests
      under way: it was rejected; or it failed, and a failure, its own or another
      request's, had opened the breaker with no timer since; or its error said
      so. In every other case the caller sees what its own retry loop answered. */
  lemma CircuitOpenRepliedExactly(t: Client, worlds: seq<World>, acts: seq<Act>, i: nat, id: nat)
    requires Happens(t, worlds, acts) && i < |acts| && acts[i] == Return(id)
    ensures id in worlds[i + 1].replies
    ensures var call, reply := t.calls(id), worlds[i + 1].replies[id];
            reply == Threw(CircuitOpenError(t.api)) <==>
            || id in worlds[i].refused
            || (Fails(call) && (OpenedBy(t, worlds, acts, i, id)
                                || exists other :: other != id && OpenedBy(t, worlds, acts, i, other)))
            || (Answered(call).Threw? && MentionsOpen(Answered(call).error))
            || Answered(call) == Threw(CircuitOpenError(t.api))
    ensures var reply := worlds[i + 1].replies[id];
            reply == Threw(CircuitOpenError(t.api)) || reply == Answered(t.calls(id))
  {
    var w := worlds[i];
    assert HappensAt(t, worlds, acts, i);
    AllInStep(t, worlds, acts, i);
    assert Progress(t, w, id);
    OpenExactly(t, worlds, acts, i);
    if id in w.refused {
      RejectionMentionsOpen();
    } else {
      LoopSteps(t.calls(id), w.tries[id]);
    }
  }

  // ---------- Another request's failure ----------

  /** A GET that is answered with status 404, which is not retried. */
  function NotFound(): Call {
    Call(GET, HttpCallOpts(None, None, None), Context("", 0.0), (_: nat) => Responded(404))
  }

  lemma NotFoundOnce()
    ensures GoesOn(NotFound(), 0) && !GoesOn(NotFound(), 1)
    ensures AnswerAfter(NotFound(), 1) == Answered(NotFound()) == Threw(HttpError(404, ""))
  {
    var call := NotFound();
    assert Policy(call).maxAttempts == 3.0;
    assert call.fetches(1) == Responded(404) && !IsOk(404);
    assert AttemptOf(call)(1) == Attempt(Chain(), Responded(404), call.ctx);
    forall j: nat | j < 1 ensures GoesOn(call, j) {
      assert j == 0;
    }
    LoopSteps(call, 1);
  }

  /** The client of these requests. */
  function NotFoundClient(): Client { Client(Config(2, false), "api", (_: nat) => NotFound()) }

  lemma OneMoreAct(t: Client, worlds: seq<World>, acts: seq<Act>, a: Act) returns (worlds': seq<World>)
    requires Happens(t, worlds, acts) && Next(t, worlds[|acts|], a).Some?
    ensures worlds' == worlds + [Next(t, worlds[|acts|], a).value] && Happens(t, worlds', acts + [a])
  {
    worlds' := worlds + [Next(t, worlds[|acts|], a).value];
    forall i: nat | i < |acts| + 1 ensures HappensAt(t, worlds', acts + [a], i) {
      assert i < |acts| ==> HappensAt(t, worlds, acts, i);
    }
  }

  /** Request `id` is in its loop and has made its one attempt. */
  predicate Tried(w: World, id: nat) { id in w.breaker.running && id in w.tries && w.tries[id] == 1 }

  lemma ThreeArrive() returns (worlds: seq<World>)
    ensures Happens(NotFoundClient(), worlds, [Arrive(0), Arrive(1), Arrive(2)])
    ensures worlds[3] == World(State(Closed, false, 0, {0, 1, 2}, map[]), map[0 := 0, 1 := 0, 2 := 0], {}, map[])
  {
    var t := NotFoundClient();
    var w1 := Next(t, START, Arrive(0)).value;
    var w2 := Next(t, w1, Arrive(1)).value;
    var w3 := Next(t, w2, Arrive(2)).value;
    assert w3.breaker == State(Closed, false, 0, {} + {0} + {1} + {2}, map[]);
    worlds := [START, w1, w2, w3];
  }

  /** Three requests under way, each with its one attempt made. */
  lemma ThreeUnderWay() returns (worlds: seq<World>, acts: seq<Act>)
    ensures Happens(NotFoundClient(), worlds, acts)
    ensures |acts| == 6 && Finish(0) !in acts
    ensures Tried(worlds[6], 0) && Tried(worlds[6], 1) && Tried(worlds[6], 2)
    ensures worlds[6].refused == {} && worlds[6].replies == map[]
    ensures worlds[6].breaker.circuit == Closed && worlds[6].breaker.failures == 0
  {
    NotFoundOnce();
    worlds := ThreeArrive();
    acts := [Arrive(0), Arrive(1), Arrive(2)];
    worlds := OneMoreAct(NotFoundClient(), worlds, acts, Try(0));
    acts := acts + [Try(0)];
    worlds := OneMoreAct(NotFoundClient(), worlds, acts, Try(1));
    acts := acts + [Try(1)];
    worlds := OneMoreAct(NotFoundClient(), worlds, acts, Try(2));
    acts := acts + [Try(2)];
  }

  /** Two of them fail and open the breaker. */
  lemma TwoFail() returns (worlds: seq<World>, acts: seq<Act>)
    ensures Happens(NotFoundClient(), worlds, acts)
    ensures |acts| == 8 && Finish(0) !in acts
    ensures Tried(worlds[8], 0) && worlds[8].refused == {} && worlds[8].replies == map[]
    ensures worlds[8].breaker.circuit == Opened
  {
    NotFoundOnce();
    var t := NotFoundClient();
    worlds, acts := ThreeUnderWay();
    worlds := OneMoreAct(t, worlds, acts, Finish(1));
    acts := acts + [Finish(1)];
    assert Tried(worlds[7], 2) && worlds[7].breaker.failures == 1;
    worlds := OneMoreAct(t, worlds, acts, Finish(2));
    acts := acts + [Finish(2)];
  }

  /** The input: with a threshold of two, three requests start on a fresh
      breaker and each fails at once with status 404. Two of them open the
      breaker; then the first, which was admitted, opened nothing and whose
      error does not mention the breaker, is answered with CircuitOpenError. */
  lemma OthersFailureSurfaces() returns (worlds: seq<World>, acts: seq<Act>)
    ensures Happens(NotFoundClient(), worlds, acts)
    ensures |acts| == 11 && acts[10] == Return(0) && 0 !in worlds[10].refused
    ensures Answered(NotFound()) == Threw(HttpError(404, "")) && !MentionsOpen(HttpError(404, ""))
    ensures !OpenedBy(NotFoundClient(), worlds, acts, 10, 0)
    ensures 0 in worlds[11].replies && worlds[11].replies[0] == Threw(CircuitOpenError("api"))
  {
    NotFoundOnce();
    var t := NotFoundClient();
    worlds, acts := TwoFail();
    worlds := OneMoreAct(t, worlds, acts, Finish(0));
    acts := acts + [Finish(0)];
    assert worlds[9].breaker.circuit == Opened && 0 in worlds[9].breaker.settled && 0 !in worlds[9].breaker.running;
    worlds := OneMoreAct(t, worlds, acts, Hear(0));
    acts := acts + [Hear(0)];
    assert New(worlds[10].breaker, 0) && worlds[10].breaker.circuit == Opened;
    worlds := OneMoreAct(t, worlds, acts, Return(0));
    acts := acts + [Return(0)];
    assert worlds[8].breaker.circuit == Opened;
  }
}
