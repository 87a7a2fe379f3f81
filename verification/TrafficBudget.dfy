/** How much traffic of failing requests can reach the executor. */
module TrafficBudget {
  import opened Breaker
  import opened Stack
  import opened Traffic

  /** Requests admitted, and half-open periods, in the first `i` acts. */
  function Admitted(worlds: seq<World>, acts: seq<Act>, i: nat): nat
    requires i <= |acts| <= |worlds|
  {
    if i == 0 then 0
    else Admitted(worlds, acts, i - 1) + if acts[i - 1].Arrive? && Admits(worlds[i - 1].breaker) then 1 else 0
  }

  function HalfOpens(acts: seq<Act>, i: nat): nat
    requires i <= |acts|
  {
    if i == 0 then 0 else HalfOpens(acts, i - 1) + if acts[i - 1] == Tick then 1 else 0
  }

  ghost predicate EveryRequestFails(t: Client, acts: seq<Act>) {
    forall a :: a in acts && a.Arrive? ==> Fails(t.calls(a.id))
  }

  /** Never more than `width` requests in their loops at once. */
  ghost predicate AtMostAtOnce(worlds: seq<World>, width: nat) {
    forall w :: w in worlds ==> |w.breaker.running| <= width
  }

  /** While closed, the requests admitted are those that have failed and those
      still running; afterwards each half-open period admits one more. */
  ghost predicate Accounted(c: Config, s: State, width: nat, admitted: nat, halfOpens: nat) {
    var bound := Threshold(c) - 1 + width;
    && (forall id :: id in s.settled ==> !s.settled[id])
    && match s.circuit
       case Closed => admitted == s.failures + |s.running| && halfOpens == 0
       case HalfOpen => admitted <= bound + halfOpens - if s.probe then 1 else 0
       case Opened => admitted <= bound + halfOpens
  }

  lemma StepAccounted(c: Config, s: State, e: Event, width: nat, admitted: nat, halfOpens: nat)
    requires Inv(c, s) && Accounted(c, s, width, admitted, halfOpens)
    requires Step(c, s, e).Some? && |s.running| <= width
    requires e.Settle? ==> !e.resolved
    ensures Accounted(c, Step(c, s, e).value, width,
                      admitted + if e.Start? then 1 else 0, halfOpens + if e == Timer then 1 else 0)
  {}

  /** Every request known to the client was asked. */
  lemma {:induction false} KnownWereAsked(t: Client, worlds: seq<World>, acts: seq<Act>, i: nat)
    requires Happens(t, worlds, acts) && i <= |acts|
    ensures forall id :: id in worlds[i].tries ==> Arrive(id) in acts
  {
    if i > 0 {
      KnownWereAsked(t, worlds, acts, i - 1);
      assert HappensAt(t, worlds, acts, i - 1);
      assert acts[i - 1] in acts;
    }
  }

  /** The end of a failing request's loop is the settling of a failure. */
  lemma FailsByEvent(t: Client, w: World, a: Act)
    requires InStep(t, w) && Enabled(t, w, a) && (a.Finish? ==> Fails(t.calls(a.id)))
    ensures var e := EventOf(t, w, a); e.Some? && e.value.Settle? ==> !e.value.resolved
  {
    if a.Finish? {
      assert Progress(t, w, a.id);
      LoopSteps(t.calls(a.id), w.tries[a.id]);
    }
  }

  lemma ActAccounted(t: Client, w: World, a: Act, width: nat, admitted: nat, halfOpens: nat)
    requires Inv(t.config, w.breaker) && InStep(t, w) && Next(t, w, a).Some?
    requires Accounted(t.config, w.breaker, width, admitted, halfOpens) && |w.breaker.running| <= width
    requires a.Finish? ==> Fails(t.calls(a.id))
    ensures Accounted(t.config, Next(t, w, a).value.breaker, width,
                      admitted + if a.Arrive? && Admits(w.breaker) then 1 else 0,
                      halfOpens + if a == Tick then 1 else 0)
  {
    FailsByEvent(t, w, a);
    if EventOf(t, w, a).Some? {
      StepAccounted(t.config, w.breaker, EventOf(t, w, a).value, width, admitted, halfOpens);
    }
  }

  lemma FinishedFailed(t: Client, worlds: seq<World>, acts: seq<Act>, i: nat)
    requires Happens(t, worlds, acts) && i < |acts| && EveryRequestFails(t, acts) && acts[i].Finish?
    ensures Fails(t.calls(acts[i].id))
  {
    assert HappensAt(t, worlds, acts, i);
    KnownWereAsked(t, worlds, acts, i);
    assert Arrive(acts[i].id) in acts;
  }

  lemma {:induction false} AllAccounted(t: Client, worlds: seq<World>, acts: seq<Act>, width: nat, i: nat)
    requires !t.config.lateTimer && Happens(t, worlds, acts) && i <= |acts|
    requires EveryRequestFails(t, acts) && AtMostAtOnce(worlds, width)
    ensures Accounted(t.config, worlds[i].breaker, width, Admitted(worlds, acts, i), HalfOpens(acts, i))
  {
    if i > 0 {
      var w, a := worlds[i - 1], acts[i - 1];
      AllAccounted(t, worlds, acts, width, i - 1);
      assert HappensAt(t, worlds, acts, i - 1);
      BreakerInv(t, worlds, acts, i - 1);
      AllInStep(t, worlds, acts, i - 1);
      assert w in worlds;
      if a.Finish? { FinishedFailed(t, worlds, acts, i - 1); }
      ActAccounted(t, w, a, width, Admitted(worlds, acts, i - 1), HalfOpens(acts, i - 1));
    }
  }

  /** In any traffic of failing requests, no more than `width` at once and with
      h half-open periods, at most threshold - 1 + width + h are admitted. */
  lemma AdmittedAtMost(t: Client, worlds: seq<World>, acts: seq<Act>, width: nat, i: nat)
    requires !t.config.lateTimer && Happens(t, worlds, acts) && i <= |acts|
    requires EveryRequestFails(t, acts) && AtMostAtOnce(worlds, width)
    ensures Admitted(worlds, acts, i) <= Threshold(t.config) - 1 + width + HalfOpens(acts, i)
  {
    AllAccounted(t, worlds, acts, width, i);
    BreakerInv(t, worlds, acts, i);
    assert worlds[i] in worlds;
  }

  /** The executor's runs in the first `i` acts, for all requests together. */
  function AllRuns(acts: seq<Act>, i: nat): nat
    requires i <= |acts|
  {
    if i == 0 then 0 else AllRuns(acts, i - 1) + if acts[i - 1].Try? then 1 else 0
  }

  /** The sum of `f` over the numbers below `n`. */
  function SumOf(f: nat -> nat, n: nat): nat { if n == 0 then 0 else SumOf(f, n - 1) + f(n - 1) }

  /** The sum changes by as much as its one changed term. */
  lemma {:induction false} SumBumped(f: nat -> nat, g: nat -> nat, n: nat, at: nat)
    requires forall k: nat :: k != at ==> f(k) == g(k)
    ensures SumOf(g, n) - SumOf(f, n) == if at < n then g(at) - f(at) else 0
  {
    if n > 0 { SumBumped(f, g, n - 1, at); }
  }

  lemma {:induction false} SumBounded(f: nat -> nat, g: nat -> nat, n: nat, budget: nat)
    requires forall k: nat :: f(k) <= g(k) * budget
    ensures SumOf(f, n) <= SumOf(g, n) * budget
  {
    if n > 0 {
      SumBounded(f, g, n - 1, budget);
      assert (SumOf(g, n - 1) + g(n - 1)) * budget == SumOf(g, n - 1) * budget + g(n - 1) * budget;
    }
  }

  function TriesOf(w: World): nat -> nat { (id: nat) => if id in w.tries then w.tries[id] else 0 }

  function AdmittedOf(w: World): nat -> nat {
    (id: nat) => if id in w.tries && id !in w.refused then 1 else 0
  }

  /** An act changes one request's terms, by what it counts for. */
  lemma TermsMove(t: Client, w: World, a: Act) returns (id: nat)
    requires InStep(t, w) && Next(t, w, a).Some?
    ensures a.Arrive? || a.Try? ==> id == a.id
    ensures var w' := Next(t, w, a).value;
            && (forall k: nat :: k != id ==> TriesOf(w)(k) == TriesOf(w')(k) && AdmittedOf(w)(k) == AdmittedOf(w')(k))
            && TriesOf(w')(id) == TriesOf(w)(id) + (if a.Try? then 1 else 0)
            && AdmittedOf(w')(id) == AdmittedOf(w)(id) + (if a.Arrive? && Admits(w.breaker) then 1 else 0)
  {
    id := if a.Tick? then 0 else a.id;
  }

  /** Counting acts is summing over the requests. */
  lemma {:induction false} CountsAreSums(t: Client, worlds: seq<World>, acts: seq<Act>, n: nat, i: nat)
    requires Happens(t, worlds, acts) && i <= |acts|
    requires forall a :: a in acts && (a.Arrive? || a.Try?) ==> a.id < n
    ensures AllRuns(acts, i) == SumOf(TriesOf(worlds[i]), n)
    ensures Admitted(worlds, acts, i) == SumOf(AdmittedOf(worlds[i]), n)
  {
    if i == 0 {
      SumZero(TriesOf(START), n);
      SumZero(AdmittedOf(START), n);
    } else {
      var w, a, w' := worlds[i - 1], acts[i - 1], worlds[i];
      CountsAreSums(t, worlds, acts, n, i - 1);
      AllInStep(t, worlds, acts, i - 1);
      assert HappensAt(t, worlds, acts, i - 1) && a in acts;
      var id := TermsMove(t, w, a);
      SumBumped(TriesOf(w), TriesOf(w'), n, id);
      SumBumped(AdmittedOf(w), AdmittedOf(w'), n, id);
    }
  }

  lemma {:induction false} SumZero(f: nat -> nat, n: nat)
    requires forall k: nat :: f(k) == 0
    ensures SumOf(f, n) == 0
  {
    if n > 0 { SumZero(f, n - 1); }
  }

  lemma {:induction false} IdsBounded(acts: seq<Act>) returns (n: nat)
    ensures forall a :: a in acts && (a.Arrive? || a.Try?) ==> a.id < n
    decreases |acts|
  {
    n := 0;
    if acts != [] {
      var last := |acts| - 1;
      n := IdsBounded(acts[..last]);
      if (acts[last].Arrive? || acts[last].Try?) && acts[last].id >= n { n := acts[last].id + 1; }
      assert acts == acts[..last] + [acts[last]];
    }
  }

  lemma TermBounded(t: Client, worlds: seq<World>, acts: seq<Act>, budget: nat, i: nat, id: nat)
    requires Happens(t, worlds, acts) && i <= |acts|
    requires forall a :: a in acts && a.Arrive? ==> AttemptsIfRun(t.calls(a.id)) <= budget
    ensures TriesOf(worlds[i])(id) <= AdmittedOf(worlds[i])(id) * budget
  {
    KnownWereAsked(t, worlds, acts, i);
    RunsExactly(t, worlds, acts, id, i);
    RunsAreTries(t, worlds, acts, id, i);
  }

  /** In any traffic, failing or not, the executor runs at most `budget` times
      per admitted request. */
  lemma RunsPerAdmitted(t: Client, worlds: seq<World>, acts: seq<Act>, budget: nat, i: nat)
    requires Happens(t, worlds, acts) && i <= |acts|
    requires forall a :: a in acts && a.Arrive? ==> AttemptsIfRun(t.calls(a.id)) <= budget
    ensures AllRuns(acts, i) <= Admitted(worlds, acts, i) * budget
  {
    var n := IdsBounded(acts);
    CountsAreSums(t, worlds, acts, n, i);
    forall id: nat ensures TriesOf(worlds[i])(id) <= AdmittedOf(worlds[i])(id) * budget {
      TermBounded(t, worlds, acts, budget, i, id);
    }
    SumBounded(TriesOf(worlds[i]), AdmittedOf(worlds[i]), n, budget);
  }

  /** The whole-stack attempt budget with requests overlapping freely: failing
      requests, no more than `width` in their loops at once, run the executor at
      most (threshold - 1 + width + h) * budget times over h half-open periods.
      One at a time, that is (threshold + h) * budget. */
  lemma OverlappingBudget(t: Client, worlds: seq<World>, acts: seq<Act>, width: nat, budget: nat, i: nat)
    requires !t.config.lateTimer && Happens(t, worlds, acts) && i <= |acts|
    requires EveryRequestFails(t, acts) && AtMostAtOnce(worlds, width)
    requires forall a :: a in acts && a.Arrive? ==> AttemptsIfRun(t.calls(a.id)) <= budget
    ensures AllRuns(acts, i) <= (Threshold(t.config) - 1 + width + HalfOpens(acts, i)) * budget
  {
    AdmittedAtMost(t, worlds, acts, width, i);
    RunsPerAdmitted(t, worlds, acts, budget, i);
    AtMost(Admitted(worlds, acts, i), Threshold(t.config) - 1 + width + HalfOpens(acts, i), budget);
  }
}
