/** The circuit-breaker adapter over the breaker it drives, with any number of
    overlapping calls. */
module Breaker {
  import opened Options

  datatype Circuit = Closed | Opened | HalfOpen

  /** `failures` is the adapter's consecutiveFailures. `probe` says that a
      half-open breaker will still admit a call. `settled` holds the calls whose
      wrapper has finished but of which the breaker has not been told: true for
      a call that resolved. */
  datatype State = State(
    circuit: Circuit,
    probe: bool,
    failures: int,
    running: set<nat>,
    settled: map<nat, bool>)

  const INITIAL := State(Closed, false, 0, {}, map[])

  datatype Event =
    | Start(id: nat)
    | Reject
    | Settle(id: nat, resolved: bool)
    | Notify(id: nat)
    | Timer

  /** `lateTimer` lets the reset timer fire while a settled call's notification
      is still on its way; the breaker rules that out. */
  datatype Config = Config(threshold: int, lateTimer: bool)

  predicate Admits(s: State) { s.circuit == Closed || (s.circuit == HalfOpen && s.probe) }

  /** The breaker's open(): nothing if it is open already. */
  function Open(s: State): State {
    if s.circuit == Opened then s else s.(circuit := Opened, probe := false)
  }

  /** The wrapper's two branches. */
  function Wrapped(threshold: int, s: State, resolved: bool): State {
    if resolved then s.(failures := 0)
    else if s.circuit == HalfOpen then Open(s.(failures := 0))
    else if s.failures + 1 >= threshold then Open(s.(failures := 0))
    else s.(failures := s.failures + 1)
  }

  /** One step, or None where it cannot happen. Since errorFilter accepts every
      error, Notify tells the breaker of a success whatever the outcome was. */
  function Step(c: Config, s: State, e: Event): Option<State> {
    match e
    case Start(id) =>
      if Admits(s) && id !in s.running && id !in s.settled
      then Some(s.(running := s.running + {id}, probe := false))
      else None
    case Reject => if Admits(s) then None else Some(s)
    case Settle(id, resolved) =>
      if id in s.running
      then Some(Wrapped(c.threshold, s, resolved).(running := s.running - {id}, settled := s.settled[id := resolved]))
      else None
    case Notify(id) =>
      if id in s.settled
      then Some(s.(settled := s.settled - {id},
                   circuit := if s.circuit == HalfOpen then Closed else s.circuit,
                   probe := false))
      else None
    case Timer =>
      if s.circuit == Opened && (c.lateTimer || s.settled == map[])
      then Some(s.(circuit := HalfOpen, probe := true))
      else None
  }

  /** A run from the initial state, step by step. */
  ghost predicate Behavior(c: Config, states: seq<State>, events: seq<Event>) {
    && |states| == |events| + 1
    && states[0] == INITIAL
    && forall i :: 0 <= i < |events| ==> Step(c, states[i], events[i]) == Some(states[i + 1])
  }

  function Threshold(c: Config): int { if c.threshold < 1 then 1 else c.threshold }

  // ---------- What every reachable state keeps ----------

  /** A half-open breaker is owed no news of a failure, and once news of a
      success is on its way the counter is zero. */
  ghost predicate Inv(c: Config, s: State) {
    && 0 <= s.failures < Threshold(c)
    && s.running !! s.settled.Keys
    && (s.probe ==> s.circuit == HalfOpen)
    && (s.circuit == HalfOpen ==> forall id :: id in s.settled ==> s.settled[id])
    && (s.circuit == HalfOpen && s.settled != map[] ==> s.failures == 0)
  }

  lemma StepKeepsInv(c: Config, s: State, e: Event)
    requires !c.lateTimer && Inv(c, s) && Step(c, s, e).Some?
    ensures Inv(c, Step(c, s, e).value)
  {}

  lemma {:induction false} ReachableInv(c: Config, states: seq<State>, events: seq<Event>, i: nat)
    requires !c.lateTimer && Behavior(c, states, events) && i <= |events|
    ensures Inv(c, states[i])
  {
    if i > 0 {
      ReachableInv(c, states, events, i - 1);
      assert Step(c, states[i - 1], events[i - 1]) == Some(states[i]);
      StepKeepsInv(c, states[i - 1], events[i - 1]);
    }
  }

  // ---------- Only a resolved call closes ----------

  /** A settled call settled at some earlier step, with that outcome, and has
      been waiting ever since. */
  lemma {:induction false} SettledAt(c: Config, states: seq<State>, events: seq<Event>, i: nat, id: nat)
      returns (j: nat)
    requires Behavior(c, states, events) && i <= |events| && id in states[i].settled
    ensures j < i && events[j] == Settle(id, states[i].settled[id])
    ensures forall k :: j < k <= i ==> id in states[k].settled
  {
    assert Step(c, states[i - 1], events[i - 1]) == Some(states[i]);
    if events[i - 1] == Settle(id, states[i].settled[id]) {
      j := i - 1;
    } else {
      j := SettledAt(c, states, events, i - 1, id);
    }
  }

  /** Only the timer makes a breaker half-open. */
  lemma {:induction false} HalfOpenSince(c: Config, states: seq<State>, events: seq<Event>, j: nat, i: nat)
    requires Behavior(c, states, events) && j <= i <= |events| && states[i].circuit == HalfOpen
    requires forall k :: j <= k < i ==> events[k] != Timer
    ensures forall k :: j <= k <= i ==> states[k].circuit == HalfOpen
    decreases i - j
  {
    if j < i {
      assert Step(c, states[i - 1], events[i - 1]) == Some(states[i]);
      HalfOpenSince(c, states, events, j, i - 1);
    }
  }

  /** Even where the timer may fire at any moment, a failed call closes the
      breaker only if the timer fired between its settling and its
      notification. */
  lemma FailureClosesOnlyAcrossTimer(c: Config, states: seq<State>, events: seq<Event>, i: nat, id: nat)
      returns (j: nat, k: nat)
    requires Behavior(c, states, events) && i < |events|
    requires events[i] == Notify(id) && id in states[i].settled && !states[i].settled[id]
    requires states[i].circuit != Closed && states[i + 1].circuit == Closed
    ensures j < k < i && events[j] == Settle(id, false) && events[k] == Timer
    ensures forall l :: j < l <= i ==> id in states[l].settled
  {
    assert Step(c, states[i], events[i]) == Some(states[i + 1]);
    j := SettledAt(c, states, events, i, id);
    assert Step(c, states[j], events[j]) == Some(states[j + 1]);
    if forall l :: j + 1 <= l < i ==> events[l] != Timer {
      HalfOpenSince(c, states, events, j + 1, i);
      assert false;
    }
    k :| j + 1 <= k < i && events[k] == Timer;
  }

  /** Failed calls never close the breaker: in every run, half-open becomes
      closed only at the notification of a call that resolved, and resolved
      during that same half-open period. */
  lemma OnlyResolvedCloses(c: Config, states: seq<State>, events: seq<Event>, i: nat)
      returns (id: nat, j: nat)
    requires !c.lateTimer && Behavior(c, states, events) && i < |events|
    requires states[i].circuit != Closed && states[i + 1].circuit == Closed
    ensures events[i] == Notify(id)
    ensures j < i && events[j] == Settle(id, true)
    ensures forall k :: j <= k <= i ==> states[k].circuit == HalfOpen
  {
    assert Step(c, states[i], events[i]) == Some(states[i + 1]);
    id := events[i].id;
    ReachableInv(c, states, events, i);
    j := SettledAt(c, states, events, i, id);
    forall k | j + 1 <= k < i ensures events[k] != Timer {
      assert Step(c, states[k], events[k]) == Some(states[k + 1]);
    }
    HalfOpenSince(c, states, events, j + 1, i);
    assert Step(c, states[j], events[j]) == Some(states[j + 1]);
  }

  /** The assumption on the timer is needed: with it dropped, this run closes the
      breaker on the news of a failure. */
  lemma LateTimerClosesOnFailure() returns (states: seq<State>, events: seq<Event>)
    ensures Behavior(Config(1, true), states, events)
    ensures exists i :: 0 <= i < |events| && states[i].circuit == HalfOpen && states[i + 1].circuit == Closed
    ensures forall id :: Settle(id, true) !in events
  {
    var c := Config(1, true);
    events := [Start(0), Start(1), Settle(0, false), Notify(0), Settle(1, false), Timer, Notify(1)];
    var s1 := Step(c, INITIAL, events[0]).value;
    var s2 := Step(c, s1, events[1]).value;
    var s3 := Step(c, s2, events[2]).value;
    var s4 := Step(c, s3, events[3]).value;
    var s5 := Step(c, s4, events[4]).value;
    var s6 := Step(c, s5, events[5]).value;
    var s7 := Step(c, s6, events[6]).value;
    states := [INITIAL, s1, s2, s3, s4, s5, s6, s7];
    assert states[6].circuit == HalfOpen && states[7].circuit == Closed;
  }

  // ---------- The counter is the history ----------

  /** Failures in a row just before step `i`, counted back to the last success
      or to the start of the closed period. */
  ghost function Streak(states: seq<State>, events: seq<Event>, i: nat): nat
    requires i < |states| && i <= |events|
  {
    if i == 0 || states[i - 1].circuit != Closed then 0
    else if events[i - 1].Settle? then
      if events[i - 1].resolved then 0 else Streak(states, events, i - 1) + 1
    else Streak(states, events, i - 1)
  }

  lemma {:induction false} CounterIsStreak(c: Config, states: seq<State>, events: seq<Event>, i: nat)
    requires !c.lateTimer && Behavior(c, states, events) && i <= |events|
    requires states[i].circuit == Closed
    ensures states[i].failures == Streak(states, events, i)
  {
    if i > 0 {
      assert Step(c, states[i - 1], events[i - 1]) == Some(states[i]);
      ReachableInv(c, states, events, i - 1);
      if states[i - 1].circuit == Closed {
        CounterIsStreak(c, states, events, i - 1);
      }
    }
  }

  /** Closed becomes open exactly at the threshold-th failure in a row, and never
      half-open; every closed period starts the count at zero. */
  lemma OpensExactlyAtThreshold(c: Config, states: seq<State>, events: seq<Event>, i: nat)
    requires !c.lateTimer && Behavior(c, states, events) && i < |events|
    ensures states[i].circuit == Closed ==>
            && (states[i + 1].circuit == Opened <==>
                events[i].Settle? && !events[i].resolved && Streak(states, events, i) + 1 == Threshold(c))
            && states[i + 1].circuit != HalfOpen
    ensures states[i].circuit != Closed && states[i + 1].circuit == Closed ==> states[i + 1].failures == 0
    ensures 0 <= states[i].failures < Threshold(c)
  {
    assert Step(c, states[i], events[i]) == Some(states[i + 1]);
    ReachableInv(c, states, events, i);
    if states[i].circuit == Closed {
      CounterIsStreak(c, states, events, i);
    }
  }

  /** The failures settled since the last success, or since the last failure of a
      half-open period, whatever the breaker did in between. */
  ghost function Recent(states: seq<State>, events: seq<Event>, i: nat): nat
    requires i < |states| && i <= |events|
  {
    if i == 0 then 0
    else if events[i - 1].Settle? then
      if events[i - 1].resolved || states[i - 1].circuit == HalfOpen then 0 else Recent(states, events, i - 1) + 1
    else Recent(states, events, i - 1)
  }

  lemma AnotherRound(rounds: nat, threshold: nat)
    ensures (rounds + 1) * threshold == rounds * threshold + threshold
    ensures 0 * threshold == 0
  {}

  /** In every state, not only a closed one, the counter is that number, begun
      again each time it reaches the threshold. */
  lemma {:induction false} CounterIsRecent(c: Config, states: seq<State>, events: seq<Event>, i: nat)
      returns (rounds: nat)
    requires Behavior(c, states, events) && i <= |events|
    ensures Recent(states, events, i) == rounds * Threshold(c) + states[i].failures
    ensures 0 <= states[i].failures < Threshold(c)
  {
    rounds := 0;
    AnotherRound(0, Threshold(c));
    if i > 0 {
      var before := CounterIsRecent(c, states, events, i - 1);
      assert Step(c, states[i - 1], events[i - 1]) == Some(states[i]);
      AnotherRound(before, Threshold(c));
      var e := events[i - 1];
      if !e.Settle? {
        rounds := before;
      } else if !e.resolved && states[i - 1].circuit != HalfOpen {
        rounds := if states[i - 1].failures + 1 == Threshold(c) then before + 1 else before;
      }
    }
  }

  // ---------- Admission ----------

  ghost predicate NoTimer(events: seq<Event>, j: int, i: int) {
    forall k :: j < k < i && 0 <= k < |events| ==> events[k] != Timer
  }

  /** A call has started since the last timer. */
  ghost predicate StartedSinceTimer(events: seq<Event>, i: nat) {
    exists j: nat :: j < i && j < |events| && events[j].Start? && NoTimer(events, j, i)
  }

  lemma StartedStep(events: seq<Event>, i: nat)
    requires i < |events|
    ensures StartedSinceTimer(events, i + 1) <==>
            events[i].Start? || (StartedSinceTimer(events, i) && events[i] != Timer)
  {
    if events[i].Start? {
      assert NoTimer(events, i, i + 1);
    }
    if StartedSinceTimer(events, i) && events[i] != Timer {
      var j: nat :| j < i && j < |events| && events[j].Start? && NoTimer(events, j, i);
      assert NoTimer(events, j, i + 1);
    }
    if StartedSinceTimer(events, i + 1) && !events[i].Start? {
      var j: nat :| j < i + 1 && j < |events| && events[j].Start? && NoTimer(events, j, i + 1);
      assert NoTimer(events, j, i);
    }
  }

  /** A new call is admitted if and only if the breaker is closed, or half-open
      with no call started since the timer that made it so; otherwise it is
      rejected. */
  lemma AdmitsExactly(c: Config, states: seq<State>, events: seq<Event>, i: nat, id: nat)
    requires Behavior(c, states, events) && i <= |events|
    requires id !in states[i].running && id !in states[i].settled
    ensures Step(c, states[i], Start(id)).Some? <==>
            states[i].circuit == Closed || (states[i].circuit == HalfOpen && !StartedSinceTimer(events, i))
    ensures Step(c, states[i], Reject).Some? <==> Step(c, states[i], Start(id)).None?
  {
    if states[i].circuit == HalfOpen { ProbeLeft(c, states, events, i); }
  }

  lemma {:induction false} ProbeLeft(c: Config, states: seq<State>, events: seq<Event>, i: nat)
    requires Behavior(c, states, events) && i <= |events| && states[i].circuit == HalfOpen
    ensures Admits(states[i]) <==> !StartedSinceTimer(events, i)
  {
    assert Step(c, states[i - 1], events[i - 1]) == Some(states[i]);
    StartedStep(events, i - 1);
    if events[i - 1] != Timer {
      ProbeLeft(c, states, events, i - 1);
    }
  }

  /** Recovery: from every open state with no news outstanding, whatever calls are
      still running, the timer fires, one call is admitted, and its outcome
      decides: closed with the counter at zero, or open again. */
  lemma Recovers(c: Config, states: seq<State>, events: seq<Event>, id: nat, resolved: bool)
      returns (states': seq<State>, events': seq<Event>)
    requires Behavior(c, states, events) && states[|events|].circuit == Opened && states[|events|].settled == map[]
    requires id !in states[|events|].running
    ensures events' == events + [Timer, Start(id), Settle(id, resolved), Notify(id)]
    ensures Behavior(c, states', events') && states <= states'
    ensures var last := states'[|events'|];
            && last.running == states[|events|].running
            && last.settled == map[]
            && last.failures == 0
            && last.circuit == if resolved then Closed else Opened
  {
    var s0 := states[|events|];
    var s1 := Step(c, s0, Timer).value;
    var s2 := Step(c, s1, Start(id)).value;
    var s3 := Step(c, s2, Settle(id, resolved)).value;
    var s4 := Step(c, s3, Notify(id)).value;
    assert s0.running + {id} - {id} == s0.running;
    states', events' := states + [s1, s2, s3, s4], events + [Timer, Start(id), Settle(id, resolved), Notify(id)];
    forall i | 0 <= i < |events'| ensures Step(c, states'[i], events'[i]) == Some(states'[i + 1]) {
      assert i < |events| ==> Step(c, states[i], events[i]) == Some(states[i + 1]);
    }
  }

  /** While the breaker stays half-open it admits at most one call. */
  lemma HalfOpenAdmitsOne(c: Config, states: seq<State>, events: seq<Event>, i: nat, j: nat)
    requires Behavior(c, states, events) && i < j < |events|
    requires forall k :: i <= k <= j ==> states[k].circuit == HalfOpen
    requires events[i].Start?
    ensures !events[j].Start?
  {
    assert Step(c, states[i], events[i]) == Some(states[i + 1]);
    NoSecondProbe(c, states, events, i + 1, j);
    assert Step(c, states[j], events[j]) == Some(states[j + 1]);
  }

  lemma {:induction false} NoSecondProbe(c: Config, states: seq<State>, events: seq<Event>, i: nat, j: nat)
    requires Behavior(c, states, events) && i <= j < |states| && !states[i].probe
    requires forall k :: i <= k <= j ==> states[k].circuit == HalfOpen
    ensures !states[j].probe
    decreases j - i
  {
    if i < j {
      NoSecondProbe(c, states, events, i, j - 1);
      assert Step(c, states[j - 1], events[j - 1]) == Some(states[j]);
    }
  }
}

/** The adapter as the object it is: the wrapper's counter and the breaker it
    opens by hand, changed in place. */
module BreakerAdapter {
  import opened Options
  import opened Breaker

  class OpossumCircuitBreakerAdapter {
    const threshold: int
    var consecutiveFailures: int
    var circuit: Circuit
    var probe: bool
    var running: set<nat>
    var settled: map<nat, bool>

    ghost function View(): State
      reads this
    {
      State(circuit, probe, consecutiveFailures, running, settled)
    }

    ghost function Rules(): Config { Config(threshold, false) }

    constructor (consecutiveThreshold: int)
      ensures threshold == consecutiveThreshold && View() == INITIAL
    {
      threshold := consecutiveThreshold;
      consecutiveFailures, circuit, probe, running, settled := 0, Closed, false, {}, map[];
    }

    /** breaker.fire(): the call is admitted, or rejected without running. */
    method Fire(id: nat) returns (admitted: bool)
      requires id !in running && id !in settled
      modifies this
      ensures admitted <==> Admits(old(View()))
      ensures Step(Rules(), old(View()), if admitted then Start(id) else Reject) == Some(View())
    {
      admitted := circuit == Closed || (circuit == HalfOpen && probe);
      if admitted {
        running, probe := running + {id}, false;
      }
    }

    method Open()
      modifies this`circuit, this`probe
      ensures View() == Breaker.Open(old(View()))
    {
      if circuit != Opened {
        circuit, probe := Opened, false;
      }
    }

    /** The wrapper, once the inner call has resolved or rejected. */
    method Wrap(id: nat, resolved: bool)
      requires id in running
      modifies this
      ensures Step(Rules(), old(View()), Settle(id, resolved)) == Some(View())
    {
      running, settled := running - {id}, settled[id := resolved];
      if resolved {
        consecutiveFailures := 0;
      } else if circuit == HalfOpen {
        consecutiveFailures := 0;
        Open();
      } else {
        consecutiveFailures := consecutiveFailures + 1;
        if consecutiveFailures >= threshold {
          consecutiveFailures := 0;
          Open();
        }
      }
    }

    /** The breaker's own handling of a finished call: errorFilter makes every
        outcome a success. */
    method NotifySuccess(id: nat)
      requires id in settled
      modifies this
      ensures Step(Rules(), old(View()), Notify(id)) == Some(View())
    {
      settled := settled - {id};
      if circuit == HalfOpen { circuit := Closed; }
      probe := false;
    }

    method ResetTimeout()
      requires circuit == Opened && settled == map[]
      modifies this
      ensures Step(Rules(), old(View()), Timer) == Some(View())
    {
      circuit, probe := HalfOpen, true;
    }
  }
}
