/** The breaker around the policy sidecar (mcpproxy/app/circuit_breaker.py) and the way a tool call drives it. */
module CircuitBreaker {
  import opened Wrappers

  const FAILURE_THRESHOLD := 5
  const COOLDOWN_SECONDS := 30.0

  datatype CircuitState = Closed | Open | HalfOpen

  /** The value of a breaker, and what each operation makes of it at a given time. */
  datatype Breaker = Breaker(state: CircuitState, failures: nat, openedAt: Option<real>) {
    function Tripped(now: real): Breaker {
      this.(state := Open, openedAt := Some(now))
    }

    function Failed(now: real): Breaker {
      var b := this.(failures := failures + 1);
      if b.failures >= FAILURE_THRESHOLD then b.Tripped(now) else b
    }

    predicate ProbeDue(now: real) {
      state == Open && openedAt.Some? && now - openedAt.value >= COOLDOWN_SECONDS
    }

    /** An open breaker knows when it opened; a closed one has seen too few failures to open. */
    predicate Sound() {
      (state == Closed ==> failures < FAILURE_THRESHOLD && openedAt.None?)
      && (state != Closed ==> openedAt.Some?)
    }
  }

  const INITIAL := Breaker(Closed, 0, None)

  class CircuitBreaker {
    var state: CircuitState
    var failureCount: nat
    var openedAt: Option<real>

    function Value(): Breaker
      reads this
    {
      Breaker(state, failureCount, openedAt)
    }

    constructor ()
      ensures Value() == INITIAL && Value().Sound()
    {
      state, failureCount, openedAt := Closed, 0, None;
    }

    predicate IsClosed()
      reads this
    {
      state == Closed
    }

    method RecordSuccess()
      modifies this
      ensures Value() == INITIAL && Value().Sound()
    {
      state, failureCount, openedAt := Closed, 0, None;
    }

    method RecordFailure(now: real)
      modifies this
      ensures Value() == old(Value()).Failed(now)
      ensures old(Value().Sound()) ==> Value().Sound()
    {
      failureCount := failureCount + 1;
      if failureCount >= FAILURE_THRESHOLD {
        Trip(now);
      }
    }

    /** Claims the probe slot if it is due; the source asserts that an open breaker knows when it opened. */
    method TryStartProbe(now: real) returns (claimed: bool)
      requires Value().Sound()
      modifies this
      ensures claimed <==> old(Value()).ProbeDue(now)
      ensures Value() == if claimed then old(Value()).(state := HalfOpen) else old(Value())
      ensures Value().Sound()
    {
      if state != Open {
        return false;
      }
      assert openedAt.Some?;
      if now - openedAt.value < COOLDOWN_SECONDS {
        return false;
      }
      state := HalfOpen;
      return true;
    }

    method RecordProbeFailure(now: real)
      modifies this
      ensures Value() == old(Value()).Tripped(now) && Value().Sound()
    {
      Trip(now);
    }

    method Trip(now: real)
      modifies this`state, this`openedAt
      ensures Value() == old(Value()).Tripped(now)
    {
      state, openedAt := Open, Some(now);
    }
  }

  // ---------------------------------------------------------------- one tool call

  /** Which way a call takes: to the sidecar, as a probe or not, or to the static allow-list. */
  datatype Path = Sidecar(probe: bool) | Breakglass

  /** What the sidecar answers: its decision, or no usable answer. */
  datatype Answer = Decision(allow: bool) | NoAnswer

  function PathFor(b: Breaker, now: real): Path {
    if b.state == Closed then Sidecar(false)
    else if b.ProbeDue(now) then Sidecar(true)
    else Breakglass
  }

  function AfterChoice(b: Breaker, now: real): Breaker {
    if PathFor(b, now) == Sidecar(true) then b.(state := HalfOpen) else b
  }

  function AfterAnswer(b: Breaker, probe: bool, answer: Answer, now: real): Breaker {
    if answer.Decision? then INITIAL
    else if probe then b.Tripped(now)
    else b.Failed(now)
  }

  /** The first half of `call`, up to the await. */
  method ChoosePath(breaker: CircuitBreaker, now: real) returns (path: Path)
    requires breaker.Value().Sound()
    modifies breaker
    ensures path == PathFor(old(breaker.Value()), now)
    ensures path == Sidecar(false) <==> old(breaker.Value()).state == Closed
    ensures path == Sidecar(true) <==>
            old(breaker.Value()).state == Open && now - old(breaker.Value()).openedAt.value >= 30.0
    ensures breaker.Value() == if path == Sidecar(true) then old(breaker.Value()).(state := HalfOpen)
                               else old(breaker.Value())
    ensures breaker.Value() == AfterChoice(old(breaker.Value()), now) && breaker.Value().Sound()
  {
    if breaker.IsClosed() {
      return Sidecar(false);
    }
    var claimed := breaker.TryStartProbe(now);
    if claimed {
      return Sidecar(true);
    }
    return Breakglass;
  }

  /**
   The second half: the outcome is recorded and the decision taken. `listed` says that the tool is on the allow-list.
   */
  method RecordOutcome(breaker: CircuitBreaker, path: Path, answer: Answer, listed: bool, now: real)
    returns (allowed: bool, usedBreakglass: bool)
    requires breaker.Value().Sound()
    modifies breaker
    ensures path == Sidecar(false) ==> (allowed <==> answer == Decision(true)) && !usedBreakglass
    ensures path == Sidecar(true) ==>
              (usedBreakglass <==> answer == NoAnswer)
              && (allowed <==> answer == Decision(true) || (answer == NoAnswer && listed))
    ensures path == Breakglass ==> allowed == listed && usedBreakglass && breaker.Value() == old(breaker.Value())
    ensures path != Breakglass && answer != NoAnswer ==> breaker.Value() == Breaker(Closed, 0, None)
    ensures path == Sidecar(true) && answer == NoAnswer ==>
              breaker.Value() == Breaker(Open, old(breaker.Value()).failures, Some(now))
    ensures path == Sidecar(false) && answer == NoAnswer ==>
              var b := old(breaker.Value());
              breaker.Value() == if b.failures + 1 >= 5 then Breaker(Open, b.failures + 1, Some(now))
                                 else Breaker(b.state, b.failures + 1, b.openedAt)
    ensures breaker.Value()
         == if path.Sidecar? then AfterAnswer(old(breaker.Value()), path.probe, answer, now) else old(breaker.Value())
    ensures breaker.Value().Sound()
  {
    usedBreakglass := false;
    if path.Sidecar? {
      match answer {
        case NoAnswer =>
          if path.probe {
            breaker.RecordProbeFailure(now);
            allowed, usedBreakglass := listed, true;
          } else {
            breaker.RecordFailure(now);
            allowed := false;
          }
        case Decision(allow) =>
          allowed := allow;
          breaker.RecordSuccess();
      }
    } else {
      allowed, usedBreakglass := listed, true;
    }
  }

  // ---------------------------------------------------------------- many calls at once

  datatype Call = Call(probe: bool, since: real)

  /** What has happened: sidecar calls started, answered, and left unanswered. */
  datatype Event =
    | Started(at: real, probe: bool)
    | Answered(at: real)
    | Unanswered(at: real, probe: bool, tripped: bool)

  datatype System = System(breaker: Breaker, now: real, calls: map<nat, Call>, nextId: nat, log: seq<Event>)

  const START := System(INITIAL, 0.0, map[], 0, [])

  datatype Step = Wait(to: real) | Arrive | Finish(id: nat, answer: Answer)

  predicate Enabled(s: System, step: Step) {
    match step
    case Wait(to) => to >= s.now
    case Arrive => true
    case Finish(id, _) => id in s.calls
  }

  /** If every sidecar call ends within `limit` seconds, time may not pass one by. */
  predicate Prompt(s: System, step: Step, limit: Option<real>) {
    step.Wait? && limit.Some? ==> forall id :: id in s.calls ==> step.to - s.calls[id].since < limit.value
  }

  function Next(s: System, step: Step): System
    requires Enabled(s, step)
  {
    match step
    case Wait(to) => s.(now := to)
    case Arrive =>
      var path := PathFor(s.breaker, s.now);
      if path.Breakglass? then s
      else System(AfterChoice(s.breaker, s.now), s.now, s.calls[s.nextId := Call(path.probe, s.now)], s.nextId + 1,
                  s.log + [Started(s.now, path.probe)])
    case Finish(id, answer) =>
      var probe := s.calls[id].probe;
      System(AfterAnswer(s.breaker, probe, answer, s.now), s.now, s.calls - {id}, s.nextId,
             s.log + [if answer.Decision? then Answered(s.now)
                      else Unanswered(s.now, probe, probe || s.breaker.failures + 1 >= FAILURE_THRESHOLD)])
  }

  /** Calls left unanswered since the last answer. */
  function FailuresSinceAnswer(log: seq<Event>): nat {
    if log == [] || log[|log| - 1].Answered? then 0
    else FailuresSinceAnswer(log[..|log| - 1]) + if log[|log| - 1].Unanswered? then 1 else 0
  }

  /** The last time the breaker tripped since the last answer. */
  function LastTrip(log: seq<Event>): Option<real> {
    if log == [] || log[|log| - 1].Answered? then None
    else
      var e := log[|log| - 1];
      if e.Unanswered? && e.tripped then Some(e.at) else LastTrip(log[..|log| - 1])
  }

  /** No sidecar call starts within the cooldown after a trip, unless an answer came between. */
  predicate Cooled(log: seq<Event>) {
    log == [] || (Cooled(log[..|log| - 1]) && StartsCooled(LastTrip(log[..|log| - 1]), log[|log| - 1]))
  }

  predicate StartsCooled(trip: Option<real>, e: Event) {
    e.Started? && trip.Some? ==> e.at - trip.value >= COOLDOWN_SECONDS
  }

  // ---------------------------------------------------------------- the invariant

  ghost predicate OneProbe(calls: map<nat, Call>) {
    forall i, j :: i in calls && j in calls && calls[i].probe && calls[j].probe ==> i == j
  }

  ghost predicate InFlight(s: System) {
    forall i :: i in s.calls ==> i < s.nextId && s.calls[i].since <= s.now < s.calls[i].since + COOLDOWN_SECONDS
  }

  /** An open breaker opened no earlier than any probe in flight started. */
  ghost predicate ProbesInOrder(s: System) {
    s.breaker.state == Open && s.breaker.openedAt.Some? ==>
      s.breaker.openedAt.value <= s.now
      && forall i :: i in s.calls && s.calls[i].probe ==> s.calls[i].since <= s.breaker.openedAt.value
  }

  /** A half-open breaker has a probe in flight; the number of the next call is free. */
  ghost predicate ProbeOut(s: System) {
    (s.breaker.state == HalfOpen ==> exists i :: i in s.calls && s.calls[i].probe)
    && forall i :: i in s.calls ==> i < s.nextId
  }

  /** The breaker's fields say what the log says. */
  ghost predicate LogReflected(s: System) {
    Cooled(s.log)
    && LastTrip(s.log) == s.breaker.openedAt
    && (s.breaker.state == Closed ==> FailuresSinceAnswer(s.log) == s.breaker.failures)
  }

  /** Holds in every run, however long calls take. */
  ghost predicate HistoryInv(s: System) {
    s.breaker.Sound() && LogReflected(s) && ProbeOut(s)
  }

  /** Holds if every call ends within the cooldown. */
  ghost predicate ProbeInv(s: System) {
    s.breaker.Sound() && OneProbe(s.calls) && InFlight(s) && ProbesInOrder(s) && ProbeOut(s)
  }

  lemma OneMoreEvent(log: seq<Event>, e: Event)
    ensures Cooled(log + [e])
       <==> Cooled(log) && (e.Started? && LastTrip(log).Some? ==> e.at - LastTrip(log).value >= COOLDOWN_SECONDS)
    ensures LastTrip(log + [e])
         == if e.Answered? then None else if e.Unanswered? && e.tripped then Some(e.at) else LastTrip(log)
    ensures FailuresSinceAnswer(log + [e])
         == if e.Answered? then 0 else FailuresSinceAnswer(log) + if e.Unanswered? then 1 else 0
  {
    assert (log + [e])[..|log|] == log;
  }

  lemma {:induction false} ArriveKeepsProbes(s: System)
    requires ProbeInv(s)
    ensures ProbeInv(Next(s, Arrive))
  {
    ArriveSendsProbe(s);
  }

  lemma {:induction false} ArriveSendsProbe(s: System)
    requires s.breaker.Sound() && ProbeOut(s)
    ensures Next(s, Arrive).breaker.Sound() && ProbeOut(Next(s, Arrive))
  {
    var path := PathFor(s.breaker, s.now);
    if path.Sidecar? {
      var after := Next(s, Arrive);
      assert s.nextId in after.calls && after.calls[s.nextId] == Call(path.probe, s.now);
    }
  }

  lemma {:induction false} ArriveKeepsHistory(s: System)
    requires HistoryInv(s)
    ensures HistoryInv(Next(s, Arrive))
  {
    hide Cooled, LastTrip, FailuresSinceAnswer;
    ArriveSendsProbe(s);
    OneMoreEvent(s.log, Started(s.now, PathFor(s.breaker, s.now) == Sidecar(true)));
  }

  lemma {:induction false} FinishKeepsCalls(s: System, id: nat, answer: Answer)
    requires OneProbe(s.calls) && InFlight(s) && id in s.calls
    ensures OneProbe(Next(s, Finish(id, answer)).calls) && InFlight(Next(s, Finish(id, answer)))
  {
    hide AfterAnswer;
    var after := Next(s, Finish(id, answer));
    assert forall i :: i in after.calls ==> i in s.calls && after.calls[i] == s.calls[i];
  }

  lemma {:induction false} FinishKeepsProbeOut(s: System, id: nat, answer: Answer)
    requires s.breaker.Sound() && ProbeOut(s) && id in s.calls
    ensures Next(s, Finish(id, answer)).breaker.Sound() && ProbeOut(Next(s, Finish(id, answer)))
  {
    var after := Next(s, Finish(id, answer));
    assert forall i :: i in after.calls ==> i in s.calls && after.calls[i] == s.calls[i];
    if after.breaker.state == HalfOpen {
      var i :| i in s.calls && s.calls[i].probe;
      assert i in after.calls;
    }
  }

  lemma {:induction false} FinishKeepsOrder(s: System, id: nat, answer: Answer)
    requires InFlight(s) && ProbesInOrder(s) && id in s.calls
    ensures ProbesInOrder(Next(s, Finish(id, answer)))
  {
    var after := Next(s, Finish(id, answer));
    assert forall i :: i in after.calls ==> i in s.calls && after.calls[i] == s.calls[i];
  }

  lemma {:induction false} FinishKeepsHistory(s: System, id: nat, answer: Answer)
    requires HistoryInv(s) && id in s.calls
    ensures HistoryInv(Next(s, Finish(id, answer)))
  {
    hide Cooled, LastTrip, FailuresSinceAnswer;
    FinishKeepsProbeOut(s, id, answer);
    var after := Next(s, Finish(id, answer));
    OneMoreEvent(s.log, after.log[|s.log|]);
    assert after.log == s.log + [after.log[|s.log|]];
  }

  /** Every step keeps the breaker's fields in line with the log. */
  lemma {:induction false} StepKeepsHistory(s: System, step: Step)
    requires HistoryInv(s) && Enabled(s, step)
    ensures HistoryInv(Next(s, step))
  {
    match step
    case Wait(_) =>
    case Arrive => ArriveKeepsHistory(s);
    case Finish(id, answer) => FinishKeepsHistory(s, id, answer);
  }

  /** Every step keeps the probes in order, as long as no call outlasts the cooldown. */
  lemma {:induction false} StepKeepsProbes(s: System, step: Step, limit: real)
    requires limit <= COOLDOWN_SECONDS
    requires ProbeInv(s) && Enabled(s, step) && Prompt(s, step, Some(limit))
    ensures ProbeInv(Next(s, step))
  {
    match step
    case Wait(_) =>
    case Arrive => ArriveKeepsProbes(s);
    case Finish(id, answer) =>
      FinishKeepsCalls(s, id, answer);
      FinishKeepsProbeOut(s, id, answer);
      FinishKeepsOrder(s, id, answer);
  }

  // ---------------------------------------------------------------- whole runs

  /** The state after some steps, if they can be taken, with a limit on how long calls take, or none. */
  ghost function After(steps: seq<Step>, limit: Option<real>): Option<System> {
    if steps == [] then Some(START)
    else match After(steps[..|steps| - 1], limit)
      case None => None
      case Some(s) =>
        var step := steps[|steps| - 1];
        if Enabled(s, step) && Prompt(s, step, limit) then Some(Next(s, step)) else None
  }

  lemma {:induction false} RunKeepsHistory(steps: seq<Step>, limit: Option<real>)
    ensures var s := After(steps, limit); s.Some? ==> HistoryInv(s.value)
  {
    hide HistoryInv, Next, Enabled, Prompt;
    if steps == [] {
      StartSound();
    } else {
      var before, step := After(steps[..|steps| - 1], limit), steps[|steps| - 1];
      RunKeepsHistory(steps[..|steps| - 1], limit);
      if before.Some? && Enabled(before.value, step) {
        StepKeepsHistory(before.value, step);
      }
    }
  }

  lemma {:induction false} RunKeepsProbes(steps: seq<Step>, limit: real)
    requires limit <= COOLDOWN_SECONDS
    ensures var s := After(steps, Some(limit)); s.Some? ==> ProbeInv(s.value)
  {
    hide ProbeInv, Next, Enabled, Prompt;
    if steps == [] {
      StartSound();
    } else {
      var before, step := After(steps[..|steps| - 1], Some(limit)), steps[|steps| - 1];
      RunKeepsProbes(steps[..|steps| - 1], limit);
      if before.Some? && Enabled(before.value, step) && Prompt(before.value, step, Some(limit)) {
        StepKeepsProbes(before.value, step, limit);
      }
    }
  }

  lemma StartSound()
    ensures HistoryInv(START) && ProbeInv(START)
  {
  }

  /**
   In every state of every run at most one probe is in flight, if and only if calls are limited to the cooldown
   or less.
   */
  lemma {:induction false} AtMostOneProbe(limit: real)
    ensures (forall steps :: After(steps, Some(limit)).Some? ==> OneProbe(After(steps, Some(limit)).value.calls))
       <==> limit <= COOLDOWN_SECONDS
  {
    hide After, OneProbe;
    if limit <= COOLDOWN_SECONDS {
      forall steps | After(steps, Some(limit)).Some?
        ensures OneProbe(After(steps, Some(limit)).value.calls)
      {
        RunKeepsProbes(steps, limit);
      }
    } else {
      var steps := SlowCallsAllowTwoProbes(Some(limit));
    }
  }

  /** A half-open breaker has a probe in flight, however long calls take. */
  lemma HalfOpenHasProbe(steps: seq<Step>, limit: Option<real>)
    requires After(steps, limit).Some?
    ensures var s := After(steps, limit).value;
            s.breaker.state == HalfOpen ==> exists i :: i in s.calls && s.calls[i].probe
  {
    hide After;
    RunKeepsHistory(steps, limit);
  }

  /**
   A breaker that is not closed knows when it last tripped; a closed one has seen fewer than five failures since the
   last answer.
   */
  lemma FieldsTellHistory(steps: seq<Step>, limit: Option<real>)
    requires After(steps, limit).Some?
    ensures var s := After(steps, limit).value;
            if s.breaker.state == Closed then FailuresSinceAnswer(s.log) < FAILURE_THRESHOLD && LastTrip(s.log).None?
            else LastTrip(s.log).Some? && s.breaker.openedAt == LastTrip(s.log)
  {
    hide After;
    RunKeepsHistory(steps, limit);
  }

  /** After a trip no sidecar call starts for the length of the cooldown, unless an answer came in between. */
  lemma NoCallDuringCooldown(steps: seq<Step>, limit: Option<real>, i: nat, j: nat)
    requires After(steps, limit).Some?
    requires var log := After(steps, limit).value.log;
             i < j < |log| && log[i].Unanswered? && log[i].tripped && log[j].Started?
             && forall k :: i < k < j ==> !log[k].Answered?
    ensures var log := After(steps, limit).value.log; log[j].at - log[i].at >= COOLDOWN_SECONDS
  {
    hide After, Cooled, LastTrip;
    RunKeepsHistory(steps, limit);
    TimesInOrder(steps, limit);
    var log := After(steps, limit).value.log;
    TripRemembered(log, i, j);
    CooledAt(log, j);
  }

  lemma {:induction false} CooledAt(log: seq<Event>, j: nat)
    requires Cooled(log) && j < |log| && log[j].Started? && LastTrip(log[..j]).Some?
    ensures log[j].at - LastTrip(log[..j]).value >= COOLDOWN_SECONDS
    decreases |log|
  {
    hide LastTrip;
    var m := |log| - 1;
    if j < m {
      assert log[..m][..j] == log[..j];
      CooledAt(log[..m], j);
    }
  }

  ghost predicate Chronological(log: seq<Event>, now: real) {
    (forall i, j :: 0 <= i < j < |log| ==> log[i].at <= log[j].at)
    && forall i :: 0 <= i < |log| ==> log[i].at <= now
  }

  lemma {:induction false} TripRemembered(log: seq<Event>, i: nat, j: nat)
    requires i < j <= |log| && log[i].Unanswered? && log[i].tripped
    requires forall k :: i <= k < j ==> log[i].at <= log[k].at
    requires forall k :: i < k < j ==> !log[k].Answered?
    ensures LastTrip(log[..j]).Some? && LastTrip(log[..j]).value >= log[i].at
    decreases j
  {
    assert log[..j][..j - 1] == log[..j - 1];
    if i < j - 1 {
      TripRemembered(log, i, j - 1);
    }
  }

  lemma StepInTime(s: System, step: Step)
    requires Enabled(s, step) && Chronological(s.log, s.now)
    ensures Chronological(Next(s, step).log, Next(s, step).now)
  {
    hide AfterChoice, AfterAnswer, PathFor;
  }

  lemma {:induction false} TimesInOrder(steps: seq<Step>, limit: Option<real>)
    ensures var s := After(steps, limit); s.Some? ==> Chronological(s.value.log, s.value.now)
  {
    hide Next, Prompt, Enabled, Chronological;
    if steps == [] {
      NothingHappened();
    } else {
      var before, step := After(steps[..|steps| - 1], limit), steps[|steps| - 1];
      TimesInOrder(steps[..|steps| - 1], limit);
      if before.Some? && Enabled(before.value, step) {
        StepInTime(before.value, step);
      }
    }
  }

  lemma NothingHappened()
    ensures Chronological([], 0.0)
  {
  }

  // ---------------------------------------------------------------- why calls must be prompt

  lemma Do(steps: seq<Step>, s: System, step: Step, limit: Option<real>) returns (more: seq<Step>, after: System)
    requires After(steps, limit) == Some(s) && Enabled(s, step) && Prompt(s, step, limit)
    ensures more == steps + [step] && after == Next(s, step) && After(more, limit) == Some(after)
  {
    hide Next, Enabled, Prompt;
    more, after := steps + [step], Next(s, step);
    assert more[..|steps|] == steps;
  }

  /**
   If calls may outlast the cooldown by however little, two probes can be in flight: a call started while the
   breaker was closed fails late, and so reopens the breaker while its probe is still out.
   */
  lemma SlowCallsAllowTwoProbes(limit: Option<real>) returns (steps: seq<Step>)
    requires limit.Some? ==> limit.value > COOLDOWN_SECONDS
    ensures After(steps, limit).Some? && !OneProbe(After(steps, limit).value.calls)
  {
    hide OneProbe, After;
    var s: System;
    steps, s := SixCalls(limit);
    steps, s := FiveFailures(steps, s, limit);
    steps, s := Do(steps, s, Wait(30.0), limit);
    steps, s := Do(steps, s, Arrive, limit);
    steps, s := Do(steps, s, Finish(5, NoAnswer), limit);
    steps, s := Do(steps, s, Wait(60.0), limit);
    steps, s := Do(steps, s, Arrive, limit);
    assert s.calls[6] == Call(true, 30.0) && s.calls[7] == Call(true, 60.0);
    TwoProbes(s.calls, 6, 7);
  }

  lemma SixCalls(limit: Option<real>) returns (steps: seq<Step>, s: System)
    ensures After(steps, limit) == Some(s) && s.breaker == INITIAL && s.now == 0.0 && s.nextId == 6
    ensures forall i :: i in s.calls <==> 0 <= i < 6
    ensures forall i :: i in s.calls ==> s.calls[i] == Call(false, 0.0)
  {
    steps, s := [], START;
    assert After(steps, limit) == Some(s);
    hide After;
    while s.nextId < 6
      invariant After(steps, limit) == Some(s) && s.breaker == INITIAL && s.now == 0.0 && s.nextId <= 6
      invariant forall i :: i in s.calls <==> 0 <= i < s.nextId
      invariant forall i :: i in s.calls ==> s.calls[i] == Call(false, 0.0)
      decreases 6 - s.nextId
    {
      steps, s := Do(steps, s, Arrive, limit);
    }
  }

  lemma FiveFailures(before: seq<Step>, calling: System, limit: Option<real>) returns (steps: seq<Step>, s: System)
    requires After(before, limit) == Some(calling) && calling.breaker == INITIAL && calling.now == 0.0
             && calling.nextId == 6
    requires forall i :: i in calling.calls <==> 0 <= i < 6
    requires forall i :: i in calling.calls ==> calling.calls[i] == Call(false, 0.0)
    ensures After(steps, limit) == Some(s) && s.breaker == Breaker(Open, 5, Some(0.0)) && s.now == 0.0 && s.nextId == 6
    ensures forall i :: i in s.calls <==> i == 5
    ensures s.calls[5] == Call(false, 0.0)
  {
    hide After;
    steps, s := before, calling;
    var k := 0;
    while k < 5
      invariant 0 <= k <= 5 && After(steps, limit) == Some(s) && s.now == 0.0 && s.nextId == 6
      invariant s.breaker == if k < 5 then Breaker(Closed, k, None) else Breaker(Open, 5, Some(0.0))
      invariant forall i :: i in s.calls <==> k <= i < 6
      invariant forall i :: i in s.calls ==> s.calls[i] == Call(false, 0.0)
    {
      steps, s := Do(steps, s, Finish(k, NoAnswer), limit);
      k := k + 1;
    }
  }

  lemma TwoProbes(calls: map<nat, Call>, i: nat, j: nat)
    requires i in calls && j in calls && calls[i].probe && calls[j].probe && i != j
    ensures !OneProbe(calls)
  {
  }
}
