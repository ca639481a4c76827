/**
 Retrying one inspection call (`_inspect_content_with_backoff`). Time is real-valued; how long an attempt
 waits for its slot, how long it runs and how much longer than asked a sleep lasts is up to the world.
 */
module RetryLoop {
  type Duration = d: real | d >= 0.0 witness 0.0

  datatype Outcome = Answered | Retryable | Fatal

  datatype Attempt = Attempt(waited: Duration, ran: Duration, outcome: Outcome, overslept: Duration)

  /** What the call does to the scan slots, its inspections, and its sleeps. */
  datatype Action = Acquire | Inspect(outcome: Outcome) | Release | Sleep(seconds: real)

  /** The sleep after attempt `k` (counted from zero). */
  function Backoff(k: nat): real {
    if k == 0 then 0.2 else if k == 1 then 0.4 else if k == 2 then 0.8 else 1.0
  }

  function TotalBackoff(k: nat): real {
    if k == 0 then 0.0 else TotalBackoff(k - 1) + Backoff(k - 1)
  }

  lemma {:induction false} TotalBackoffGrows(k: nat)
    ensures TotalBackoff(k) >= k as real - 1.6
    ensures k >= 3 ==> TotalBackoff(k) == k as real - 1.6
  {
    if k > 0 {
      TotalBackoffGrows(k - 1);
    }
  }

  // ---------------------------------------------------------------- the trace of a call

  /** Attempt `i` takes a slot, inspects in it and gives it back. */
  ghost predicate AttemptAt(actions: seq<Action>, i: nat, outcome: Outcome) {
    4 * i + 2 < |actions| && actions[4 * i] == Acquire && actions[4 * i + 1] == Inspect(outcome)
    && actions[4 * i + 2] == Release
  }

  /** After attempt `i` there is a sleep of 0.2, 0.4 or 0.8 seconds, or of one second from the fourth on. */
  ghost predicate SleepAt(actions: seq<Action>, i: nat) {
    4 * i + 3 < |actions| && actions[4 * i + 3] == Sleep(if i < 3 then [0.2, 0.4, 0.8][i] else 1.0)
  }

  /** One attempt after the other, with the outcomes that the world has for them, and a sleep between any two. */
  ghost predicate IsTrace(actions: seq<Action>, attempts: nat, world: nat -> Attempt) {
    && attempts >= 1 && |actions| == 4 * attempts - 1
    && (forall i: nat :: i < attempts ==> AttemptAt(actions, i, world(i).outcome))
    && (forall i: nat :: i < attempts - 1 ==> SleepAt(actions, i))
  }

  /** When attempt `i` ends. */
  ghost function EndOf(world: nat -> Attempt, start: real, i: nat): real {
    world(i).waited + world(i).ran
    + if i == 0 then start else EndOf(world, start, i - 1) + Backoff(i - 1) + world(i - 1).overslept
  }

  function Min(a: real, b: real): real { if a < b then a else b }

  /**
   Attempts are made up to the first that does not fail retryably or ends past the deadline, which is fewer than
   `timeout + 3.6`.
   */
  method InspectWithBackoff(start: real, timeout: real, world: nat -> Attempt)
    returns (outcome: Outcome, attempts: nat, finished: real, actions: seq<Action>)
    ensures attempts >= 1 && outcome == world(attempts - 1).outcome && finished == EndOf(world, start, attempts - 1)
    ensures forall i: nat :: i < attempts - 1 ==>
              world(i).outcome == Retryable && EndOf(world, start, i) < start + timeout
    ensures outcome == Retryable ==> finished >= start + timeout
    ensures timeout >= 0.0 ==> attempts as real < timeout + 3.6
    ensures IsTrace(actions, attempts, world)
  {
    hide IsTrace, Begun, EndOf, TotalBackoff;
    NothingDone(world, start);
    var deadline := start + timeout;
    var backoff, now := 0.2, start;
    attempts, actions := 0, [];
    while true
      invariant backoff == Backoff(attempts) && now >= start + TotalBackoff(attempts)
      invariant attempts > 0 ==> TotalBackoff(attempts - 1) < timeout
      invariant forall i: nat :: i < attempts ==> world(i).outcome == Retryable && EndOf(world, start, i) < deadline
      invariant now + world(attempts).waited + world(attempts).ran == EndOf(world, start, attempts)
      invariant Begun(actions, attempts, world)
      decreases ((deadline - now) * 5.0).Floor
    {
      TotalBackoffGrows(attempts);
      if attempts > 0 { TotalBackoffGrows(attempts - 1); }
      NextEnds(world, start, attempts);
      var attempt := world(attempts);
      ghost var before := actions;
      actions := actions + [Acquire];
      now := now + attempt.waited + attempt.ran;
      actions := actions + [Inspect(attempt.outcome)];
      actions := actions + [Release];
      attempts := attempts + 1;
      OneMoreAttempt(before, attempts, world, actions);
      if attempt.outcome != Retryable || now >= deadline {
        return attempt.outcome, attempts, now, actions;
      }
      OneMoreSleep(actions, attempts, world, backoff);
      actions := actions + [Sleep(backoff)];
      now := now + backoff + attempt.overslept;
      backoff := Min(backoff * 2.0, 1.0);
    }
  }

  lemma NextEnds(world: nat -> Attempt, start: real, i: nat)
    ensures EndOf(world, start, i + 1)
         == EndOf(world, start, i) + Backoff(i) + world(i).overslept + world(i + 1).waited + world(i + 1).ran
    ensures TotalBackoff(i + 1) == TotalBackoff(i) + Backoff(i)
  {
  }

  lemma NothingDone(world: nat -> Attempt, start: real)
    ensures Begun([], 0, world) && TotalBackoff(0) == 0.0
    ensures EndOf(world, start, 0) == start + world(0).waited + world(0).ran
  {
  }

  /** Attempts have been made, and the sleep after the last of them is over. */
  ghost predicate Begun(actions: seq<Action>, attempts: nat, world: nat -> Attempt) {
    && |actions| == 4 * attempts
    && forall i: nat :: i < attempts ==> AttemptAt(actions, i, world(i).outcome) && SleepAt(actions, i)
  }

  lemma OneMoreAttempt(before: seq<Action>, attempts: nat, world: nat -> Attempt, actions: seq<Action>)
    requires attempts >= 1 && Begun(before, attempts - 1, world)
    requires actions == before + [Acquire] + [Inspect(world(attempts - 1).outcome)] + [Release]
    ensures IsTrace(actions, attempts, world)
  {
    forall i: nat | i < attempts - 1 ensures AttemptAt(actions, i, world(i).outcome) && SleepAt(actions, i) {
      assert AttemptAt(before, i, world(i).outcome) && SleepAt(before, i);
    }
  }

  lemma OneMoreSleep(before: seq<Action>, attempts: nat, world: nat -> Attempt, seconds: real)
    requires IsTrace(before, attempts, world) && seconds == Backoff(attempts - 1)
    ensures Begun(before + [Sleep(seconds)], attempts, world)
  {
    var actions := before + [Sleep(seconds)];
    forall i: nat | i < attempts ensures AttemptAt(actions, i, world(i).outcome) && SleepAt(actions, i) {
      assert AttemptAt(before, i, world(i).outcome);
      if i < attempts - 1 {
        assert SleepAt(before, i);
      }
    }
  }

  // ---------------------------------------------------------------- the slot along a trace

  /** Permits held after `actions`. */
  function PermitsHeld(actions: seq<Action>): int {
    if actions == [] then 0
    else
      PermitsHeld(actions[..|actions| - 1])
      + match actions[|actions| - 1] case Acquire => 1 case Release => -1 case _ => 0
  }

  /** How many of the actions are `action`. */
  function Count(actions: seq<Action>, action: Action): nat {
    if actions == [] then 0
    else Count(actions[..|actions| - 1], action) + if actions[|actions| - 1] == action then 1 else 0
  }

  lemma {:induction false} ActionAt(actions: seq<Action>, attempts: nat, world: nat -> Attempt, i: nat)
    requires IsTrace(actions, attempts, world) && i < |actions|
    ensures match i % 4
            case 0 => actions[i] == Acquire
            case 1 => actions[i] == Inspect(world(i / 4).outcome)
            case 2 => actions[i] == Release
            case _ => actions[i].Sleep?
  {
    assert AttemptAt(actions, i / 4, world(i / 4).outcome);
    if i % 4 == 3 {
      assert SleepAt(actions, i / 4);
    }
  }

  lemma HeldAfter(before: seq<Action>, action: Action)
    ensures PermitsHeld(before + [action])
         == PermitsHeld(before) + match action case Acquire => 1 case Release => -1 case _ => 0
    ensures Count(before + [action], Acquire) == Count(before, Acquire) + if action == Acquire then 1 else 0
    ensures Count(before + [action], Release) == Count(before, Release) + if action == Release then 1 else 0
  {
    assert (before + [action])[..|before|] == before;
  }

  lemma {:induction false} HeldAlong(actions: seq<Action>, attempts: nat, world: nat -> Attempt, i: nat)
    requires IsTrace(actions, attempts, world) && i <= |actions|
    ensures PermitsHeld(actions[..i]) == if i % 4 == 1 || i % 4 == 2 then 1 else 0
    ensures Count(actions[..i], Acquire) == (i + 3) / 4 && Count(actions[..i], Release) == (i + 1) / 4
  {
    hide IsTrace, PermitsHeld, Count;
    NothingHeld();
    if i == 0 {
      assert actions[..i] == [];
    } else {
      var before, action := actions[..i - 1], actions[i - 1];
      HeldAlong(actions, attempts, world, i - 1);
      ActionAt(actions, attempts, world, i - 1);
      assert actions[..i] == before + [action];
      HeldAfter(before, action);
      NextQuarter(i - 1);
    }
  }

  lemma NothingHeld()
    ensures PermitsHeld([]) == 0 && Count([], Acquire) == Count([], Release) == 0
  {
  }

  lemma NextQuarter(i: nat)
    ensures (i + 4) / 4 == (i + 3) / 4 + (if i % 4 == 0 then 1 else 0)
    ensures (i + 2) / 4 == (i + 1) / 4 + (if i % 4 == 2 then 1 else 0)
    ensures (i + 1) % 4 == if i % 4 == 3 then 0 else i % 4 + 1
  {
  }

  /** Exactly one permit is held at every inspection, none at any sleep, and never more than one. */
  lemma {:induction false} PermitOnlyToInspect(actions: seq<Action>, attempts: nat, world: nat -> Attempt, i: nat)
    requires IsTrace(actions, attempts, world) && i < |actions|
    ensures 0 <= PermitsHeld(actions[..i]) <= 1
    ensures actions[i].Inspect? ==> PermitsHeld(actions[..i]) == 1
    ensures actions[i].Sleep? ==> PermitsHeld(actions[..i]) == 0
  {
    hide IsTrace;
    HeldAlong(actions, attempts, world, i);
    ActionAt(actions, attempts, world, i);
  }

  /** As many permits are taken as there are attempts, and all of them are given back. */
  lemma {:induction false} PermitsBalance(actions: seq<Action>, attempts: nat, world: nat -> Attempt)
    requires IsTrace(actions, attempts, world)
    ensures PermitsHeld(actions) == 0
    ensures Count(actions, Acquire) == Count(actions, Release) == attempts
  {
    HeldAlong(actions, attempts, world, |actions|);
    assert actions[..|actions|] == actions;
  }
}
