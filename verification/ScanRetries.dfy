/**
 The retry loop on the scan slots: requests that take slots, give them back, sleep and come again
 (`_inspect_content_with_backoff` and `_acquire_scan_slot` in governance/app/pii.py together).
 */
module ScanRetries {
  import opened ScanSlots

  /** The slots, and the requests in a backoff sleep. */
  datatype System = System(slots: State, asleep: set<Request>)

  datatype Move =
    | Begin(r: Request, c: RequestClass)
    | End(r: Request)
    | BackOff(r: Request)
    | Retry(r: Request)

  ghost predicate Possible(s: System, m: Move) {
    match m
    case Begin(r, c) => r !in s.slots.holder && !s.slots.Waits(r) && r !in s.asleep
    case End(r) => r in s.slots.holder
    case BackOff(r) => r in s.slots.holder
    case Retry(r) => r in s.asleep && r in s.slots.cls && r !in s.slots.holder && !s.slots.Waits(r)
  }

  /** What a move is to the slots: an attempt arrives with the class of its request, and leaves however it ended. */
  function SlotEvent(s: System, m: Move): Event
    requires m.Retry? ==> m.r in s.slots.cls
  {
    match m
    case Begin(r, c) => Arrives(r, c)
    case End(r) => Leaves(r)
    case BackOff(r) => Leaves(r)
    case Retry(r) => Arrives(r, s.slots.cls[r])
  }

  ghost function Next(s: System, m: Move): System
    requires Possible(s, m)
  {
    System(Step(s.slots, SlotEvent(s, m)),
           if m.BackOff? then s.asleep + {m.r} else if m.Retry? then s.asleep - {m.r} else s.asleep)
  }

  /** A request in backoff holds no permit and stands in no queue. */
  ghost predicate SleepsOutside(s: System) {
    forall r :: r in s.asleep ==> r in s.slots.cls && r !in s.slots.holder && !s.slots.Waits(r)
  }

  /** Whoever holds a permit or waits after a step did so before, or has just arrived. */
  lemma {:induction false} QueuesGrowByArrival(s: State, e: Event, r: Request, p: PoolName)
    requires Enabled(s, e) && r in Step(s, e).Get(p).queue
    ensures r in s.Get(p).queue || (e.Arrives? && e.r == r)
  {
  }

  lemma {:induction false} HoldersComeFromQueues(s: State, e: Event, r: Request)
    requires Enabled(s, e) && r in Step(s, e).holder && r !in s.holder
    ensures s.Waits(r) || (e.Arrives? && e.r == r)
  {
    if e.Leaves? {
      var p := s.holder[e.r];
      assert r in s.Get(p).queue;
    }
  }

  lemma {:induction false} OthersStayOutside(s: State, e: Event, r: Request)
    requires Enabled(s, e)
    requires r in s.cls && !s.Waits(r) && r !in s.holder && !(e.Arrives? && e.r == r)
    ensures var t := Step(s, e); r in t.cls && r !in t.holder && !t.Waits(r)
  {
    var t := Step(s, e);
    assert r in t.cls;
    hide Step, Enabled;
    if r in t.holder {
      HoldersComeFromQueues(s, e, r);
    }
    forall p: PoolName
      ensures r !in t.Get(p).queue
    {
      if r in t.Get(p).queue {
        QueuesGrowByArrival(s, e, r, p);
      }
    }
  }

  lemma {:induction false} LeaverIsOutside(s: State, r: Request)
    requires Inv(s) && r in s.holder
    ensures var t := Step(s, Leaves(r)); r in t.cls && r !in t.holder && !t.Waits(r)
  {
    var t, p := Step(s, Leaves(r)), s.holder[r];
    assert PoolInv(s, p);
    forall q: PoolName
      ensures r !in t.Get(q).queue
    {
      assert PoolInv(s, q);
      assert r !in s.Get(q).queue;
    }
  }

  lemma {:induction false} MoveKeepsOutside(s: System, m: Move)
    requires Inv(s.slots) && SleepsOutside(s) && Possible(s, m)
    ensures Enabled(s.slots, SlotEvent(s, m)) && Inv(Next(s, m).slots) && SleepsOutside(Next(s, m))
  {
    hide Inv, Step;
    StepKeepsInv(s.slots, SlotEvent(s, m));
    var t := Next(s, m);
    forall r | r in t.asleep
      ensures r in t.slots.cls && r !in t.slots.holder && !t.slots.Waits(r)
    {
      if m.BackOff? && m.r == r {
        LeaverIsOutside(s.slots, r);
      } else {
        OthersStayOutside(s.slots, SlotEvent(s, m), r);
      }
    }
  }

  // ---------------------------------------------------------------- whole runs

  ghost predicate IsPlay(s: System, ms: seq<Move>)
    decreases |ms|
  {
    ms != [] ==> Possible(s, ms[0]) && IsPlay(Next(s, ms[0]), ms[1..])
  }

  ghost function Play(s: System, ms: seq<Move>): System
    requires IsPlay(s, ms)
    decreases |ms|
  {
    if ms == [] then s else Play(Next(s, ms[0]), ms[1..])
  }

  /** The run of the slots that a play is. */
  ghost function SlotEvents(s: System, ms: seq<Move>): seq<Event>
    requires IsPlay(s, ms)
    decreases |ms|
  {
    if ms == [] then [] else [SlotEvent(s, ms[0])] + SlotEvents(Next(s, ms[0]), ms[1..])
  }

  /**
   Along every run of requests that retry, those in backoff hold no permit and stand in no queue; and the slots go
   through a run of their own, so that all that holds of the slots holds here.
   */
  lemma {:induction false} PlayKeepsOutside(s: System, ms: seq<Move>)
    requires Inv(s.slots) && SleepsOutside(s) && IsPlay(s, ms)
    ensures Inv(Play(s, ms).slots) && SleepsOutside(Play(s, ms))
    ensures IsRun(s.slots, SlotEvents(s, ms)) && Run(s.slots, SlotEvents(s, ms)) == Play(s, ms).slots
    decreases |ms|
  {
    hide Inv, Step, Enabled, SleepsOutside;
    if ms == [] {
    } else {
      MoveKeepsOutside(s, ms[0]);
      PlayKeepsOutside(Next(s, ms[0]), ms[1..]);
      var rest := SlotEvents(Next(s, ms[0]), ms[1..]);
      assert ([SlotEvent(s, ms[0])] + rest)[1..] == rest;
    }
  }

  /**
   From the start on: nobody in backoff holds a permit or waits, and whoever waits can rely on one who does not
   sleep.
   */
  lemma {:induction false} BackoffHoldsNothing(total: nat, ms: seq<Move>)
    requires IsPlay(System(Initial(total), {}), ms)
    ensures var s := Play(System(Initial(total), {}), ms);
            (forall r :: r in s.asleep ==> r !in s.slots.holder && !s.slots.Waits(r))
            && forall r :: s.slots.Waits(r) && total > 0 ==> exists h :: h in s.slots.holder && h !in s.asleep
  {
    hide Inv, IsPlay, Play, Initial, IsRun, Run;
    var start := System(Initial(total), {});
    InitialInv(total);
    PlayKeepsOutside(start, ms);
    var s := Play(start, ms);
    RunKeepsInv(Initial(total), SlotEvents(start, ms));
    forall r | s.slots.Waits(r) && total > 0
      ensures exists h :: h in s.slots.holder && h !in s.asleep
    {
      SomeoneCanLeave(s.slots, r);
      var h :| h in s.slots.holder;
    }
  }

  /** A sleeper can always come back, and then runs at once if any permit is free. */
  lemma {:induction false} SleeperCanRetry(s: System, r: Request)
    requires Inv(s.slots) && SleepsOutside(s) && r in s.asleep
    ensures Possible(s, Retry(r))
    ensures |s.slots.holder| < s.slots.Capacity() ==> r in Next(s, Retry(r)).slots.holder
  {
    hide Inv, Step;
    PermitsAddUp(s.slots);
    WaitsIffAllPermitsHeld(s.slots, r, s.slots.cls[r]);
  }
}
