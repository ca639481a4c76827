/**
 The scan slots as the source keeps them: three semaphore objects updated in place. Every method is proved
 to be one step of the machine in module ScanSlots.
 */
module ScanSlotPools {
  import opened ScanSlots

  /** `asyncio.Semaphore` by contract. */
  class Semaphore {
    var value: nat
    var waiters: seq<Request>

    constructor (initial: nat)
      ensures value == initial && waiters == []
    {
      value, waiters := initial, [];
    }

    predicate Locked()
      reads this
    {
      value == 0 || waiters != []
    }

    /** True if the permit is had at once; otherwise `r` is queued. */
    method Acquire(r: Request) returns (atOnce: bool)
      modifies this
      ensures atOnce == !old(Locked())
      ensures atOnce ==> value == old(value) - 1 && waiters == old(waiters)
      ensures !atOnce ==> value == old(value) && waiters == old(waiters) + [r]
    {
      atOnce := !Locked();
      if atOnce {
        value := value - 1;
      } else {
        waiters := waiters + [r];
      }
    }

    /** A permit goes to the first waiter, if there is one. */
    method Release() returns (woken: seq<Request>)
      modifies this
      ensures old(waiters) == [] ==> woken == [] && value == old(value) + 1 && waiters == []
      ensures old(waiters) != [] ==> woken == [old(waiters)[0]] && value == old(value) && waiters == old(waiters)[1..]
    {
      if waiters == [] {
        value, woken := value + 1, [];
      } else {
        woken, waiters := [waiters[0]], waiters[1..];
      }
    }
  }

  class ScanSlotPools {
    const interactive: Semaphore
    const bulk: Semaphore
    const shared: Semaphore
    const sizes: (nat, nat, nat)
    /** The local variable `held` of every call between entry and exit. */
    var held: map<Request, PoolName>
    ghost var cls: map<Request, RequestClass>

    ghost predicate Distinct()
      reads this
    {
      interactive != bulk && bulk != shared && interactive != shared
    }

    ghost function View(): State
      reads this, interactive, bulk, shared
    {
      State(Pool(sizes.0, interactive.value, interactive.waiters), Pool(sizes.1, bulk.value, bulk.waiters),
            Pool(sizes.2, shared.value, shared.waiters), held, cls)
    }

    constructor (total: nat)
      ensures Distinct() && fresh(interactive) && fresh(bulk) && fresh(shared)
      ensures View() == Initial(total)
    {
      var split := SplitPoolSizes(total);
      sizes := (split.0, split.1, split.2);
      interactive := new Semaphore(split.0);
      bulk := new Semaphore(split.1);
      shared := new Semaphore(split.2);
      held, cls := map[], map[];
    }

    function Named(p: PoolName): Semaphore
      reads this
    {
      match p
      case InteractivePool => interactive
      case BulkPool => bulk
      case SharedPool => shared
    }

    /** Entry of the context manager, up to the point where the call runs or is suspended. */
    method Enter(r: Request, c: RequestClass) returns (running: bool)
      requires Distinct() && Enabled(View(), Arrives(r, c)) && Inv(View())
      modifies this, interactive, bulk, shared
      ensures Distinct() && View() == Step(old(View()), Arrives(r, c)) && Inv(View())
      ensures running <==> r in held
    {
      ghost var before := View();
      StepKeepsInv(before, Arrives(r, c));
      hide Inv;
      cls := cls[r := c];
      var home, other := Home(c), OtherHome(c);
      var homeSize := if c.Bulk? then sizes.1 else sizes.0;
      var target := if homeSize > 0 then home else SharedPool;
      if !Named(home).Locked() {
        target := home;
      } else if !shared.Locked() {
        target := SharedPool;
      } else if !Named(other).Locked() {
        target := other;
      }
      ArrivesAt(before, r, c, target);
      hide Step, Enabled;
      running := AcquireFrom(target, r);
    }

    method AcquireFrom(target: PoolName, r: Request) returns (running: bool)
      requires Distinct() && r !in held
      modifies this, interactive, bulk, shared
      ensures Distinct() && (running <==> r in held)
      ensures View() == if old(Named(target).Locked()) then Enqueue(old(View()), r, target)
                        else Grant(old(View()), r, target)
    {
      running := Named(target).Acquire(r);
      if running {
        held := held[r := target];
      }
    }

    /** Exit of the context manager: release the held permit; the first waiter of that pool, if any, runs on. */
    method Exit(r: Request)
      requires Distinct() && Enabled(View(), Leaves(r)) && Inv(View())
      modifies this, interactive, bulk, shared
      ensures Distinct() && View() == Step(old(View()), Leaves(r)) && Inv(View())
    {
      StepKeepsInv(View(), Leaves(r));
      hide Inv;
      var p := held[r];
      held := held - {r};
      var woken := Named(p).Release();
      if woken != [] {
        held := held[woken[0] := p];
      }
    }
  }
}
