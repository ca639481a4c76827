/**
 The class-aware scan slots of governance/app/pii.py as a step machine: any number of requests arrive and
 leave in any order. `asyncio.Semaphore` is taken by its contract: a counter and a queue in arrival order,
 where a release hands the permit to the first waiter and `locked()` means no free permit or a waiter.
 */
module ScanSlots {
  type Request = nat

  datatype RequestClass = Interactive | Bulk

  datatype PoolName = InteractivePool | BulkPool | SharedPool

  function Home(c: RequestClass): PoolName { if c.Bulk? then BulkPool else InteractivePool }

  function OtherHome(c: RequestClass): PoolName { if c.Bulk? then InteractivePool else BulkPool }

  datatype Pool = Pool(size: nat, free: nat, queue: seq<Request>) {
    predicate Locked() { free == 0 || queue != [] }
  }

  /** `holder` says which pool's permit a running request holds; `cls` the class each request came with. */
  datatype State = State(interactive: Pool, bulk: Pool, shared: Pool, holder: map<Request, PoolName>,
                         cls: map<Request, RequestClass>)
  {
    function Get(p: PoolName): Pool {
      match p
      case InteractivePool => interactive
      case BulkPool => bulk
      case SharedPool => shared
    }

    function Put(p: PoolName, pool: Pool): (s: State)
      ensures forall q :: s.Get(q) == if q == p then pool else Get(q)
      ensures s.holder == holder && s.cls == cls
    {
      match p
      case InteractivePool => this.(interactive := pool)
      case BulkPool => this.(bulk := pool)
      case SharedPool => this.(shared := pool)
    }

    function Capacity(): nat { interactive.size + bulk.size + shared.size }

    ghost predicate Waits(r: Request) {
      exists p: PoolName :: r in Get(p).queue
    }
  }

  // ---------------------------------------------------------------- pool sizes

  /** A quarter of the slots, and at least one from two slots on. */
  function HomeSize(total: int): int {
    if total <= 1 then 0 else if total < 8 then 1 else total / 4
  }

  /**
   (interactive, bulk, shared). The sizes always add up to `total`; twice a home pool always fits, so the
   source's correction loop never turns.
   */
  function SplitPoolSizes(total: int): (sizes: (int, int, int))
    ensures sizes.0 + sizes.1 + sizes.2 == total && sizes.0 == sizes.1
    ensures total >= 0 ==> sizes.2 >= 0
    ensures total >= 2 <==> sizes.0 >= 1
    ensures total >= 4 ==> 4 * sizes.0 <= total < 4 * sizes.0 + 4
    ensures 2 <= total < 4 ==> sizes.0 == 1
    ensures total < 2 ==> sizes == (0, 0, total)
  {
    (HomeSize(total), HomeSize(total), total - 2 * HomeSize(total))
  }

  function Initial(total: nat): (s: State)
    ensures s.Capacity() == total
  {
    var (i, b, h) := SplitPoolSizes(total);
    State(Pool(i, i, []), Pool(b, b, []), Pool(h, h, []), map[], map[])
  }

  // ---------------------------------------------------------------- steps

  datatype Event =
    | Arrives(r: Request, c: RequestClass)
    | Leaves(r: Request)

  function Grant(s: State, r: Request, p: PoolName): State
    requires s.Get(p).free > 0
  {
    s.Put(p, s.Get(p).(free := s.Get(p).free - 1)).(holder := s.holder[r := p])
  }

  function Enqueue(s: State, r: Request, p: PoolName): State {
    s.Put(p, s.Get(p).(queue := s.Get(p).queue + [r]))
  }

  /** Own home pool, else the shared pool, else an idle foreign home pool, else queue on the own home pool. */
  function Arrive(s: State, r: Request, c: RequestClass): State {
    var t := s.(cls := s.cls[r := c]);
    if !s.Get(Home(c)).Locked() then Grant(t, r, Home(c))
    else if !s.shared.Locked() then Grant(t, r, SharedPool)
    else if !s.Get(OtherHome(c)).Locked() then Grant(t, r, OtherHome(c))
    else Enqueue(t, r, if s.Get(Home(c)).size > 0 then Home(c) else SharedPool)
  }

  function Leave(s: State, r: Request): State
    requires r in s.holder
  {
    var p := s.holder[r];
    var pool, rest := s.Get(p), s.holder - {r};
    if pool.queue == [] then s.Put(p, pool.(free := pool.free + 1)).(holder := rest)
    else s.Put(p, pool.(queue := pool.queue[1..])).(holder := rest[pool.queue[0] := p])
  }

  ghost predicate Enabled(s: State, e: Event) {
    match e
    case Arrives(r, c) => r !in s.holder && !s.Waits(r)
    case Leaves(r) => r in s.holder
  }

  ghost function Step(s: State, e: Event): State
    requires Enabled(s, e)
  {
    match e
    case Arrives(r, c) => Arrive(s, r, c)
    case Leaves(r) => Leave(s, r)
  }

  /** An arrival tries for one pool only: it takes a permit there or queues there. */
  lemma ArrivesAt(s: State, r: Request, c: RequestClass, target: PoolName)
    requires Enabled(s, Arrives(r, c))
    requires target == if !s.Get(Home(c)).Locked() then Home(c)
                       else if !s.shared.Locked() then SharedPool
                       else if !s.Get(OtherHome(c)).Locked() then OtherHome(c)
                       else if s.Get(Home(c)).size > 0 then Home(c) else SharedPool
    ensures var t := s.(cls := s.cls[r := c]);
            Step(s, Arrives(r, c)) == if s.Get(target).Locked() then Enqueue(t, r, target) else Grant(t, r, target)
  {
  }

  ghost predicate IsRun(s: State, es: seq<Event>)
    decreases |es|
  {
    es != [] ==> Enabled(s, es[0]) && IsRun(Step(s, es[0]), es[1..])
  }

  ghost function Run(s: State, es: seq<Event>): State
    requires IsRun(s, es)
    decreases |es|
  {
    if es == [] then s else Run(Step(s, es[0]), es[1..])
  }

  lemma {:induction false} RunConcat(s: State, a: seq<Event>, b: seq<Event>)
    ensures IsRun(s, a + b) <==> IsRun(s, a) && IsRun(Run(s, a), b)
    ensures IsRun(s, a + b) ==> Run(s, a + b) == Run(Run(s, a), b)
    decreases |a|
  {
    hide Step, Enabled;
    if a == [] {
      assert a + b == b;
    } else {
      assert (a + b)[1..] == a[1..] + b;
      if Enabled(s, a[0]) {
        RunConcat(Step(s, a[0]), a[1..], b);
      }
    }
  }

  // ---------------------------------------------------------------- what every step keeps

  ghost function Holders(s: State, p: PoolName): set<Request> {
    set r | r in s.holder && s.holder[r] == p
  }

  ghost predicate Distinct(queue: seq<Request>) {
    forall i, j :: 0 <= i < j < |queue| ==> queue[i] != queue[j]
  }

  ghost predicate PoolInv(s: State, p: PoolName) {
    var pool := s.Get(p);
    && pool.free + |Holders(s, p)| == pool.size
    && (pool.queue != [] ==> pool.free == 0 && (p.SharedPool? || pool.size > 0))
    && Distinct(pool.queue)
    && (forall r :: r in pool.queue ==> r !in s.holder && r in s.cls)
    && (forall r :: r in pool.queue ==> p.SharedPool? || p == Home(s.cls[r]))
  }

  /** Nobody waits in two queues. */
  ghost predicate QueuesApart(s: State) {
    && (forall r :: r in s.interactive.queue ==> r !in s.bulk.queue && r !in s.shared.queue)
    && (forall r :: r in s.bulk.queue ==> r !in s.shared.queue)
  }

  ghost predicate Inv(s: State) {
    && (forall p {:trigger PoolInv(s, p)} :: PoolInv(s, p))
    && QueuesApart(s)
    && (forall r :: r in s.holder ==> r in s.cls)
    && s.interactive.size == s.bulk.size
    && (s.shared.queue != [] ==> s.bulk.size == 0)
  }

  lemma InitialInv(total: nat)
    ensures Inv(Initial(total))
  {
    var s := Initial(total);
    forall p ensures PoolInv(s, p) {
      assert Holders(s, p) == {};
    }
  }

  lemma GrantKeepsInv(s: State, r: Request, p: PoolName)
    requires Inv(s) && r !in s.holder && !s.Waits(r) && r in s.cls && s.Get(p).free > 0
    ensures Inv(Grant(s, r, p))
  {
    hide PoolInv;
    forall q ensures PoolInv(Grant(s, r, p), q) {
      assert PoolInv(s, q);
      GrantKeepsPool(s, r, p, q);
    }
  }

  lemma GrantHolders(s: State, r: Request, p: PoolName, q: PoolName)
    requires r !in s.holder && s.Get(p).free > 0
    ensures Holders(Grant(s, r, p), q) == if q == p then Holders(s, q) + {r} else Holders(s, q)
    ensures r !in Holders(s, q)
  {
  }

  lemma GrantKeepsPool(s: State, r: Request, p: PoolName, q: PoolName)
    requires PoolInv(s, q) && r !in s.holder && r !in s.Get(q).queue && s.Get(p).free > 0
    ensures PoolInv(Grant(s, r, p), q)
  {
    hide Distinct, Holders;
    GrantHolders(s, r, p, q);
    if q == p {
      assert |Holders(s, q) + {r}| == |Holders(s, q)| + 1;
    }
  }

  lemma EnqueueKeepsInv(s: State, r: Request, p: PoolName)
    requires Inv(s) && r !in s.holder && !s.Waits(r) && r in s.cls && s.Get(p).free == 0
    requires if p.SharedPool? then s.bulk.size == 0 else s.Get(p).size > 0
    requires p.SharedPool? || p == Home(s.cls[r])
    ensures Inv(Enqueue(s, r, p))
  {
    var t := Enqueue(s, r, p);
    forall q ensures PoolInv(t, q) {
      assert PoolInv(s, q);
      assert Holders(t, q) == Holders(s, q);
      assert r !in s.Get(q).queue;
    }
    assert r !in s.Get(InteractivePool).queue && r !in s.Get(BulkPool).queue && r !in s.Get(SharedPool).queue;
  }

  lemma ReclassKeepsInv(s: State, r: Request, c: RequestClass)
    requires Inv(s) && r !in s.holder && !s.Waits(r)
    ensures Inv(s.(cls := s.cls[r := c]))
  {
    var t := s.(cls := s.cls[r := c]);
    forall q ensures PoolInv(t, q) {
      assert PoolInv(s, q);
      assert Holders(t, q) == Holders(s, q);
      assert r !in s.Get(q).queue;
      assert t.Get(q) == s.Get(q);
    }
    forall q ensures t.Get(q) == s.Get(q) {}
  }

  lemma FreeKeepsInv(s: State, r: Request)
    requires Inv(s) && r in s.holder && s.Get(s.holder[r]).queue == []
    ensures Inv(Leave(s, r))
  {
    var p, t := s.holder[r], Leave(s, r);
    forall q ensures PoolInv(t, q) && t.Get(q).queue == s.Get(q).queue {
      assert PoolInv(s, q);
      assert Holders(t, q) == if q == p then Holders(s, q) - {r} else Holders(s, q);
    }
  }

  lemma HandOverHolders(s: State, r: Request, q: PoolName)
    requires r in s.holder && s.Get(s.holder[r]).queue != [] && s.Get(s.holder[r]).queue[0] !in s.holder
    ensures var p := s.holder[r];
            Holders(Leave(s, r), q)
            == if q == p then Holders(s, q) - {r} + {s.Get(p).queue[0]} else Holders(s, q)
    ensures s.Get(s.holder[r]).queue[0] !in Holders(s, q) && (q == s.holder[r] ==> r in Holders(s, q))
  {
  }

  lemma HandOverKeepsPool(s: State, r: Request, q: PoolName)
    requires r in s.holder && s.Get(s.holder[r]).queue != [] && PoolInv(s, s.holder[r]) && PoolInv(s, q)
    requires q != s.holder[r] ==> s.Get(s.holder[r]).queue[0] !in s.Get(q).queue
    ensures PoolInv(Leave(s, r), q)
  {
    hide Distinct, Holders;
    var p := s.holder[r];
    var h := s.Get(p).queue[0];
    assert h in s.Get(p).queue;
    HandOverHolders(s, r, q);
    if q == p {
      assert |Holders(s, p) - {r} + {h}| == |Holders(s, p)|;
      TailOfQueue(s.Get(p).queue);
    }
  }

  lemma TailOfQueue(queue: seq<Request>)
    requires queue != [] && Distinct(queue)
    ensures queue[0] !in queue[1..] && Distinct(queue[1..])
    ensures forall x :: x in queue[1..] ==> x in queue
  {
    forall i, j | 0 <= i < j < |queue| - 1 ensures queue[1..][i] != queue[1..][j] {
      assert queue[i + 1] != queue[j + 1];
    }
  }

  lemma HandOverKeepsInv(s: State, r: Request)
    requires Inv(s) && r in s.holder && s.Get(s.holder[r]).queue != []
    ensures Inv(Leave(s, r))
  {
    hide PoolInv;
    var p, t := s.holder[r], Leave(s, r);
    var queue := s.Get(p).queue;
    forall q ensures PoolInv(t, q) {
      assert PoolInv(s, p) && PoolInv(s, q);
      assert queue[0] in queue;
      HandOverKeepsPool(s, r, q);
    }
    HeadIsClassed(s, p);
    assert forall x :: x in queue[1..] ==> x in queue;
  }

  lemma HeadIsClassed(s: State, p: PoolName)
    requires PoolInv(s, p) && s.Get(p).queue != []
    ensures s.Get(p).queue[0] in s.cls
  {
    assert s.Get(p).queue[0] in s.Get(p).queue;
  }

  lemma LockedIffNoneFree(s: State)
    requires Inv(s)
    ensures forall p :: s.Get(p).Locked() <==> s.Get(p).free == 0
  {
    forall p ensures s.Get(p).Locked() <==> s.Get(p).free == 0 {
      assert PoolInv(s, p);
    }
  }

  lemma StepKeepsInv(s: State, e: Event)
    requires Inv(s) && Enabled(s, e)
    ensures Inv(Step(s, e)) && Step(s, e).Capacity() == s.Capacity()
  {
    match e
    case Leaves(r) => if s.Get(s.holder[r]).queue == [] { FreeKeepsInv(s, r); } else { HandOverKeepsInv(s, r); }
    case Arrives(r, c) =>
      var t := s.(cls := s.cls[r := c]);
      ReclassKeepsInv(s, r, c);
      LockedIffNoneFree(s);
      assert forall p :: t.Get(p) == s.Get(p);
      if !s.Get(Home(c)).Locked() {
        GrantKeepsInv(t, r, Home(c));
      } else if !s.shared.Locked() {
        GrantKeepsInv(t, r, SharedPool);
      } else if !s.Get(OtherHome(c)).Locked() {
        GrantKeepsInv(t, r, OtherHome(c));
      } else {
        EnqueueKeepsInv(t, r, if s.Get(Home(c)).size > 0 then Home(c) else SharedPool);
      }
  }

  /** Every reachable state keeps the invariant, and no permit is ever made or lost. */
  lemma {:induction false} RunKeepsInv(s: State, es: seq<Event>)
    requires Inv(s) && IsRun(s, es)
    ensures Inv(Run(s, es)) && Run(s, es).Capacity() == s.Capacity()
    decreases |es|
  {
    hide Step, Enabled, Inv;
    if es != [] {
      StepKeepsInv(s, es[0]);
      RunKeepsInv(Step(s, es[0]), es[1..]);
    }
  }

  /** Permits out plus permits free is all there is: at most `Capacity()` scans run at once. */
  lemma PermitsAddUp(s: State)
    requires Inv(s)
    ensures |s.holder| + s.interactive.free + s.bulk.free + s.shared.free == s.Capacity()
  {
    var i, b, h := Holders(s, InteractivePool), Holders(s, BulkPool), Holders(s, SharedPool);
    assert PoolInv(s, InteractivePool) && PoolInv(s, BulkPool) && PoolInv(s, SharedPool);
    assert s.holder.Keys == i + b + h;
    assert |i + b| == |i| + |b| && |(i + b) + h| == |i + b| + |h|;
    assert |s.holder| == |s.holder.Keys|;
  }

  /**
   An arriving request is made to wait exactly when every permit of all three pools is held, whatever the
   classes are: one class alone can use all of them.
   */
  lemma WaitsIffAllPermitsHeld(s: State, r: Request, c: RequestClass)
    requires Inv(s) && Enabled(s, Arrives(r, c))
    ensures r !in Step(s, Arrives(r, c)).holder <==> |s.holder| == s.Capacity()
    ensures r in Step(s, Arrives(r, c)).holder || Step(s, Arrives(r, c)).Waits(r)
  {
    PermitsAddUp(s);
    LockedIffNoneFree(s);
    assert s.shared == s.Get(SharedPool);
    assert s.Get(Home(c)).free + s.Get(OtherHome(c)).free == s.interactive.free + s.bulk.free;
    var p := if s.Get(Home(c)).size > 0 then Home(c) else SharedPool;
    if |s.holder| == s.Capacity() {
      assert r in Step(s, Arrives(r, c)).Get(p).queue;
    }
  }

  // ---------------------------------------------------------------- waiting

  /** How many permits of pool `p` are released along a run. */
  ghost function Releases(s: State, es: seq<Event>, p: PoolName): nat
    requires IsRun(s, es)
    decreases |es|
  {
    if es == [] then 0
    else (if IsRelease(s, es[0], p) then 1 else 0) + Releases(Step(s, es[0]), es[1..], p)
  }

  ghost predicate IsRelease(s: State, e: Event, p: PoolName) {
    e.Leaves? && e.r in s.holder && s.holder[e.r] == p
  }

  lemma StepMovesQueue(s: State, e: Event, p: PoolName)
    requires Inv(s) && Enabled(s, e) && s.Get(p).queue != []
    ensures IsRelease(s, e, p) ==> Step(s, e).Get(p).queue == s.Get(p).queue[1..]
    ensures IsRelease(s, e, p) ==> s.Get(p).queue[0] in Step(s, e).holder
                                   && Step(s, e).holder[s.Get(p).queue[0]] == p
    ensures !IsRelease(s, e, p) ==> s.Get(p).queue <= Step(s, e).Get(p).queue
  {
  }

  /** After `n` further releases of its pool, the waiter at place `k` is at place `k - n`, whatever else happens. */
  lemma {:induction false} WaiterMovesUp(s: State, es: seq<Event>, p: PoolName, k: nat)
    requires Inv(s) && IsRun(s, es) && k < |s.Get(p).queue| && Releases(s, es, p) <= k
    ensures |Run(s, es).Get(p).queue| > k - Releases(s, es, p)
    ensures Run(s, es).Get(p).queue[k - Releases(s, es, p)] == s.Get(p).queue[k]
    decreases |es|
  {
    hide Inv, Enabled, Step, IsRelease;
    if es != [] {
      StepKeepsInv(s, es[0]);
      StepMovesQueue(s, es[0], p);
      var k' := if IsRelease(s, es[0], p) then k - 1 else k;
      WaiterMovesUp(Step(s, es[0]), es[1..], p, k');
    }
  }

  /**
   The waiter at place `k` (counted from zero) is admitted by exactly the release number `k + 1` of its pool:
   up to then it waits, and with that release it holds the permit.
   */
  lemma WaiterAdmittedInTurn(s: State, es: seq<Event>, e: Event, p: PoolName, k: nat)
    requires Inv(s) && IsRun(s, es) && Releases(s, es, p) == k < |s.Get(p).queue|
    requires Enabled(Run(s, es), e) && IsRelease(Run(s, es), e, p)
    ensures Run(s, es).Waits(s.Get(p).queue[k])
    ensures s.Get(p).queue[k] in Step(Run(s, es), e).holder
    ensures Step(Run(s, es), e).holder[s.Get(p).queue[k]] == p
  {
    hide Inv, Enabled, Step, IsRelease;
    RunKeepsInv(s, es);
    WaiterMovesUp(s, es, p, k);
    StepMovesQueue(Run(s, es), e, p);
    assert s.Get(p).queue[k] in Run(s, es).Get(p).queue;
  }

  /** Where requests of the interactive class queue. */
  function QueueOf(total: nat): PoolName {
    if total >= 2 then InteractivePool else SharedPool
  }

  /** Those who have to wait when the first `n` requests have arrived. */
  function Line(total: nat, n: nat): (line: seq<Request>)
    ensures |line| == if n <= total then 0 else n - total
    ensures forall j :: 0 <= j < |line| ==> line[j] == total + j
  {
    if n <= total then [] else seq(n - total, j => total + j)
  }

  /** `n` interactive requests have arrived and none has left. */
  ghost predicate AllArrived(s: State, total: nat, n: nat) {
    s.Capacity() == total
    && (forall r :: r in s.holder ==> r < n)
    && |s.holder| == (if n < total then n else total)
    && s.bulk.queue == []
    && s.interactive.queue == (if total >= 2 then Line(total, n) else [])
    && s.shared.queue == (if total >= 2 then [] else Line(total, n))
    && (s.interactive.size > 0 <==> total >= 2)
  }

  lemma {:induction false} ArrivalIsEnabled(s: State, total: nat, n: nat)
    requires AllArrived(s, total, n)
    ensures Enabled(s, Arrives(n, Interactive))
  {
    forall p: PoolName
      ensures n !in s.Get(p).queue
    {
      assert s.Get(p).queue == [] || s.Get(p).queue == Line(total, n);
    }
  }

  lemma {:induction false} OneMoreArrives(s: State, total: nat, n: nat)
    requires Inv(s) && AllArrived(s, total, n)
    ensures Enabled(s, Arrives(n, Interactive))
    ensures Inv(Step(s, Arrives(n, Interactive))) && AllArrived(Step(s, Arrives(n, Interactive)), total, n + 1)
  {
    hide Enabled, Step, Inv, AllArrived;
    var e := Arrives(n, Interactive);
    ArrivalIsEnabled(s, total, n);
    StepKeepsInv(s, e);
    WaitsIffAllPermitsHeld(s, n, Interactive);
    HowManyRun(s, total, n);
    if n < total {
      GrantedAtOnce(s, e);
      LengthensRunning(s, Step(s, e), total, n);
    } else {
      QueuedAtHome(s, e);
      LengthensLine(s, Step(s, e), total, n);
    }
  }

  lemma HowManyRun(s: State, total: nat, n: nat)
    requires AllArrived(s, total, n)
    ensures s.Capacity() == total && |s.holder| == if n < total then n else total
  {
  }

  lemma {:induction false} LengthensRunning(s: State, t: State, total: nat, n: nat)
    requires AllArrived(s, total, n) && n < total && t.Capacity() == total
    requires t.interactive.queue == s.interactive.queue && t.bulk.queue == s.bulk.queue
             && t.shared.queue == s.shared.queue
    requires t.interactive.size == s.interactive.size
    requires (forall r :: r in t.holder <==> r in s.holder || r == n) && |t.holder| == |s.holder| + 1
    ensures AllArrived(t, total, n + 1)
  {
    LineGrows(total, n);
  }

  lemma {:induction false} LengthensLine(s: State, t: State, total: nat, n: nat)
    requires AllArrived(s, total, n) && n >= total && t.Capacity() == total && t.holder == s.holder
    requires t.bulk.queue == s.bulk.queue && t.interactive.size == s.interactive.size
    requires t.interactive.queue == s.interactive.queue + (if s.interactive.size > 0 then [n] else [])
    requires t.shared.queue == s.shared.queue + (if s.interactive.size > 0 then [] else [n])
    ensures AllArrived(t, total, n + 1)
  {
    hide Line;
    LineGrows(total, n);
  }

  lemma LineGrows(total: nat, n: nat)
    ensures Line(total, n + 1) == Line(total, n) + if n < total then [] else [n]
  {
  }

  lemma {:induction false} GrantedAtOnce(s: State, e: Event)
    requires e.Arrives? && Enabled(s, e) && e.r in Step(s, e).holder
    ensures var t := Step(s, e);
            t.interactive.queue == s.interactive.queue && t.bulk.queue == s.bulk.queue
            && t.shared.queue == s.shared.queue
            && t.interactive.size == s.interactive.size
            && (forall r :: r in t.holder <==> r in s.holder || r == e.r) && |t.holder| == |s.holder| + 1
  {
    var t := Step(s, e);
    assert t.holder.Keys == s.holder.Keys + {e.r};
    SizeOfKeys(t.holder);
    SizeOfKeys(s.holder);
    assert e.r !in s.holder.Keys;
  }

  lemma SizeOfKeys(holder: map<Request, PoolName>)
    ensures |holder| == |holder.Keys|
  {
  }

  lemma {:induction false} QueuedAtHome(s: State, e: Event)
    requires e.Arrives? && e.c == Interactive && Enabled(s, e) && e.r !in Step(s, e).holder
    ensures var t := Step(s, e);
            t.holder == s.holder && t.bulk.queue == s.bulk.queue && t.interactive.size == s.interactive.size
            && t.interactive.queue == s.interactive.queue + (if s.interactive.size > 0 then [e.r] else [])
            && t.shared.queue == s.shared.queue + (if s.interactive.size > 0 then [] else [e.r])
  {
  }

  lemma {:induction false} NobodyYet(total: nat)
    ensures AllArrived(Initial(total), total, 0)
  {
    hide HomeSize;
    var (i, b, h) := SplitPoolSizes(total);
    assert Initial(total) == State(Pool(i, i, []), Pool(b, b, []), Pool(h, h, []), map[], map[]);
    hide SplitPoolSizes;
  }

  lemma OneEventRun(s: State, es: seq<Event>, e: Event)
    requires IsRun(s, es) && Enabled(Run(s, es), e)
    ensures IsRun(s, es + [e]) && Run(s, es + [e]) == Step(Run(s, es), e)
  {
    hide Enabled, Step;
    RunConcat(s, es, [e]);
    assert [e][1..] == [];
  }

  /** Queues of any length are reached: after enough arrivals the request `total + k` waits at place `k`. */
  lemma {:induction false} AnyPlaceIsReached(total: nat, k: nat) returns (es: seq<Event>)
    ensures IsRun(Initial(total), es) && Releases(Initial(total), es, QueueOf(total)) == 0
    ensures var queue := Run(Initial(total), es).Get(QueueOf(total)).queue;
            |queue| == k + 1 && queue[k] == total + k
  {
    hide Step, Enabled, Inv, AllArrived, Initial, IsRun, Run;
    es := [];
    var n := 0;
    NobodyYet(total);
    InitialInv(total);
    NoEvents(Initial(total));
    while n < total + k + 1
      invariant n <= total + k + 1 && IsRun(Initial(total), es)
      invariant Inv(Run(Initial(total), es)) && AllArrived(Run(Initial(total), es), total, n)
      invariant forall i :: 0 <= i < |es| ==> es[i].Arrives?
    {
      OneMoreArrives(Run(Initial(total), es), total, n);
      OneEventRun(Initial(total), es, Arrives(n, Interactive));
      es, n := es + [Arrives(n, Interactive)], n + 1;
    }
    ArrivalsReleaseNothing(Initial(total), es, QueueOf(total));
    LastInLine(Run(Initial(total), es), total, k);
  }

  lemma NoEvents(s: State)
    ensures IsRun(s, []) && Run(s, []) == s
  {
  }

  lemma LastInLine(s: State, total: nat, k: nat)
    requires AllArrived(s, total, total + k + 1)
    ensures var queue := s.Get(QueueOf(total)).queue; |queue| == k + 1 && queue[k] == total + k
  {
  }

  lemma {:induction false} ArrivalsReleaseNothing(s: State, es: seq<Event>, p: PoolName)
    requires IsRun(s, es) && forall i :: 0 <= i < |es| ==> es[i].Arrives?
    ensures Releases(s, es, p) == 0
    decreases |es|
  {
    hide Enabled, Step;
    if es != [] {
      ArrivalsReleaseNothing(Step(s, es[0]), es[1..], p);
    }
  }

  // ---------------------------------------------------------------- borrowing

  /** Requests of the other class running on the home pool of `c`. */
  ghost function Borrowers(s: State, c: RequestClass): set<Request> {
    set r | r in s.holder && s.holder[r] == Home(c) && r in s.cls && s.cls[r] != c
  }

  /** Someone waits for the home pool of `c` before every step of the run. */
  ghost predicate ContendedThroughout(s: State, es: seq<Event>, c: RequestClass)
    requires IsRun(s, es)
    decreases |es|
  {
    s.Get(Home(c)).queue != [] && (es != [] ==> ContendedThroughout(Step(s, es[0]), es[1..], c))
  }

  lemma {:induction false} NoBorrowerEnters(s: State, e: Event, c: RequestClass)
    requires Inv(s) && Enabled(s, e) && s.Get(Home(c)).queue != []
    ensures Borrowers(Step(s, e), c) <= Borrowers(s, c)
    ensures e.Leaves? ==> e.r !in Borrowers(Step(s, e), c)
  {
    assert PoolInv(s, Home(c));
    var t := Step(s, e);
    forall r | r in Borrowers(t, c) ensures r in Borrowers(s, c) && (e.Leaves? ==> r != e.r) {
      match e
      case Arrives(x, d) =>
        assert OtherHome(d) == Home(c) || Home(d) == Home(c);
      case Leaves(x) =>
        var p := s.holder[x];
        assert PoolInv(s, p);
        if s.Get(p).queue != [] { assert s.Get(p).queue[0] in s.Get(p).queue; }
    }
  }

  /** While someone waits for a home pool, the set of foreign requests on it only shrinks. */
  lemma {:induction false} BorrowersOnlyLeave(s: State, es: seq<Event>, c: RequestClass)
    requires Inv(s) && IsRun(s, es) && ContendedThroughout(s, es, c)
    ensures Borrowers(Run(s, es), c) <= Borrowers(s, c)
    ensures forall i :: 0 <= i < |es| && es[i].Leaves? ==> es[i].r !in Borrowers(Run(s, es), c)
    decreases |es|
  {
    hide Inv, Enabled, Step, Borrowers;
    if es != [] {
      StepKeepsInv(s, es[0]);
      NoBorrowerEnters(s, es[0], c);
      var t := Step(s, es[0]);
      BorrowersOnlyLeave(t, es[1..], c);
      forall i | 0 <= i < |es| && es[i].Leaves? ensures es[i].r !in Borrowers(Run(s, es), c) {
        if i > 0 { assert es[i] == es[1..][i - 1]; }
      }
    }
  }

  ghost predicate LeavesIn(r: Request, es: seq<Event>) {
    exists i :: 0 <= i < |es| && es[i] == Leaves(r)
  }

  /**
   Once everyone who held a home permit when the queue formed has left it, and the queue has not emptied,
   the class holds every permit of its home pool.
   */
  lemma {:induction false} ContendedClassOwnsHome(s: State, es: seq<Event>, c: RequestClass)
    requires Inv(s) && IsRun(s, es) && ContendedThroughout(s, es, c)
    requires forall r :: r in Holders(s, Home(c)) ==> LeavesIn(r, es)
    ensures |Holders(Run(s, es), Home(c))| == s.Get(Home(c)).size
    ensures forall r :: r in Holders(Run(s, es), Home(c)) ==> r in Run(s, es).cls && Run(s, es).cls[r] == c
  {
    var t := Run(s, es);
    BorrowersOnlyLeave(s, es, c);
    RunKeepsInv(s, es);
    RunKeepsSizes(s, es, Home(c));
    EndIsContended(s, es, c);
    assert PoolInv(t, Home(c));
    forall r | r in Borrowers(s, c) ensures r !in Borrowers(t, c) {
      assert r in Holders(s, Home(c));
      var i :| 0 <= i < |es| && es[i] == Leaves(r);
      assert es[i].r == r;
    }
    forall r | r in Holders(t, Home(c)) ensures r in t.cls && t.cls[r] == c {
      assert r !in Borrowers(t, c);
    }
  }

  lemma {:induction false} EndIsContended(s: State, es: seq<Event>, c: RequestClass)
    requires IsRun(s, es) && ContendedThroughout(s, es, c)
    ensures Run(s, es).Get(Home(c)).queue != []
    decreases |es|
  {
    hide Enabled, Step;
    if es != [] {
      EndIsContended(Step(s, es[0]), es[1..], c);
    }
  }

  lemma {:induction false} RunKeepsSizes(s: State, es: seq<Event>, p: PoolName)
    requires IsRun(s, es)
    ensures Run(s, es).Get(p).size == s.Get(p).size
    decreases |es|
  {
    hide Enabled, Step;
    if es != [] {
      StepKeepsSize(s, es[0], p);
      RunKeepsSizes(Step(s, es[0]), es[1..], p);
    }
  }

  lemma {:induction false} StepKeepsSize(s: State, e: Event, p: PoolName)
    requires Enabled(s, e)
    ensures Step(s, e).Get(p).size == s.Get(p).size
  {
  }

  /** With at least one slot, whoever waits can rely on a running request that can leave. */
  lemma {:induction false} SomeoneCanLeave(s: State, r: Request)
    requires Inv(s) && s.Waits(r) && s.Capacity() > 0
    ensures exists h :: h in s.holder && Enabled(s, Leaves(h))
  {
    var p: PoolName :| r in s.Get(p).queue;
    assert PoolInv(s, p);
    assert |Holders(s, p)| > 0;
    var h :| h in Holders(s, p);
  }
}
