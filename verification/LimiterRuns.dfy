/**
 Runs of the limiter's script when the caller's clock and Redis' clock need not agree: exactly how much the clocks
 may be off before a window can hold more allowed checks than the limit.
 */
module LimiterRuns {
  import opened RateLimiter

  // ---------------------------------------------------------------- runs

  datatype Clocks = Clocks(now: nat, redis: nat)

  /** The keys and the history after checks at these times. */
  function Checks(times: seq<Clocks>, limit: int, window: nat): (Keys, seq<Entry>) {
    if times == [] then (NO_KEYS, [])
    else
      var ((k, history), t) := (Checks(times[..|times| - 1], limit, window), times[|times| - 1]);
      var (after, r) := Script(k, t.now, t.redis, limit, window);
      (after, history + [Entry(t.now, r.allowed)])
  }

  /** The reply to the last check. */
  function Reply(times: seq<Clocks>, limit: int, window: nat): CheckResult
    requires times != []
  {
    var t := times[|times| - 1];
    Script(Checks(times[..|times| - 1], limit, window).0, t.now, t.redis, limit, window).1
  }

  lemma OneMoreCheck(times: seq<Clocks>, t: Clocks, limit: int, window: nat)
    ensures var ((k, history), after) := (Checks(times, limit, window), Checks(times + [t], limit, window));
            var (k', r) := Script(k, t.now, t.redis, limit, window);
            after == (k', history + [Entry(t.now, r.allowed)]) && Reply(times + [t], limit, window) == r
  {
    hide Script;
    assert (times + [t])[..|times|] == times;
  }

  /** No half-open interval as long as the window holds more than `limit` allowed checks. */
  ghost predicate KeepsLimit(history: seq<Entry>, limit: int, window: nat) {
    forall lo: int, hi: int :: hi == lo + window ==> AllowedWithin(history, lo, hi) <= if limit < 0 then 0 else limit
  }

  // ---------------------------------------------------------------- clocks in step

  /** The caller's clock does not step back, and Redis' does not expire a check that may still be in the window. */
  predicate StaysInStep(s: Clocks, t: Clocks, window: nat) {
    s.now <= t.now && (t.redis < s.redis + TimeToLive(window) || t.now >= s.now + window)
  }

  predicate RunsInStep(times: seq<Clocks>, window: nat) {
    forall i :: 0 < i < |times| ==> StaysInStep(times[i - 1], times[i], window)
  }

  /** The keys and the history of a run whose last check was at `t`. */
  ghost predicate Sound(k: Keys, history: seq<Entry>, t: Clocks, limit: int, window: nat) {
    Ordered(history) && Conforms(history, limit, window) && Reflects(k, history, t.redis, window)
    && LastTime(history) == t.now
  }

  /** While the clocks are in step, every check is decided by the history of the run. */
  lemma {:induction false} RunConforms(times: seq<Clocks>, limit: int, window: nat)
    requires RunsInStep(times, window) && times != []
    ensures var ((k, history), t) := (Checks(times, limit, window), times[|times| - 1]);
            var before := Checks(times[..|times| - 1], limit, window).1;
            Sound(k, history, t, limit, window)
            && history == before + [Entry(t.now, Reply(times, limit, window).allowed)]
            && DecidedBy(Reply(times, limit, window), before, t.now, limit, window)
  {
    hide Script, DecidedBy, Ordered, Conforms, Reflects, TimeToLive;
    var front, t := times[..|times| - 1], times[|times| - 1];
    var (k, history) := Checks(front, limit, window);
    if front == [] {
      NothingChecked(limit, window, t.redis);
      ScriptRefinesHistory(k, history, t.redis, t.now, t.redis, limit, window);
    } else {
      var s := front[|front| - 1];
      assert StaysInStep(s, t, window);
      RunConforms(front, limit, window);
      ScriptRefinesHistory(k, history, s.redis, t.now, t.redis, limit, window);
    }
  }

  lemma NothingChecked(limit: int, window: nat, redis: nat)
    ensures Checks([], limit, window) == (NO_KEYS, []) && Ordered([]) && Conforms([], limit, window)
    ensures Reflects(NO_KEYS, [], redis, window)
    ensures KeepsLimit([], limit, window) && forall lo, hi :: AllowedWithin([], lo, hi) == 0
  {
  }

  lemma {:induction false} InStepKeepsLimit(times: seq<Clocks>, limit: int, window: nat)
    requires RunsInStep(times, window)
    ensures KeepsLimit(Checks(times, limit, window).1, limit, window)
  {
    hide Checks, Conforms;
    var history := Checks(times, limit, window).1;
    if times == [] {
      NothingChecked(limit, window, 0);
    } else {
      RunConforms(times, limit, window);
    }
    forall lo: int, hi: int | hi == lo + window
      ensures AllowedWithin(history, lo, hi) <= if limit < 0 then 0 else limit
    {
      NoWindowHoldsMore(history, limit, window, hi);
    }
  }

  /**
   After a denied check the reply is the least whole number of seconds after which the script allows a check again,
   if the clocks are in step until then and anything is allowed at all.
   */
  lemma {:induction false} RetryAfterHolds(times: seq<Clocks>, later: Clocks, limit: int, window: nat, seconds: nat)
    requires times != [] && RunsInStep(times + [later], window)
    requires !Reply(times, limit, window).allowed && later.now == times[|times| - 1].now + 1000 * seconds
    ensures var wait := Reply(times, limit, window).retryAfterSeconds;
            (Reply(times + [later], limit, window).allowed <==> limit >= 1 && seconds >= wait)
            && (limit >= 1 ==> wait >= 1)
  {
    hide Checks, Reply, Conforms, Ordered, Reflects, Live, StaysInStep;
    var all, t := times + [later], times[|times| - 1];
    assert all[..|times|] == times;
    assert RunsInStep(times, window) by {
      forall i | 0 < i < |times| ensures StaysInStep(times[i - 1], times[i], window) {
        assert StaysInStep(all[i - 1], all[i], window);
      }
    }
    RunConforms(times, limit, window);
    RunConforms(all, limit, window);
    var front := times[..|times| - 1];
    var before := Checks(front, limit, window).1;
    BeforeDenial(before, t.now, limit, window);
    if limit >= 1 {
      RetryAfterIsExact(before, t.now, limit, window, seconds);
    }
  }

  lemma {:induction false} BeforeDenial(before: seq<Entry>, now: nat, limit: int, window: nat)
    requires Conforms(before + [Entry(now, false)], limit, window) && Ordered(before + [Entry(now, false)])
    ensures Conforms(before, limit, window) && Ordered(before) && LastTime(before) <= now
    ensures !Admits(before, now, limit, window)
  {
    hide Admits;
    var history := before + [Entry(now, false)];
    OneMoreEntry(before, Entry(now, false), limit, window);
    assert forall i :: 0 <= i < |before| ==> history[i] == before[i];
    assert history[|before|] == Entry(now, false);
  }

  // ---------------------------------------------------------------- how far the clocks may drift

  /**
   From one check to the next the caller's clock steps back by no more than `back`, and Redis' clock gains no more
   than `skew` on it; if it is `steady`, Redis' clock does not step back at all.
   */
  datatype Drift = Drift(back: nat, skew: nat, steady: bool)

  predicate Drifts(s: Clocks, t: Clocks, d: Drift) {
    s.now - t.now <= d.back && (t.redis - s.redis) - (t.now - s.now) <= d.skew && (d.steady ==> s.redis <= t.redis)
  }

  predicate RunsWithin(times: seq<Clocks>, d: Drift) {
    forall i :: 0 < i < |times| ==> Drifts(times[i - 1], times[i], d)
  }

  /** Every run of clocks that drift no further keeps the limit. */
  ghost predicate LimitHolds(limit: int, window: nat, d: Drift) {
    forall times :: RunsWithin(times, d) ==> KeepsLimit(Checks(times, limit, window).1, limit, window)
  }

  /**
   Exactly how far the clocks may drift: the caller's may not step back, and Redis' may gain no more than the time that
   keys outlive the window; or Redis' neither gains nor steps back, and then the caller's cannot either.
   */
  lemma {:induction false} LimitHoldsIff(limit: int, window: nat, d: Drift)
    ensures LimitHolds(limit, window, d) <==>
            limit <= 0 || window == 0
            || (d.back == 0 && d.skew <= TimeToLive(window) - window)
            || (d.steady && d.skew == 0)
  {
    hide Checks, KeepsLimit, RunsInStep;
    if limit <= 0 || window == 0 {
      forall times | RunsWithin(times, d) ensures KeepsLimit(Checks(times, limit, window).1, limit, window) {
        NothingToKeep(times, limit, window);
      }
    } else if (d.back == 0 && d.skew <= TimeToLive(window) - window) || (d.steady && d.skew == 0) {
      forall times | RunsWithin(times, d) ensures KeepsLimit(Checks(times, limit, window).1, limit, window) {
        DriftStaysInStep(times, window, d);
        InStepKeepsLimit(times, limit, window);
      }
    } else if d.skew > TimeToLive(window) - window {
      var times := FastRedisClockBreaksLimit(limit, window, d);
    } else {
      var times := BackwardClockBreaksLimit(limit, window, d);
    }
  }

  lemma DriftStaysInStep(times: seq<Clocks>, window: nat, d: Drift)
    requires RunsWithin(times, d)
    requires (d.back == 0 && d.skew <= TimeToLive(window) - window) || (d.steady && d.skew == 0)
    ensures RunsInStep(times, window)
  {
    hide TimeToLive;
    forall i | 0 < i < |times| ensures StaysInStep(times[i - 1], times[i], window) {
      assert Drifts(times[i - 1], times[i], d);
    }
  }

  /** The caller's clock steps back by no more than `back` at a time, and no key expires. */
  predicate RunsUnexpired(times: seq<Clocks>, back: nat, window: nat) {
    forall i :: 0 < i < |times| ==>
      times[i - 1].now - times[i].now <= back && times[i].redis < times[i - 1].redis + TimeToLive(window)
  }

  ghost predicate LimitHoldsUnexpired(limit: int, window: nat, back: nat) {
    forall times :: RunsUnexpired(times, back, window) ==> KeepsLimit(Checks(times, limit, window).1, limit, window)
  }

  /** Even if no key expires, the caller's clock may step back only if at most one check is allowed in a window. */
  lemma {:induction false} LimitHoldsUnexpiredIff(limit: int, window: nat, back: nat)
    ensures LimitHoldsUnexpired(limit, window, back) <==> limit <= 1 || window == 0 || back == 0
  {
    hide Checks, KeepsLimit, RunsInStep, TimeToLive;
    if limit <= 0 || window == 0 {
      forall times | RunsUnexpired(times, back, window)
        ensures KeepsLimit(Checks(times, limit, window).1, limit, window)
      {
        NothingToKeep(times, limit, window);
      }
    } else if limit == 1 {
      forall times | RunsUnexpired(times, back, window)
        ensures KeepsLimit(Checks(times, limit, window).1, limit, window)
      {
        OneAtATime(times, back, window);
      }
    } else if back == 0 {
      forall times | RunsUnexpired(times, back, window)
        ensures KeepsLimit(Checks(times, limit, window).1, limit, window)
      {
        UnexpiredStaysInStep(times, window);
        InStepKeepsLimit(times, limit, window);
      }
    } else {
      var times := ForgottenChecksBreakLimit(limit, window, back);
    }
  }

  lemma UnexpiredStaysInStep(times: seq<Clocks>, window: nat)
    requires RunsUnexpired(times, 0, window)
    ensures RunsInStep(times, window)
  {
    hide TimeToLive;
  }

  // ---------------------------------------------------------------- limits that hold by themselves

  lemma {:induction false} NoneWithin(history: seq<Entry>, lo: int, hi: int)
    requires forall i :: 0 <= i < |history| && history[i].allowed ==> !(lo < history[i].time <= hi)
    ensures AllowedWithin(history, lo, hi) == 0
  {
    if history != [] {
      NoneWithin(history[..|history| - 1], lo, hi);
    }
  }

  lemma {:induction false} OneMoreWithin(history: seq<Entry>, e: Entry, lo: int, hi: int)
    ensures AllowedWithin(history + [e], lo, hi)
         == AllowedWithin(history, lo, hi) + if e.allowed && lo < e.time <= hi then 1 else 0
  {
    assert (history + [e])[..|history|] == history;
  }

  lemma {:induction false} InsertCounts(z: seq<Member>, m: Member, lo: int)
    ensures CountFrom(Insert(z, m), lo) == CountFrom(z, lo) + if m.score >= lo then 1 else 0
  {
    if z == [] || z[|z| - 1].score <= m.score {
      assert (z + [m])[..|z|] == z;
    } else {
      var front := z[..|z| - 1];
      InsertCounts(front, m, lo);
      assert (Insert(front, m) + [z[|z| - 1]])[..|Insert(front, m)|] == Insert(front, m);
    }
  }

  lemma {:induction false} NothingAllowed(times: seq<Clocks>, limit: int, window: nat)
    requires limit <= 0
    ensures forall e :: e in Checks(times, limit, window).1 ==> !e.allowed
  {
    hide Insert, Without, CountFrom, Pruned, NextId, TimeToLive;
    if times != [] {
      var front, t := times[..|times| - 1], times[|times| - 1];
      NothingAllowed(front, limit, window);
      var k := Checks(front, limit, window).0;
      var id := NextId(k, t.redis);
      InsertCounts(Without(Pruned(k, t.now, t.redis, window), id), Member(id, t.now), t.now - window);
    }
  }

  lemma NothingToKeep(times: seq<Clocks>, limit: int, window: nat)
    requires limit <= 0 || window == 0
    ensures KeepsLimit(Checks(times, limit, window).1, limit, window)
  {
    hide Checks;
    var history := Checks(times, limit, window).1;
    if limit <= 0 {
      NothingAllowed(times, limit, window);
    }
    forall lo: int, hi: int | hi == lo + window ensures AllowedWithin(history, lo, hi) == 0 {
      NoneWithin(history, lo, hi);
    }
  }

  // ---------------------------------------------------------------- keys whose members have one score

  /** `n` members with the score `m`; the keys were last used at `redis`. */
  ghost predicate AllAt(k: Keys, n: nat, m: nat, redis: nat, window: nat) {
    |k.members| == n && (forall i :: 0 <= i < n ==> k.members[i].score == m && k.members[i].id <= k.counter)
    && k.membersExpire == k.counterExpire == redis + TimeToLive(window)
  }

  lemma {:induction false} WithoutInserted(z: seq<Member>, m: Member)
    requires forall i :: 0 <= i < |z| ==> z[i].id != m.id
    ensures Without(Insert(z, m), m.id) == z
  {
    hide Without;
    if z == [] || z[|z| - 1].score <= m.score {
      OneMoreWithout(z, m, m.id);
      WithoutStranger(z, m.id);
    } else {
      var n := |z| - 1;
      WithoutInserted(z[..n], m);
      OneMoreWithout(Insert(z[..n], m), z[n], m.id);
    }
  }

  lemma OneMoreWithout(z: seq<Member>, m: Member, id: nat)
    ensures Without(z + [m], id) == Without(z, id) + if m.id == id then [] else [m]
  {
    assert (z + [m])[..|z|] == z;
  }

  /** The members are still in the window: a check is allowed while there are fewer than `limit`. */
  lemma {:induction false} CheckBesideMembers(k: Keys, n: nat, m: nat, redis: nat, t: Clocks, limit: int, window: nat)
    requires AllAt(k, n, m, redis, window) && t.redis < redis + TimeToLive(window) && t.now - window < m
    ensures var (after, r) := Script(k, t.now, t.redis, limit, window);
            (r.allowed <==> n < limit)
            && (!r.allowed ==> AllAt(after, n, m, t.redis, window))
            && (r.allowed && t.now == m ==> AllAt(after, n + 1, m, t.redis, window))
  {
    hide Insert, Without, CountFrom, RemoveUpTo, TimeToLive;
    var z, id := k.members, k.counter + 1;
    NothingToPrune(z, t.now - window);
    assert forall i :: 0 <= i < |z| ==> z[i].id != id;
    WithoutStranger(z, id);
    InsertCounts(z, Member(id, t.now), t.now - window);
    AllCounted(z, t.now - window);
    WithoutInserted(z, Member(id, t.now));
    if t.now == m {
      AddAndRemove(z, id, m);
    }
  }

  /** No member is left when the script has pruned: the check is allowed and stands alone. */
  lemma {:induction false} CheckAlone(k: Keys, t: Clocks, limit: int, window: nat)
    requires limit >= 1 && Pruned(k, t.now, t.redis, window) == []
    ensures var (after, r) := Script(k, t.now, t.redis, limit, window);
            r.allowed && AllAt(after, 1, t.now, t.redis, window)
  {
    hide TimeToLive;
    AloneInSet(NextId(k, t.redis), t.now, t.now - window);
  }

  lemma AloneInSet(id: nat, now: nat, lo: int)
    requires lo <= now
    ensures Add([], id, now) == [Member(id, now)] && CountFrom([Member(id, now)], lo) == 1
  {
  }

  lemma {:induction false} AllPruned(z: seq<Member>, hi: int)
    requires forall i :: 0 <= i < |z| ==> z[i].score <= hi
    ensures RemoveUpTo(z, hi) == []
  {
    if z != [] {
      AllPruned(z[..|z| - 1], hi);
    }
  }

  /** With a limit of one the set always holds exactly the last check allowed. */
  lemma {:induction false} OneAtATime(times: seq<Clocks>, back: nat, window: nat)
    requires RunsUnexpired(times, back, window) && window > 0
    ensures KeepsLimit(Checks(times, 1, window).1, 1, window)
  {
    hide Checks;
    if times == [] {
      NothingChecked(1, window, 0);
    } else {
      var last := OnlyTheLast(times, back, window);
    }
  }

  lemma {:induction false} OnlyTheLast(times: seq<Clocks>, back: nat, window: nat) returns (last: nat)
    requires RunsUnexpired(times, back, window) && window > 0 && times != []
    ensures var (k, history) := Checks(times, 1, window);
            AllAt(k, 1, last, times[|times| - 1].redis, window) && KeepsLimit(history, 1, window)
            && forall e :: e in history && e.allowed ==> e.time <= last
  {
    hide Script, AllAt, TimeToLive, KeepsLimit, Pruned;
    var front, t := times[..|times| - 1], times[|times| - 1];
    var (k, history) := Checks(front, 1, window);
    if front == [] {
      NothingChecked(1, window, 0);
      NoKeysPruned(t, window);
      CheckAlone(k, t, 1, window);
      last := t.now;
      NextKeeps(history, t.now, 0, window);
    } else {
      last := OnlyTheLast(front, back, window);
      var s := front[|front| - 1];
      if t.now - window < last {
        CheckBesideMembers(k, 1, last, s.redis, t, 1, window);
        DeniedKeeps(history, t.now, window);
      } else {
        OldMembersPruned(k, 1, last, s.redis, t, window);
        CheckAlone(k, t, 1, window);
        NextKeeps(history, t.now, last, window);
        last := t.now;
      }
    }
  }

  lemma NoKeysPruned(t: Clocks, window: nat)
    ensures Pruned(NO_KEYS, t.now, t.redis, window) == []
  {
  }

  lemma OldMembersPruned(k: Keys, n: nat, m: nat, redis: nat, t: Clocks, window: nat)
    requires AllAt(k, n, m, redis, window)
    requires m <= t.now - window || redis + TimeToLive(window) <= t.redis
    ensures Pruned(k, t.now, t.redis, window) == []
  {
    hide TimeToLive;
    if k.membersExpire > t.redis {
      AllPruned(k.members, t.now - window);
    }
  }

  lemma {:induction false} DeniedKeeps(history: seq<Entry>, now: nat, window: nat)
    requires KeepsLimit(history, 1, window)
    ensures KeepsLimit(history + [Entry(now, false)], 1, window)
  {
    hide AllowedWithin;
    forall lo: int, hi: int | hi == lo + window ensures AllowedWithin(history + [Entry(now, false)], lo, hi) <= 1 {
      OneMoreWithin(history, Entry(now, false), lo, hi);
    }
  }

  lemma {:induction false} NextKeeps(history: seq<Entry>, now: nat, last: nat, window: nat)
    requires KeepsLimit(history, 1, window) && (history != [] ==> last + window <= now)
    requires forall e :: e in history && e.allowed ==> e.time <= last
    ensures KeepsLimit(history + [Entry(now, true)], 1, window)
  {
    hide AllowedWithin;
    forall lo: int, hi: int | hi == lo + window ensures AllowedWithin(history + [Entry(now, true)], lo, hi) <= 1 {
      OneMoreWithin(history, Entry(now, true), lo, hi);
      if lo < now <= hi {
        NoneWithin(history, lo, hi);
      }
    }
  }

  // ---------------------------------------------------------------- runs that break the limit

  /** As many checks at one time as the limit allows. */
  lemma {:induction false} FillWindow(t: Clocks, limit: nat, window: nat) returns (times: seq<Clocks>)
    requires limit > 0 && window > 0
    ensures times != [] && forall i :: 0 <= i < |times| ==> times[i] == t
    ensures var (k, history) := Checks(times, limit, window);
            AllAt(k, limit, t.now, t.redis, window)
            && forall lo: int, hi: int :: lo < t.now <= hi ==> AllowedWithin(history, lo, hi) == limit
  {
    hide Script, Checks, AllAt, TimeToLive, Pruned, AllowedWithin;
    NothingChecked(limit, window, 0);
    NoKeysPruned(t, window);
    CheckAlone(NO_KEYS, t, limit, window);
    OneMoreCheck([], t, limit, window);
    times := [] + [t];
    var n := 1;
    AllowedOnce([], t.now, 0);
    while n < limit
      invariant 1 <= n <= limit && times != [] && forall i :: 0 <= i < |times| ==> times[i] == t
      invariant AllAt(Checks(times, limit, window).0, n, t.now, t.redis, window)
      invariant forall lo: int, hi: int :: lo < t.now <= hi ==>
                AllowedWithin(Checks(times, limit, window).1, lo, hi) == n
    {
      var (k, history) := Checks(times, limit, window);
      TimeToLiveIsPositive(window);
      CheckBesideMembers(k, n, t.now, t.redis, t, limit, window);
      OneMoreCheck(times, t, limit, window);
      AllowedOnce(history, t.now, n);
      times, n := times + [t], n + 1;
    }
  }

  lemma TimeToLiveIsPositive(window: nat)
    ensures TimeToLive(window) > window
  {
  }

  lemma AllowedOnce(history: seq<Entry>, now: nat, n: nat)
    requires forall lo: int, hi: int :: lo < now <= hi ==> AllowedWithin(history, lo, hi) == n
    ensures forall lo: int, hi: int :: lo < now <= hi ==> AllowedWithin(history + [Entry(now, true)], lo, hi) == n + 1
  {
    hide AllowedWithin;
    forall lo: int, hi: int | lo < now <= hi ensures AllowedWithin(history + [Entry(now, true)], lo, hi) == n + 1 {
      OneMoreWithin(history, Entry(now, true), lo, hi);
    }
  }

  lemma {:induction false} OneTooMany(history: seq<Entry>, lo: int, hi: int, limit: nat, window: nat)
    requires hi == lo + window && AllowedWithin(history, lo, hi) > limit
    ensures !KeepsLimit(history, limit, window)
  {
  }

  /**
   If Redis' clock may gain more than the time that keys outlive the window, all members may expire while they are
   still in the window.
   */
  lemma {:induction false} FastRedisClockBreaksLimit(limit: nat, window: nat, d: Drift) returns (times: seq<Clocks>)
    requires limit >= 1 && window > 0 && d.skew > TimeToLive(window) - window
    ensures RunsWithin(times, d) && forall i :: 0 < i < |times| ==> times[i - 1].now <= times[i].now
    ensures !KeepsLimit(Checks(times, limit, window).1, limit, window)
  {
    hide Script, Checks, AllAt, TimeToLive, Pruned, AllowedWithin, KeepsLimit;
    TimeToLiveIsPositive(window);
    var first, last := Clocks(0, 0), Clocks(window - 1, TimeToLive(window));
    times := FillWindow(first, limit, window);
    var (k, history) := Checks(times, limit, window);
    OldMembersPruned(k, limit, 0, 0, last, window);
    CheckAlone(k, last, limit, window);
    OneMoreCheck(times, last, limit, window);
    OneMoreWithin(history, Entry(window - 1, true), -1, window - 1);
    OneTooMany(history + [Entry(window - 1, true)], -1, window - 1, limit, window);
    times := times + [last];
  }

  /**
   If the caller's clock may step back at all, denied checks may use the keys at ever earlier times, until the members
   expire while they are still in the window.
   */
  lemma {:induction false} BackwardClockBreaksLimit(limit: nat, window: nat, d: Drift) returns (times: seq<Clocks>)
    requires limit >= 1 && window > 0 && d.back >= 1 && (d.steady ==> d.skew >= 1)
    ensures RunsWithin(times, d) && !KeepsLimit(Checks(times, limit, window).1, limit, window)
  {
    hide Script, Checks, AllAt, TimeToLive, Pruned, AllowedWithin, KeepsLimit;
    TimeToLiveIsPositive(window);
    var ttl := TimeToLive(window);
    var top := ttl - window + 1;
    var t := Clocks(top, if d.steady then 0 else top);
    times := FillWindow(t, limit, window);
    while t.now > 0
      invariant times != [] && times[|times| - 1] == t && t.now <= top && t.redis == (if d.steady then 0 else t.now)
      invariant RunsWithin(times, d) && AllAt(Checks(times, limit, window).0, limit, top, t.redis, window)
      invariant AllowedWithin(Checks(times, limit, window).1, top - 1, ttl) == limit
    {
      var (k, history) := Checks(times, limit, window);
      var next := Clocks(t.now - 1, if d.steady then 0 else t.now - 1);
      CheckBesideMembers(k, limit, top, t.redis, next, limit, window);
      OneMoreCheck(times, next, limit, window);
      OneMoreWithin(history, Entry(next.now, false), top - 1, ttl);
      times, t := times + [next], next;
    }
    var (k, history) := Checks(times, limit, window);
    var last := Clocks(ttl, t.redis + ttl);
    OldMembersPruned(k, limit, top, t.redis, last, window);
    CheckAlone(k, last, limit, window);
    OneMoreCheck(times, last, limit, window);
    OneMoreWithin(history, Entry(ttl, true), top - 1, ttl);
    OneTooMany(history + [Entry(ttl, true)], top - 1, ttl, limit, window);
    times := times + [last];
  }

  /** If the caller's clock may step back, a check in between forgets those that are in the window again. */
  lemma {:induction false} ForgottenChecksBreakLimit(limit: nat, window: nat, back: nat) returns (times: seq<Clocks>)
    requires limit >= 2 && window > 0 && back >= 1
    ensures RunsUnexpired(times, back, window) && !KeepsLimit(Checks(times, limit, window).1, limit, window)
  {
    hide Script, Checks, AllAt, TimeToLive, Pruned, AllowedWithin, KeepsLimit;
    TimeToLiveIsPositive(window);
    var first, later, last := Clocks(0, 0), Clocks(window, 0), Clocks(window - 1, 0);
    times := FillWindow(first, limit, window);
    var (k, history) := Checks(times, limit, window);
    OldMembersPruned(k, limit, 0, 0, later, window);
    CheckAlone(k, later, limit, window);
    OneMoreCheck(times, later, limit, window);
    var k1 := Script(k, window, 0, limit, window).0;
    CheckBesideMembers(k1, 1, window, 0, last, limit, window);
    OneMoreCheck(times + [later], last, limit, window);
    OneMoreWithin(history, Entry(window, true), -1, window - 1);
    OneMoreWithin(history + [Entry(window, true)], Entry(window - 1, true), -1, window - 1);
    OneTooMany(history + [Entry(window, true)] + [Entry(window - 1, true)], -1, window - 1, limit, window);
    times := times + [later] + [last];
  }
}
