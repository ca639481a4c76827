/**
 The sliding-window limiter: one user's sorted set and counter in Redis, and the Lua script run on them
 (proxy/app/rate_limit.py).
 */
module RateLimiter {
  // ---------------------------------------------------------------- the history of checks

  datatype Entry = Entry(time: nat, allowed: bool)

  /** The times of the allowed checks newer than `lo`. */
  function Live(history: seq<Entry>, lo: int): seq<nat> {
    if history == [] then []
    else
      var e := history[|history| - 1];
      Live(history[..|history| - 1], lo) + if e.allowed && e.time > lo then [e.time] else []
  }

  /** How many checks have been allowed in `(lo, hi]`. */
  function AllowedWithin(history: seq<Entry>, lo: int, hi: int): nat {
    if history == [] then 0
    else
      var e := history[|history| - 1];
      AllowedWithin(history[..|history| - 1], lo, hi) + if e.allowed && lo < e.time <= hi then 1 else 0
  }

  /** A check is allowed exactly when fewer than `limit` allowed ones are newer than the window. */
  predicate Admits(history: seq<Entry>, now: nat, limit: int, window: nat) {
    |Live(history, now - window)| < limit
  }

  predicate Conforms(history: seq<Entry>, limit: int, window: nat) {
    history == []
    || (var before, e := history[..|history| - 1], history[|history| - 1];
        Conforms(before, limit, window) && (e.allowed <==> Admits(before, e.time, limit, window)))
  }

  /** Clocks do not run backwards. */
  predicate Ordered(history: seq<Entry>) {
    forall i, j :: 0 <= i < j < |history| ==> history[i].time <= history[j].time
  }

  function LastTime(history: seq<Entry>): nat {
    if history == [] then 0 else history[|history| - 1].time
  }

  lemma OneMoreEntry(history: seq<Entry>, e: Entry, limit: int, window: nat)
    ensures forall lo ::
              Live(history + [e], lo) == Live(history, lo) + if e.allowed && e.time > lo then [e.time] else []
    ensures Conforms(history + [e], limit, window)
       <==> Conforms(history, limit, window) && (e.allowed <==> Admits(history, e.time, limit, window))
    ensures Ordered(history) && LastTime(history) <= e.time ==> Ordered(history + [e])
  {
    hide Admits;
    assert (history + [e])[..|history|] == history;
  }

  lemma {:induction false} FewerInShorterWindow(history: seq<Entry>, lo: int, hi: int, from: int)
    requires from <= lo
    ensures AllowedWithin(history, lo, hi) <= |Live(history, from)|
  {
    if history != [] {
      FewerInShorterWindow(history[..|history| - 1], lo, hi, from);
    }
  }

  /** No half-open interval as long as the window ever holds more than `limit` allowed checks. */
  lemma {:induction false} NoWindowHoldsMore(history: seq<Entry>, limit: int, window: nat, t: int)
    requires Conforms(history, limit, window)
    ensures AllowedWithin(history, t - window, t) <= if limit < 0 then 0 else limit
  {
    hide Live;
    if history != [] {
      var before, e := history[..|history| - 1], history[|history| - 1];
      NoWindowHoldsMore(before, limit, window, t);
      if e.allowed && t - window < e.time <= t {
        FewerInShorterWindow(before, t - window, t, e.time - window);
      }
    }
  }

  /** Once a window has moved past a check's own time, all that is live was allowed under the limit. */
  lemma {:induction false} LiveWithinLimit(history: seq<Entry>, limit: int, window: nat, now: nat)
    requires Conforms(history, limit, window) && Ordered(history) && LastTime(history) <= now
    ensures |Live(history, now - window)| <= if limit < 0 then 0 else limit
  {
    NoWindowHoldsMore(history, limit, window, now);
    AllLiveAreWithin(history, now - window, now);
  }

  lemma {:induction false} AllLiveAreWithin(history: seq<Entry>, lo: int, hi: int)
    requires Ordered(history) && LastTime(history) <= hi
    ensures AllowedWithin(history, lo, hi) == |Live(history, lo)|
  {
    if history != [] {
      AllLiveAreWithin(history[..|history| - 1], lo, hi);
    }
  }

  /** Denied checks leave no trace. */
  lemma {:induction false} DeniedDoNotCount(history: seq<Entry>, denied: seq<Entry>, lo: int)
    requires forall i :: 0 <= i < |denied| ==> !denied[i].allowed
    ensures Live(history + denied, lo) == Live(history, lo)
    decreases |denied|
  {
    if denied == [] {
      assert history + denied == history;
    } else {
      var n := |denied| - 1;
      DeniedDoNotCount(history, denied[..n], lo);
      assert (history + denied)[..|history| + n] == history + denied[..n];
    }
  }

  // ---------------------------------------------------------------- when to retry

  /** Seconds until the oldest live check leaves the window. */
  function RetryAfter(history: seq<Entry>, now: nat, window: nat): int {
    var live := Live(history, now - window);
    if live == [] then 0 else CeilDiv(live[0] + window - now, 1000)
  }

  function CeilDiv(a: int, b: int): (q: int)
    requires b > 0
    ensures (q - 1) * b < a <= q * b
  {
    -(-a / b)
  }

  lemma {:induction false} OldestLeavesFirst(history: seq<Entry>, lo: int, hi: int)
    requires Ordered(history) && lo <= hi && Live(history, lo) != []
    ensures lo < Live(history, lo)[0] <= LastTime(history)
    ensures Live(history, lo)[0] > hi ==> Live(history, hi) == Live(history, lo)
    ensures Live(history, lo)[0] <= hi ==> |Live(history, hi)| < |Live(history, lo)|
  {
    var before, e := history[..|history| - 1], history[|history| - 1];
    if Live(before, lo) != [] {
      OldestLeavesFirst(before, lo, hi);
      assert Live(history, lo)[0] == Live(before, lo)[0];
    } else {
      StaysEmpty(before, lo, hi);
    }
  }

  lemma {:induction false} StaysEmpty(history: seq<Entry>, lo: int, hi: int)
    requires lo <= hi && Live(history, lo) == []
    ensures Live(history, hi) == []
  {
    if history != [] {
      StaysEmpty(history[..|history| - 1], lo, hi);
    }
  }

  /** After a denial, the reply is the least whole number of seconds after which a check would be allowed. */
  lemma RetryAfterIsExact(history: seq<Entry>, now: nat, limit: int, window: nat, seconds: nat)
    requires Conforms(history, limit, window) && Ordered(history) && LastTime(history) <= now
    requires !Admits(history, now, limit, window) && limit >= 1
    ensures var after := history + [Entry(now, false)];
            Admits(after, now + 1000 * seconds, limit, window) <==> seconds >= RetryAfter(after, now, window)
    ensures RetryAfter(history + [Entry(now, false)], now, window) >= 1
  {
    hide Live, Conforms;
    var after := history + [Entry(now, false)];
    OneMoreEntry(history, Entry(now, false), limit, window);
    LiveWithinLimit(history, limit, window, now);
    OldestLeavesFirst(history, now - window, now + 1000 * seconds - window);
  }

  // ---------------------------------------------------------------- the sorted set

  /** A sorted set is the list of its members by score; only scores are ever read, so ties may stand in any order. */
  datatype Member = Member(id: nat, score: nat)

  function Scores(z: seq<Member>): (r: seq<nat>)
    ensures |r| == |z|
  {
    if z == [] then [] else Scores(z[..|z| - 1]) + [z[|z| - 1].score]
  }

  /** ZREMRANGEBYSCORE from 0 to `hi`, both ends included. */
  function RemoveUpTo(z: seq<Member>, hi: int): seq<Member> {
    if z == [] then []
    else RemoveUpTo(z[..|z| - 1], hi) + if z[|z| - 1].score <= hi then [] else [z[|z| - 1]]
  }

  /** ZREM. */
  function Without(z: seq<Member>, id: nat): seq<Member> {
    if z == [] then []
    else Without(z[..|z| - 1], id) + if z[|z| - 1].id == id then [] else [z[|z| - 1]]
  }

  function Insert(z: seq<Member>, m: Member): seq<Member> {
    if z == [] || z[|z| - 1].score <= m.score then z + [m]
    else Insert(z[..|z| - 1], m) + [z[|z| - 1]]
  }

  /** ZADD: a member already there is moved. */
  function Add(z: seq<Member>, id: nat, score: nat): seq<Member> {
    Insert(Without(z, id), Member(id, score))
  }

  /** ZCOUNT from `lo`, included, to infinity. */
  function CountFrom(z: seq<Member>, lo: int): nat {
    if z == [] then 0
    else CountFrom(z[..|z| - 1], lo) + if z[|z| - 1].score >= lo then 1 else 0
  }

  /** Every member is known to the counter, and no score is later than `now`. */
  ghost predicate Bounded(z: seq<Member>, counter: nat, now: nat) {
    forall i :: 0 <= i < |z| ==> z[i].id <= counter && z[i].score <= now
  }

  lemma {:induction false} PruningKeepsLive(z: seq<Member>, history: seq<Entry>, lo: int, hi: int)
    requires Scores(z) == Live(history, lo) && lo <= hi
    ensures Scores(RemoveUpTo(z, hi)) == Live(history, hi)
    decreases |history|
  {
    if history == [] {
      assert z == [];
    } else {
      var before, e := history[..|history| - 1], history[|history| - 1];
      if e.allowed && e.time > lo {
        var last := z[|z| - 1];
        assert Scores(z) == Scores(z[..|z| - 1]) + [last.score];
        assert Scores(z)[..|z| - 1] == Scores(z[..|z| - 1]);
        assert Live(history, lo)[..|z| - 1] == Live(before, lo) && last.score == e.time by {
          assert Scores(z)[|z| - 1] == last.score && Live(history, lo)[|z| - 1] == e.time;
        }
        PruningKeepsLive(z[..|z| - 1], before, lo, hi);
        ScoresOneMore(RemoveUpTo(z[..|z| - 1], hi), last);
        assert RemoveUpTo(z[..|z| - 1], hi) + [] == RemoveUpTo(z[..|z| - 1], hi)
               && Live(before, hi) + [] == Live(before, hi);
      } else {
        PruningKeepsLive(z, before, lo, hi);
      }
    }
  }

  lemma {:induction false} PruningTwice(z: seq<Member>, lo: int, hi: int)
    requires lo <= hi
    ensures RemoveUpTo(RemoveUpTo(z, lo), hi) == RemoveUpTo(z, hi)
  {
    if z != [] {
      var front, last := z[..|z| - 1], z[|z| - 1];
      PruningTwice(front, lo, hi);
      assert RemoveUpTo(front, lo) + [] == RemoveUpTo(front, lo) && RemoveUpTo(front, hi) + [] == RemoveUpTo(front, hi);
      if last.score > lo {
        assert RemoveUpTo(z, lo)[..|RemoveUpTo(z, lo)| - 1] == RemoveUpTo(front, lo);
      }
    }
  }

  lemma {:induction false} NothingToPrune(z: seq<Member>, hi: int)
    requires forall i :: 0 <= i < |z| ==> z[i].score > hi
    ensures RemoveUpTo(z, hi) == z
  {
    if z != [] {
      NothingToPrune(z[..|z| - 1], hi);
    }
  }

  lemma ScoresOneMore(z: seq<Member>, m: Member)
    ensures Scores(z + [m]) == Scores(z) + [m.score]
  {
    assert (z + [m])[..|z|] == z;
  }

  lemma {:induction false} PruningKeepsBounds(z: seq<Member>, hi: int, counter: nat, now: nat)
    requires Bounded(z, counter, now)
    ensures Bounded(RemoveUpTo(z, hi), counter, now)
    ensures forall i :: 0 <= i < |RemoveUpTo(z, hi)| ==> RemoveUpTo(z, hi)[i].score > hi
    ensures |RemoveUpTo(z, hi)| <= |z|
  {
    if z != [] {
      PruningKeepsBounds(z[..|z| - 1], hi, counter, now);
    }
  }

  lemma {:induction false} WithoutStranger(z: seq<Member>, id: nat)
    requires forall i :: 0 <= i < |z| ==> z[i].id != id
    ensures Without(z, id) == z
  {
    if z != [] {
      WithoutStranger(z[..|z| - 1], id);
    }
  }

  /** A new member with the latest score goes to the end, and removing it undoes that. */
  lemma {:induction false} AddAndRemove(z: seq<Member>, id: nat, now: nat)
    requires forall i :: 0 <= i < |z| ==> z[i].id != id && z[i].score <= now
    ensures Add(z, id, now) == z + [Member(id, now)]
    ensures Without(Add(z, id, now), id) == z
  {
    WithoutStranger(z, id);
    assert (z + [Member(id, now)])[..|z|] == z;
  }

  lemma {:induction false} AllCounted(z: seq<Member>, lo: int)
    requires forall i :: 0 <= i < |z| ==> z[i].score >= lo
    ensures CountFrom(z, lo) == |z|
  {
    if z != [] {
      AllCounted(z[..|z| - 1], lo);
    }
  }

  lemma {:induction false} NothingLive(history: seq<Entry>, lo: int)
    requires forall i :: 0 <= i < |history| ==> history[i].time <= lo
    ensures Live(history, lo) == []
  {
    if history != [] {
      NothingLive(history[..|history| - 1], lo);
    }
  }

  // ---------------------------------------------------------------- the script

  datatype CheckResult = CheckResult(allowed: bool, retryAfterSeconds: int, limit: int, remaining: int)

  /** One user's keys. A key that has expired is empty from then on; a sorted set without members is no key. */
  datatype Keys = Keys(members: seq<Member>, membersExpire: int, counter: nat, counterExpire: int)

  const NO_KEYS := Keys([], 0, 0, 0)

  function TimeToLive(window: nat): (ttl: int)
    ensures window + 1000 <= ttl < window + 2000
    ensures window % 1000 == 0 ==> ttl == window + 1000
  {
    1000 * (CeilDiv(window, 1000) + 1)
  }

  function Unexpired(z: seq<Member>, expire: int, redisNow: nat): seq<Member> {
    if expire <= redisNow then [] else z
  }

  /** What is left when the script has pruned, and the number it gives the new member. */
  function Pruned(k: Keys, now: nat, redisNow: nat, window: nat): seq<Member> {
    RemoveUpTo(Unexpired(k.members, k.membersExpire, redisNow), now - window)
  }

  function NextId(k: Keys, redisNow: nat): (id: nat)
    ensures id >= 1
  {
    (if k.counterExpire <= redisNow then 0 else k.counter) + 1
  }

  /** The script on any keys: `now` is the caller's clock, `redisNow` is the clock by which keys expire. */
  function Script(k: Keys, now: nat, redisNow: nat, limit: int, window: nat): (Keys, CheckResult) {
    var id, expire := NextId(k, redisNow), redisNow + TimeToLive(window);
    var added := Add(Pruned(k, now, redisNow, window), id, now);
    var count := CountFrom(added, now - window);
    if count <= limit then
      (Keys(added, expire, id, expire), CheckResult(true, limit - count, limit, limit - count))
    else
      var left := Without(added, id);
      (Keys(left, expire, id, expire),
       CheckResult(false, if left == [] then 0 else CeilDiv(left[0].score + window - now, 1000), limit, 0))
  }

  /** `LUA_SCRIPT`, and the result `RateLimiter.check` makes of its reply. */
  class UserWindow {
    const limit: int
    const window: nat
    var members: seq<Member>
    var membersExpire: int
    var counter: nat
    var counterExpire: int
    ghost var history: seq<Entry>
    ghost var redisTime: nat

    function Value(): Keys
      reads this
    {
      Keys(members, membersExpire, counter, counterExpire)
    }

    ghost predicate Valid()
      reads this
    {
      Ordered(history) && Conforms(history, limit, window) && Reflects(Value(), history, redisTime, window)
    }

    constructor (limit: int, windowSeconds: nat)
      ensures Valid() && Value() == NO_KEYS && history == []
      ensures this.limit == limit && window == windowSeconds * 1000
    {
      this.limit, window := limit, windowSeconds * 1000;
      members, membersExpire, counter, counterExpire := [], 0, 0, 0;
      history, redisTime := [], 0;
    }

    /** Whatever the clocks say, the script runs; while they keep in step, it decides by the history. */
    method Check(now: nat, redisNow: nat) returns (r: CheckResult)
      modifies this
      ensures (Value(), r) == Script(old(Value()), now, redisNow, limit, window)
      ensures history == old(history) + [Entry(now, r.allowed)] && redisTime == redisNow
      ensures old(Valid()) && InStep(old(history), old(redisTime), now, redisNow, window) ==>
                Valid() && DecidedBy(r, old(history), now, limit, window)
    {
      hide Script, InStep, DecidedBy, Ordered, Conforms, Reflects, Without, Add, RemoveUpTo, CountFrom;
      ghost var before, past, pastTime := Value(), history, redisTime;
      ScriptIs(before, now, redisNow, limit, window);
      if membersExpire <= redisNow {
        members := [];
      }
      members := RemoveUpTo(members, now - window);
      if counterExpire <= redisNow {
        counter := 0;
      }
      counter := counter + 1;
      var id := counter;
      members := Add(members, id, now);
      var count := CountFrom(members, now - window);
      membersExpire := redisNow + TimeToLive(window);
      counterExpire := redisNow + TimeToLive(window);
      if count <= limit {
        r := CheckResult(true, limit - count, limit, limit - count);
      } else {
        members := Without(members, id);
        var retryAfter := 0;
        if members != [] {
          retryAfter := CeilDiv(members[0].score + window - now, 1000);
        }
        r := CheckResult(false, retryAfter, limit, 0);
      }
      history, redisTime := history + [Entry(now, r.allowed)], redisNow;
      if Ordered(past) && Conforms(past, limit, window) && Reflects(before, past, pastTime, window)
         && InStep(past, pastTime, now, redisNow, window) {
        ScriptRefinesHistory(before, past, pastTime, now, redisNow, limit, window);
      }
    }
  }

  lemma ScriptIs(k: Keys, now: nat, redisNow: nat, limit: int, window: nat)
    ensures var z := RemoveUpTo(if k.membersExpire <= redisNow then [] else k.members, now - window);
            var id := (if k.counterExpire <= redisNow then 0 else k.counter) + 1;
            var added, expire := Add(z, id, now), redisNow + TimeToLive(window);
            var count := CountFrom(added, now - window);
            Script(k, now, redisNow, limit, window)
            == if count <= limit then
                 (Keys(added, expire, id, expire), CheckResult(true, limit - count, limit, limit - count))
               else
                 var left := Without(added, id);
                 (Keys(left, expire, id, expire),
                  CheckResult(false, if left == [] then 0 else CeilDiv(left[0].score + window - now, 1000), limit, 0))
  {
    hide Without, Add, RemoveUpTo, CountFrom, TimeToLive;
  }

  // ---------------------------------------------------------------- the script decides by the history

  /** Pruned, the sorted set holds exactly what is live; and it is not yet due to expire. */
  ghost predicate Reflects(k: Keys, history: seq<Entry>, redisTime: nat, window: nat) {
    var last := LastTime(history);
    Scores(RemoveUpTo(k.members, last - window)) == Live(history, last - window)
    && Bounded(k.members, k.counter, last)
    && (k.members != [] ==> k.counterExpire >= k.membersExpire >= redisTime + TimeToLive(window))
  }

  /**
   The caller's clock does not run backwards; and keys do not expire, by Redis' clock, while a check may still be in
   the window by the caller's.
   */
  predicate InStep(history: seq<Entry>, redisTime: nat, now: nat, redisNow: nat, window: nat) {
    LastTime(history) <= now && (redisNow < redisTime + TimeToLive(window) || now >= LastTime(history) + window)
  }

  /** A check's result as the history has it. */
  predicate DecidedBy(r: CheckResult, history: seq<Entry>, now: nat, limit: int, window: nat) {
    (r.allowed <==> Admits(history, now, limit, window)) && r.limit == limit
    && (r.allowed ==> r.remaining == limit - 1 - |Live(history, now - window)| == r.retryAfterSeconds)
    && (!r.allowed ==>
          r.remaining == 0 && r.retryAfterSeconds == RetryAfter(history + [Entry(now, false)], now, window))
  }

  lemma {:induction false} AfterPrune(k: Keys, history: seq<Entry>, redisTime: nat, now: nat, redisNow: nat,
                                      window: nat)
    requires Ordered(history) && Reflects(k, history, redisTime, window)
             && InStep(history, redisTime, now, redisNow, window)
    ensures var pruned := Pruned(k, now, redisNow, window);
            Scores(pruned) == Live(history, now - window)
            && Bounded(pruned, NextId(k, redisNow) - 1, LastTime(history))
            && forall i :: 0 <= i < |pruned| ==> pruned[i].score > now - window
  {
    hide Live, Scores, RemoveUpTo, Unexpired, Bounded;
    var last, z := LastTime(history), Unexpired(k.members, k.membersExpire, redisNow);
    UnexpiredIs(k.members, k.membersExpire, redisNow);
    PruningKeepsBounds(k.members, now - window, k.counter, last);
    if z == k.members {
      PruningTwice(z, last - window, now - window);
      PruningKeepsLive(RemoveUpTo(z, last - window), history, last - window, now - window);
      if z == [] {
        NothingBounded(z, now - window);
      }
    } else {
      NothingLive(history, now - window);
      NothingBounded(z, now - window);
    }
  }

  lemma UnexpiredIs(z: seq<Member>, expire: int, redisNow: nat)
    ensures if expire <= redisNow then Unexpired(z, expire, redisNow) == [] else Unexpired(z, expire, redisNow) == z
  {
  }

  lemma NothingBounded(z: seq<Member>, hi: int)
    requires z == []
    ensures RemoveUpTo(z, hi) == [] && Scores([]) == [] && forall c, n :: Bounded([], c, n)
  {
  }

  lemma NewMember(z: seq<Member>, counter: nat, last: nat, now: nat, lo: int)
    requires Bounded(z, counter, last) && last <= now && lo <= now
    requires forall i :: 0 <= i < |z| ==> z[i].score > lo
    ensures var added := Add(z, counter + 1, now);
            added == z + [Member(counter + 1, now)] && Without(added, counter + 1) == z
            && CountFrom(added, lo) == |z| + 1
            && RemoveUpTo(z, lo) == z
            && RemoveUpTo(added, lo) == (if now > lo then added else z)
            && Bounded(added, counter + 1, now) && Bounded(z, counter + 1, now)
  {
    hide Add, Without;
    NothingToPrune(z, lo);
    assert (z + [Member(counter + 1, now)])[..|z|] == z;
    AddAndRemove(z, counter + 1, now);
    AllCounted(z + [Member(counter + 1, now)], lo);
  }

  /** Either way the sorted set goes on reflecting the history. */
  lemma {:induction false} AfterCheck(z: seq<Member>, id: nat, history: seq<Entry>, now: nat, redisNow: nat,
                                      window: nat)
    requires Scores(z) == Live(history, now - window)
    requires var added := z + [Member(id, now)];
             RemoveUpTo(z, now - window) == z && RemoveUpTo(added, now - window) == (if window > 0 then added else z)
             && Bounded(added, id, now) && Bounded(z, id, now)
    ensures var expire := redisNow + TimeToLive(window);
            Reflects(Keys(z + [Member(id, now)], expire, id, expire), history + [Entry(now, true)], redisNow, window)
            && Reflects(Keys(z, expire, id, expire), history + [Entry(now, false)], redisNow, window)
  {
    hide Live, Scores, RemoveUpTo, Bounded, TimeToLive;
    OneMoreEntry(history, Entry(now, true), 0, window);
    OneMoreEntry(history, Entry(now, false), 0, window);
    ScoresOneMore(z, Member(id, now));
  }

  /**
   While the clocks keep in step, a check is allowed exactly when fewer than `limit` allowed ones are newer than the
   window, through pruning, removal and expiry; and the keys go on reflecting the history.
   */
  lemma {:induction false} ScriptRefinesHistory(k: Keys, history: seq<Entry>, redisTime: nat, now: nat, redisNow: nat,
                                                limit: int, window: nat)
    requires Ordered(history) && Conforms(history, limit, window)
    requires Reflects(k, history, redisTime, window) && InStep(history, redisTime, now, redisNow, window)
    ensures var (after, r) := Script(k, now, redisNow, limit, window);
            var longer := history + [Entry(now, r.allowed)];
            DecidedBy(r, history, now, limit, window)
            && Ordered(longer) && Conforms(longer, limit, window) && Reflects(after, longer, redisNow, window)
  {
    hide Conforms, Live, Scores, Without, Insert, Add, RemoveUpTo, Bounded, Ordered, Reflects;
    hide CountFrom, Pruned, NextId, TimeToLive;
    var z, id := Pruned(k, now, redisNow, window), NextId(k, redisNow);
    AfterPrune(k, history, redisTime, now, redisNow, window);
    NewMember(z, id - 1, LastTime(history), now, now - window);
    AfterCheck(z, id, history, now, redisNow, window);
    OneMoreEntry(history, Entry(now, true), limit, window);
    OneMoreEntry(history, Entry(now, false), limit, window);
    ScoresLength(z);
    if z != [] {
      FirstScore(z);
    }
  }

  lemma ScoresLength(z: seq<Member>)
    ensures |Scores(z)| == |z|
  {
  }

  lemma {:induction false} FirstScore(z: seq<Member>)
    requires z != []
    ensures Scores(z)[0] == z[0].score
  {
    if |z| > 1 {
      FirstScore(z[..|z| - 1]);
    }
  }
}
