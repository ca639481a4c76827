/** A Responses stream read next to the Chat chunks it comes from: the ids and names of its calls. */
module ResponsesFromChat {
  import opened Wrappers
  import opened ChatEvents
  import opened CanonicalEvents
  import opened CanonicalContents
  import opened ResponsesStream

  /** The first delta of call `k` that has an id or a name. */
  function FirstHead(ds: seq<ToolCallDelta>, k: nat): Option<ToolCallDelta> {
    if ds == [] then None
    else if ds[0].index == k && (ds[0].id.Some? || GivenName(ds[0]).Some?) then Some(ds[0])
    else FirstHead(ds[1..], k)
  }

  /** All that the deltas of call `k` give of its name. */
  function Names(ds: seq<ToolCallDelta>, k: nat): string {
    if ds == [] then ""
    else (match GivenName(ds[0]) case Some(name) => if ds[0].index == k then name else "" case None => "")
         + Names(ds[1..], k)
  }

  lemma {:induction false} StartAppend(a: seq<Canonical>, b: seq<Canonical>, k: nat)
    ensures FirstStart(a + b, k) == if FirstStart(a, k).Some? then FirstStart(a, k) else FirstStart(b, k)
    ensures FullName(a + b, k) == FullName(a, k) + FullName(b, k)
    decreases |b|
  {
    if b == [] {
      assert a + b == a;
    } else {
      var n := |b| - 1;
      StartAppend(a, b[..n], k);
      assert (a + b)[..|a| + n] == a + b[..n];
      Associate(FullName(a, k), FullName(b[..n], k), if Starts(b[n], k) then b[n].name else "");
    }
  }

  /** Only tool events say how a call starts. */
  lemma {:induction false} StartsAreToolEvents(events: seq<Canonical>, k: nat)
    ensures FirstStart(Only(events, OfTools), k) == FirstStart(events, k)
    ensures FullName(Only(events, OfTools), k) == FullName(events, k)
  {
    if events != [] {
      var n := |events| - 1;
      StartsAreToolEvents(events[..n], k);
      var more := if OfTools(events[n]) then [events[n]] else [];
      StartAppend(Only(events[..n], OfTools), more, k);
      StartOfOne(events[n], k);
    }
  }

  lemma StartOfOne(e: Canonical, k: nat)
    ensures FirstStart([e], k) == (if Starts(e, k) then Some(e) else None)
    ensures FullName([e], k) == if Starts(e, k) then e.name else ""
    ensures FirstStart([], k) == None && FullName([], k) == ""
  {
    assert [e][..0] == [];
  }

  function HeadOf(d: ToolCallDelta): Canonical {
    ToolStarted(d.index, if d.id.Some? then d.id.value else "", if GivenName(d).Some? then GivenName(d).value else "")
  }

  lemma {:induction false} DeltaToldStart(d: ToolCallDelta, k: nat)
    ensures FirstStart(DeltaTold(d), k)
         == if d.index == k && (d.id.Some? || GivenName(d).Some?) then Some(HeadOf(d)) else None
    ensures FullName(DeltaTold(d), k)
         == if d.index == k && GivenName(d).Some? then GivenName(d).value else ""
  {
    hide GivenName, GivenArguments, FirstStart, FullName;
    var start, args := StartTold(d), if GivenArguments(d) == "" then [] else [ToolArgs(d.index, GivenArguments(d))];
    StartAppend(start, args, k);
    StartOfOne(HeadOf(d), k);
    StartOfOne(ToolArgs(d.index, GivenArguments(d)), k);
    assert start == if d.id.Some? || GivenName(d).Some? then [HeadOf(d)] else [];
  }

  lemma {:induction false} ToolsToldStart(ds: seq<ToolCallDelta>, k: nat)
    ensures FullName(ToolsTold(ds), k) == Names(ds, k)
    ensures FirstStart(ToolsTold(ds), k)
         == if FirstHead(ds, k).Some? then Some(HeadOf(FirstHead(ds, k).value)) else None
  {
    hide GivenName, DeltaTold, HeadOf, FirstStart, FullName;
    StartOfOne(Completed(EndTurn), k);
    if ds != [] {
      ToolsToldStart(ds[1..], k);
      DeltaToldStart(ds[0], k);
      StartAppend(DeltaTold(ds[0]), ToolsTold(ds[1..]), k);
    }
  }

  /**
   From the Chat chunks on: a finished call has the id that its first delta with an id or a name gives, and the name
   that all its deltas give together.
   */
  lemma {:induction false} ChatCallsArrive(chat: seq<ChatEvent>, events: seq<Canonical>, item: Item, p: nat, id: nat,
                                           k: nat)
    requires events == CanonicalOf(chat) && IsFinal(item, events, p, id) && Added(events)[p] == CallKey(k)
    ensures item.CallItem? && item.name == Names(AllToolCalls(chat), k)
    ensures var head := FirstHead(AllToolCalls(chat), k);
            item.callId == if head.Some? && head.value.id.Some? then head.value.id.value else ""
  {
    hide CanonicalOf, Added, AllToolCalls, FirstHead, Names, ToolsTold, FirstStart, FullName, Only;
    AllIsTold(chat);
    StartsAreToolEvents(events, k);
    ToolsToldStart(AllToolCalls(chat), k);
  }
}
