/**
 What canonical events say besides text and arguments, told from the Chat chunks alone: which calls are started, with
 what id and name, and the reasons, token counts and announcements (proxy/app/stream_events.py).
 */
module CanonicalContents {
  import opened Wrappers
  import opened ChatEvents
  import opened CanonicalEvents

  // ---------------------------------------------------------------- picking events

  /** The events of one sort, in order. */
  function Only(events: seq<Canonical>, sort: Canonical -> bool): seq<Canonical> {
    if events == [] then []
    else
      var e := events[|events| - 1];
      Only(events[..|events| - 1], sort) + if sort(e) then [e] else []
  }

  predicate OfTools(e: Canonical) { e.ToolStarted? || e.ToolArgs? }

  predicate OfStart(e: Canonical) { e.Started? }

  predicate OfUsage(e: Canonical) { e.UsageUpdated? }

  predicate OfText(e: Canonical) { e.TextDelta? }

  predicate OfEnd(e: Canonical) { e.Completed? || e.Failed? }

  lemma LastPicked(events: seq<Canonical>, sort: Canonical -> bool)
    requires events != []
    ensures var n := |events| - 1;
            Only(events, sort) == Only(events[..n], sort) + if sort(events[n]) then [events[n]] else []
  {
  }

  lemma {:induction false} OnlyAppend(a: seq<Canonical>, b: seq<Canonical>, sort: Canonical -> bool)
    ensures Only(a + b, sort) == Only(a, sort) + Only(b, sort)
    decreases |b|
  {
    if b == [] {
      assert a + b == a;
    } else {
      hide Only;
      var n := |b| - 1;
      OnlyAppend(a, b[..n], sort);
      assert (a + b)[..|a| + n] == a + b[..n];
      LastPicked(a + b, sort);
      LastPicked(b, sort);
      Associate(Only(a, sort), Only(b[..n], sort), if sort(b[n]) then [b[n]] else []);
    }
  }

  ghost predicate AllAre(events: seq<Canonical>, sort: Canonical -> bool) {
    forall i :: 0 <= i < |events| ==> sort(events[i])
  }

  ghost predicate NoneAre(events: seq<Canonical>, sort: Canonical -> bool) {
    forall i :: 0 <= i < |events| ==> !sort(events[i])
  }

  lemma {:induction false} AllOf(events: seq<Canonical>, sort: Canonical -> bool)
    requires AllAre(events, sort)
    ensures Only(events, sort) == events
  {
    if events != [] {
      var n := |events| - 1;
      LastPicked(events, sort);
      AllOf(events[..n], sort);
      hide Only;
      assert events == events[..n] + [events[n]];
    }
  }

  lemma {:induction false} NoneOf(events: seq<Canonical>, sort: Canonical -> bool)
    requires NoneAre(events, sort)
    ensures Only(events, sort) == []
  {
    if events != [] {
      NoneOf(events[..|events| - 1], sort);
    }
  }

  /** Of three parts only the middle one is of the sort. */
  lemma OnlyMiddle(a: seq<Canonical>, b: seq<Canonical>, c: seq<Canonical>, sort: Canonical -> bool)
    requires NoneAre(a, sort) && AllAre(b, sort) && NoneAre(c, sort)
    ensures Only(a + b + c, sort) == b
  {
    OnlyAppend(a, b, sort);
    OnlyAppend(a + b, c, sort);
    NoneOf(a, sort);
    AllOf(b, sort);
    NoneOf(c, sort);
    assert [] + b + [] == b;
  }

  // ---------------------------------------------------------------- told from the chunks

  function GivenName(d: ToolCallDelta): Option<string> {
    match d.function_
    case None => None
    case Some(f) => f.name
  }

  function GivenArguments(d: ToolCallDelta): string {
    match d.function_
    case Some(FunctionDelta(_, Some(text))) => text
    case _ => ""
  }

  function StartTold(d: ToolCallDelta): seq<Canonical> {
    match (d.id, GivenName(d))
    case (None, None) => []
    case (Some(id), None) => [ToolStarted(d.index, id, "")]
    case (None, Some(name)) => [ToolStarted(d.index, "", name)]
    case (Some(id), Some(name)) => [ToolStarted(d.index, id, name)]
  }

  /** A delta with an id or a name starts its call, with what it has of them; its own arguments, if any, come next. */
  function DeltaTold(d: ToolCallDelta): seq<Canonical> {
    StartTold(d) + if GivenArguments(d) == "" then [] else [ToolArgs(d.index, GivenArguments(d))]
  }

  function ToolsTold(ds: seq<ToolCallDelta>): seq<Canonical> {
    if ds == [] then [] else DeltaTold(ds[0]) + ToolsTold(ds[1..])
  }

  /** Only the first event announces the message. */
  function StartsTold(events: seq<ChatEvent>): seq<Canonical> {
    if events != [] && events[0].Data? then [Started(events[0].chunk.id, Some(events[0].chunk.model))] else []
  }

  function UsageTold(e: ChatEvent): seq<Canonical> {
    match e
    case Data(Chunk(_, _, _, Some(Usage(prompt, completion, total)))) =>
      [UsageUpdated(Some(prompt), Some(completion), Some(total))]
    case _ => []
  }

  function EndTold(e: ChatEvent): seq<Canonical> {
    match e
    case Failure(ErrorObject(Some(kind), Some(message))) => [Failed(kind, message)]
    case Failure(ErrorObject(Some(kind), None)) => [Failed(kind, "Provider stream failed")]
    case Failure(ErrorObject(None, Some(message))) => [Failed("provider_stream_error", message)]
    case Failure(_) => [Failed("provider_stream_error", "Provider stream failed")]
    case Data(chunk) =>
      if chunk.choices == [] then []
      else match chunk.choices[0].finish
        case None => []
        case Some(Stop) => [Completed(EndTurn)]
        case Some(Length) => [Completed(MaxTokens)]
        case Some(ContentFilter) => [Completed(ContentFiltered)]
        case Some(_) => [Completed(ToolUse)]
  }

  /** Event by event. */
  function EachTold(events: seq<ChatEvent>, tell: ChatEvent -> seq<Canonical>): seq<Canonical> {
    if events == [] then [] else tell(events[0]) + EachTold(events[1..], tell)
  }

  lemma {:induction false} ToolsToldAppend(a: seq<ToolCallDelta>, b: seq<ToolCallDelta>)
    ensures ToolsTold(a + b) == ToolsTold(a) + ToolsTold(b)
  {
    hide DeltaTold;
    if a == [] {
      assert a + b == b;
    } else {
      ToolsToldAppend(a[1..], b);
      assert (a + b)[1..] == a[1..] + b;
      Associate(DeltaTold(a[0]), ToolsTold(a[1..]), ToolsTold(b));
    }
  }

  lemma {:induction false} OneMoreTold(events: seq<ChatEvent>, e: ChatEvent, tell: ChatEvent -> seq<Canonical>)
    ensures EachTold(events + [e], tell) == EachTold(events, tell) + tell(e)
  {
    if events == [] {
      assert [e][1..] == [] && [] + [e] == [e];
    } else {
      OneMoreTold(events[1..], e, tell);
      assert (events + [e])[1..] == events[1..] + [e];
      Associate(tell(events[0]), EachTold(events[1..], tell), tell(e));
    }
  }

  // ---------------------------------------------------------------- the translation says the same

  lemma {:induction false} ToolIsTold(d: ToolCallDelta)
    ensures ToolEvents(d) == ToolsTold([d]) && AllAre(ToolEvents(d), OfTools)
  {
    assert [d][1..] == [];
  }

  lemma {:induction false} CallsAreTold(ds: seq<ToolCallDelta>)
    ensures CallEvents(ds) == ToolsTold(ds) && AllAre(CallEvents(ds), OfTools)
  {
    hide ToolEvents, ToolsTold;
    if ds == [] {
      NoCallTold();
    } else {
      var n := |ds| - 1;
      CallsAreTold(ds[..n]);
      ToolIsTold(ds[n]);
      ToolsToldAppend(ds[..n], [ds[n]]);
      assert ds[..n] + [ds[n]] == ds;
    }
  }

  lemma NoCallTold()
    ensures ToolsTold([]) == []
  {
  }

  /** The parts of what a chunk gives. */
  lemma {:induction false} PartsOf(start: seq<Canonical>, usage: seq<Canonical>, text: seq<Canonical>,
                                   calls: seq<Canonical>, end: seq<Canonical>)
    requires AllAre(start, OfStart) && AllAre(usage, OfUsage) && AllAre(text, OfText)
    requires AllAre(calls, OfTools) && AllAre(end, OfEnd)
    ensures var all := start + usage + (text + calls + end);
            Only(all, OfStart) == start && Only(all, OfUsage) == usage
            && Only(all, OfTools) == calls && Only(all, OfEnd) == end
  {
    hide Only;
    Regrouped(start, usage, text, calls, end);
    OnlyMiddle([], start, usage + text + calls + end, OfStart);
    OnlyMiddle(start, usage, text + calls + end, OfUsage);
    OnlyMiddle(start + usage + text, calls, end, OfTools);
    OnlyMiddle(start + usage + text + calls, end, [], OfEnd);
  }

  lemma Regrouped<T>(a: seq<T>, b: seq<T>, c: seq<T>, d: seq<T>, e: seq<T>)
    ensures var all := a + b + (c + d + e);
            all == [] + a + (b + c + d + e) && all == (a + b + c) + d + e && all == (a + b + c + d) + e + []
  {
  }

  /** The events that one chunk gives, by sort. */
  lemma {:induction false} OneIsTold(first: bool, e: ChatEvent)
    requires e.Data?
    ensures var es := EventsOfOne(first, e);
            Only(es, OfTools) == ToolsOf(e)
            && Only(es, OfStart) == (if first then [Started(e.chunk.id, Some(e.chunk.model))] else [])
            && Only(es, OfUsage) == UsageEvents(e.chunk.usage)
            && Only(es, OfEnd) == EndTold(e)
  {
    hide ToolsTold, OrEmpty, CallEvents, Only, OfStart, OfUsage, OfTools, OfEnd;
    var chunk := e.chunk;
    var start := if first then [Started(chunk.id, Some(chunk.model))] else [];
    var usage := UsageEvents(chunk.usage);
    if chunk.choices == [] {
      PartsAre(start, usage, [], []);
      PartsOf(start, usage, [], [], []);
      assert start + usage + ([] + [] + []) == start + usage + [];
    } else {
      var c := chunk.choices[0];
      var text := if OrEmpty(c.content) == "" then [] else [TextDelta(OrEmpty(c.content))];
      CallsAreTold(c.toolCalls);
      PartsAre(start, usage, text, EndTold(e));
      PartsOf(start, usage, text, CallEvents(c.toolCalls), EndTold(e));
    }
  }

  lemma PartsAre(start: seq<Canonical>, usage: seq<Canonical>, text: seq<Canonical>, end: seq<Canonical>)
    requires |start| <= 1 && |usage| <= 1 && |text| <= 1 && |end| <= 1
    requires (start != [] ==> start[0].Started?) && (usage != [] ==> usage[0].UsageUpdated?)
    requires (text != [] ==> text[0].TextDelta?) && (end != [] ==> end[0].Completed?)
    ensures AllAre(start, OfStart) && AllAre(usage, OfUsage) && AllAre(text, OfText) && AllAre(end, OfEnd)
  {
  }

  lemma {:induction false} FailureIsTold(first: bool, e: ChatEvent)
    requires e.Failure?
    ensures var es := EventsOfOne(first, e);
            es == EndTold(e) && Only(es, OfEnd) == es
            && Only(es, OfTools) == Only(es, OfStart) == Only(es, OfUsage) == []
  {
    var es := EventsOfOne(first, e);
    AllOf(es, OfEnd);
    NoneOf(es, OfTools);
    NoneOf(es, OfStart);
    NoneOf(es, OfUsage);
  }

  lemma UsageIsTold(e: ChatEvent)
    ensures UsageTold(e) == if e.Data? then UsageEvents(e.chunk.usage) else []
  {
  }

  /**
   Tool calls, announcement, token counts, reasons and failures are exactly those that the Chat chunks give, each in
   its order.
   */
  lemma {:induction false} AllIsTold(events: seq<ChatEvent>)
    ensures Only(CanonicalOf(events), OfTools) == ToolsTold(AllToolCalls(events))
    ensures Only(CanonicalOf(events), OfStart) == StartsTold(events)
    ensures Only(CanonicalOf(events), OfUsage) == EachTold(events, UsageTold)
    ensures Only(CanonicalOf(events), OfEnd) == EachTold(events, EndTold)
  {
    hide EventsOfOne, ToolsTold, EachTold, UsageTold, EndTold, OfStart, OfUsage, OfTools, OfEnd, UsageEvents;
    hide Only, StartsTold, AllToolCalls;
    if events == [] {
      NothingTold();
    } else {
      var n := |events| - 1;
      var before, e := events[..n], events[n];
      AllIsTold(before);
      assert events == before + [e];
      OneMoreTold(before, e, UsageTold);
      OneMoreTold(before, e, EndTold);
      FirstIsTold(before, e);
      UsageIsTold(e);
      if e.Data? {
        OneIsTold(n == 0, e);
      } else {
        FailureIsTold(n == 0, e);
      }
      ToolsAdded(before, e);
      var a, b := CanonicalOf(before), EventsOfOne(n == 0, e);
      OnlyAppend(a, b, OfTools);
      OnlyAppend(a, b, OfStart);
      OnlyAppend(a, b, OfUsage);
      OnlyAppend(a, b, OfEnd);
    }
  }

  function ToolsOf(e: ChatEvent): seq<Canonical> {
    if e.Data? && e.chunk.choices != [] then ToolsTold(e.chunk.choices[0].toolCalls) else []
  }

  lemma ToolsAdded(before: seq<ChatEvent>, e: ChatEvent)
    ensures ToolsTold(AllToolCalls(before + [e])) == ToolsTold(AllToolCalls(before)) + ToolsOf(e)
  {
    hide ToolsTold;
    assert (before + [e])[..|before|] == before;
    NoCallTold();
    var more := if e.Data? && e.chunk.choices != [] then e.chunk.choices[0].toolCalls else [];
    ToolsToldAppend(AllToolCalls(before), more);
  }

  lemma FirstIsTold(before: seq<ChatEvent>, e: ChatEvent)
    ensures StartsTold(before + [e])
         == StartsTold(before) + if before == [] && e.Data? then [Started(e.chunk.id, Some(e.chunk.model))] else []
  {
  }

  lemma NothingTold()
    ensures AllToolCalls([]) == [] && ToolsTold([]) == StartsTold([]) == []
    ensures forall tell: ChatEvent -> seq<Canonical> :: EachTold([], tell) == []
    ensures forall sort: Canonical -> bool :: Only([], sort) == []
  {
  }

  /** The order in which a chunk gives its events. */
  function Rank(e: Canonical): nat {
    match e
    case Started(_, _) => 0
    case UsageUpdated(_, _, _) => 1
    case TextDelta(_) => 2
    case ToolStarted(_, _, _) => 3
    case ToolArgs(_, _) => 3
    case Completed(_) => 4
    case Failed(_, _) => 4
  }

  ghost predicate Ranked(es: seq<Canonical>) {
    forall i, j :: 0 <= i < j < |es| ==> Rank(es[i]) <= Rank(es[j])
  }

  lemma RankedConcat(a: seq<Canonical>, b: seq<Canonical>, r: nat)
    requires Ranked(a) && Ranked(b)
    requires (forall i :: 0 <= i < |a| ==> Rank(a[i]) <= r) && (forall i :: 0 <= i < |b| ==> Rank(b[i]) >= r)
    ensures Ranked(a + b)
  {
    hide Rank;
  }

  lemma SameRank(es: seq<Canonical>, r: nat)
    requires forall i :: 0 <= i < |es| ==> Rank(es[i]) == r
    ensures Ranked(es)
  {
    hide Rank;
  }

  /** A chunk announces the message, then reports tokens, then gives its text, its calls, and its reason to end. */
  lemma {:induction false} ChunkInOrder(first: bool, e: ChatEvent)
    ensures Ranked(EventsOfOne(first, e))
  {
    hide OrEmpty, CallEvents, ReasonOf, FailedOf, Ranked;
    match e
    case Failure(error) => SameRank([FailedOf(error)], Rank(FailedOf(error)));
    case Data(chunk) =>
      var start := if first then [Started(chunk.id, Some(chunk.model))] else [];
      var usage := UsageEvents(chunk.usage);
      SameRank(start, 0);
      SameRank(usage, 1);
      SameRank([], 4);
      RankedConcat(start, usage, 1);
      if chunk.choices == [] {
        RankedConcat(start + usage, [], 1);
      } else {
        ChoiceInOrder(chunk.choices[0]);
        RankedConcat(start + usage, ChoiceEvents(chunk.choices[0]), 1);
      }
  }

  lemma {:induction false} ChoiceInOrder(c: Choice)
    ensures Ranked(ChoiceEvents(c)) && forall i :: 0 <= i < |ChoiceEvents(c)| ==> Rank(ChoiceEvents(c)[i]) >= 1
  {
    hide OrEmpty, CallEvents, ReasonOf, Ranked;
    var text := if OrEmpty(c.content) == "" then [] else [TextDelta(OrEmpty(c.content))];
    var end := if c.finish.None? then [] else [Completed(ReasonOf(c.finish.value))];
    var calls := CallEvents(c.toolCalls);
    CallsAreTold(c.toolCalls);
    SameRank(text, 2);
    SameRank(calls, 3);
    SameRank(end, 4);
    RankedConcat(text, calls, 3);
    RankedConcat(text + calls, end, 4);
  }
}
