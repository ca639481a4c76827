/** Provider-neutral stream events, and Chat chunks mapped to them (proxy/app/stream_events.py). */
module CanonicalEvents {
  import opened Wrappers
  import opened ChatEvents

  datatype Reason = EndTurn | MaxTokens | ToolUse | ContentFiltered | Cancelled | Failing | Unknown

  datatype Canonical =
    | Started(id: string, model: Option<string>)
    | TextDelta(text: string)
    | ToolStarted(index: nat, callId: string, name: string)
    | ToolArgs(index: nat, delta: string)
    | UsageUpdated(input: Option<nat>, output: Option<nat>, total: Option<nat>)
    | Completed(reason: Reason)
    | Failed(kind: string, message: string)

  function TextOf(events: seq<Canonical>): string {
    if events == [] then ""
    else
      var e := events[|events| - 1];
      TextOf(events[..|events| - 1]) + if e.TextDelta? then e.text else ""
  }

  function ArgsOf(events: seq<Canonical>, k: nat): string {
    if events == [] then ""
    else
      var e := events[|events| - 1];
      ArgsOf(events[..|events| - 1], k) + if e.ToolArgs? && e.index == k then e.delta else ""
  }

  predicate FailedOnlyLast(events: seq<Canonical>) {
    forall i :: 0 <= i < |events| - 1 ==> !events[i].Failed?
  }

  lemma OneMore(events: seq<Canonical>, e: Canonical, k: nat)
    ensures TextOf(events + [e]) == TextOf(events) + if e.TextDelta? then e.text else ""
    ensures ArgsOf(events + [e], k) == ArgsOf(events, k) + if e.ToolArgs? && e.index == k then e.delta else ""
  {
    assert (events + [e])[..|events|] == events;
  }

  lemma TextLast(s: seq<Canonical>)
    requires s != []
    ensures TextOf(s) == TextOf(s[..|s| - 1]) + if s[|s| - 1].TextDelta? then s[|s| - 1].text else ""
  {
  }

  lemma ArgsLast(s: seq<Canonical>, k: nat)
    requires s != []
    ensures var e := s[|s| - 1];
            ArgsOf(s, k) == ArgsOf(s[..|s| - 1], k) + if e.ToolArgs? && e.index == k then e.delta else ""
  {
  }

  lemma {:induction false} TextAppend(a: seq<Canonical>, b: seq<Canonical>)
    ensures TextOf(a + b) == TextOf(a) + TextOf(b)
    decreases |b|
  {
    if b == [] {
      assert a + b == a;
    } else {
      hide TextOf;
      var n := |b| - 1;
      TextLast(a + b);
      TextLast(b);
      TextAppend(a, b[..n]);
      assert (a + b)[..|a| + n] == a + b[..n];
      Associate(TextOf(a), TextOf(b[..n]), if b[n].TextDelta? then b[n].text else "");
    }
  }

  lemma {:induction false} ArgsAppend(a: seq<Canonical>, b: seq<Canonical>, k: nat)
    ensures ArgsOf(a + b, k) == ArgsOf(a, k) + ArgsOf(b, k)
    decreases |b|
  {
    if b == [] {
      assert a + b == a;
    } else {
      hide ArgsOf;
      var n := |b| - 1;
      ArgsLast(a + b, k);
      ArgsLast(b, k);
      ArgsAppend(a, b[..n], k);
      assert (a + b)[..|a| + n] == a + b[..n];
      Associate(ArgsOf(a, k), ArgsOf(b[..n], k), if b[n].ToolArgs? && b[n].index == k then b[n].delta else "");
    }
  }

  // ---------------------------------------------------------------- Chat chunks to canonical events

  function ReasonOf(finish: FinishReason): Reason {
    match finish
    case Stop => EndTurn
    case Length => MaxTokens
    case ToolCalls => ToolUse
    case FunctionCall => ToolUse
    case ContentFilter => ContentFiltered
  }

  function FailedOf(e: RawError): Canonical {
    match e
    case ErrorObject(kind, message) =>
      Failed(if kind.Some? then kind.value else "provider_stream_error",
             if message.Some? then message.value else "Provider stream failed")
    case ErrorValue(_) => Failed("provider_stream_error", "Provider stream failed")
  }

  predicate StartsCall(d: ToolCallDelta) {
    d.id.Some? || (d.function_.Some? && d.function_.value.name.Some?)
  }

  function ToolEvents(d: ToolCallDelta): seq<Canonical> {
    (if StartsCall(d) then [ToolStarted(d.index, OrEmpty(d.id), NameOf(d))] else [])
    + (if ArgumentsOf(d) == "" then [] else [ToolArgs(d.index, ArgumentsOf(d))])
  }

  function CallEvents(ds: seq<ToolCallDelta>): seq<Canonical> {
    if ds == [] then [] else CallEvents(ds[..|ds| - 1]) + ToolEvents(ds[|ds| - 1])
  }

  function ChoiceEvents(c: Choice): seq<Canonical> {
    (if OrEmpty(c.content) == "" then [] else [TextDelta(OrEmpty(c.content))])
    + CallEvents(c.toolCalls)
    + (if c.finish.None? then [] else [Completed(ReasonOf(c.finish.value))])
  }

  function UsageEvents(u: Option<Usage>): seq<Canonical> {
    if u.None? then []
    else [UsageUpdated(Some(u.value.promptTokens), Some(u.value.completionTokens), Some(u.value.totalTokens))]
  }

  /** Canonical events of one Chat event; only the first announces the message. */
  function EventsOfOne(first: bool, e: ChatEvent): seq<Canonical> {
    match e
    case Failure(error) => [FailedOf(error)]
    case Data(chunk) =>
      (if first then [Started(chunk.id, Some(chunk.model))] else [])
      + UsageEvents(chunk.usage)
      + (if chunk.choices == [] then [] else ChoiceEvents(chunk.choices[0]))
  }

  function CanonicalOf(events: seq<ChatEvent>): seq<Canonical> {
    if events == [] then []
    else CanonicalOf(events[..|events| - 1]) + EventsOfOne(|events| == 1, events[|events| - 1])
  }

  /** Sending an event only when there is one. */
  function Sending(sent: seq<Canonical>, wanted: bool, e: Canonical): seq<Canonical> {
    if wanted then sent + [e] else sent
  }

  lemma SendTool(sent: seq<Canonical>, d: ToolCallDelta)
    ensures Sending(Sending(sent, StartsCall(d), ToolStarted(d.index, OrEmpty(d.id), NameOf(d))),
                    ArgumentsOf(d) != "", ToolArgs(d.index, ArgumentsOf(d)))
         == sent + ToolEvents(d)
  {
    hide OrEmpty, NameOf, ArgumentsOf, StartsCall;
  }

  lemma SendNextCall(head: seq<Canonical>, calls: seq<ToolCallDelta>, j: nat)
    requires j < |calls|
    ensures head + CallEvents(calls[..j + 1]) == head + CallEvents(calls[..j]) + ToolEvents(calls[j])
  {
    hide ToolEvents;
    assert calls[..j + 1][..j] == calls[..j];
  }

  lemma SendWholeChoice(sent: seq<Canonical>, c: Choice)
    ensures var head := Sending(sent, OrEmpty(c.content) != "", TextDelta(OrEmpty(c.content)));
            var calls := head + CallEvents(c.toolCalls);
            (if c.finish.None? then calls else calls + [Completed(ReasonOf(c.finish.value))]) == sent + ChoiceEvents(c)
  {
    hide OrEmpty, CallEvents, ReasonOf;
  }

  /** The part of the loop that reads a chunk's first choice. */
  method SendChoice(sent: seq<Canonical>, choice: Choice) returns (out: seq<Canonical>)
    ensures out == sent + ChoiceEvents(choice)
  {
    hide OrEmpty, NameOf, ArgumentsOf, StartsCall, ToolEvents, CallEvents, ChoiceEvents;
    out := sent;
    if OrEmpty(choice.content) != "" {
      out := out + [TextDelta(OrEmpty(choice.content))];
    }
    ghost var head := out;
    NoCalls(head, choice.toolCalls);
    var j := 0;
    while j < |choice.toolCalls|
      invariant 0 <= j <= |choice.toolCalls| && out == head + CallEvents(choice.toolCalls[..j])
    {
      var d := choice.toolCalls[j];
      SendNextCall(head, choice.toolCalls, j);
      SendTool(out, d);
      if StartsCall(d) {
        out := out + [ToolStarted(d.index, OrEmpty(d.id), NameOf(d))];
      }
      if ArgumentsOf(d) != "" {
        out := out + [ToolArgs(d.index, ArgumentsOf(d))];
      }
      j := j + 1;
    }
    assert choice.toolCalls[..j] == choice.toolCalls;
    SendWholeChoice(sent, choice);
    if choice.finish.Some? {
      out := out + [Completed(ReasonOf(choice.finish.value))];
    }
  }

  lemma NoCalls(head: seq<Canonical>, calls: seq<ToolCallDelta>)
    ensures head + CallEvents(calls[..0]) == head
  {
  }

  lemma SendOne(events: seq<ChatEvent>, i: nat)
    requires i < |events|
    ensures var sent := CanonicalOf(events[..i]);
            match events[i]
            case Failure(error) => CanonicalOf(events[..i + 1]) == sent + [FailedOf(error)]
            case Data(chunk) =>
              var head := Sending(sent, i == 0, Started(chunk.id, Some(chunk.model)));
              var usage := if chunk.usage.None? then head else head + UsageEvents(chunk.usage);
              CanonicalOf(events[..i + 1])
              == if chunk.choices == [] then usage else usage + ChoiceEvents(chunk.choices[0])
  {
    hide FailedOf, ChoiceEvents, UsageEvents;
    assert events[..i + 1][..i] == events[..i];
    var sent := CanonicalOf(events[..i]);
    assert sent + [] == sent;
    if events[i].Data? {
      var chunk := events[i].chunk;
      var first, choice := if i == 0 then [Started(chunk.id, Some(chunk.model))] else [],
                           if chunk.choices == [] then [] else ChoiceEvents(chunk.choices[0]);
      Associate(sent, first + UsageEvents(chunk.usage), choice);
      Associate(sent, first, UsageEvents(chunk.usage));
      NoUsage(chunk.usage);
    }
  }

  lemma NoUsage(u: Option<Usage>)
    ensures u.None? ==> UsageEvents(u) == []
  {
  }

  method IterCanonicalEvents(events: seq<ChatEvent>) returns (out: seq<Canonical>)
    requires FailureOnlyLast(events)
    ensures out == CanonicalOf(events)
  {
    hide FailedOf, ChoiceEvents, CanonicalOf;
    out := [];
    var started := false;
    var i := 0;
    NoEvents(events);
    while i < |events|
      invariant 0 <= i <= |events| && out == CanonicalOf(events[..i])
      invariant started <==> i > 0
    {
      SendOne(events, i);
      if events[i].Failure? {
        assert events[..i + 1] == events;
        return out + [FailedOf(events[i].error)];
      }
      var chunk := events[i].chunk;
      if !started {
        out := out + [Started(chunk.id, Some(chunk.model))];
        started := true;
      }
      if chunk.usage.Some? {
        var u := chunk.usage.value;
        out := out + [UsageUpdated(Some(u.promptTokens), Some(u.completionTokens), Some(u.totalTokens))];
      }
      if chunk.choices != [] {
        out := SendChoice(out, chunk.choices[0]);
      }
      i := i + 1;
    }
    assert events[..i] == events;
  }

  lemma NoEvents(events: seq<ChatEvent>)
    ensures CanonicalOf(events[..0]) == []
  {
  }

  lemma OneTool(d: ToolCallDelta, k: nat)
    ensures TextOf(ToolEvents(d)) == "" && ArgsOf(ToolEvents(d), k) == if d.index == k then ArgumentsOf(d) else ""
  {
    hide ArgumentsOf, NameOf, OrEmpty, StartsCall;
    Single(ToolStarted(d.index, OrEmpty(d.id), NameOf(d)), k);
    Single(ToolArgs(d.index, ArgumentsOf(d)), k);
    var head := if StartsCall(d) then [ToolStarted(d.index, OrEmpty(d.id), NameOf(d))] else [];
    var tail := if ArgumentsOf(d) == "" then [] else [ToolArgs(d.index, ArgumentsOf(d))];
    TextAppend(head, tail);
    ArgsAppend(head, tail, k);
  }

  lemma Single(e: Canonical, k: nat)
    ensures TextOf([e]) == (if e.TextDelta? then e.text else "")
    ensures ArgsOf([e], k) == if e.ToolArgs? && e.index == k then e.delta else ""
    ensures TextOf([]) == "" && ArgsOf([], k) == ""
  {
    assert [e][..0] == [];
  }

  lemma {:induction false} CallsKeepArguments(ds: seq<ToolCallDelta>, k: nat)
    ensures TextOf(CallEvents(ds)) == "" && ArgsOf(CallEvents(ds), k) == Fragments(ds, k)
  {
    hide ToolEvents, ArgumentsOf;
    if ds != [] {
      var n := |ds| - 1;
      CallsKeepArguments(ds[..n], k);
      OneTool(ds[n], k);
      TextAppend(CallEvents(ds[..n]), ToolEvents(ds[n]));
      ArgsAppend(CallEvents(ds[..n]), ToolEvents(ds[n]), k);
    }
  }

  lemma ChoiceKeepsContent(c: Choice, k: nat)
    ensures TextOf(ChoiceEvents(c)) == OrEmpty(c.content) && ArgsOf(ChoiceEvents(c), k) == Fragments(c.toolCalls, k)
  {
    hide OrEmpty, CallEvents, Fragments, TextOf, ArgsOf, ReasonOf;
    var text := if OrEmpty(c.content) == "" then [] else [TextDelta(OrEmpty(c.content))];
    var calls := CallEvents(c.toolCalls);
    var end := if c.finish.None? then [] else [Completed(ReasonOf(c.finish.value))];
    NothingHeld(k);
    Single(TextDelta(OrEmpty(c.content)), k);
    if c.finish.Some? {
      Single(Completed(ReasonOf(c.finish.value)), k);
    }
    CallsKeepArguments(c.toolCalls, k);
    TextAppend(text, calls);
    ArgsAppend(text, calls, k);
    TextAppend(text + calls, end);
    ArgsAppend(text + calls, end, k);
  }

  lemma {:induction false} FragmentsAppend(a: seq<ToolCallDelta>, b: seq<ToolCallDelta>, k: nat)
    ensures Fragments(a + b, k) == Fragments(a, k) + Fragments(b, k)
    decreases |b|
  {
    hide ArgumentsOf;
    if b == [] {
      assert a + b == a;
    } else {
      var n := |b| - 1;
      FragmentsAppend(a, b[..n], k);
      assert (a + b)[..|a| + n] == a + b[..n];
    }
  }

  lemma OneEventKeepsContent(first: bool, e: ChatEvent, k: nat)
    ensures TextOf(EventsOfOne(first, e))
         == if e.Data? && e.chunk.choices != [] then OrEmpty(e.chunk.choices[0].content) else ""
    ensures ArgsOf(EventsOfOne(first, e), k)
         == if e.Data? && e.chunk.choices != [] then Fragments(e.chunk.choices[0].toolCalls, k) else ""
  {
    hide OrEmpty, Fragments, ChoiceEvents, FailedOf, TextOf, ArgsOf;
    NothingHeld(k);
    match e
    case Failure(error) => Single(FailedOf(error), k); FailedIsNoContent(error);
    case Data(chunk) =>
      var head := if first then [Started(chunk.id, Some(chunk.model))] else [];
      var usage := UsageEvents(chunk.usage);
      var choice := if chunk.choices == [] then [] else ChoiceEvents(chunk.choices[0]);
      Single(Started(chunk.id, Some(chunk.model)), k);
      if chunk.usage.Some? {
        Single(UsageEvents(chunk.usage)[0], k);
      }
      if chunk.choices != [] {
        ChoiceKeepsContent(chunk.choices[0], k);
      }
      TextAppend(head, usage);
      ArgsAppend(head, usage, k);
      TextAppend(head + usage, choice);
      ArgsAppend(head + usage, choice, k);
  }

  lemma FailedIsNoContent(e: RawError)
    ensures FailedOf(e).Failed?
  {
  }

  /** Text and the arguments of every tool call pass through unchanged. */
  lemma {:induction false} ContentPassesThrough(events: seq<ChatEvent>, k: nat)
    ensures TextOf(CanonicalOf(events)) == AllText(events)
    ensures ArgsOf(CanonicalOf(events), k) == Fragments(AllToolCalls(events), k)
  {
    hide OrEmpty, Fragments, EventsOfOne, TextOf, ArgsOf;
    if events == [] {
      NothingHeld(k);
    } else {
      var n := |events| - 1;
      var one := EventsOfOne(n == 0, events[n]);
      ContentPassesThrough(events[..n], k);
      OneEventKeepsContent(n == 0, events[n], k);
      TextAppend(CanonicalOf(events[..n]), one);
      ArgsAppend(CanonicalOf(events[..n]), one, k);
      if events[n].Data? && events[n].chunk.choices != [] {
        FragmentsAppend(AllToolCalls(events[..n]), events[n].chunk.choices[0].toolCalls, k);
      } else {
        assert AllToolCalls(events[..n]) + [] == AllToolCalls(events[..n]);
        assert AllText(events[..n]) + "" == AllText(events[..n]);
      }
    }
  }

  lemma NothingHeld(k: nat)
    ensures TextOf([]) == "" && ArgsOf([], k) == "" && Fragments([], k) == ""
  {
  }

  lemma {:induction false} CallsDoNotFail(ds: seq<ToolCallDelta>)
    ensures forall i :: 0 <= i < |CallEvents(ds)| ==> !CallEvents(ds)[i].Failed?
  {
    hide ArgumentsOf, NameOf, OrEmpty, StartsCall;
    if ds != [] {
      CallsDoNotFail(ds[..|ds| - 1]);
    }
  }

  lemma ChoicesDoNotFail(first: bool, e: ChatEvent)
    requires e.Data?
    ensures forall x :: x in EventsOfOne(first, e) ==> !x.Failed?
  {
    hide CallEvents, OrEmpty;
    if e.chunk.choices != [] {
      CallsDoNotFail(e.chunk.choices[0].toolCalls);
      var calls := CallEvents(e.chunk.choices[0].toolCalls);
      assert forall x :: x in calls ==> !x.Failed?;
    }
  }

  lemma {:induction false} DataDoesNotFail(events: seq<ChatEvent>)
    requires forall i :: 0 <= i < |events| ==> events[i].Data?
    ensures forall x :: x in CanonicalOf(events) ==> !x.Failed?
  {
    hide EventsOfOne;
    if events != [] {
      var n := |events| - 1;
      assert forall i :: 0 <= i < n ==> events[..n][i] == events[i];
      DataDoesNotFail(events[..n]);
      ChoicesDoNotFail(n == 0, events[n]);
    }
  }

  /** A failure is the last event. */
  lemma FailureStaysLast(events: seq<ChatEvent>)
    requires FailureOnlyLast(events)
    ensures FailedOnlyLast(CanonicalOf(events))
  {
    hide EventsOfOne;
    if events == [] {
    } else {
      var n := |events| - 1;
      assert forall i :: 0 <= i < n ==> events[..n][i] == events[i];
      DataDoesNotFail(events[..n]);
      var before := CanonicalOf(events[..n]);
      assert forall i :: 0 <= i < |before| ==> before[i] in before;
      var last := EventsOfOne(n == 0, events[n]);
      if events[n].Data? {
        ChoicesDoNotFail(n == 0, events[n]);
        assert forall i :: 0 <= i < |last| ==> last[i] in last;
      } else {
        OneFailure(n == 0, events[n]);
      }
    }
  }

  lemma OneFailure(first: bool, e: ChatEvent)
    requires e.Failure?
    ensures |EventsOfOne(first, e)| == 1
  {
  }
}
