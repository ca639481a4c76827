/**
 What an Anthropic stream says, line by line and event by event, told without the translator
 (proxy/app/stream_events.py).
 */
module EmittedEvents {
  import opened Wrappers
  import opened CanonicalEvents
  import opened AnthropicToCanonical
  import SseDecoder
  import PrintedStreams

  type Line = PrintedStreams.Line

  // ---------------------------------------------------------------- lines

  /** The events of printed lines, up to the first that is broken or reports an error. */
  function Told(lines: seq<Line>, parse: Parser): Heard {
    if lines == [] then Heard([], None)
    else match lines[0]
      case OtherLine(_) => Told(lines[1..], parse)
      case DataLine(_, body, _) =>
        if body == "" || body == "[DONE]" then Told(lines[1..], parse)
        else match parse(body)
          case Malformed =>
            Heard([], Some(Failed("invalid_upstream_stream", "Provider stream contained malformed JSON")))
          case NotObject =>
            Heard([], Some(Failed("invalid_upstream_stream", "Provider stream event was not a JSON object")))
          case Object(ErrorEvent(kind, message)) => Heard([ErrorEvent(kind, message)], None)
          case Object(e) => Heard([e] + Told(lines[1..], parse).events, Told(lines[1..], parse).broken)
  }

  lemma {:induction false} PrintedIsRead(line: Line, parse: Parser)
    requires PrintedStreams.LineOk(line)
    ensures ReadLine(PrintedStreams.Print(line), parse)
         == match line
            case OtherLine(_) => None
            case DataLine(_, body, _) => if body == "" || body == "[DONE]" then None else Some(parse(body))
  {
    hide SseDecoder.StripLeft, SseDecoder.StripRight;
    match line
    case OtherLine(text) =>
    case DataLine(before, body, after) =>
      var text := PrintedStreams.Print(line);
      assert text[5..] == before + body + after;
      PrintedStreams.BodyIsStripped(before, body, after);
  }

  /** What has been heard, and what is told next. */
  function Then(h: Heard, told: Heard): Heard {
    Heard(h.events + told.events, told.broken)
  }

  lemma TellOne(h: Heard, lines: seq<Line>, parse: Parser)
    requires lines != [] && PrintedStreams.LineOk(lines[0]) && !h.Ended()
    ensures var h' := HearOne(h, ReadLine(PrintedStreams.Print(lines[0]), parse));
            Then(h, Told(lines, parse)) == if h'.Ended() then h' else Then(h', Told(lines[1..], parse))
  {
    hide ReadLine, PrintedStreams.LineOk, PrintedStreams.Print;
    PrintedIsRead(lines[0], parse);
    match lines[0]
    case OtherLine(_) =>
    case DataLine(_, body, _) =>
      assert h.events + [] == h.events;
      if body != "" && body != "[DONE]" && parse(body).Object? {
        Associate(h.events, [parse(body).event], Told(lines[1..], parse).events);
      }
  }

  lemma HearOneMore(before: seq<string>, line: string, rest: seq<string>, parse: Parser)
    requires !Hear(before, parse).Ended()
    ensures var h := HearOne(Hear(before, parse), ReadLine(line, parse));
            Hear(before + [line], parse) == h && (h.Ended() ==> Hear(before + [line] + rest, parse) == h)
  {
    hide ReadLine, HearOne;
    var all := before + [line] + rest;
    assert all[..|before|] == before && all[..|before| + 1] == before + [line] && all[|before|] == line;
    HearNext(all, |before|, parse);
  }

  /** Hearing on after the lines `before`. */
  lemma {:induction false} LinesAreTold(before: seq<string>, lines: seq<Line>, parse: Parser)
    requires PrintedStreams.LinesOk(lines) && !Hear(before, parse).Ended()
    ensures Hear(before + PrintedStreams.Printed(lines), parse) == Then(Hear(before, parse), Told(lines, parse))
    decreases |lines|
  {
    hide ReadLine, PrintedStreams.LineOk, PrintedStreams.Print, Hear, HearOne;
    if lines == [] {
      assert before + PrintedStreams.Printed(lines) == before;
      hide PrintedStreams.Printed;
      NothingTold(before, parse);
    } else {
      hide Told;
      var line, rest := PrintedStreams.Print(lines[0]), PrintedStreams.Printed(lines[1..]);
      Associate(before, [line], rest);
      HearOneMore(before, line, rest, parse);
      TellOne(Hear(before, parse), lines, parse);
      if !Hear(before + [line], parse).Ended() {
        LinesAreTold(before + [line], lines[1..], parse);
      }
    }
  }

  lemma NothingTold(before: seq<string>, parse: Parser)
    requires !Hear(before, parse).Ended()
    ensures Then(Hear(before, parse), Told([], parse)) == Hear(before, parse)
  {
    assert Hear(before, parse).events + [] == Hear(before, parse).events;
  }

  /** The lines of a printed stream are heard as they were printed. */
  lemma {:induction false} PrintedIsHeard(lines: seq<Line>, parse: Parser)
    requires PrintedStreams.LinesOk(lines)
    ensures Hear(PrintedStreams.Printed(lines), parse) == Told(lines, parse)
  {
    LinesAreTold([], lines, parse);
    assert [] + Told(lines, parse).events == Told(lines, parse).events;
    assert [] + PrintedStreams.Printed(lines) == PrintedStreams.Printed(lines);
  }

  // ---------------------------------------------------------------- events

  function Or(s: Option<string>, default: string): string {
    match s
    case Some(text) => text
    case None => default
  }

  /** The reason that a stop reason stands for; without one the message has simply ended. */
  predicate Means(stop: Option<string>, reason: Reason)
    decreases reason == Unknown
  {
    match reason
    case EndTurn => stop == None || stop == Some("end_turn") || stop == Some("stop_sequence")
    case MaxTokens => stop == Some("max_tokens")
    case ToolUse => stop == Some("tool_use")
    case Unknown => !Means(stop, EndTurn) && !Means(stop, MaxTokens) && !Means(stop, ToolUse)
    case _ => false
  }

  /** What an event gives, when `calls` calls have been started, the last of them on its block being `owner`. */
  predicate Gives(e: AnthropicEvent, es: seq<Canonical>, calls: nat, owner: Option<nat>) {
    match e
    case ErrorEvent(kind, message) =>
      es == [Failed(Or(kind, "provider_stream_error"), Or(message, "Provider stream failed"))]
    case MessageStart(id, model, tokens) =>
      es == [Started(Or(id, ""), model)] + (if tokens > 0 then [UsageUpdated(Some(tokens), None, None)] else [])
    case BlockStart(_, ToolUseBlock(id, name)) => es == [ToolStarted(calls, Or(id, ""), Or(name, ""))]
    case BlockStart(_, OtherBlock) => es == []
    case BlockDelta(_, TextPart(text)) => es == [TextDelta(Or(text, ""))]
    case BlockDelta(_, JsonPart(json)) =>
      es == (match owner case Some(k) => [ToolArgs(k, Or(json, ""))] case None => [])
    case BlockDelta(_, OtherDelta) => es == []
    case MessageDelta(tokens, stop) =>
      es != [] && es[|es| - 1].Completed? && Means(stop, es[|es| - 1].reason)
      && es[..|es| - 1] == if tokens > 0 then [UsageUpdated(None, Some(tokens), None)] else []
    case OtherEvent => es == []
  }

  /** The calls started among `heard`. */
  function Starts(heard: seq<AnthropicEvent>): nat {
    if heard == [] then 0
    else (match heard[0] case BlockStart(_, ToolUseBlock(_, _)) => 1 case _ => 0) + Starts(heard[1..])
  }

  /** Call number `k` is the last of those started on block `b`. */
  predicate LastOn(heard: seq<AnthropicEvent>, b: int, k: nat) {
    exists i :: 0 <= i < |heard| && heard[i].BlockStart? && heard[i].block.ToolUseBlock? && heard[i].index == b
                && k == Starts(heard[..i])
                && forall j :: i < j < |heard| ==>
                     !(heard[j].BlockStart? && heard[j].block.ToolUseBlock? && heard[j].index == b)
  }

  lemma {:induction false} StartsAppend(heard: seq<AnthropicEvent>, e: AnthropicEvent)
    ensures Starts(heard + [e]) == Starts(heard) + if StartsTool(e) then 1 else 0
  {
    if heard == [] {
      assert [e][1..] == [];
    } else {
      StartsAppend(heard[1..], e);
      assert (heard + [e])[1..] == heard[1..] + [e];
    }
  }

  lemma {:induction false} ToolsAreStarts(heard: seq<AnthropicEvent>)
    ensures Tools(heard) == Starts(heard)
  {
    if heard != [] {
      var n := |heard| - 1;
      ToolsAreStarts(heard[..n]);
      StartsAppend(heard[..n], heard[n]);
      assert heard == heard[..n] + [heard[n]];
    }
  }

  lemma {:induction false} OwnerIsLast(heard: seq<AnthropicEvent>, b: int)
    ensures match Owner(heard, b)
            case Some(k) => LastOn(heard, b, k)
            case None => forall i :: 0 <= i < |heard| ==>
                           !(heard[i].BlockStart? && heard[i].block.ToolUseBlock? && heard[i].index == b)
  {
    hide Starts, Tools;
    if heard != [] {
      var n := |heard| - 1;
      var before := heard[..n];
      OwnerIsLast(before, b);
      ToolsAreStarts(before);
      if StartsTool(heard[n]) && heard[n].index == b {
        assert heard[..n] == before;
      } else if Owner(before, b).Some? {
        var k := Owner(before, b).value;
        var i :| 0 <= i < n && before[i].BlockStart? && before[i].block.ToolUseBlock? && before[i].index == b
                 && k == Starts(before[..i])
                 && forall j :: i < j < n ==>
                      !(before[j].BlockStart? && before[j].block.ToolUseBlock? && before[j].index == b);
        assert heard[i] == before[i] && heard[..i] == before[..i];
      }
    }
  }

  lemma StopMeans(stop: Option<string>)
    ensures Means(stop, ReasonOfStop(Default(stop, "end_turn")))
  {
  }

  lemma EndGives(e: AnthropicEvent)
    requires e.MessageDelta?
    ensures Gives(e, EndEvents(e), 0, None)
  {
    hide ReasonOfStop, Means;
    var usage := if e.outputTokens == 0 then [] else [UsageUpdated(None, Some(e.outputTokens), None)];
    StopMeans(e.stopReason);
    assert EndEvents(e) == usage + [Completed(ReasonOfStop(Default(e.stopReason, "end_turn")))];
  }

  lemma EmissionGives(before: seq<AnthropicEvent>, e: AnthropicEvent)
    ensures Gives(e, Emission(before, e), Tools(before), if e.BlockDelta? then Owner(before, e.index) else None)
  {
    hide Tools, Owner, EndEvents, Means;
    if e.MessageDelta? {
      EndGives(e);
    }
  }

  /** Every event gives what it says, right after what those before it give. */
  lemma {:induction false} EventIsEmitted(heard: seq<AnthropicEvent>, n: nat)
    returns (es: seq<Canonical>, owner: Option<nat>)
    requires n < |heard|
    ensures Emissions(heard[..n]) + es == Emissions(heard[..n + 1])
    ensures Gives(heard[n], es, Starts(heard[..n]), owner)
    ensures heard[n].BlockDelta? ==>
              match owner
              case Some(k) => LastOn(heard[..n], heard[n].index, k)
              case None => forall i :: 0 <= i < n ==>
                             !(heard[i].BlockStart? && heard[i].block.ToolUseBlock? && heard[i].index == heard[n].index)
  {
    hide Starts, LastOn, Tools, Owner, Emission, Gives;
    var before, e := heard[..n], heard[n];
    assert heard[..n + 1][..n] == before;
    ToolsAreStarts(before);
    es := Emission(before, e);
    EmissionGives(before, e);
    owner := if e.BlockDelta? then Owner(before, e.index) else None;
    if e.BlockDelta? {
      OwnerIsLast(before, e.index);
    }
  }
}
