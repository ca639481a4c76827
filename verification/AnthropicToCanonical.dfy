/** Anthropic Messages stream lines mapped to canonical events (proxy/app/stream_events.py). */
module AnthropicToCanonical {
  import opened Wrappers
  import opened CanonicalEvents
  import SseDecoder

  datatype Block = ToolUseBlock(id: Option<string>, name: Option<string>) | OtherBlock

  datatype Delta = TextPart(text: Option<string>) | JsonPart(json: Option<string>) | OtherDelta

  /** A JSON event, by the members that are read; a missing or ill-typed member is `None`, or its default. */
  datatype AnthropicEvent =
    | ErrorEvent(kind: Option<string>, message: Option<string>)
    | MessageStart(id: Option<string>, model: Option<string>, inputTokens: nat)
    | BlockStart(index: int, block: Block)
    | BlockDelta(index: int, delta: Delta)
    | MessageDelta(outputTokens: nat, stopReason: Option<string>)
    | OtherEvent

  datatype Parsed = Malformed | NotObject | Object(event: AnthropicEvent)

  type Parser = string -> Parsed

  function Default(s: Option<string>, default: string): string {
    if s.Some? then s.value else default
  }

  /** What a line says, if it says anything. */
  function ReadLine(line: string, parse: Parser): Option<Parsed> {
    if !("data:" <= line) then None
    else
      var data := SseDecoder.StripRight(SseDecoder.StripLeft(line[5..]));
      if data == "" || data == "[DONE]" then None else Some(parse(data))
  }

  function ReasonOfStop(stop: string): Reason {
    if stop == "end_turn" || stop == "stop_sequence" then EndTurn
    else if stop == "max_tokens" then MaxTokens
    else if stop == "tool_use" then ToolUse
    else Unknown
  }

  // ---------------------------------------------------------------- who a fragment belongs to

  predicate StartsTool(e: AnthropicEvent) {
    e.BlockStart? && e.block.ToolUseBlock?
  }

  /** How many tool blocks have been started. */
  function Tools(heard: seq<AnthropicEvent>): nat {
    if heard == [] then 0
    else Tools(heard[..|heard| - 1]) + if StartsTool(heard[|heard| - 1]) then 1 else 0
  }

  /** The number of the tool call last started on block `b`. */
  function Owner(heard: seq<AnthropicEvent>, b: int): Option<nat> {
    if heard == [] then None
    else
      var before, e := heard[..|heard| - 1], heard[|heard| - 1];
      if StartsTool(e) && e.index == b then Some(Tools(before)) else Owner(before, b)
  }

  /** The block the k-th tool call was started on. */
  function BlockOf(heard: seq<AnthropicEvent>, k: nat): int
    requires k < Tools(heard)
  {
    var before, e := heard[..|heard| - 1], heard[|heard| - 1];
    if StartsTool(e) && Tools(before) == k then e.index else BlockOf(before, k)
  }

  function TextParts(heard: seq<AnthropicEvent>): string {
    if heard == [] then ""
    else
      var e := heard[|heard| - 1];
      TextParts(heard[..|heard| - 1]) + if e.BlockDelta? && e.delta.TextPart? then Default(e.delta.text, "") else ""
  }

  predicate JsonFor(e: AnthropicEvent, b: int) {
    e.BlockDelta? && e.delta.JsonPart? && e.index == b
  }

  /** The argument fragments sent on block `b` once a tool call had been started on it. */
  function JsonParts(heard: seq<AnthropicEvent>, b: int): string {
    if heard == [] then ""
    else
      var before, e := heard[..|heard| - 1], heard[|heard| - 1];
      JsonParts(before, b) + if JsonFor(e, b) && Owner(before, b).Some? then Default(e.delta.json, "") else ""
  }

  // ---------------------------------------------------------------- the translation

  function StartEvents(e: AnthropicEvent): seq<Canonical>
    requires e.MessageStart?
  {
    [Started(Default(e.id, ""), e.model)]
    + if e.inputTokens == 0 then [] else [UsageUpdated(Some(e.inputTokens), None, None)]
  }

  function EndEvents(e: AnthropicEvent): seq<Canonical>
    requires e.MessageDelta?
  {
    (if e.outputTokens == 0 then [] else [UsageUpdated(None, Some(e.outputTokens), None)])
    + [Completed(ReasonOfStop(Default(e.stopReason, "end_turn")))]
  }

  /** What an event gives after those heard before. */
  function Emission(before: seq<AnthropicEvent>, e: AnthropicEvent): seq<Canonical> {
    match e
    case ErrorEvent(kind, message) =>
      [Failed(Default(kind, "provider_stream_error"), Default(message, "Provider stream failed"))]
    case MessageStart(_, _, _) => StartEvents(e)
    case BlockStart(_, ToolUseBlock(id, name)) => [ToolStarted(Tools(before), Default(id, ""), Default(name, ""))]
    case BlockDelta(_, TextPart(text)) => [TextDelta(Default(text, ""))]
    case BlockDelta(b, JsonPart(json)) =>
      if Owner(before, b).Some? then [ToolArgs(Owner(before, b).value, Default(json, ""))] else []
    case MessageDelta(_, _) => EndEvents(e)
    case _ => []
  }

  function Emissions(heard: seq<AnthropicEvent>): seq<Canonical> {
    if heard == [] then [] else Emissions(heard[..|heard| - 1]) + Emission(heard[..|heard| - 1], heard[|heard| - 1])
  }

  const BAD_JSON := Failed("invalid_upstream_stream", "Provider stream contained malformed JSON")
  const BAD_EVENT := Failed("invalid_upstream_stream", "Provider stream event was not a JSON object")

  /** The events of the lines up to and including the first that cannot be read or reports an error. */
  datatype Heard = Heard(events: seq<AnthropicEvent>, broken: Option<Canonical>) {
    predicate Ended() {
      broken.Some? || (events != [] && events[|events| - 1].ErrorEvent?)
    }

    function Output(): seq<Canonical> {
      Emissions(events) + if broken.Some? then [broken.value] else []
    }
  }

  function HearOne(h: Heard, said: Option<Parsed>): Heard {
    match said
    case None => h
    case Some(Malformed) => h.(broken := Some(BAD_JSON))
    case Some(NotObject) => h.(broken := Some(BAD_EVENT))
    case Some(Object(e)) => h.(events := h.events + [e])
  }

  function Hear(lines: seq<string>, parse: Parser): Heard {
    if lines == [] then Heard([], None)
    else
      var h := Hear(lines[..|lines| - 1], parse);
      if h.Ended() then h else HearOne(h, ReadLine(lines[|lines| - 1], parse))
  }

  lemma {:induction false} HearNext(lines: seq<string>, i: nat, parse: Parser)
    requires i < |lines| && !Hear(lines[..i], parse).Ended()
    ensures Hear(lines[..i + 1], parse) == HearOne(Hear(lines[..i], parse), ReadLine(lines[i], parse))
    ensures Hear(lines[..i + 1], parse).Ended() ==> Hear(lines, parse) == Hear(lines[..i + 1], parse)
  {
    hide ReadLine, HearOne;
    assert lines[..i + 1][..i] == lines[..i];
    if Hear(lines[..i + 1], parse).Ended() {
      HearingEnds(lines, i + 1, parse);
    }
  }

  lemma {:induction false} HearingEnds(lines: seq<string>, i: nat, parse: Parser)
    requires i <= |lines| && Hear(lines[..i], parse).Ended()
    ensures Hear(lines, parse) == Hear(lines[..i], parse)
    decreases |lines| - i
  {
    hide ReadLine, HearOne;
    if i < |lines| {
      assert lines[..i + 1][..i] == lines[..i];
      HearingEnds(lines, i + 1, parse);
    } else {
      assert lines[..i] == lines;
    }
  }

  /** The map from blocks to tool-call numbers is the owner of each block. */
  ghost predicate Registered(m: map<int, nat>, heard: seq<AnthropicEvent>) {
    forall b :: if b in m then Owner(heard, b) == Some(m[b]) else Owner(heard, b).None?
  }

  lemma HeardOneMore(heard: seq<AnthropicEvent>, e: AnthropicEvent)
    ensures Emissions(heard + [e]) == Emissions(heard) + Emission(heard, e)
    ensures Tools(heard + [e]) == Tools(heard) + if StartsTool(e) then 1 else 0
    ensures forall b ::
              Owner(heard + [e], b)
              == if StartsTool(e) && e.index == b then Some(Tools(heard)) else Owner(heard, b)
  {
    hide Emission, StartsTool, Default;
    assert (heard + [e])[..|heard|] == heard;
  }

  lemma NothingHeard(lines: seq<string>, parse: Parser)
    ensures Hear(lines[..0], parse) == Heard([], None)
    ensures Emissions([]) == [] && Tools([]) == 0 && forall b :: Owner([], b).None?
  {
  }

  lemma SendStart(out: seq<Canonical>, e: AnthropicEvent)
    requires e.MessageStart?
    ensures var head := out + [Started(Default(e.id, ""), e.model)];
            out + StartEvents(e)
            == if e.inputTokens == 0 then head else head + [UsageUpdated(Some(e.inputTokens), None, None)]
  {
    hide Default;
  }

  lemma SendEnd(out: seq<Canonical>, e: AnthropicEvent)
    requires e.MessageDelta?
    ensures var head := if e.outputTokens == 0 then out else out + [UsageUpdated(None, Some(e.outputTokens), None)];
            out + EndEvents(e) == head + [Completed(ReasonOfStop(Default(e.stopReason, "end_turn")))]
  {
    hide Default, ReasonOfStop;
  }

  method IterAnthropicCanonicalEvents(lines: seq<string>, parse: Parser) returns (out: seq<Canonical>)
    ensures out == Hear(lines, parse).Output()
  {
    hide ReadLine, Hear, Emissions, Tools, Owner, StartEvents, EndEvents, Default, ReasonOfStop;
    out := [];
    var callOfBlock: map<int, nat> := map[];
    var calls := 0;
    ghost var heard: seq<AnthropicEvent> := [];
    var i := 0;
    NothingHeard(lines, parse);
    while i < |lines|
      invariant 0 <= i <= |lines|
      invariant Hear(lines[..i], parse) == Heard(heard, None) && !Hear(lines[..i], parse).Ended()
      invariant out == Emissions(heard) && calls == Tools(heard) && Registered(callOfBlock, heard)
    {
      HearNext(lines, i, parse);
      var parsed := ReadLine(lines[i], parse);
      i := i + 1;
      if parsed.None? {
        continue;
      }
      match parsed.value {
        case Malformed => return out + [BAD_JSON];
        case NotObject => return out + [BAD_EVENT];
        case Object(e) =>
          HeardOneMore(heard, e);
          heard := heard + [e];
          match e {
            case ErrorEvent(kind, message) =>
              return out + [Failed(Default(kind, "provider_stream_error"), Default(message, "Provider stream failed"))];
            case MessageStart(id, model, inputTokens) =>
              SendStart(out, e);
              out := out + [Started(Default(id, ""), model)];
              if inputTokens != 0 {
                out := out + [UsageUpdated(Some(inputTokens), None, None)];
              }
            case BlockStart(b, ToolUseBlock(id, name)) =>
              out := out + [ToolStarted(calls, Default(id, ""), Default(name, ""))];
              callOfBlock, calls := callOfBlock[b := calls], calls + 1;
            case BlockDelta(_, TextPart(text)) =>
              out := out + [TextDelta(Default(text, ""))];
            case BlockDelta(b, JsonPart(json)) =>
              if b in callOfBlock {
                out := out + [ToolArgs(callOfBlock[b], Default(json, ""))];
              }
            case MessageDelta(outputTokens, stopReason) =>
              SendEnd(out, e);
              if outputTokens != 0 {
                out := out + [UsageUpdated(None, Some(outputTokens), None)];
              }
              out := out + [Completed(ReasonOfStop(Default(stopReason, "end_turn")))];
            case _ =>
          }
      }
    }
    assert lines[..i] == lines;
  }

  // ---------------------------------------------------------------- numbering

  function Calls(out: seq<Canonical>): nat {
    if out == [] then 0 else Calls(out[..|out| - 1]) + if out[|out| - 1].ToolStarted? then 1 else 0
  }

  /** Calls are numbered 0, 1, 2, ... and arguments name a call already started. */
  predicate NumberOk(before: seq<Canonical>, e: Canonical) {
    (e.ToolStarted? ==> e.index == Calls(before)) && (e.ToolArgs? ==> e.index < Calls(before))
  }

  predicate Numbered(out: seq<Canonical>) {
    out == [] || (Numbered(out[..|out| - 1]) && NumberOk(out[..|out| - 1], out[|out| - 1]))
  }

  lemma OneEmitted(out: seq<Canonical>, e: Canonical)
    ensures Numbered(out + [e]) <==> Numbered(out) && NumberOk(out, e)
    ensures Calls(out + [e]) == Calls(out) + if e.ToolStarted? then 1 else 0
  {
    hide NumberOk;
    assert (out + [e])[..|out|] == out;
  }

  /** Both numberings at once: that of the events heard and that of the events emitted. */
  lemma {:induction false} CallsAreNumbered(heard: seq<AnthropicEvent>)
    ensures Numbered(Emissions(heard)) && Calls(Emissions(heard)) == Tools(heard)
  {
    hide Numbered, Calls, Emission, StartsTool;
    if heard == [] {
      NothingNumbered();
    } else {
      var before, e := heard[..|heard| - 1], heard[|heard| - 1];
      CallsAreNumbered(before);
      EmittedNumbers(before, e, Emissions(before));
    }
  }

  lemma NothingNumbered()
    ensures Numbered([]) && Calls([]) == 0
  {
  }

  lemma EmittedNumbers(before: seq<AnthropicEvent>, e: AnthropicEvent, out: seq<Canonical>)
    requires Numbered(out) && Calls(out) == Tools(before)
    ensures Numbered(out + Emission(before, e))
    ensures Calls(out + Emission(before, e)) == Tools(before) + if StartsTool(e) then 1 else 0
  {
    hide Numbered, Calls, Default, Tools, Owner, ReasonOfStop;
    var es := Emission(before, e);
    if e.BlockDelta? && e.delta.JsonPart? {
      OwnersAreCalls(before, e.index);
    }
    if |es| == 0 {
      assert out + es == out;
    } else if |es| == 1 {
      OneEmitted(out, es[0]);
      assert es == [es[0]];
    } else {
      OneEmitted(out, es[0]);
      OneEmitted(out + [es[0]], es[1]);
      assert out + es == out + [es[0]] + [es[1]];
    }
  }

  lemma {:induction false} OwnersAreCalls(heard: seq<AnthropicEvent>, b: int)
    ensures var o := Owner(heard, b); o.Some? ==> o.value < Tools(heard) && BlockOf(heard, o.value) == b
  {
    if heard != [] {
      OwnersAreCalls(heard[..|heard| - 1], b);
    }
  }

  /** Position by position: the k-th call started is number k, and arguments come only after their call. */
  lemma {:induction false} NumberedAt(out: seq<Canonical>, i: nat)
    requires Numbered(out) && i < |out|
    ensures NumberOk(out[..i], out[i])
    decreases |out|
  {
    hide NumberOk;
    var n := |out| - 1;
    if i < n {
      NumberedAt(out[..n], i);
      assert out[..n][..i] == out[..i];
    }
  }

  // ---------------------------------------------------------------- content

  /** No two tool calls are started on the same block. */
  predicate Distinct(heard: seq<AnthropicEvent>) {
    heard == []
    || (var before, e := heard[..|heard| - 1], heard[|heard| - 1];
        Distinct(before) && (StartsTool(e) ==> Owner(before, e.index).None?))
  }

  lemma {:induction false} CallOwnsItsBlock(heard: seq<AnthropicEvent>, k: nat)
    requires Distinct(heard) && k < Tools(heard)
    ensures Owner(heard, BlockOf(heard, k)) == Some(k)
  {
    var before, e := heard[..|heard| - 1], heard[|heard| - 1];
    if k < Tools(before) {
      CallOwnsItsBlock(before, k);
    }
  }

  lemma {:induction false} UnownedHasNoJson(heard: seq<AnthropicEvent>, b: int)
    requires Owner(heard, b).None?
    ensures JsonParts(heard, b) == ""
  {
    if heard != [] {
      UnownedHasNoJson(heard[..|heard| - 1], b);
    }
  }

  lemma EmissionContent(before: seq<AnthropicEvent>, e: AnthropicEvent, k: nat)
    ensures TextOf(Emission(before, e)) == if e.BlockDelta? && e.delta.TextPart? then Default(e.delta.text, "") else ""
    ensures ArgsOf(Emission(before, e), k)
         == if e.BlockDelta? && e.delta.JsonPart? && Owner(before, e.index) == Some(k)
            then Default(e.delta.json, "") else ""
  {
    hide Default, Tools, Owner, TextOf, ArgsOf, ReasonOfStop;
    NothingHeld(k);
    var es := Emission(before, e);
    if |es| == 1 {
      Single(es[0], k);
      assert es == [es[0]];
    } else if |es| == 2 {
      Single(es[0], k);
      OneMore([es[0]], es[1], k);
      assert es == [es[0]] + [es[1]];
    }
  }

  lemma {:induction false} UnstartedHasNoArgs(heard: seq<AnthropicEvent>, k: nat)
    requires k >= Tools(heard)
    ensures ArgsOf(Emissions(heard), k) == ""
  {
    hide Emission, ArgsOf, StartsTool;
    NothingHeld(k);
    if heard != [] {
      var before, e := heard[..|heard| - 1], heard[|heard| - 1];
      UnstartedHasNoArgs(before, k);
      ArgsAppend(Emissions(before), Emission(before, e), k);
      EmissionContent(before, e, k);
      if e.BlockDelta? {
        OwnersAreCalls(before, e.index);
      }
    }
  }

  /** Text passes through unchanged. */
  lemma {:induction false} TextPassesThrough(heard: seq<AnthropicEvent>)
    ensures TextOf(Emissions(heard)) == TextParts(heard)
  {
    hide Emission, TextOf, Default;
    NothingHeld(0);
    if heard != [] {
      var before, e := heard[..|heard| - 1], heard[|heard| - 1];
      TextPassesThrough(before);
      TextAppend(Emissions(before), Emission(before, e));
      EmissionContent(before, e, 0);
    }
  }

  /** With distinct blocks, call k gets exactly all fragments sent on its own block, in order. */
  lemma {:induction false} DistinctBlocksAreNotShared(heard: seq<AnthropicEvent>, k: nat)
    requires Distinct(heard) && k < Tools(heard)
    ensures ArgsOf(Emissions(heard), k) == JsonParts(heard, BlockOf(heard, k))
  {
    hide Emission, ArgsOf, Default;
    var before, e := heard[..|heard| - 1], heard[|heard| - 1];
    ArgsAppend(Emissions(before), Emission(before, e), k);
    EmissionContent(before, e, k);
    if k < Tools(before) {
      DistinctBlocksAreNotShared(before, k);
      CallOwnsItsBlock(before, k);
      if e.BlockDelta? {
        OwnersAreCalls(before, e.index);
      }
    } else {
      UnstartedHasNoArgs(before, k);
      UnownedHasNoJson(before, e.index);
    }
  }

  function JsonSent(heard: seq<AnthropicEvent>, b: int): string {
    if heard == [] then ""
    else
      var e := heard[|heard| - 1];
      JsonSent(heard[..|heard| - 1], b) + if JsonFor(e, b) then Default(e.delta.json, "") else ""
  }

  // ---------------------------------------------------------------- blocks used more than once

  predicate StartsOn(e: AnthropicEvent, b: int) {
    StartsTool(e) && e.index == b
  }

  /** The call started at `s` has its block until `t`: until the next call is started there, or to the end. */
  ghost predicate Term(heard: seq<AnthropicEvent>, s: nat, t: nat) {
    s < t <= |heard| && StartsTool(heard[s])
    && (forall i :: s < i < t ==> !StartsOn(heard[i], heard[s].index))
    && (t < |heard| ==> StartsOn(heard[t], heard[s].index))
  }

  lemma {:induction false} ToolsGrow(heard: seq<AnthropicEvent>, i: nat, j: nat)
    requires i < j <= |heard|
    ensures Tools(heard[..i]) + (if StartsTool(heard[i]) then 1 else 0) <= Tools(heard[..j])
    decreases j
  {
    hide StartsTool;
    assert heard[..j][..j - 1] == heard[..j - 1];
    if i < j - 1 {
      ToolsGrow(heard, i, j - 1);
    }
  }

  /** The call started at `s` is number `Tools(heard[..s])`, on the block it was started on. */
  lemma {:induction false} StartIsCall(heard: seq<AnthropicEvent>, s: nat)
    requires s < |heard| && StartsTool(heard[s])
    ensures Tools(heard[..s]) < Tools(heard) && BlockOf(heard, Tools(heard[..s])) == heard[s].index
    decreases |heard|
  {
    hide StartsTool;
    var before := heard[..|heard| - 1];
    assert before[..s] == heard[..s] by {
      assert s <= |before|;
    }
    if s < |before| {
      StartIsCall(before, s);
    }
  }

  /** Every call has its start and its term. */
  lemma {:induction false} TermOf(heard: seq<AnthropicEvent>, k: nat) returns (s: nat, t: nat)
    requires k < Tools(heard)
    ensures Term(heard, s, t) && Tools(heard[..s]) == k
  {
    var before, e := heard[..|heard| - 1], heard[|heard| - 1];
    if k < Tools(before) {
      s, t := TermOf(before, k);
      assert heard[..s] == before[..s];
      if t == |before| && !StartsOn(e, heard[s].index) {
        t := |heard|;
      }
    } else {
      s, t := |before|, |heard|;
    }
  }

  lemma {:induction false} LaterOwner(heard: seq<AnthropicEvent>, t: nat)
    requires t < |heard| && StartsTool(heard[t])
    ensures Owner(heard, heard[t].index).Some? && Owner(heard, heard[t].index).value >= Tools(heard[..t])
    decreases |heard|
  {
    hide StartsTool;
    var before := heard[..|heard| - 1];
    if t < |before| {
      assert before[..t] == heard[..t];
      LaterOwner(before, t);
      ToolsGrow(heard, t, |before|);
    } else {
      assert before == heard[..t];
    }
  }

  lemma {:induction false} OwnerDuringTerm(heard: seq<AnthropicEvent>, s: nat)
    requires Term(heard, s, |heard|)
    ensures Owner(heard, heard[s].index) == Some(Tools(heard[..s]))
    decreases |heard|
  {
    var before := heard[..|heard| - 1];
    if s < |before| {
      assert before[..s] == heard[..s];
      OwnerDuringTerm(before, s);
      assert !StartsOn(heard[|before|], heard[s].index);
    } else {
      assert before == heard[..s];
    }
  }

  /** Whose fragments an event brings after its call's term, and during it. */
  lemma {:induction false} FragmentOfTerm(before: seq<AnthropicEvent>, s: nat, t: nat, b: int)
    requires Term(before, s, t)
    ensures Owner(before, b) == Some(Tools(before[..s])) <==> t == |before| && b == before[s].index
  {
    hide StartsTool;
    var k := Tools(before[..s]);
    StartIsCall(before, s);
    OwnersAreCalls(before, b);
    if t == |before| {
      OwnerDuringTerm(before, s);
    } else {
      LaterOwner(before, t);
      ToolsGrow(before, s, t);
    }
  }

  lemma {:induction false} OneMoreSent(heard: seq<AnthropicEvent>, s: nat, b: int)
    requires s < |heard| - 1
    ensures var n := |heard| - 1;
            JsonSent(heard[s + 1..], b)
            == JsonSent(heard[..n][s + 1..], b) + if JsonFor(heard[n], b) then Default(heard[n].delta.json, "") else ""
  {
    hide Default;
    var n := |heard| - 1;
    assert heard[s + 1..][..n - s - 1] == heard[..n][s + 1..];
  }

  /**
   Each call gets exactly the fragments sent on its block between its own start and the next start on that block,
   in order, whether or not blocks are used again.
   */
  lemma {:induction false} ArgumentsFollowTheirBlock(heard: seq<AnthropicEvent>, s: nat, t: nat)
    requires Term(heard, s, t)
    ensures ArgsOf(Emissions(heard), Tools(heard[..s])) == JsonSent(heard[s + 1..t], heard[s].index)
    decreases |heard|
  {
    hide Emission, ArgsOf, Default;
    var n := |heard| - 1;
    var before, e, k, b := heard[..n], heard[n], Tools(heard[..s]), heard[s].index;
    ArgsAppend(Emissions(before), Emission(before, e), k);
    EmissionContent(before, e, k);
    if s == n {
      assert before == heard[..s] && heard[s + 1..t] == [];
      UnstartedHasNoArgs(before, k);
      StartIsNoDelta(e);
    } else {
      assert before[..s] == heard[..s];
      var u := if t <= n then t else n;
      assert Term(before, s, u);
      ArgumentsFollowTheirBlock(before, s, u);
      if e.BlockDelta? {
        FragmentOfTerm(before, s, u, e.index);
      }
      if t == n + 1 {
        UpToTheEnd(heard, s + 1);
        UpToTheEnd(before, s + 1);
        OneMoreSent(heard, s, b);
      } else {
        SliceOfFront(heard, s + 1, t);
        if t == n {
          StartIsNoDelta(e);
        }
      }
    }
  }

  lemma UpToTheEnd(heard: seq<AnthropicEvent>, from: nat)
    requires from <= |heard|
    ensures heard[from..|heard|] == heard[from..]
  {
  }

  lemma SliceOfFront(heard: seq<AnthropicEvent>, from: nat, to: nat)
    requires from <= to < |heard|
    ensures heard[..|heard| - 1][from..to] == heard[from..to]
  {
  }

  lemma StartIsNoDelta(e: AnthropicEvent)
    ensures StartsTool(e) ==> !e.BlockDelta?
  {
  }

  /** Of what is sent on a block, exactly what came before a tool call was started on it is dropped. */
  lemma {:induction false} OnlyEarlyFragmentsAreDropped(heard: seq<AnthropicEvent>, b: int, i: nat)
    requires i <= |heard| && Owner(heard[..i], b).None? && (i < |heard| ==> Owner(heard[..i + 1], b).Some?)
    ensures JsonSent(heard, b) == JsonSent(heard[..i], b) + JsonParts(heard, b)
    decreases |heard|
  {
    hide Default, StartsTool;
    if i == |heard| {
      assert heard[..i] == heard;
      UnownedHasNoJson(heard, b);
    } else {
      var n := |heard| - 1;
      assert heard[..n][..i] == heard[..i];
      if i < n {
        assert heard[..n][..i + 1] == heard[..i + 1];
        OnlyEarlyFragmentsAreDropped(heard[..n], b, i);
        OwnerStays(heard, b, i + 1, n);
        var last := if JsonFor(heard[n], b) then Default(heard[n].delta.json, "") else "";
        Associate(JsonSent(heard[..i], b), JsonParts(heard[..n], b), last);
      } else {
        assert heard[..n + 1] == heard;
        UnownedHasNoJson(heard[..n], b);
        NewOwner(heard, b);
      }
    }
  }

  lemma NewOwner(heard: seq<AnthropicEvent>, b: int)
    requires heard != [] && Owner(heard, b).Some? && Owner(heard[..|heard| - 1], b).None?
    ensures !JsonFor(heard[|heard| - 1], b)
  {
  }

  lemma {:induction false} OwnerStays(heard: seq<AnthropicEvent>, b: int, i: nat, j: nat)
    requires i <= j <= |heard| && Owner(heard[..i], b).Some?
    ensures Owner(heard[..j], b).Some?
    decreases j
  {
    if i < j {
      OwnerStays(heard, b, i, j - 1);
      assert heard[..j][..j - 1] == heard[..j - 1];
    }
  }

  /** A failure is the last event emitted. */
  lemma {:induction false} FailureIsLast(lines: seq<string>, parse: Parser)
    ensures FailedOnlyLast(Hear(lines, parse).Output())
  {
    hide Emissions, Emission, Hear, ReadLine;
    var h := Hear(lines, parse);
    ErrorEventIsLast(lines, parse);
    if h.events != [] {
      var n := |h.events| - 1;
      NoErrorNoFailure(h.events[..n]);
      LastEmission(h.events);
      if !h.events[n].ErrorEvent? {
        NoErrorNoFailure(h.events);
      }
    } else {
      NoErrorNoFailure([]);
    }
  }

  lemma LastEmission(heard: seq<AnthropicEvent>)
    requires heard != []
    ensures Emissions(heard) == Emissions(heard[..|heard| - 1]) + Emission(heard[..|heard| - 1], heard[|heard| - 1])
    ensures heard[|heard| - 1].ErrorEvent? ==> |Emission(heard[..|heard| - 1], heard[|heard| - 1])| == 1
  {
  }

  lemma {:induction false} ErrorEventIsLast(lines: seq<string>, parse: Parser)
    ensures var h := Hear(lines, parse);
            (forall i :: 0 <= i < |h.events| - 1 ==> !h.events[i].ErrorEvent?)
            && (h.broken.Some? ==> forall i :: 0 <= i < |h.events| ==> !h.events[i].ErrorEvent?)
  {
    hide ReadLine;
    if lines != [] {
      ErrorEventIsLast(lines[..|lines| - 1], parse);
    }
  }

  lemma {:induction false} NoErrorNoFailure(heard: seq<AnthropicEvent>)
    requires forall i :: 0 <= i < |heard| ==> !heard[i].ErrorEvent?
    ensures forall i :: 0 <= i < |Emissions(heard)| ==> !Emissions(heard)[i].Failed?
  {
    hide Owner, Tools, Default;
    if heard != [] {
      NoErrorNoFailure(heard[..|heard| - 1]);
    }
  }
}
