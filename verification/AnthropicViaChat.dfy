/**
 An Anthropic stream all the way to Chat chunks: the two translations in proxy/app/stream_events.py one after the
 other.
 */
module AnthropicViaChat {
  import opened Wrappers
  import opened ChatEvents
  import opened CanonicalEvents
  import opened AnthropicToCanonical
  import opened CanonicalToChat

  function Frames(lines: seq<string>, parse: Parser, model: string): seq<ChatFrame> {
    Encoded(Hear(lines, parse).Output(), model)
  }

  lemma BrokenIsNoContent(h: Heard, k: nat)
    requires h.broken.Some? ==> h.broken.value.Failed?
    ensures TextOf(h.Output()) == TextOf(Emissions(h.events)) && ArgsOf(h.Output(), k) == ArgsOf(Emissions(h.events), k)
  {
    hide TextOf, ArgsOf, Emissions;
    var out := Emissions(h.events);
    assert out + [] == out;
    if h.broken.Some? {
      OneMore(out, h.broken.value, k);
    }
  }

  lemma {:induction false} BrokenIsFailure(lines: seq<string>, parse: Parser)
    ensures var b := Hear(lines, parse).broken; b.Some? ==> b.value.Failed?
  {
    hide AnthropicToCanonical.ReadLine;
    if lines != [] {
      BrokenIsFailure(lines[..|lines| - 1], parse);
    }
  }

  /** All text arrives, and each call arrives with exactly the fragments sent on its block while it had it. */
  lemma {:induction false} ContentArrives(lines: seq<string>, parse: Parser, model: string, s: nat, t: nat)
    ensures var heard := Hear(lines, parse).events;
            FrameText(Frames(lines, parse, model)) == TextParts(heard)
            && (Term(heard, s, t) ==>
                  FrameArgs(Frames(lines, parse, model), Tools(heard[..s]))
                  == JsonSent(heard[s + 1..t], heard[s].index))
  {
    hide Hear, Encoded, FrameText, FrameArgs, TextOf, ArgsOf, Emissions, JsonSent, TextParts, Tools, FailedOnlyLast;
    var h := Hear(lines, parse);
    FailureIsLast(lines, parse);
    BrokenIsFailure(lines, parse);
    var k := if Term(h.events, s, t) then Tools(h.events[..s]) else 0;
    BrokenIsNoContent(h, k);
    ContentIsEncoded(h.Output(), model, k);
    TextPassesThrough(h.events);
    if Term(h.events, s, t) {
      ArgumentsFollowTheirBlock(h.events, s, t);
    }
  }

  // ---------------------------------------------------------------- tokens

  /** The last non-zero count of each kind that the provider has reported. */
  function InputTokens(heard: seq<AnthropicEvent>): nat {
    if heard == [] then 0
    else
      var e := heard[|heard| - 1];
      if e.MessageStart? && e.inputTokens != 0 then e.inputTokens else InputTokens(heard[..|heard| - 1])
  }

  function OutputTokens(heard: seq<AnthropicEvent>): nat {
    if heard == [] then 0
    else
      var e := heard[|heard| - 1];
      if e.MessageDelta? && e.outputTokens != 0 then e.outputTokens else OutputTokens(heard[..|heard| - 1])
  }

  lemma OneUsage(out: seq<Canonical>, e: Canonical)
    ensures LatestInput(out + [e]) == if e.UsageUpdated? && e.input.Some? then e.input.value else LatestInput(out)
    ensures LatestOutput(out + [e]) == if e.UsageUpdated? && e.output.Some? then e.output.value else LatestOutput(out)
  {
    assert (out + [e])[..|out|] == out;
  }

  lemma EmissionUsage(before: seq<AnthropicEvent>, e: AnthropicEvent, out: seq<Canonical>)
    ensures LatestInput(out + Emission(before, e))
         == if e.MessageStart? && e.inputTokens != 0 then e.inputTokens else LatestInput(out)
    ensures LatestOutput(out + Emission(before, e))
         == if e.MessageDelta? && e.outputTokens != 0 then e.outputTokens else LatestOutput(out)
  {
    hide LatestInput, LatestOutput, Tools, Owner, Default, ReasonOfStop;
    var es := Emission(before, e);
    if |es| == 0 {
      assert out + es == out;
    } else if |es| == 1 {
      OneUsage(out, es[0]);
      assert es == [es[0]];
    } else {
      OneUsage(out, es[0]);
      OneUsage(out + [es[0]], es[1]);
      assert out + es == out + [es[0]] + [es[1]];
    }
  }

  lemma {:induction false} TokensPassThrough(heard: seq<AnthropicEvent>)
    ensures LatestInput(Emissions(heard)) == InputTokens(heard) && LatestOutput(Emissions(heard)) == OutputTokens(heard)
  {
    hide Emission;
    if heard != [] {
      TokensPassThrough(heard[..|heard| - 1]);
      EmissionUsage(heard[..|heard| - 1], heard[|heard| - 1], Emissions(heard[..|heard| - 1]));
    }
  }

  /** Where a message delta's completion stands among the canonical events. */
  lemma {:induction false} CompletionAt(heard: seq<AnthropicEvent>, n: nat) returns (at: nat)
    requires n < |heard| && heard[n].MessageDelta?
    ensures at < |Emissions(heard)| && Emissions(heard)[at]
         == Completed(ReasonOfStop(Default(heard[n].stopReason, "end_turn")))
    ensures Emissions(heard)[..at] + [Emissions(heard)[at]] == Emissions(heard[..n + 1])
    decreases |heard|
  {
    hide Default, ReasonOfStop, Emissions, Emission;
    var before, e := heard[..|heard| - 1], heard[|heard| - 1];
    LastEmission(heard);
    if n < |before| {
      at := CompletionAt(before, n);
      assert before[..n + 1] == heard[..n + 1];
      assert Emissions(heard)[..at] == Emissions(before)[..at];
    } else {
      EndsWithCompletion(before, e);
      at := |Emissions(heard)| - 1;
      assert heard[..n + 1] == heard;
    }
  }

  lemma EndsWithCompletion(before: seq<AnthropicEvent>, e: AnthropicEvent)
    requires e.MessageDelta?
    ensures var es := Emission(before, e);
            es != [] && es[|es| - 1] == Completed(ReasonOfStop(Default(e.stopReason, "end_turn")))
  {
  }

  /** The completion a message delta gives reports the latest input and output tokens, and is followed by `[DONE]`. */
  lemma {:induction false} MessageDeltaIsReported(lines: seq<string>, parse: Parser, model: string, n: nat)
    returns (i: nat)
    requires n < |Hear(lines, parse).events| && Hear(lines, parse).events[n].MessageDelta?
    ensures var heard, frames := Hear(lines, parse).events, Frames(lines, parse, model);
            var (input, output) := (InputTokens(heard[..n + 1]), OutputTokens(heard[..n + 1]));
            i + 1 < |frames| && frames[i].FinishChunk? && frames[i + 1] == Done
            && frames[i].finish == FinishOf(ReasonOfStop(Default(heard[n].stopReason, "end_turn")))
            && frames[i].prompt == input && frames[i].completion == output && frames[i].total == input + output
  {
    hide Hear, Encoded, Emissions, LatestInput, LatestOutput, LatestId, InputTokens, OutputTokens;
    hide Default, ReasonOfStop, FinishOf;
    var h := Hear(lines, parse);
    var out := h.Output();
    var at := CompletionAt(h.events, n);
    assert out[..at] == Emissions(h.events)[..at] && out[at] == Emissions(h.events)[at];
    FailureIsLast(lines, parse);
    assert forall j :: 0 <= j < at ==> out[..at][j] == out[j] && !out[j].Failed?;
    CompletionHasItsFrame(out, at, model);
    i := |Encoded(out[..at], model)|;
    TokensPassThrough(h.events[..n + 1]);
    OneUsage(out[..at], out[at]);
  }
}
