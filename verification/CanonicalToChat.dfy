/** Canonical events encoded as Chat completion chunks (`iter_openai_chat_sse_from_canonical`). */
module CanonicalToChat {
  import opened Wrappers
  import opened ChatEvents
  import opened CanonicalEvents

  datatype ChatFrame =
    | TextChunk(id: string, model: string, text: string)
    | CallChunk(id: string, model: string, index: nat, callId: string, name: string)
    | ArgsChunk(id: string, model: string, index: nat, arguments: string)
    | FinishChunk(id: string, model: string, finish: FinishReason, prompt: nat, completion: nat, total: nat)
    | ErrorData(kind: string, message: string)
    | Done

  function FinishOf(r: Reason): FinishReason {
    match r
    case MaxTokens => Length
    case ToolUse => ToolCalls
    case ContentFiltered => ContentFilter
    case _ => Stop
  }

  // ---------------------------------------------------------------- what has been said last

  function LatestId(events: seq<Canonical>): string {
    if events == [] then ""
    else
      var e := events[|events| - 1];
      if e.Started? then e.id else LatestId(events[..|events| - 1])
  }

  function LatestInput(events: seq<Canonical>): nat {
    if events == [] then 0
    else
      var e := events[|events| - 1];
      if e.UsageUpdated? && e.input.Some? then e.input.value else LatestInput(events[..|events| - 1])
  }

  function LatestOutput(events: seq<Canonical>): nat {
    if events == [] then 0
    else
      var e := events[|events| - 1];
      if e.UsageUpdated? && e.output.Some? then e.output.value else LatestOutput(events[..|events| - 1])
  }

  function FinishFor(before: seq<Canonical>, reason: Reason, model: string): ChatFrame {
    FinishChunk(LatestId(before), model, FinishOf(reason), LatestInput(before), LatestOutput(before),
                LatestInput(before) + LatestOutput(before))
  }

  function EncodeOne(before: seq<Canonical>, e: Canonical, model: string): seq<ChatFrame> {
    match e
    case Started(_, _) => []
    case UsageUpdated(_, _, _) => []
    case TextDelta(text) => [TextChunk(LatestId(before), model, text)]
    case ToolStarted(index, callId, name) => [CallChunk(LatestId(before), model, index, callId, name)]
    case ToolArgs(index, delta) => [ArgsChunk(LatestId(before), model, index, delta)]
    case Completed(reason) => [FinishFor(before, reason, model), Done]
    case Failed(kind, message) => [ErrorData(kind, message)]
  }

  /** Everything up to and including the first failure. */
  function Encoded(events: seq<Canonical>, model: string): seq<ChatFrame> {
    if events == [] then []
    else
      var before := events[..|events| - 1];
      Encoded(before, model) + if HasFailed(before) then [] else EncodeOne(before, events[|events| - 1], model)
  }

  predicate HasFailed(events: seq<Canonical>) {
    exists i :: 0 <= i < |events| && events[i].Failed?
  }

  lemma EncodeNext(events: seq<Canonical>, i: nat, model: string)
    requires i < |events| && !HasFailed(events[..i])
    ensures Encoded(events[..i + 1], model) == Encoded(events[..i], model) + EncodeOne(events[..i], events[i], model)
    ensures LatestId(events[..i + 1]) == if events[i].Started? then events[i].id else LatestId(events[..i])
    ensures LatestInput(events[..i + 1])
         == if events[i].UsageUpdated? && events[i].input.Some? then events[i].input.value else LatestInput(events[..i])
    ensures LatestOutput(events[..i + 1])
         == if events[i].UsageUpdated? && events[i].output.Some? then events[i].output.value
            else LatestOutput(events[..i])
    ensures !events[i].Failed? ==> !HasFailed(events[..i + 1])
    ensures events[i].Failed? ==> Encoded(events, model) == Encoded(events[..i + 1], model)
  {
    hide EncodeOne;
    assert events[..i + 1][..i] == events[..i];
    assert forall j :: 0 <= j < i ==> events[..i + 1][j] == events[..i][j];
    if events[i].Failed? {
      EncodingEnds(events, i + 1, model);
    }
  }

  lemma {:induction false} EncodingEnds(events: seq<Canonical>, i: nat, model: string)
    requires 0 < i <= |events| && events[i - 1].Failed?
    ensures Encoded(events, model) == Encoded(events[..i], model)
    decreases |events|
  {
    hide EncodeOne;
    if i < |events| {
      var before := events[..|events| - 1];
      EncodingEnds(before, i, model);
      assert before[i - 1].Failed? && before[..i] == events[..i];
    } else {
      assert events[..i] == events;
    }
  }

  method IterChatSseFromCanonical(events: seq<Canonical>, model: string) returns (frames: seq<ChatFrame>)
    ensures frames == Encoded(events, model)
  {
    hide Encoded, LatestId, LatestInput, LatestOutput, HasFailed;
    frames := [];
    var completionId, inputTokens, outputTokens := "", 0, 0;
    var i := 0;
    NothingSaid(events, model);
    while i < |events|
      invariant 0 <= i <= |events| && !HasFailed(events[..i])
      invariant frames == Encoded(events[..i], model)
      invariant completionId == LatestId(events[..i])
      invariant inputTokens == LatestInput(events[..i]) && outputTokens == LatestOutput(events[..i])
    {
      var e := events[i];
      EncodeNext(events, i, model);
      i := i + 1;
      match e {
        case Started(id, _) =>
          completionId := id;
        case UsageUpdated(input, output, _) =>
          if input.Some? {
            inputTokens := input.value;
          }
          if output.Some? {
            outputTokens := output.value;
          }
        case TextDelta(text) =>
          frames := frames + [TextChunk(completionId, model, text)];
        case ToolStarted(index, callId, name) =>
          frames := frames + [CallChunk(completionId, model, index, callId, name)];
        case ToolArgs(index, delta) =>
          frames := frames + [ArgsChunk(completionId, model, index, delta)];
        case Completed(reason) =>
          var total := inputTokens + outputTokens;
          frames := frames + [FinishChunk(completionId, model, FinishOf(reason), inputTokens, outputTokens, total)];
          frames := frames + [Done];
        case Failed(kind, message) =>
          frames := frames + [ErrorData(kind, message)];
          return;
      }
    }
    assert events[..i] == events;
  }

  lemma NothingSaid(events: seq<Canonical>, model: string)
    ensures !HasFailed(events[..0]) && Encoded(events[..0], model) == []
    ensures LatestId(events[..0]) == "" && LatestInput(events[..0]) == 0 && LatestOutput(events[..0]) == 0
  {
  }

  // ---------------------------------------------------------------- what the frames say

  function FrameText(frames: seq<ChatFrame>): string {
    if frames == [] then ""
    else
      var f := frames[|frames| - 1];
      FrameText(frames[..|frames| - 1]) + if f.TextChunk? then f.text else ""
  }

  function FrameArgs(frames: seq<ChatFrame>, k: nat): string {
    if frames == [] then ""
    else
      var f := frames[|frames| - 1];
      FrameArgs(frames[..|frames| - 1], k) + if f.ArgsChunk? && f.index == k then f.arguments else ""
  }

  lemma OneFrame(frames: seq<ChatFrame>, f: ChatFrame, k: nat)
    ensures FrameText(frames + [f]) == FrameText(frames) + if f.TextChunk? then f.text else ""
    ensures FrameArgs(frames + [f], k)
         == FrameArgs(frames, k) + if f.ArgsChunk? && f.index == k then f.arguments else ""
  {
    assert (frames + [f])[..|frames|] == frames;
  }

  lemma OneEncoded(frames: seq<ChatFrame>, before: seq<Canonical>, e: Canonical, model: string, k: nat)
    ensures FrameText(frames + EncodeOne(before, e, model)) == FrameText(frames) + if e.TextDelta? then e.text else ""
    ensures FrameArgs(frames + EncodeOne(before, e, model), k)
         == FrameArgs(frames, k) + if e.ToolArgs? && e.index == k then e.delta else ""
  {
    hide FrameText, FrameArgs, LatestId, FinishFor;
    var fs := EncodeOne(before, e, model);
    if |fs| == 0 {
      assert frames + fs == frames;
    } else if |fs| == 1 {
      OneFrame(frames, fs[0], k);
      assert fs == [fs[0]];
    } else {
      IsFinish(before, e, model);
      OneFrame(frames, fs[0], k);
      OneFrame(frames + [fs[0]], fs[1], k);
      assert frames + fs == frames + [fs[0]] + [fs[1]];
    }
  }

  lemma IsFinish(before: seq<Canonical>, e: Canonical, model: string)
    requires e.Completed?
    ensures FinishFor(before, e.reason, model).FinishChunk?
  {
  }

  /** When a failure can only be last, no text or argument is lost. */
  lemma {:induction false} ContentIsEncoded(events: seq<Canonical>, model: string, k: nat)
    requires FailedOnlyLast(events)
    ensures FrameText(Encoded(events, model)) == TextOf(events)
    ensures FrameArgs(Encoded(events, model), k) == ArgsOf(events, k)
  {
    hide EncodeOne;
    if events != [] {
      var before, e := events[..|events| - 1], events[|events| - 1];
      assert forall i :: 0 <= i < |before| ==> before[i] == events[i];
      ContentIsEncoded(before, model, k);
      OneEncoded(Encoded(before, model), before, e, model, k);
    }
  }

  /**
   Each completion is reported with the latest input and output tokens and their sum, and `[DONE]` follows it at
   once and nowhere else; an error is the last frame.
   */
  ghost predicate Reported(events: seq<Canonical>, model: string, frames: seq<ChatFrame>) {
    (forall i, j {:trigger frames[i], frames[j]} :: 0 <= i && j == i + 1 && j < |frames| ==>
       (frames[i].FinishChunk? <==> frames[j].Done?) && !frames[i].ErrorData?)
    && (frames != [] ==> !frames[0].Done? && !frames[|frames| - 1].FinishChunk?)
    && forall i {:trigger frames[i]} :: 0 <= i < |frames| && frames[i].FinishChunk? ==>
         exists n :: 0 <= n < |events| && events[n].Completed?
                     && frames[i] == FinishFor(events[..n], events[n].reason, model)
  }

  ghost predicate NoError(frames: seq<ChatFrame>) {
    forall i :: 0 <= i < |frames| ==> !frames[i].ErrorData?
  }

  lemma {:induction false} CompletionsAreReported(events: seq<Canonical>, model: string)
    ensures Reported(events, model, Encoded(events, model))
    ensures !HasFailed(events) ==> NoError(Encoded(events, model))
  {
    hide EncodeOne, Reported, NoError, HasFailed;
    if events == [] {
      NothingReported(model);
    } else {
      var before, e := events[..|events| - 1], events[|events| - 1];
      assert events == before + [e];
      CompletionsAreReported(before, model);
      StillReported(before, e, model, Encoded(before, model));
      FailureHistory(before, e);
      if HasFailed(before) {
        assert Encoded(before, model) + [] == Encoded(before, model);
      } else {
        ReportOne(before, e, model, Encoded(before, model));
      }
    }
  }

  lemma NothingReported(model: string)
    ensures Reported([], model, []) && NoError([])
  {
  }

  lemma FailureHistory(before: seq<Canonical>, e: Canonical)
    ensures HasFailed(before + [e]) <==> HasFailed(before) || e.Failed?
  {
    var all := before + [e];
    assert forall i :: 0 <= i < |before| ==> all[i] == before[i];
    assert all[|before|] == e;
  }

  lemma StillReported(before: seq<Canonical>, e: Canonical, model: string, frames: seq<ChatFrame>)
    requires Reported(before, model, frames)
    ensures Reported(before + [e], model, frames)
  {
    hide FinishFor;
    var all := before + [e];
    forall i {:trigger frames[i]} | 0 <= i < |frames| && frames[i].FinishChunk?
      ensures exists n :: 0 <= n < |all| && all[n].Completed? && frames[i] == FinishFor(all[..n], all[n].reason, model)
    {
      FinishStaysReported(before, e, model, frames[i]);
    }
  }

  lemma FinishStaysReported(before: seq<Canonical>, e: Canonical, model: string, frame: ChatFrame)
    requires exists n :: 0 <= n < |before| && before[n].Completed?
                         && frame == FinishFor(before[..n], before[n].reason, model)
    ensures var all := before + [e];
            exists n :: 0 <= n < |all| && all[n].Completed? && frame == FinishFor(all[..n], all[n].reason, model)
  {
    hide FinishFor;
    var all := before + [e];
    var n :| 0 <= n < |before| && before[n].Completed? && frame == FinishFor(before[..n], before[n].reason, model);
    assert all[n] == before[n] && all[..n] == before[..n];
  }

  lemma ReportOne(before: seq<Canonical>, e: Canonical, model: string, frames: seq<ChatFrame>)
    requires Reported(before + [e], model, frames) && NoError(frames)
    ensures Reported(before + [e], model, frames + EncodeOne(before, e, model))
    ensures !e.Failed? ==> NoError(frames + EncodeOne(before, e, model))
  {
    hide FinishFor, LatestId;
    var all, fs := before + [e], EncodeOne(before, e, model);
    var longer := frames + fs;
    assert all[..|before|] == before && all[|before|] == e;
    if e.Completed? {
      IsFinish(before, e, model);
    }
    forall i {:trigger longer[i]} | 0 <= i < |longer| && longer[i].FinishChunk?
      ensures exists n :: 0 <= n < |all| && all[n].Completed? && longer[i] == FinishFor(all[..n], all[n].reason, model)
    {
      if i < |frames| {
        assert longer[i] == frames[i];
      }
    }
  }

  /** Every completion before a failure has its frame, followed by `[DONE]`. */
  lemma {:induction false} CompletionHasItsFrame(events: seq<Canonical>, n: nat, model: string)
    requires n < |events| && events[n].Completed? && !HasFailed(events[..n])
    ensures var i := |Encoded(events[..n], model)|;
            i + 1 < |Encoded(events, model)|
            && Encoded(events, model)[i] == FinishFor(events[..n], events[n].reason, model)
            && Encoded(events, model)[i + 1] == Done
    decreases |events|
  {
    hide FinishFor, HasFailed;
    var before := events[..|events| - 1];
    if n < |before| {
      assert before[..n] == events[..n];
      CompletionHasItsFrame(before, n, model);
    }
  }
}
