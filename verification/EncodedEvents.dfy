/** What each canonical event becomes on the Chat stream, event by event (proxy/app/stream_events.py). */
module EncodedEvents {
  import opened Wrappers
  import opened ChatEvents
  import opened CanonicalEvents
  import opened CanonicalToChat

  /** Event `i` is the last of its sort. */
  predicate IsLast(events: seq<Canonical>, i: nat, sort: Canonical -> bool) {
    i < |events| && sort(events[i]) && forall j :: i < j < |events| ==> !sort(events[j])
  }

  predicate Announces(e: Canonical) { e.Started? }

  predicate GivesInput(e: Canonical) { e.UsageUpdated? && e.input.Some? }

  predicate GivesOutput(e: Canonical) { e.UsageUpdated? && e.output.Some? }

  /** The identifier announced last, and the token counts given last; none at first. */
  datatype Latest = Latest(id: string, input: nat, output: nat)

  ghost predicate IsLatest(events: seq<Canonical>, l: Latest) {
    && (forall i: nat :: IsLast(events, i, Announces) ==> l.id == events[i].id)
    && (forall i: nat :: IsLast(events, i, GivesInput) ==> l.input == events[i].input.value)
    && (forall i: nat :: IsLast(events, i, GivesOutput) ==> l.output == events[i].output.value)
    && ((forall i :: 0 <= i < |events| ==> !Announces(events[i])) ==> l.id == "")
    && ((forall i :: 0 <= i < |events| ==> !GivesInput(events[i])) ==> l.input == 0)
    && ((forall i :: 0 <= i < |events| ==> !GivesOutput(events[i])) ==> l.output == 0)
  }

  lemma LastOfMore(events: seq<Canonical>, i: nat, sort: Canonical -> bool)
    requires events != [] && IsLast(events, i, sort)
    ensures sort(events[|events| - 1]) ==> i == |events| - 1
    ensures !sort(events[|events| - 1]) ==> IsLast(events[..|events| - 1], i, sort)
  {
  }

  lemma {:induction false} IdIsLatest(events: seq<Canonical>)
    ensures forall i: nat :: IsLast(events, i, Announces) ==> LatestId(events) == events[i].id
    ensures (forall i :: 0 <= i < |events| ==> !Announces(events[i])) ==> LatestId(events) == ""
  {
    if events != [] {
      IdIsLatest(events[..|events| - 1]);
      forall i: nat | IsLast(events, i, Announces) ensures LatestId(events) == events[i].id {
        LastOfMore(events, i, Announces);
      }
    }
  }

  lemma {:induction false} InputIsLatest(events: seq<Canonical>)
    ensures forall i: nat :: IsLast(events, i, GivesInput) ==> LatestInput(events) == events[i].input.value
    ensures (forall i :: 0 <= i < |events| ==> !GivesInput(events[i])) ==> LatestInput(events) == 0
  {
    if events != [] {
      InputIsLatest(events[..|events| - 1]);
      forall i: nat | IsLast(events, i, GivesInput) ensures LatestInput(events) == events[i].input.value {
        LastOfMore(events, i, GivesInput);
      }
    }
  }

  lemma {:induction false} OutputIsLatest(events: seq<Canonical>)
    ensures forall i: nat :: IsLast(events, i, GivesOutput) ==> LatestOutput(events) == events[i].output.value
    ensures (forall i :: 0 <= i < |events| ==> !GivesOutput(events[i])) ==> LatestOutput(events) == 0
  {
    if events != [] {
      OutputIsLatest(events[..|events| - 1]);
      forall i: nat | IsLast(events, i, GivesOutput) ensures LatestOutput(events) == events[i].output.value {
        LastOfMore(events, i, GivesOutput);
      }
    }
  }

  /** The finish reason of a Chat chunk that says why a message ended. */
  predicate Means(finish: FinishReason, reason: Reason) {
    match finish
    case Length => reason == MaxTokens
    case ToolCalls => reason == ToolUse
    case ContentFilter => reason == ContentFiltered
    case Stop => reason != MaxTokens && reason != ToolUse && reason != ContentFiltered
    case FunctionCall => false
  }

  /** The frames that one event becomes, under what has been said last. */
  predicate Becomes(e: Canonical, frames: seq<ChatFrame>, l: Latest, model: string) {
    match e
    case Started(_, _) => frames == []
    case UsageUpdated(_, _, _) => frames == []
    case TextDelta(text) => frames == [TextChunk(l.id, model, text)]
    case ToolStarted(k, callId, name) => frames == [CallChunk(l.id, model, k, callId, name)]
    case ToolArgs(k, arguments) => frames == [ArgsChunk(l.id, model, k, arguments)]
    case Failed(kind, message) => frames == [ErrorData(kind, message)]
    case Completed(reason) =>
      |frames| == 2 && frames[0].FinishChunk? && Means(frames[0].finish, reason) && frames[1] == Done
      && frames[0] == FinishChunk(l.id, model, frames[0].finish, l.input, l.output, l.input + l.output)
  }

  /** Every event up to the first failure, that one included, becomes its frames, right after those before it. */
  lemma {:induction false} EventIsEncoded(events: seq<Canonical>, n: nat, model: string)
    returns (before: seq<ChatFrame>, frames: seq<ChatFrame>, l: Latest)
    requires n < |events| && !HasFailed(events[..n])
    ensures before == Encoded(events[..n], model) && before + frames == Encoded(events[..n + 1], model)
    ensures before + frames <= Encoded(events, model)
    ensures events[n].Failed? ==> before + frames == Encoded(events, model)
    ensures IsLatest(events[..n], l) && Becomes(events[n], frames, l, model)
  {
    hide Encoded, HasFailed, LatestId, LatestInput, LatestOutput, IsLast, Announces, GivesInput, GivesOutput;
    EncodeNext(events, n, model);
    EncodedGrows(events, n + 1, model);
    IdIsLatest(events[..n]);
    InputIsLatest(events[..n]);
    OutputIsLatest(events[..n]);
    before, frames := Encoded(events[..n], model), EncodeOne(events[..n], events[n], model);
    l := Latest(LatestId(events[..n]), LatestInput(events[..n]), LatestOutput(events[..n]));
  }

  lemma {:induction false} EncodedGrows(events: seq<Canonical>, n: nat, model: string)
    requires n <= |events|
    ensures Encoded(events[..n], model) <= Encoded(events, model)
    decreases |events|
  {
    hide EncodeOne, HasFailed;
    if n < |events| {
      EncodedGrows(events[..|events| - 1], n, model);
      assert events[..|events| - 1][..n] == events[..n];
    } else {
      assert events[..n] == events;
    }
  }
}
