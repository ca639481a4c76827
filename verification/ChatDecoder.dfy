/** Chunks or one terminal error, decoded from the bytes of a Chat stream (`iter_openai_chat_events`). */
module ChatDecoder {
  import opened Wrappers
  import opened Utf8
  import opened ChatEvents
  import opened SseDecoder
  import opened MixedStreams

  const MISMATCH := "Provider stream chunk did not match the Chat protocol"

  function ChatEventOf(e: Event): ChatEvent {
    match e
    case Error(message) => Failure(StreamError(message))
    case Json(ErrorPayload(error)) => Failure(error)
    case Json(ChunkPayload(chunk)) => Data(chunk)
    case Json(OtherPayload(_)) => Failure(StreamError(MISMATCH))
  }

  /** Everything up to and including the first failure. */
  function UpToFailure(events: seq<Event>): (r: seq<ChatEvent>)
    ensures |r| <= |events| && forall i :: 0 <= i < |r| ==> r[i] == ChatEventOf(events[i])
    ensures FailureOnlyLast(r)
    ensures |r| < |events| ==> r != [] && r[|r| - 1].Failure?
  {
    hide ChatEventOf;
    if events == [] then []
    else
      var first := ChatEventOf(events[0]);
      if first.Failure? then [first]
      else
        DataInFront(events, UpToFailure(events[1..]));
        [first] + UpToFailure(events[1..])
  }

  lemma DataInFront(events: seq<Event>, rest: seq<ChatEvent>)
    requires events != [] && ChatEventOf(events[0]).Data? && |rest| < |events| && FailureOnlyLast(rest)
    requires forall i :: 0 <= i < |rest| ==> rest[i] == ChatEventOf(events[1..][i])
    ensures var r := [ChatEventOf(events[0])] + rest;
            FailureOnlyLast(r) && forall i :: 0 <= i < |r| ==> r[i] == ChatEventOf(events[i])
  {
    hide ChatEventOf;
    var r := [ChatEventOf(events[0])] + rest;
    forall i | 0 <= i < |r| ensures r[i] == ChatEventOf(events[i]) && (i < |r| - 1 ==> r[i].Data?) {
      if i > 0 {
        assert r[i] == rest[i - 1] && events[1..][i - 1] == events[i];
      }
    }
  }

  /** What the events of a stream are to Chat: chunks, up to the first thing that is none. */
  function ChatTold(events: seq<Event>): seq<ChatEvent> {
    if events == [] then []
    else match events[0]
      case Json(ChunkPayload(chunk)) => [Data(chunk)] + ChatTold(events[1..])
      case Json(ErrorPayload(error)) => [Failure(error)]
      case Json(OtherPayload(_)) =>
        [Failure(ErrorObject(Some("invalid_upstream_stream"),
                             Some("Provider stream chunk did not match the Chat protocol")))]
      case Error(message) => [Failure(ErrorObject(Some("invalid_upstream_stream"), Some(message)))]
  }

  /** The failure keeps its place, its kind and its message. */
  lemma {:induction false} ChatIsTold(events: seq<Event>)
    ensures UpToFailure(events) == ChatTold(events)
  {
    if events != [] {
      ChatIsTold(events[1..]);
    }
  }

  lemma {:induction false} UpToFailureStops(events: seq<Event>, i: nat)
    requires i < |events| && ChatEventOf(events[i]).Failure?
    requires forall j :: 0 <= j < i ==> ChatEventOf(events[j]).Data?
    ensures |UpToFailure(events)| == i + 1
  {
    if i > 0 {
      UpToFailureStops(events[1..], i - 1);
    }
  }

  /** However the stream is cut: the decoded events up to the first failure, which is then the last. */
  method IterOpenAiChatEvents(pieces: seq<Piece>, parse: Parser) returns (out: seq<ChatEvent>)
    ensures out == UpToFailure(EventsOf(DecodePieces(pieces), parse))
    ensures FailureOnlyLast(out)
  {
    hide EventsOf, DecodePieces, UpToFailure;
    var events, emitted := IterSseJson(pieces, parse);
    out := [];
    var i := 0;
    while i < |events|
      invariant 0 <= i <= |events| && |out| == i
      invariant forall j :: 0 <= j < i ==> out[j] == ChatEventOf(events[j]) && out[j].Data?
    {
      var e := ChatEventOf(events[i]);
      out := out + [e];
      if e.Failure? {
        UpToFailureStops(events, i);
        return;
      }
      i := i + 1;
    }
  }

  /** Two ways of cutting the same valid byte stream decode to the same Chat events. */
  lemma {:induction false} ChatEventsDoNotDependOnCutting(a: seq<Piece>, b: seq<Piece>, parse: Parser)
    requires AllRaw(a) && AllRaw(b) && Bytestream(a) == Bytestream(b) && Pump(Bytestream(a)).ok
    ensures UpToFailure(EventsOf(DecodePieces(a), parse)) == UpToFailure(EventsOf(DecodePieces(b), parse))
  {
    CuttingDoesNotMatter(a, b, parse);
  }

  // ---------------------------------------------------------------- invalid bytes

  ghost predicate ChatCutIndependent(b: Bytes, parse: Parser) {
    forall x, y :: AllRaw(x) && AllRaw(y) && Bytestream(x) == b && Bytestream(y) == b ==>
      UpToFailure(EventsOf(DecodePieces(x), parse)) == UpToFailure(EventsOf(DecodePieces(y), parse))
  }

  lemma FirstIsKept(events: seq<Event>)
    requires events != []
    ensures UpToFailure(events) != [] && UpToFailure(events)[0] == ChatEventOf(events[0])
    ensures ChatEventOf(events[0]).Failure? ==> UpToFailure(events) == [ChatEventOf(events[0])]
  {
  }

  /** An invalid stream gives what its good lines give, and the error after it if they have not failed. */
  lemma EventsOfCut(x: seq<Piece>, parse: Parser)
    requires AllRaw(x) && !Pump(Bytestream(x)).ok
    ensures var events := EventsOf(DecodePieces(x), parse);
            events != []
            && (events[0] == Error(INVALID_UTF8)
                || (GoodLineEvents(Bytestream(x), parse).events != []
                    && events[0] == GoodLineEvents(Bytestream(x), parse).events[0]))
  {
    hide Pump, LineEvents, SplitLines, DecodePieces, Bytestream, EventsOf;
    InvalidStreamFails(x);
    EventsOfInvalid(DecodePieces(x), Pump(Bytestream(x)).text, parse);
  }

  /**
   For Chat events the cut makes no difference if and only if there is no invalid byte, or no complete line before
   the first one gives an event, or the first event it gives is the very error that an invalid byte gives.
   */
  lemma {:induction false} ChatCuttingDoesNotMatterIff(b: Bytes, parse: Parser)
    ensures ChatCutIndependent(b, parse)
       <==> Pump(b).ok
            || (var events := GoodLineEvents(b, parse).events;
                events == [] || ChatEventOf(events[0]) == ChatEventOf(Error(INVALID_UTF8)))
  {
    hide Pump, DecodePieces, Bytestream, EventsOf, GoodLineEvents, UpToFailure;
    var events := GoodLineEvents(b, parse).events;
    if Pump(b).ok || events == [] {
      CuttingDoesNotMatterIff(b, parse);
    } else if ChatEventOf(events[0]) == ChatEventOf(Error(INVALID_UTF8)) {
      forall x | AllRaw(x) && Bytestream(x) == b
        ensures UpToFailure(EventsOf(DecodePieces(x), parse)) == [ChatEventOf(Error(INVALID_UTF8))]
      {
        EventsOfCut(x, parse);
        FirstIsKept(EventsOf(DecodePieces(x), parse));
      }
    } else {
      ChatCutsThatDiffer(b, parse);
    }
  }

  lemma {:induction false} ChatCutsThatDiffer(b: Bytes, parse: Parser)
    requires !Pump(b).ok && GoodLineEvents(b, parse).events != []
    requires ChatEventOf(GoodLineEvents(b, parse).events[0]) != ChatEventOf(Error(INVALID_UTF8))
    ensures !ChatCutIndependent(b, parse)
  {
    hide Pump, LineEvents, SplitLines, DecodePieces, Bytestream, EventsOf, Encode, UpToFailure;
    ExtremeCuts(b);
    var text := Pump(b).text;
    var whole, split := [Raw(b)], [Raw(Encode(text)), Raw(Pump(b).rest)];
    EventsOfInvalid(Decoded("", [], Some(INVALID_UTF8)), text, parse);
    EventsOfInvalid(Decoded(text, [], Some(INVALID_UTF8)), text, parse);
    NoLines(parse);
    assert EventsOf(DecodePieces(whole), parse) == [Error(INVALID_UTF8)];
    FirstIsKept(EventsOf(DecodePieces(whole), parse));
    FirstIsKept(EventsOf(DecodePieces(split), parse));
  }

  // ---------------------------------------------------------------- streams that mix bytes and texts

  ghost predicate ChatRecutIndependent(pieces: seq<Piece>, parse: Parser) {
    forall x, y :: Recut(x, pieces) && Recut(y, pieces) ==>
      UpToFailure(EventsOf(DecodePieces(x), parse)) == UpToFailure(EventsOf(DecodePieces(y), parse))
  }

  predicate NoneFails(events: seq<Event>) {
    forall e :: e in events ==> ChatEventOf(e).Data?
  }

  lemma {:induction false} FailsWithin(a: seq<Event>, b: seq<Event>, short: seq<Event>)
    requires short <= a && short <= b && !NoneFails(short)
    ensures UpToFailure(a) == UpToFailure(b)
  {
    hide ChatEventOf, UpToFailure;
    var i := FirstFailure(short);
    UpToFailureStops(a, i);
    UpToFailureStops(b, i);
  }

  lemma {:induction false} FirstFailure(events: seq<Event>) returns (i: nat)
    requires !NoneFails(events)
    ensures i < |events| && ChatEventOf(events[i]).Failure?
    ensures forall j :: 0 <= j < i ==> ChatEventOf(events[j]).Data?
  {
    hide ChatEventOf;
    i := 0;
    while ChatEventOf(events[i]).Data?
      invariant i < |events| && forall j :: 0 <= j < i ==> ChatEventOf(events[j]).Data?
      invariant exists j :: i <= j < |events| && ChatEventOf(events[j]).Failure?
      decreases |events| - i
    {
      i := i + 1;
    }
  }

  /** Beyond events none of which fails, the first event decides. */
  lemma {:induction false} NextIsKept(events: seq<Event>, short: seq<Event>)
    requires short <= events && |short| < |events| && NoneFails(short)
    ensures var u, e := UpToFailure(events), ChatEventOf(events[|short|]);
            |u| > |short| && u[|short|] == e && (e.Failure? ==> |u| == |short| + 1)
  {
    hide ChatEventOf, UpToFailure;
    var u := UpToFailure(events);
    assert forall i :: 0 <= i < |short| ==> events[i] == short[i] && short[i] in short;
    if ChatEventOf(events[|short|]).Failure? {
      UpToFailureStops(events, |short|);
    }
  }

  /** The events of a cut start with those of the fewest cuts, and go on as the most cuts do or with the error. */
  lemma {:induction false} EventsOfRecut(d: Decoded, least: string, most: string, parse: Parser)
    requires d.error == Some(INVALID_UTF8) && least <= d.text <= most
    ensures var short, long, events := TextEvents(least, parse), TextEvents(most, parse), EventsOf(d, parse);
            short <= long && short <= events
            && (NoneFails(short) ==>
                  |events| > |short|
                  && (events[|short|] == Error(INVALID_UTF8) || (|long| > |short| && events[|short|] == long[|short|])))
            && (NoneFails(short) && d.text == least ==> events[|short|] == Error(INVALID_UTF8))
            && (d.text == most && |long| > |short| ==> |events| > |short| && events[|short|] == long[|short|])
  {
    hide TextEvents, EventsOf;
    TextEventsGrow(least, d.text, parse);
    TextEventsGrow(d.text, most, parse);
    InvalidAfter(d, parse);
    var short, es := TextEvents(least, parse), TextEvents(d.text, parse);
    if NoneFails(short) && |es| == |short| && es != [] {
      assert es[|es| - 1] in short;
    }
  }

  lemma {:induction false} SameUpTo(a: seq<Event>, b: seq<Event>, short: seq<Event>)
    requires short <= a && short <= b && |a| > |short| && |b| > |short| && NoneFails(short)
    requires ChatEventOf(a[|short|]).Failure? && ChatEventOf(a[|short|]) == ChatEventOf(b[|short|])
    ensures UpToFailure(a) == UpToFailure(b)
  {
    hide ChatEventOf, UpToFailure, NoneFails;
    NextIsKept(a, short);
    NextIsKept(b, short);
    assert forall i :: 0 <= i < |short| ==> a[i] == short[i] == b[i];
  }

  lemma {:induction false} ExtremesDecide(pieces: seq<Piece>, short: seq<Event>, long: seq<Event>, parse: Parser)
    requires Reach(pieces).error == Some(INVALID_UTF8) && short != long && NoneFails(short)
    requires short == TextEvents(DecodePieces(Glued(pieces)).text, parse)
    requires long == TextEvents(Reach(pieces).text, parse)
    ensures |short| < |long|
    ensures ChatRecutIndependent(pieces, parse)
       <==> ChatEventOf(long[|short|]) == ChatEventOf(Error(INVALID_UTF8))
  {
    hide Glued, Reach, DecodePieces, EventsOf, TextEvents, UpToFailure, NoneFails;
    var least, most := DecodePieces(Glued(pieces)).text, Reach(pieces).text;
    var few, many := Extremes(pieces);
    BetweenExtremes(few, pieces);
    EventsOfRecut(DecodePieces(few), least, most, parse);
    EventsOfRecut(DecodePieces(many), least, most, parse);
    if ChatEventOf(long[|short|]) == ChatEventOf(Error(INVALID_UTF8)) {
      forall x, y | Recut(x, pieces) && Recut(y, pieces)
        ensures UpToFailure(EventsOf(DecodePieces(x), parse)) == UpToFailure(EventsOf(DecodePieces(y), parse))
      {
        BetweenExtremes(x, pieces);
        BetweenExtremes(y, pieces);
        EventsOfRecut(DecodePieces(x), least, most, parse);
        EventsOfRecut(DecodePieces(y), least, most, parse);
        SameUpTo(EventsOf(DecodePieces(x), parse), EventsOf(DecodePieces(y), parse), short);
      }
    } else {
      NextIsKept(EventsOf(DecodePieces(few), parse), short);
      NextIsKept(EventsOf(DecodePieces(many), parse), short);
    }
  }

  /**
   For Chat events the cut makes no difference if and only if there is no invalid byte, or the first event that cuts
   can add is missing, comes after a failure, or is the very error that an invalid byte gives.
   */
  lemma {:induction false} ChatRecuttingDoesNotMatterIff(pieces: seq<Piece>, parse: Parser)
    ensures ChatRecutIndependent(pieces, parse)
       <==> Reach(pieces).error != Some(INVALID_UTF8)
            || (var short := TextEvents(DecodePieces(Glued(pieces)).text, parse);
                var long := TextEvents(Reach(pieces).text, parse);
                short == long || !NoneFails(short)
                || (|short| < |long| && ChatEventOf(long[|short|]) == ChatEventOf(Error(INVALID_UTF8))))
  {
    hide Glued, Reach, DecodePieces, EventsOf, TextEvents, UpToFailure, ChatEventOf, NoneFails;
    var least, most := DecodePieces(Glued(pieces)).text, Reach(pieces).text;
    var short, long := TextEvents(least, parse), TextEvents(most, parse);
    RecuttingDoesNotMatterIff(pieces, parse);
    if Reach(pieces).error == Some(INVALID_UTF8) && short != long {
      if NoneFails(short) {
        ExtremesDecide(pieces, short, long, parse);
      } else {
        forall x, y | Recut(x, pieces) && Recut(y, pieces)
          ensures UpToFailure(EventsOf(DecodePieces(x), parse)) == UpToFailure(EventsOf(DecodePieces(y), parse))
        {
          BetweenExtremes(x, pieces);
          BetweenExtremes(y, pieces);
          EventsOfRecut(DecodePieces(x), least, most, parse);
          EventsOfRecut(DecodePieces(y), least, most, parse);
          FailsWithin(EventsOf(DecodePieces(x), parse), EventsOf(DecodePieces(y), parse), short);
        }
      }
    }
  }
}
