/**
 Decoding a Chat completion SSE stream that arrives in arbitrary pieces (proxy/app/openai_chat_stream.py).
 JSON parsing and chunk validation are a total function with error results.
 */
module SseDecoder {
  import opened Wrappers
  import opened Utf8
  import opened ChatEvents

  /** What one piece of the body iterator is. */
  datatype Piece = Raw(bytes: Bytes) | Text(text: string)

  /** A JSON object: an error without choices, a valid chunk, or neither. */
  datatype Payload =
    | ErrorPayload(error: RawError)
    | ChunkPayload(chunk: Chunk)
    | OtherPayload(body: string)

  datatype Parsed = Malformed | NotObject | Object(payload: Payload)

  type Parser = string -> Parsed

  datatype Event = Json(payload: Payload) | Error(message: string)

  const INVALID_UTF8 := "Provider stream contained invalid UTF-8"
  const TYPE_CHANGED := "Provider stream changed chunk type during UTF-8 sequence"
  const INCOMPLETE_UTF8 := "Provider stream ended with incomplete UTF-8"
  const NOT_AN_OBJECT := "Provider stream event was not a JSON object"

  // ---------------------------------------------------------------- lines

  datatype Lines = Lines(complete: seq<string>, rest: string)

  /** The complete lines of a text, and what follows the last newline. */
  function SplitLines(text: string): Lines {
    if text == "" then Lines([], "")
    else
      var n := |text| - 1;
      var before := SplitLines(text[..n]);
      if text[n] == '\n' then Lines(before.complete + [before.rest], "")
      else before.(rest := before.rest + [text[n]])
  }

  lemma {:induction false} SplitAppend(a: string, b: string)
    ensures SplitLines(a + b).complete == SplitLines(a).complete + SplitLines(SplitLines(a).rest + b).complete
    ensures SplitLines(a + b).rest == SplitLines(SplitLines(a).rest + b).rest
    decreases |b|
  {
    var rest := SplitLines(a).rest;
    if b == "" {
      assert a + b == a && rest + b == rest;
      RestHasNoNewline(a);
      SplitOneLine(rest);
    } else {
      var n := |b| - 1;
      SplitAppend(a, b[..n]);
      assert (a + b)[..|a| + n] == a + b[..n];
      assert (rest + b)[..|rest| + n] == rest + b[..n];
    }
  }

  lemma {:induction false} RestHasNoNewline(text: string)
    ensures '\n' !in SplitLines(text).rest
  {
    if text != "" {
      RestHasNoNewline(text[..|text| - 1]);
    }
  }

  lemma {:induction false} SplitOneLine(line: string)
    requires '\n' !in line
    ensures SplitLines(line) == Lines([], line)
  {
    if line != "" {
      SplitOneLine(line[..|line| - 1]);
    }
  }

  /** Taking the first line off a text. */
  lemma SplitFirst(line: string, tail: string)
    requires '\n' !in line
    ensures SplitLines(line + "\n" + tail).complete == [line] + SplitLines(tail).complete
    ensures SplitLines(line + "\n" + tail).rest == SplitLines(tail).rest
  {
    SplitOneLine(line);
    assert (line + "\n")[..|line|] == line;
    assert SplitLines(line + "\n") == Lines([line], "");
    SplitAppend(line + "\n", tail);
    assert "" + tail == tail;
  }

  // ---------------------------------------------------------------- one line

  predicate IsSpace(c: char) {
    var n := c as int;
    0x09 <= n <= 0x0D || 0x1C <= n <= 0x20 || n == 0x85 || n == 0xA0 || n == 0x1680 || 0x2000 <= n <= 0x200A
    || n == 0x2028 || n == 0x2029 || n == 0x202F || n == 0x205F || n == 0x3000
  }

  function StripLeft(s: string): string {
    if s != "" && IsSpace(s[0]) then StripLeft(s[1..]) else s
  }

  function StripRight(s: string): string {
    if s != "" && IsSpace(s[|s| - 1]) then StripRight(s[..|s| - 1]) else s
  }

  function StripReturns(s: string): string {
    if s != "" && s[|s| - 1] == '\r' then StripReturns(s[..|s| - 1]) else s
  }

  datatype LineResult = Skip | Emit(payload: Payload) | Fail(message: string)

  function ReadLine(line: string, parse: Parser, malformed: string): LineResult {
    var stripped := StripReturns(line);
    if !("data:" <= stripped) then Skip
    else
      var data := StripRight(StripLeft(stripped[5..]));
      if data == "" || data == "[DONE]" then Skip
      else match parse(data)
        case Malformed => Fail(malformed)
        case NotObject => Fail(NOT_AN_OBJECT)
        case Object(payload) => Emit(payload)
  }

  const MALFORMED := "Provider stream contained malformed JSON"
  const MALFORMED_AT_END := "Provider stream ended with malformed JSON"

  /** The events of complete lines, up to and including the first failure. */
  datatype Output = Output(events: seq<Event>, failed: bool)

  function AddLine(o: Output, r: LineResult): Output {
    if o.failed then o
    else match r
      case Skip => o
      case Emit(payload) => o.(events := o.events + [Json(payload)])
      case Fail(message) => Output(o.events + [Error(message)], true)
  }

  function LineEvents(lines: seq<string>, parse: Parser): Output {
    if lines == [] then Output([], false)
    else AddLine(LineEvents(lines[..|lines| - 1], parse), ReadLine(lines[|lines| - 1], parse, MALFORMED))
  }

  lemma {:induction false} FailureIsFinal(a: seq<string>, b: seq<string>, parse: Parser)
    requires LineEvents(a, parse).failed
    ensures LineEvents(a + b, parse) == LineEvents(a, parse)
    decreases |b|
  {
    if b == [] {
      assert a + b == a;
    } else {
      var n := |b| - 1;
      FailureIsFinal(a, b[..n], parse);
      assert (a + b)[..|a| + n] == a + b[..n];
    }
  }

  // ---------------------------------------------------------------- the whole stream

  /** The text decoded from the pieces, the bytes of a character still to be completed, and a fatal error. */
  datatype Decoded = Decoded(text: string, pending: Bytes, error: Option<string>)

  function DecodeOne(d: Decoded, piece: Piece): Decoded {
    match piece
    case Raw(bytes) =>
      var p := Pump(d.pending + bytes);
      if p.ok then Decoded(d.text + p.text, p.rest, None) else d.(error := Some(INVALID_UTF8))
    case Text(text) =>
      if d.pending != [] then d.(error := Some(TYPE_CHANGED)) else d.(text := d.text + text)
  }

  function DecodePieces(pieces: seq<Piece>): Decoded {
    if pieces == [] then Decoded("", [], None)
    else
      var d := DecodePieces(pieces[..|pieces| - 1]);
      if d.error.Some? then d else DecodeOne(d, pieces[|pieces| - 1])
  }

  /** The events of a decoded text, however it was cut. */
  function EventsOf(d: Decoded, parse: Parser): seq<Event> {
    var lines := SplitLines(d.text);
    var o := LineEvents(lines.complete, parse);
    if o.failed then o.events
    else if d.error.Some? then o.events + [Error(d.error.value)]
    else if d.pending != [] then o.events + [Error(INCOMPLETE_UTF8)]
    else AddLine(o, ReadLine(lines.rest, parse, MALFORMED_AT_END)).events
  }

  lemma {:induction false} TextOnlyGrows(pieces: seq<Piece>, i: nat)
    requires i <= |pieces|
    ensures DecodePieces(pieces[..i]).text <= DecodePieces(pieces).text
    ensures DecodePieces(pieces[..i]).error.Some? ==> DecodePieces(pieces) == DecodePieces(pieces[..i])
    decreases |pieces|
  {
    hide Pump;
    if i < |pieces| {
      var n := |pieces| - 1;
      TextOnlyGrows(pieces[..n], i);
      assert pieces[..n][..i] == pieces[..i];
    } else {
      assert pieces[..i] == pieces;
    }
  }

  /** Once a line has failed, later pieces change nothing. */
  lemma EarlyFailure(early: string, d: Decoded, parse: Parser)
    requires early <= d.text && LineEvents(SplitLines(early).complete, parse).failed
    ensures EventsOf(d, parse) == LineEvents(SplitLines(early).complete, parse).events
  {
    var later := d.text[|early|..];
    assert d.text == early + later;
    SplitAppend(early, later);
    FailureIsFinal(SplitLines(early).complete, SplitLines(SplitLines(early).rest + later).complete, parse);
  }

  function FindNewline(s: string, from: nat): (k: int)
    requires from <= |s|
    ensures k == -1 || (from <= k < |s| && s[k] == '\n' && '\n' !in s[from..k])
    ensures k == -1 ==> '\n' !in s[from..]
    decreases |s| - from
  {
    if from == |s| then -1
    else if s[from] == '\n' then from
    else
      var k := FindNewline(s, from + 1);
      assert s[from..] == [s[from]] + s[from + 1..];
      assert k >= 0 ==> s[from..k] == [s[from]] + s[from + 1..k];
      k
  }

  lemma {:induction false} TakeLine(lines: seq<string>, buffer: string, line: string, tail: string, parse: Parser)
    requires '\n' !in line && buffer == line + "\n" + tail
    ensures SplitLines(buffer).rest == SplitLines(tail).rest
    ensures LineEvents(lines + SplitLines(buffer).complete, parse)
         == LineEvents(lines + [line] + SplitLines(tail).complete, parse)
    ensures LineEvents(lines + [line], parse) == AddLine(LineEvents(lines, parse), ReadLine(line, parse, MALFORMED))
    ensures LineEvents(lines + [line], parse).failed ==>
              LineEvents(lines + SplitLines(buffer).complete, parse) == LineEvents(lines + [line], parse)
  {
    hide ReadLine, SplitLines;
    SplitFirst(line, tail);
    assert lines + ([line] + SplitLines(tail).complete) == lines + [line] + SplitLines(tail).complete;
    assert (lines + [line])[..|lines|] == lines;
    if LineEvents(lines + [line], parse).failed {
      FailureIsFinal(lines + [line], SplitLines(tail).complete, parse);
    }
  }

  /** The inner loop: take complete lines off the buffer; `lines` are the ones read before. */
  method DrainLines(buffer: string, parse: Parser, before: Output, ghost lines: seq<string>)
    returns (rest: string, o: Output)
    requires !before.failed && before == LineEvents(lines, parse)
    ensures !o.failed ==> rest == SplitLines(buffer).rest
    ensures o == LineEvents(lines + SplitLines(buffer).complete, parse)
  {
    hide ReadLine, SplitLines, LineEvents, AddLine;
    rest, o := buffer, before;
    ghost var read := lines;
    while true
      invariant !o.failed && o == LineEvents(read, parse)
      invariant SplitLines(rest).rest == SplitLines(buffer).rest
      invariant LineEvents(read + SplitLines(rest).complete, parse)
             == LineEvents(lines + SplitLines(buffer).complete, parse)
      decreases |rest|
    {
      var k := FindNewline(rest, 0);
      if k == -1 {
        assert rest[0..] == rest;
        SplitOneLine(rest);
        assert read + [] == read;
        return;
      }
      var line, tail := rest[..k], rest[k + 1..];
      assert rest[0..k] == line && rest == line + "\n" + tail;
      TakeLine(read, rest, line, tail, parse);
      o := AddLine(o, ReadLine(line, parse, MALFORMED));
      if o.failed {
        return;
      }
      read, rest := read + [line], tail;
    }
  }

  /** The complete lines decoded so far have been read without a failure, and `rest` is waiting. */
  ghost predicate UpToDate(d: Decoded, parse: Parser, rest: string, o: Output) {
    d.error.None? && rest == SplitLines(d.text).rest && o == LineEvents(SplitLines(d.text).complete, parse) && !o.failed
  }

  lemma MoreText(d: Decoded, more: Decoded, t: string, parse: Parser, rest: string, o: Output)
    requires UpToDate(d, parse, rest, o) && more.text == d.text + t
    ensures SplitLines(more.text).rest == SplitLines(rest + t).rest
    ensures LineEvents(SplitLines(more.text).complete, parse)
         == LineEvents(SplitLines(d.text).complete + SplitLines(rest + t).complete, parse)
    ensures o.events <= LineEvents(SplitLines(more.text).complete, parse).events
  {
    SplitAppend(d.text, t);
    LinesExtend(SplitLines(d.text).complete, SplitLines(rest + t).complete, parse);
  }

  lemma {:induction false} NextPiece(pieces: seq<Piece>, i: nat)
    requires i < |pieces| && DecodePieces(pieces[..i]).error.None?
    ensures DecodePieces(pieces[..i + 1]) == DecodeOne(DecodePieces(pieces[..i]), pieces[i])
    ensures DecodePieces(pieces[..i + 1]).text <= DecodePieces(pieces).text
    ensures DecodePieces(pieces[..i + 1]).error.Some? ==> DecodePieces(pieces) == DecodePieces(pieces[..i + 1])
  {
    hide DecodeOne;
    assert pieces[..i + 1][..i] == pieces[..i];
    TextOnlyGrows(pieces, i + 1);
  }

  lemma EventsAtEnd(d: Decoded, parse: Parser, rest: string, o: Output)
    requires UpToDate(d, parse, rest, o)
    ensures forall m :: EventsOf(d.(error := Some(m)), parse) == o.events + [Error(m)]
    ensures d.pending != [] ==> EventsOf(d, parse) == o.events + [Error(INCOMPLETE_UTF8)]
    ensures d.pending == [] ==> EventsOf(d, parse) == AddLine(o, ReadLine(rest, parse, MALFORMED_AT_END)).events
  {
  }

  /** `emitted` says how many events the lines complete after each piece give. */
  ghost predicate EmittedAfterEach(pieces: seq<Piece>, parse: Parser, events: seq<Event>, emitted: seq<nat>) {
    |emitted| <= |pieces|
    && forall j {:trigger emitted[j]} :: 0 <= j < |emitted| ==>
         emitted[j] <= |events|
         && events[..emitted[j]] == LineEvents(SplitLines(DecodePieces(pieces[..j + 1]).text).complete, parse).events
  }

  lemma EmittedGrows(pieces: seq<Piece>, parse: Parser, before: seq<Event>, events: seq<Event>, emitted: seq<nat>)
    requires EmittedAfterEach(pieces, parse, before, emitted) && before <= events && |emitted| < |pieces|
    requires events == LineEvents(SplitLines(DecodePieces(pieces[..|emitted| + 1]).text).complete, parse).events
    ensures EmittedAfterEach(pieces, parse, events, emitted + [|events|])
  {
    hide LineEvents, SplitLines, DecodePieces;
    var longer := emitted + [|events|];
    forall j {:trigger longer[j]} | 0 <= j < |longer|
      ensures longer[j] <= |events|
              && events[..longer[j]]
                 == LineEvents(SplitLines(DecodePieces(pieces[..j + 1]).text).complete, parse).events
    {
      if j < |emitted| {
        assert emitted[j] <= |before|;
        assert events[..emitted[j]] == before[..emitted[j]];
      } else {
        assert events[..|events|] == events;
      }
    }
  }

  lemma EmittedStays(pieces: seq<Piece>, parse: Parser, before: seq<Event>, events: seq<Event>, emitted: seq<nat>)
    requires EmittedAfterEach(pieces, parse, before, emitted) && before <= events
    ensures EmittedAfterEach(pieces, parse, events, emitted)
  {
    forall j {:trigger emitted[j]} | 0 <= j < |emitted|
      ensures emitted[j] <= |events|
              && events[..emitted[j]]
                 == LineEvents(SplitLines(DecodePieces(pieces[..j + 1]).text).complete, parse).events
    {
      assert emitted[j] <= |before|;
      assert events[..emitted[j]] == before[..emitted[j]];
    }
  }

  /**
   The events are those of the decoded text, wherever the pieces were cut; and after each piece exactly the
   events of the lines complete by then have been emitted.
   */
  method IterSseJson(pieces: seq<Piece>, parse: Parser) returns (events: seq<Event>, ghost emitted: seq<nat>)
    ensures events == EventsOf(DecodePieces(pieces), parse)
    ensures EmittedAfterEach(pieces, parse, events, emitted)
    ensures |emitted| < |pieces| ==> events != [] && events[|events| - 1].Error?
  {
    hide Pump, ReadLine, SplitLines, LineEvents, EventsOf, EmittedAfterEach, DecodePieces, AddLine;
    var buffer, pending, o := "", [], Output([], false);
    emitted := [];
    var i := 0;
    NothingYet(pieces, parse);
    while i < |pieces|
      invariant 0 <= i <= |pieces| && |emitted| == i
      invariant UpToDate(DecodePieces(pieces[..i]), parse, buffer, o)
      invariant pending == DecodePieces(pieces[..i]).pending
      invariant EmittedAfterEach(pieces, parse, o.events, emitted)
    {
      ghost var d, d' := DecodePieces(pieces[..i]), DecodePieces(pieces[..i + 1]);
      NextPiece(pieces, i);
      EventsAtEnd(d, parse, buffer, o);
      var t;
      match pieces[i] {
        case Raw(bytes) =>
          var p := Pump(pending + bytes);
          if !p.ok {
            EmittedStays(pieces, parse, o.events, o.events + [Error(INVALID_UTF8)], emitted);
            return o.events + [Error(INVALID_UTF8)], emitted;
          }
          t, pending := p.text, p.rest;
        case Text(text) =>
          if pending != [] {
            EmittedStays(pieces, parse, o.events, o.events + [Error(TYPE_CHANGED)], emitted);
            return o.events + [Error(TYPE_CHANGED)], emitted;
          }
          t := text;
      }
      assert d'.text == d.text + t && d'.error.None?;
      MoreText(d, d', t, parse, buffer, o);
      ghost var before := o.events;
      buffer, o := DrainLines(buffer + t, parse, o, SplitLines(d.text).complete);
      EmittedGrows(pieces, parse, before, o.events, emitted);
      emitted := emitted + [|o.events|];
      if o.failed {
        EarlyFailure(d'.text, DecodePieces(pieces), parse);
        LastIsError(SplitLines(d'.text).complete, parse);
        return o.events, emitted;
      }
      i := i + 1;
    }
    assert pieces[..i] == pieces;
    EventsAtEnd(DecodePieces(pieces), parse, buffer, o);
    var end := if pending != [] then Output(o.events + [Error(INCOMPLETE_UTF8)], true)
               else AddLine(o, ReadLine(buffer, parse, MALFORMED_AT_END));
    AddingExtends(o, ReadLine(buffer, parse, MALFORMED_AT_END));
    EmittedStays(pieces, parse, o.events, end.events, emitted);
    return end.events, emitted;
  }

  lemma AddingExtends(o: Output, r: LineResult)
    ensures o.events <= AddLine(o, r).events
  {
  }

  lemma NothingYet(pieces: seq<Piece>, parse: Parser)
    ensures DecodePieces(pieces[..0]) == Decoded("", [], None)
    ensures UpToDate(Decoded("", [], None), parse, "", Output([], false))
    ensures EmittedAfterEach(pieces, parse, [], [])
  {
  }

  lemma {:induction false} LinesExtend(a: seq<string>, b: seq<string>, parse: Parser)
    ensures LineEvents(a, parse).events <= LineEvents(a + b, parse).events
    decreases |b|
  {
    if b == [] {
      assert a + b == a;
    } else {
      var n := |b| - 1;
      LinesExtend(a, b[..n], parse);
      assert (a + b)[..|a| + n] == a + b[..n];
    }
  }

  lemma {:induction false} LastIsError(lines: seq<string>, parse: Parser)
    ensures var o := LineEvents(lines, parse);
            (o.failed ==> o.events != [] && o.events[|o.events| - 1].Error?)
            && forall i :: 0 <= i < |o.events| - (if o.failed then 1 else 0) ==> o.events[i].Json?
  {
    hide ReadLine;
    if lines != [] {
      LastIsError(lines[..|lines| - 1], parse);
    }
  }

  /** At most one error is emitted, and it is the last event. */
  lemma OneErrorAtTheEnd(d: Decoded, parse: Parser)
    ensures forall i :: 0 <= i < |EventsOf(d, parse)| - 1 ==> EventsOf(d, parse)[i].Json?
  {
    LastIsError(SplitLines(d.text).complete, parse);
  }

  // ---------------------------------------------------------------- independence from the cutting

  predicate AllRaw(pieces: seq<Piece>) {
    forall i :: 0 <= i < |pieces| ==> pieces[i].Raw?
  }

  function Bytestream(pieces: seq<Piece>): Bytes
    requires AllRaw(pieces)
  {
    if pieces == [] then [] else Bytestream(pieces[..|pieces| - 1]) + pieces[|pieces| - 1].bytes
  }

  /** Valid UTF-8, except that the last character may be cut short, decodes alike however it is cut. */
  lemma {:induction false} DecodedWhole(pieces: seq<Piece>)
    requires AllRaw(pieces) && Pump(Bytestream(pieces)).ok
    ensures var p := Pump(Bytestream(pieces)); DecodePieces(pieces) == Decoded(p.text, p.rest, None)
  {
    hide DecodeFront;
    if pieces == [] {
      EmptyPump();
    } else {
      var front, bytes := pieces[..|pieces| - 1], pieces[|pieces| - 1].bytes;
      PumpResumes(Bytestream(front), bytes);
      DecodedWhole(front);
    }
  }

  lemma EmptyPump()
    ensures Pump([]) == Progress("", [], true)
  {
  }

  /** The events of a byte stream of valid UTF-8 depend on its bytes alone, not on where it was cut. */
  lemma {:induction false} CuttingDoesNotMatter(a: seq<Piece>, b: seq<Piece>, parse: Parser)
    requires AllRaw(a) && AllRaw(b) && Bytestream(a) == Bytestream(b) && Pump(Bytestream(a)).ok
    ensures EventsOf(DecodePieces(a), parse) == EventsOf(DecodePieces(b), parse)
    ensures var p := Pump(Bytestream(a));
            EventsOf(DecodePieces(a), parse) == EventsOf(Decoded(p.text, p.rest, None), parse)
  {
    DecodedWhole(a);
    DecodedWhole(b);
  }

  /** The streams this covers are exactly the encodings of a text followed by a character cut short. */
  lemma {:induction false} ResumableIsEncodingPlusCutChar(b: Bytes)
    ensures Pump(b).ok <==> exists text: string, c: char, k: nat ::
              k < |EncodeChar(c)| && b == Encode(text) + EncodeChar(c)[..k]
  {
    hide DecodeFront, EncodeChar;
    if Pump(b).ok {
      PumpKeepsCutChar(b);
      var c := NeedMoreIsCutChar(Pump(b).rest);
      assert b == Encode(Pump(b).text) + EncodeChar(c)[..|Pump(b).rest|];
    }
    if text: string, c: char, k: nat :| k < |EncodeChar(c)| && b == Encode(text) + EncodeChar(c)[..k] {
      PumpOfEncode(text, EncodeChar(c)[..k]);
      CutCharNeedsMore(c, k);
    }
  }

  // ---------------------------------------------------------------- invalid bytes

  /** The events of a byte stream are the same however it is cut. */
  ghost predicate CutIndependent(b: Bytes, parse: Parser) {
    forall x, y :: AllRaw(x) && AllRaw(y) && Bytestream(x) == b && Bytestream(y) == b ==>
      EventsOf(DecodePieces(x), parse) == EventsOf(DecodePieces(y), parse)
  }

  /** What the complete lines before the first invalid byte say. */
  function GoodLineEvents(b: Bytes, parse: Parser): Output {
    LineEvents(SplitLines(Pump(b).text).complete, parse)
  }

  /** However it is cut, an invalid stream fails, and what was decoded by then is a prefix of what could be. */
  lemma {:induction false} InvalidStreamFails(pieces: seq<Piece>)
    requires AllRaw(pieces) && !Pump(Bytestream(pieces)).ok
    ensures DecodePieces(pieces).error == Some(INVALID_UTF8)
    ensures DecodePieces(pieces).text <= Pump(Bytestream(pieces)).text
  {
    hide Pump;
    if pieces == [] {
      EmptyPump();
    } else {
      var front, bytes := pieces[..|pieces| - 1], pieces[|pieces| - 1].bytes;
      PumpResumes(Bytestream(front), bytes);
      if Pump(Bytestream(front)).ok {
        DecodedWhole(front);
      } else {
        InvalidStreamFails(front);
      }
    }
  }

  /** Whatever was decoded by then, the events are those of its complete lines, or the error follows them. */
  lemma EventsOfInvalid(d: Decoded, text: string, parse: Parser)
    requires d.error == Some(INVALID_UTF8) && d.text <= text
    ensures var all, o := LineEvents(SplitLines(text).complete, parse), LineEvents(SplitLines(d.text).complete, parse);
            o.events <= all.events
            && EventsOf(d, parse) == if o.failed then o.events else o.events + [Error(INVALID_UTF8)]
    ensures LineEvents(SplitLines(d.text).complete, parse).failed ==>
            LineEvents(SplitLines(d.text).complete, parse).events != []
  {
    hide ReadLine, SplitLines, LineEvents;
    var more := text[|d.text|..];
    assert text == d.text + more;
    SplitAppend(d.text, more);
    LinesExtend(SplitLines(d.text).complete, SplitLines(SplitLines(d.text).rest + more).complete, parse);
    LastIsError(SplitLines(d.text).complete, parse);
  }

  /** The two extreme cuts: everything at once, and the valid part first. */
  lemma {:induction false} ExtremeCuts(b: Bytes)
    requires !Pump(b).ok
    ensures AllRaw([Raw(b)]) && Bytestream([Raw(b)]) == b
    ensures DecodePieces([Raw(b)]) == Decoded("", [], Some(INVALID_UTF8))
    ensures var split := [Raw(Encode(Pump(b).text)), Raw(Pump(b).rest)];
            AllRaw(split) && Bytestream(split) == b
            && DecodePieces(split) == Decoded(Pump(b).text, [], Some(INVALID_UTF8))
  {
    hide Pump, Encode, DecodePieces;
    var p := Pump(b);
    assert [] + b == b && [] + Encode(p.text) == Encode(p.text) && [] + p.rest == p.rest && "" + p.text == p.text;
    OnePiece(Raw(b));
    OneRaw(b);
    PumpKeepsCutChar(b);
    PumpOfEncode(p.text, p.rest);
    PumpOfEncode(p.text, []);
    EmptyPump();
    assert Encode(p.text) + [] == Encode(p.text) && p.text + "" == p.text;
    OnePiece(Raw(Encode(p.text)));
    TwoPieces(Raw(Encode(p.text)), Raw(p.rest));
    TwoRaw(Encode(p.text), p.rest);
  }

  lemma OneRaw(b: Bytes)
    ensures Bytestream([Raw(b)]) == b
  {
    assert [Raw(b)][..0] == [];
    assert [] + b == b;
  }

  lemma TwoRaw(a: Bytes, b: Bytes)
    ensures Bytestream([Raw(a), Raw(b)]) == a + b
  {
    OneRaw(a);
    assert [Raw(a), Raw(b)][..1] == [Raw(a)];
  }

  /** No line gives the error that an invalid byte gives. */
  lemma {:induction false} LinesNeverSayInvalid(lines: seq<string>, parse: Parser)
    ensures forall e :: e in LineEvents(lines, parse).events ==> e != Error(INVALID_UTF8)
  {
    if lines != [] {
      LinesNeverSayInvalid(lines[..|lines| - 1], parse);
      OtherMessages();
    }
  }

  lemma OtherMessages()
    ensures MALFORMED != INVALID_UTF8 && NOT_AN_OBJECT != INVALID_UTF8
  {
    assert MALFORMED[26] != INVALID_UTF8[26];
    assert NOT_AN_OBJECT[16] != INVALID_UTF8[16];
  }

  /**
   Where a stream is cut makes no difference if and only if it has no invalid byte, or no complete line before its
   first invalid byte gives an event.
   */
  lemma {:induction false} CuttingDoesNotMatterIff(b: Bytes, parse: Parser)
    ensures CutIndependent(b, parse) <==> Pump(b).ok || GoodLineEvents(b, parse).events == []
  {
    hide Pump, LineEvents, SplitLines, DecodePieces, Bytestream, EventsOf;
    if Pump(b).ok {
      forall x, y | AllRaw(x) && AllRaw(y) && Bytestream(x) == b && Bytestream(y) == b
        ensures EventsOf(DecodePieces(x), parse) == EventsOf(DecodePieces(y), parse)
      {
        CuttingDoesNotMatter(x, y, parse);
      }
    } else if GoodLineEvents(b, parse).events == [] {
      forall x | AllRaw(x) && Bytestream(x) == b
        ensures EventsOf(DecodePieces(x), parse) == [Error(INVALID_UTF8)]
      {
        InvalidStreamFails(x);
        EventsOfInvalid(DecodePieces(x), Pump(b).text, parse);
      }
    } else {
      CutsThatDiffer(b, parse);
    }
  }

  lemma {:induction false} CutsThatDiffer(b: Bytes, parse: Parser)
    requires !Pump(b).ok && GoodLineEvents(b, parse).events != []
    ensures !CutIndependent(b, parse)
  {
    hide Pump, LineEvents, SplitLines, DecodePieces, Bytestream, EventsOf, Encode;
    ExtremeCuts(b);
    var text := Pump(b).text;
    var whole, split := [Raw(b)], [Raw(Encode(text)), Raw(Pump(b).rest)];
    EventsOfInvalid(Decoded("", [], Some(INVALID_UTF8)), text, parse);
    EventsOfInvalid(Decoded(text, [], Some(INVALID_UTF8)), text, parse);
    NoLines(parse);
    LinesNeverSayInvalid(SplitLines(text).complete, parse);
    assert EventsOf(DecodePieces(whole), parse) == [Error(INVALID_UTF8)];
    var o := GoodLineEvents(b, parse);
    assert o.events[0] in o.events && EventsOf(DecodePieces(split), parse)[0] == o.events[0];
  }

  lemma NoLines(parse: Parser)
    ensures LineEvents(SplitLines("").complete, parse) == Output([], false)
  {
  }

  /**
   An instance: a complete line is lost if it shares its piece with the bad byte, and is emitted if it does not.
   */
  lemma {:induction false} InvalidByteCuttingMatters(parse: Parser, payload: Payload)
    requires parse("{}") == Object(payload)
    ensures var line := Encode("data: {}\n");
            EventsOf(DecodePieces([Raw(line + [0xFF])]), parse) == [Error(INVALID_UTF8)]
            && EventsOf(DecodePieces([Raw(line), Raw([0xFF])]), parse) == [Json(payload), Error(INVALID_UTF8)]
  {
    hide Encode, EventsOf, DecodePieces;
    GoodThenBad();
    GoodLine(parse, payload, Some(INVALID_UTF8));
    BadPieceAlone(Encode("data: {}\n"), parse);
  }

  /** Nothing of a piece with a bad byte is kept. */
  lemma BadPieceAlone(line: Bytes, parse: Parser)
    requires line == Encode("data: {}\n")
    ensures EventsOf(DecodePieces([Raw(line + [0xFF])]), parse) == [Error(INVALID_UTF8)]
  {
    hide Encode;
    BadByte();
    PumpOfEncode("data: {}\n", [0xFF]);
    assert [] + (line + [0xFF]) == line + [0xFF];
    hide Pump;
    OnePiece(Raw(line + [0xFF]));
    assert DecodePieces([Raw(line + [0xFF])]) == Decoded("", [], Some(INVALID_UTF8));
    OneLine("", parse);
  }

  lemma GoodThenBad()
    ensures var line := Encode("data: {}\n");
            DecodePieces([Raw(line), Raw([0xFF])]) == Decoded("data: {}\n", [], Some(INVALID_UTF8))
  {
    hide Encode, DecodePieces;
    var text := "data: {}\n";
    var line := Encode(text);
    BadByte();
    PumpOfEncode(text, []);
    EmptyPump();
    hide Pump;
    assert [] + line == line && line + [] == line && [] + [0xFF] == [0xFF as Byte];
    assert text + "" == text && "" + text == text;
    OnePiece(Raw(line));
    assert DecodePieces([Raw(line)]) == Decoded(text, [], None);
    TwoPieces(Raw(line), Raw([0xFF]));
  }

  lemma GoodLine(parse: Parser, payload: Payload, error: Option<string>)
    requires parse("{}") == Object(payload) && error.Some?
    ensures EventsOf(Decoded("data: {}\n", [], error), parse) == [Json(payload), Error(error.value)]
  {
    hide SplitLines, LineEvents, ReadLine;
    SplitFirst("data: {}", "");
    SplitOneLine("");
    assert "data: {}" + "\n" + "" == "data: {}\n";
    assert ["data: {}"] + [] == ["data: {}"];
    ObjectLine(parse, payload);
    OneLine("data: {}", parse);
  }

  lemma BadByte()
    ensures Pump([0xFF]) == Progress("", [0xFF], false)
  {
  }

  lemma OnePiece(p: Piece)
    ensures DecodePieces([p]) == DecodeOne(Decoded("", [], None), p)
  {
    hide DecodeOne;
    assert [p][..0] == [];
  }

  lemma TwoPieces(p: Piece, q: Piece)
    requires DecodePieces([p]).error.None?
    ensures DecodePieces([p, q]) == DecodeOne(DecodePieces([p]), q)
  {
    hide DecodeOne;
    assert [p, q][..1] == [p];
  }

  lemma OneLine(line: string, parse: Parser)
    ensures LineEvents([line], parse) == AddLine(Output([], false), ReadLine(line, parse, MALFORMED))
    ensures LineEvents([], parse) == Output([], false)
  {
    hide ReadLine;
    assert [line][..0] == [];
  }

  lemma ObjectLine(parse: Parser, payload: Payload)
    requires parse("{}") == Object(payload)
    ensures ReadLine("data: {}", parse, MALFORMED) == Emit(payload)
  {
    var line := "data: {}";
    assert StripReturns(line) == line;
    assert line[5..] == " {}";
    assert " {}"[1..] == "{}";
    assert StripLeft(" {}") == "{}" && StripRight("{}") == "{}";
  }
}
