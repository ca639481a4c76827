/**
 What the lines of an SSE stream say, told without the reader: streams are printed line by line, with any padding and
 anything between the data lines, and the reader gives back what was printed (proxy/app/openai_chat_stream.py).
 */
module PrintedStreams {
  import opened Wrappers
  import opened Utf8
  import opened SseDecoder

  // ---------------------------------------------------------------- printing

  /** A `data:` line with its padding, or any other line: blank, a comment, another field. */
  datatype Line = DataLine(before: string, body: string, after: string) | OtherLine(text: string)

  /** The code points that `str.strip` takes for white space. */
  const BLANKS: seq<int> := [
    9, 10, 11, 12, 13, 28, 29, 30, 31, 32, 133, 160, 5760, 8192, 8193, 8194, 8195, 8196, 8197, 8198, 8199, 8200, 8201,
    8202, 8232, 8233, 8239, 8287, 12288]

  predicate IsBlank(c: char) {
    c as int in BLANKS
  }

  predicate Blank(s: string) {
    forall i :: 0 <= i < |s| ==> IsBlank(s[i])
  }

  predicate Trimmed(s: string) {
    s != "" ==> !IsBlank(s[0]) && !IsBlank(s[|s| - 1])
  }

  function Print(line: Line): string {
    match line
    case DataLine(before, body, after) => "data:" + before + body + after
    case OtherLine(text) => text
  }

  predicate LineOk(line: Line) {
    '\n' !in Print(line)
    && match line
       case DataLine(before, body, after) => Blank(before) && Trimmed(body) && Blank(after)
       case OtherLine(text) => !("data:" <= text)
  }

  predicate LinesOk(lines: seq<Line>) {
    forall i :: 0 <= i < |lines| ==> LineOk(lines[i])
  }

  /** Every line ends with a newline; the carriage returns before it are padding. */
  function PrintAll(lines: seq<Line>): string {
    if lines == [] then "" else Print(lines[0]) + "\n" + PrintAll(lines[1..])
  }

  // ---------------------------------------------------------------- what printed lines say

  datatype Says = Nothing | Value(payload: Payload) | Wrong(message: string)

  /** Data says what its body parses to; no body and the closing `[DONE]` say nothing, nor does any other line. */
  function SaysOf(line: Line, parse: Parser, malformed: string): Says {
    match line
    case OtherLine(_) => Nothing
    case DataLine(_, body, _) =>
      if body == "" || body == "[DONE]" then Nothing
      else match parse(body)
        case Object(payload) => Value(payload)
        case NotObject => Wrong("Provider stream event was not a JSON object")
        case Malformed => Wrong(malformed)
  }

  /** A stream ends with a last line without a newline, or breaks off in it with an error. */
  datatype End = Ends(last: Line) | Breaks(rest: string, message: string)

  predicate EndOk(end: End) {
    match end
    case Ends(last) => LineOk(last)
    case Breaks(rest, _) => '\n' !in rest
  }

  /** The values in order, up to the first wrong line. */
  function Told(lines: seq<Line>, end: End, parse: Parser): seq<Event> {
    if lines == [] then
      match end
      case Breaks(_, message) => [Error(message)]
      case Ends(last) =>
        match SaysOf(last, parse, "Provider stream ended with malformed JSON")
        case Nothing => []
        case Value(payload) => [Json(payload)]
        case Wrong(message) => [Error(message)]
    else
      match SaysOf(lines[0], parse, "Provider stream contained malformed JSON")
      case Nothing => Told(lines[1..], end, parse)
      case Value(payload) => [Json(payload)] + Told(lines[1..], end, parse)
      case Wrong(message) => [Error(message)]
  }

  // ---------------------------------------------------------------- reading one printed line

  lemma BlankIsSpace(c: char)
    ensures IsBlank(c) <==> IsSpace(c)
  {
  }

  lemma {:induction false} StripLeftOf(before: string, s: string)
    requires Blank(before) && (s == "" || !IsBlank(s[0]))
    ensures StripLeft(before + s) == s
  {
    hide IsBlank, IsSpace;
    if before == "" {
      assert before + s == s;
      if s != "" { BlankIsSpace(s[0]); }
    } else {
      BlankIsSpace(before[0]);
      StripLeftOf(before[1..], s);
      assert (before + s)[1..] == before[1..] + s;
    }
  }

  lemma {:induction false} StripRightOf(s: string, after: string)
    requires Blank(after) && (s == "" || !IsBlank(s[|s| - 1]))
    ensures StripRight(s + after) == s
  {
    hide IsBlank, IsSpace;
    if after == "" {
      assert s + after == s;
      if s != "" { BlankIsSpace(s[|s| - 1]); }
    } else {
      var n := |after| - 1;
      BlankIsSpace(after[n]);
      StripRightOf(s, after[..n]);
      assert (s + after)[..|s| + n] == s + after[..n];
    }
  }

  lemma {:induction false} StripReturnsOf(s: string, after: string)
    requires s != "" && s[|s| - 1] != '\r'
    ensures StripReturns(s + after) == s + StripReturns(after)
    ensures StripReturns(after) <= after
  {
    if after == "" {
      assert s + after == s;
    } else {
      var n := |after| - 1;
      StripReturnsOf(s, after[..n]);
      assert (s + after)[..|s| + n] == s + after[..n];
    }
  }

  lemma {:induction false} StripReturnsIsPrefix(s: string)
    ensures StripReturns(s) <= s
  {
    if s != "" {
      StripReturnsIsPrefix(s[..|s| - 1]);
    }
  }

  lemma {:induction false} BodyIsStripped(before: string, body: string, after: string)
    requires Blank(before) && Trimmed(body) && Blank(after)
    ensures StripRight(StripLeft(before + body + after)) == body
  {
    hide IsBlank, StripLeft, StripRight;
    if body == "" {
      StripLeftOf(before + after, "");
      assert before + body + after == before + after + "" && "" + "" == "";
      StripRightOf("", "");
    } else {
      assert before + body + after == before + (body + after);
      StripLeftOf(before, body + after);
      StripRightOf(body, after);
    }
  }

  /** What the reader takes for the data of a printed line is its body. */
  lemma {:induction false} BodyIsRead(before: string, body: string, after: string)
    requires Blank(before) && Trimmed(body) && Blank(after)
    ensures var stripped := StripReturns("data:" + before + body + after);
            "data:" <= stripped && StripRight(StripLeft(stripped[5..])) == body
  {
    hide IsBlank, StripLeft, StripRight, StripReturns;
    var front := "data:" + before + body;
    if body == "" {
      assert front + after == "data:" + (before + after);
      StripReturnsOf("data:", before + after);
      var rest := StripReturns(before + after);
      StripLeftOf(rest, "");
      assert rest + "" == rest && "" + "" == "";
      StripRightOf("", "");
      assert ("data:" + rest)[5..] == rest;
    } else {
      ReturnIsBlank();
      assert front[|front| - 1] == body[|body| - 1];
      StripReturnsOf(front, after);
      var rest := StripReturns(after);
      assert (front + rest)[5..] == before + (body + rest);
      StripLeftOf(before, body + rest);
      StripRightOf(body, rest);
    }
  }

  lemma ReturnIsBlank()
    ensures IsBlank('\r')
  {
    assert BLANKS[4] == 13;
  }

  /** The reader takes from a printed line what the line says. */
  lemma {:induction false} PrintedIsRead(line: Line, parse: Parser, malformed: string)
    requires LineOk(line)
    ensures ReadLine(Print(line), parse, malformed)
         == match SaysOf(line, parse, malformed)
            case Nothing => Skip
            case Value(payload) => Emit(payload)
            case Wrong(message) => Fail(message)
  {
    hide StripLeft, StripRight, StripReturns, Blank, Trimmed;
    match line
    case OtherLine(text) => StripReturnsIsPrefix(text);
    case DataLine(before, body, after) => BodyIsRead(before, body, after);
  }

  // ---------------------------------------------------------------- reading a printed stream

  /** The events that one more line read, and all that follows, add to those before. */
  function Continued(o: Output, rest: seq<Event>): seq<Event> {
    if o.failed then o.events else o.events + rest
  }

  lemma {:induction false} SplitPrinted(lines: seq<Line>, rest: string)
    requires LinesOk(lines) && '\n' !in rest
    ensures SplitLines(PrintAll(lines) + rest) == Lines(Printed(lines), rest)
  {
    hide SplitLines, LineOk;
    if lines == [] {
      assert PrintAll(lines) + rest == rest;
      SplitOneLine(rest);
    } else {
      SplitPrinted(lines[1..], rest);
      var line, tail := Print(lines[0]), PrintAll(lines[1..]) + rest;
      assert PrintAll(lines) + rest == line + "\n" + tail;
      NoNewline(lines[0]);
      SplitFirst(line, tail);
    }
  }

  lemma NoNewline(line: Line)
    requires LineOk(line)
    ensures '\n' !in Print(line)
  {
  }

  function Printed(lines: seq<Line>): seq<string> {
    if lines == [] then [] else [Print(lines[0])] + Printed(lines[1..])
  }

  lemma OneMoreLine(before: seq<string>, line: string, parse: Parser)
    ensures LineEvents(before + [line], parse) == AddLine(LineEvents(before, parse), ReadLine(line, parse, MALFORMED))
  {
    hide ReadLine, AddLine;
    assert (before + [line])[..|before|] == before;
  }

  lemma {:induction false} TellOne(lines: seq<Line>, end: End, parse: Parser, o: Output, r: LineResult)
    requires lines != [] && LineOk(lines[0]) && !o.failed && r == ReadLine(Print(lines[0]), parse, MALFORMED)
    ensures Continued(o, Told(lines, end, parse)) == Continued(AddLine(o, r), Told(lines[1..], end, parse))
  {
    hide ReadLine, SaysOf, LineOk;
    PrintedIsRead(lines[0], parse, MALFORMED);
    match SaysOf(lines[0], parse, MALFORMED)
    case Nothing =>
    case Value(payload) => Associate(o.events, [Json(payload)], Told(lines[1..], end, parse));
    case Wrong(message) =>
  }

  /** Reading on after the lines `before`. */
  lemma {:induction false} LinesAreTold(before: seq<string>, lines: seq<Line>, end: End, parse: Parser)
    requires LinesOk(lines) && !LineEvents(before, parse).failed
    ensures Continued(LineEvents(before, parse), Told(lines, end, parse))
         == Continued(LineEvents(before + Printed(lines), parse), Told([], end, parse))
    decreases |lines|
  {
    hide LineEvents, Told, ReadLine, LineOk, AddLine;
    if lines == [] {
      assert before + Printed(lines) == before;
    } else {
      var line := Print(lines[0]);
      OneMoreLine(before, line, parse);
      TellOne(lines, end, parse, LineEvents(before, parse), ReadLine(line, parse, MALFORMED));
      Associate(before, [line], Printed(lines[1..]));
      if LineEvents(before + [line], parse).failed {
        FailureIsFinal(before + [line], Printed(lines[1..]), parse);
      } else {
        LinesAreTold(before + [line], lines[1..], end, parse);
      }
    }
  }

  /** The decoder's result for a printed stream. */
  ghost predicate DecodesTo(d: Decoded, lines: seq<Line>, end: End) {
    match end
    case Ends(last) => d == Decoded(PrintAll(lines) + Print(last), [], None)
    case Breaks(rest, message) =>
      d.text == PrintAll(lines) + rest
      && (d.error == Some(message) || (d.error == None && d.pending != [] && message == INCOMPLETE_UTF8))
  }

  /** A printed stream is told as it was printed: its values in order, up to the first wrong line or its end. */
  lemma {:induction false} PrintedIsTold(d: Decoded, lines: seq<Line>, end: End, parse: Parser)
    requires LinesOk(lines) && EndOk(end) && DecodesTo(d, lines, end)
    ensures EventsOf(d, parse) == Told(lines, end, parse)
  {
    hide LineEvents, ReadLine, LineOk, SplitLines, Print, SaysOf;
    var rest := match end case Ends(last) => Print(last) case Breaks(rest, _) => rest;
    if end.Ends? {
      NoNewline(end.last);
      PrintedIsRead(end.last, parse, MALFORMED_AT_END);
    }
    SplitPrinted(lines, rest);
    NothingRead(parse);
    LinesAreTold([], lines, end, parse);
    assert [] + Printed(lines) == Printed(lines);
    assert [] + Told(lines, end, parse) == Told(lines, end, parse);
  }

  lemma NothingRead(parse: Parser)
    ensures LineEvents([], parse) == Output([], false)
  {
  }

  /** However the bytes of a printed stream are cut. */
  lemma {:induction false} BytesAreTold(pieces: seq<Piece>, lines: seq<Line>, last: Line, parse: Parser)
    requires LinesOk(lines) && LineOk(last)
    requires AllRaw(pieces) && Bytestream(pieces) == Encode(PrintAll(lines) + Print(last))
    ensures EventsOf(DecodePieces(pieces), parse) == Told(lines, Ends(last), parse)
  {
    hide Pump, Encode, EventsOf, DecodePieces, LineOk;
    var text := PrintAll(lines) + Print(last);
    PumpOfEncode(text, []);
    EmptyPump();
    assert Encode(text) + [] == Encode(text) && text + "" == text;
    DecodedWhole(pieces);
    PrintedIsTold(DecodePieces(pieces), lines, Ends(last), parse);
  }

  // ---------------------------------------------------------------- every stream is printed

  lemma {:induction false} TrimBlanks(w: string) returns (i: nat, k: nat)
    ensures i <= k <= |w| && Blank(w[..i]) && Trimmed(w[i..k]) && Blank(w[k..])
  {
    hide IsBlank;
    i, k := 0, |w|;
    while i < |w| && IsBlank(w[i])
      invariant i <= |w| && Blank(w[..i])
    {
      i := i + 1;
    }
    while k > i && IsBlank(w[k - 1])
      invariant i <= k <= |w| && Blank(w[k..])
    {
      assert w[k - 1..] == [w[k - 1]] + w[k..];
      k := k - 1;
    }
  }

  lemma SplitInThree(prefix: string, w: string, i: nat, k: nat)
    requires i <= k <= |w|
    ensures prefix + w[..i] + w[i..k] + w[k..] == prefix + w
  {
    assert w == w[..i] + w[i..k] + w[k..];
    Associate(prefix, w[..i] + w[i..k], w[k..]);
    Associate(prefix, w[..i], w[i..k]);
  }

  /** Every line is the print of some line. */
  lemma {:induction false} LineIsPrinted(text: string) returns (line: Line)
    requires '\n' !in text
    ensures LineOk(line) && Print(line) == text
  {
    hide Blank, Trimmed;
    line := OtherLine(text);
    if "data:" <= text {
      var w := text[5..];
      var i, k := TrimBlanks(w);
      SplitInThree("data:", w, i, k);
      assert text == "data:" + w;
      line := DataLine(w[..i], w[i..k], w[k..]);
    }
  }

  lemma PrintMore(first: Line, rest: seq<Line>, line: string, tail: string)
    requires LineOk(first) && LinesOk(rest) && Print(first) == line
    ensures LinesOk([first] + rest)
    ensures PrintAll([first] + rest) + tail == line + "\n" + (PrintAll(rest) + tail)
  {
    hide LineOk, Print;
    assert ([first] + rest)[1..] == rest;
    Associate(line + "\n", PrintAll(rest), tail);
  }

  lemma FirstNewline(text: string) returns (k: nat)
    ensures k <= |text| && '\n' !in text[..k]
    ensures k == |text| ==> '\n' !in text
    ensures k < |text| ==> text == text[..k] + "\n" + text[k + 1..]
  {
    var i := FindNewline(text, 0);
    k := if i == -1 then |text| else i;
    assert text[0..] == text && text[0..k] == text[..k] && text[..|text|] == text;
  }

  /** So every decoded text is the print of some lines. */
  lemma {:induction false} TextIsPrinted(text: string) returns (lines: seq<Line>, last: Line)
    ensures LinesOk(lines) && LineOk(last) && PrintAll(lines) + Print(last) == text
  {
    hide LineOk, Print, PrintAll;
    var k := FirstNewline(text);
    if k == |text| {
      last := LineIsPrinted(text);
      lines := [];
      NothingPrinted();
      assert "" + text == text;
    } else {
      var line, tail := text[..k], text[k + 1..];
      var first := LineIsPrinted(line);
      lines, last := TextIsPrinted(tail);
      PrintMore(first, lines, line, Print(last));
      lines := [first] + lines;
    }
  }

  lemma NothingPrinted()
    ensures PrintAll([]) == ""
  {
  }
}
