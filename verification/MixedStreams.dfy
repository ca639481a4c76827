/**
 Streams that mix pieces of bytes and pieces of text: how they may be cut differently, and exactly when that makes no
 difference (proxy/app/openai_chat_stream.py).
 */
module MixedStreams {
  import opened Wrappers
  import opened Utf8
  import opened SseDecoder

  // ---------------------------------------------------------------- what a cut is

  /** One more piece: bytes go on the bytes before them, text goes on the text before it. */
  function GlueOne(glued: seq<Piece>, p: Piece): seq<Piece> {
    var n := |glued| - 1;
    match p
    case Raw(bytes) =>
      if bytes == [] then glued
      else if n >= 0 && glued[n].Raw? then glued[..n] + [Raw(glued[n].bytes + bytes)]
      else glued + [p]
    case Text(text) =>
      if n >= 0 && glued[n].Text? then glued[..n] + [Text(glued[n].text + text)] else glued + [p]
  }

  /** The stream with as few cuts as possible: bytes and texts in turn. */
  function Glued(pieces: seq<Piece>): seq<Piece> {
    if pieces == [] then [] else GlueOne(Glued(pieces[..|pieces| - 1]), pieces[|pieces| - 1])
  }

  /** Two ways of cutting the same bytes and texts. */
  predicate Recut(x: seq<Piece>, y: seq<Piece>) {
    Glued(x) == Glued(y)
  }

  lemma OneMoreGlued(x: seq<Piece>, p: Piece)
    ensures Glued(x + [p]) == GlueOne(Glued(x), p)
  {
    assert (x + [p])[..|x|] == x;
  }

  /** For bytes alone, cutting differently is having the same bytes. */
  lemma {:induction false} RecutOfBytes(x: seq<Piece>, y: seq<Piece>)
    requires AllRaw(x) && AllRaw(y)
    ensures Recut(x, y) <==> Bytestream(x) == Bytestream(y)
  {
    GluedBytes(x);
    GluedBytes(y);
  }

  lemma {:induction false} GluedBytes(x: seq<Piece>)
    requires AllRaw(x)
    ensures Glued(x) == if Bytestream(x) == [] then [] else [Raw(Bytestream(x))]
  {
    if x != [] {
      var before, bytes := Bytestream(x[..|x| - 1]), x[|x| - 1].bytes;
      GluedBytes(x[..|x| - 1]);
      assert before + [] == before && [] + bytes == bytes;
      if bytes != [] {
        assert Bytestream(x) != [];
      }
    }
  }

  // ---------------------------------------------------------------- all that can be decoded

  /** Decoding that keeps what comes before an invalid byte, wherever the piece with that byte starts. */
  function ReachOne(d: Decoded, p: Piece): Decoded {
    if d.error.Some? then d
    else match p
      case Raw(bytes) =>
        var r := Pump(d.pending + bytes);
        if r.ok then Decoded(d.text + r.text, r.rest, None) else Decoded(d.text + r.text, [], Some(INVALID_UTF8))
      case Text(_) => DecodeOne(d, p)
  }

  function Reach(pieces: seq<Piece>): Decoded {
    if pieces == [] then Decoded("", [], None) else ReachOne(Reach(pieces[..|pieces| - 1]), pieces[|pieces| - 1])
  }

  lemma OneMoreReached(x: seq<Piece>, p: Piece)
    ensures Reach(x + [p]) == ReachOne(Reach(x), p)
  {
    hide ReachOne;
    assert (x + [p])[..|x|] == x;
  }

  lemma OneMoreDecoded(x: seq<Piece>, p: Piece)
    ensures DecodePieces(x + [p])
         == if DecodePieces(x).error.Some? then DecodePieces(x) else DecodeOne(DecodePieces(x), p)
  {
    hide DecodeOne;
    assert (x + [p])[..|x|] == x;
  }

  /** What is pending is a character cut short. */
  ghost predicate Resumable(d: Decoded) {
    d.error.None? ==> Pump(d.pending) == Progress("", d.pending, true)
  }

  lemma PumpOfRest(b: Bytes)
    requires Pump(b).ok
    ensures Pump(Pump(b).rest) == Progress("", Pump(b).rest, true)
  {
    hide DecodeFront;
    PumpKeepsCutChar(b);
  }

  lemma {:induction false} ReachIsResumable(pieces: seq<Piece>)
    ensures Resumable(Reach(pieces))
  {
    hide Pump;
    if pieces == [] {
      EmptyPump();
    } else {
      var d, p := Reach(pieces[..|pieces| - 1]), pieces[|pieces| - 1];
      ReachIsResumable(pieces[..|pieces| - 1]);
      if p.Raw? && Pump(d.pending + p.bytes).ok {
        PumpOfRest(d.pending + p.bytes);
      }
    }
  }

  lemma ReachRaws(d: Decoded, a: Bytes, b: Bytes)
    requires Resumable(d)
    ensures ReachOne(ReachOne(d, Raw(a)), Raw(b)) == ReachOne(d, Raw(a + b))
  {
    hide Pump;
    PumpResumes(d.pending + a, b);
    assert d.pending + a + b == d.pending + (a + b);
    if d.error.None? {
      var p := Pump(d.pending + a);
      Associate(d.text, p.text, Pump(p.rest + b).text);
    }
  }

  lemma ReachTexts(d: Decoded, a: string, b: string)
    ensures ReachOne(ReachOne(d, Text(a)), Text(b)) == ReachOne(d, Text(a + b))
  {
    Associate(d.text, a, b);
  }

  lemma ReachGlueOne(g: seq<Piece>, p: Piece)
    ensures Reach(GlueOne(g, p)) == ReachOne(Reach(g), p)
  {
    hide ReachOne, Pump;
    ReachIsResumable(g);
    var n := |g| - 1;
    if p == Raw([]) {
      NoBytesReached(Reach(g));
    } else if n >= 0 && (g[n].Raw? <==> p.Raw?) {
      ReachIsResumable(g[..n]);
      match p
      case Raw(bytes) =>
        ReachRaws(Reach(g[..n]), g[n].bytes, bytes);
        OneMoreReached(g[..n], Raw(g[n].bytes + bytes));
      case Text(text) =>
        ReachTexts(Reach(g[..n]), g[n].text, text);
        OneMoreReached(g[..n], Text(g[n].text + text));
    } else {
      OneMoreReached(g, p);
    }
  }

  lemma NoBytesReached(d: Decoded)
    requires Resumable(d)
    ensures ReachOne(d, Raw([])) == d
  {
    hide Pump;
    assert d.pending + [] == d.pending && d.text + "" == d.text;
  }

  /** What can be decoded does not depend on the cutting. */
  lemma {:induction false} ReachGlued(pieces: seq<Piece>)
    ensures Reach(Glued(pieces)) == Reach(pieces)
  {
    hide ReachOne, GlueOne;
    if pieces != [] {
      var front, p := pieces[..|pieces| - 1], pieces[|pieces| - 1];
      ReachGlued(front);
      ReachGlueOne(Glued(front), p);
    }
  }

  /** Without an invalid byte all of it is decoded; with one, decoding fails somewhere on the way. */
  lemma {:induction false} DecodesUpToReach(pieces: seq<Piece>)
    ensures Reach(pieces).error != Some(INVALID_UTF8) ==> DecodePieces(pieces) == Reach(pieces)
    ensures Reach(pieces).error == Some(INVALID_UTF8) ==>
              DecodePieces(pieces).error == Some(INVALID_UTF8) && DecodePieces(pieces).text <= Reach(pieces).text
  {
    hide Pump;
    if pieces != [] {
      DecodesUpToReach(pieces[..|pieces| - 1]);
    }
  }

  // ---------------------------------------------------------------- the extreme cuts

  lemma TextGrows(d: Decoded, p: Piece)
    ensures d.text <= DecodeOne(d, p).text
  {
    hide Pump;
  }

  lemma DecodesRaws(d: Decoded, a: Bytes, b: Bytes)
    requires d.error.None?
    ensures var first := DecodeOne(d, Raw(a));
            DecodeOne(d, Raw(a + b)).text <= if first.error.Some? then first.text else DecodeOne(first, Raw(b)).text
  {
    hide Pump;
    PumpResumes(d.pending + a, b);
    assert d.pending + a + b == d.pending + (a + b);
    var p := Pump(d.pending + a);
    if p.ok {
      Associate(d.text, p.text, Pump(p.rest + b).text);
    }
  }

  lemma DecodesTexts(d: Decoded, a: string, b: string)
    requires d.error.None?
    ensures var first := DecodeOne(d, Text(a));
            DecodeOne(d, Text(a + b)) == if first.error.Some? then first else DecodeOne(first, Text(b))
  {
    Associate(d.text, a, b);
  }

  /** A piece on its own keeps at least what it keeps glued on. */
  lemma GluedKeepsLess(g: seq<Piece>, p: Piece)
    ensures DecodePieces(GlueOne(g, p)).text <= DecodePieces(g + [p]).text
  {
    hide DecodeOne, DecodePieces;
    var n := |g| - 1;
    OneMoreDecoded(g, p);
    TextGrows(DecodePieces(g), p);
    if n >= 0 && p != Raw([]) && (g[n].Raw? <==> p.Raw?) {
      var before := DecodePieces(g[..n]);
      assert g == g[..n] + [g[n]];
      OneMoreDecoded(g[..n], g[n]);
      match p
      case Raw(bytes) =>
        OneMoreDecoded(g[..n], Raw(g[n].bytes + bytes));
        if before.error.None? {
          DecodesRaws(before, g[n].bytes, bytes);
        }
      case Text(text) =>
        OneMoreDecoded(g[..n], Text(g[n].text + text));
        if before.error.None? {
          DecodesTexts(before, g[n].text, text);
        }
    }
  }

  /** Nothing is decoded with few cuts that is not decoded with more. */
  lemma {:induction false} GluedDecodesLeast(pieces: seq<Piece>)
    ensures DecodePieces(Glued(pieces)).text <= DecodePieces(pieces).text
  {
    hide GlueOne, DecodeOne;
    if pieces != [] {
      var front, p := pieces[..|pieces| - 1], pieces[|pieces| - 1];
      var g := Glued(front);
      GluedDecodesLeast(front);
      ReachGlued(front);
      DecodesUpToReach(front);
      DecodesUpToReach(g);
      GluedKeepsLess(g, p);
      OneMoreDecoded(g, p);
      assert pieces == front + [p];
    }
  }

  lemma GlueRaws(g: seq<Piece>, a: Bytes, b: Bytes)
    ensures GlueOne(GlueOne(g, Raw(a)), Raw(b)) == GlueOne(g, Raw(a + b))
  {
    var n := |g| - 1;
    if a == [] {
      assert a + b == b;
    } else if b == [] {
      assert a + b == a;
    } else if n >= 0 && g[n].Raw? {
      Associate(g[n].bytes, a, b);
      assert (g[..n] + [Raw(g[n].bytes + a)])[..n] == g[..n];
    } else {
      assert (g + [Raw(a)])[..|g|] == g;
    }
  }

  lemma GlueTexts(g: seq<Piece>, a: string, b: string)
    ensures GlueOne(GlueOne(g, Text(a)), Text(b)) == GlueOne(g, Text(a + b))
  {
    var n := |g| - 1;
    if n >= 0 && g[n].Text? {
      Associate(g[n].text, a, b);
      assert (g[..n] + [Text(g[n].text + a)])[..n] == g[..n];
    } else {
      assert (g + [Text(a)])[..|g|] == g;
    }
  }

  lemma {:induction false} PendingIsShorter(pending: Bytes, more: Bytes, text: string, rest: Bytes)
    requires pending + more == Encode(text) + rest && text != "" && Pump(pending).text == ""
    ensures |pending| < |Encode(text)|
  {
    hide Pump, Encode;
    var e := Encode(text);
    if |e| <= |pending| {
      assert pending == e + pending[|e|..] by {
        assert (pending + more)[..|e|] == pending[..|e|] && (e + rest)[..|e|] == e;
      }
      PumpOfEncode(text, pending[|e|..]);
    }
  }

  /** Where to cut a piece with an invalid byte so that what comes before it is kept. */
  lemma {:induction false} CutPiece(d: Decoded, bytes: Bytes) returns (k: nat)
    requires Resumable(d) && d.error.None? && !Pump(d.pending + bytes).ok
    ensures k <= |bytes| && DecodeOne(d, Raw(bytes[..k])).error.None?
    ensures var last := DecodeOne(DecodeOne(d, Raw(bytes[..k])), Raw(bytes[k..]));
            last.error == Some(INVALID_UTF8) && last.text == ReachOne(d, Raw(bytes)).text
  {
    hide Pump, Encode;
    var r := Pump(d.pending + bytes);
    if r.text == "" {
      k := 0;
      assert bytes[..0] == [] && bytes[0..] == bytes && d.pending + [] == d.pending;
      assert d.text + "" == d.text;
    } else {
      var e := Encode(r.text);
      PumpKeepsCutChar(d.pending + bytes);
      PendingIsShorter(d.pending, bytes, r.text, r.rest);
      k := |e| - |d.pending|;
      assert d.pending + bytes[..k] == e by {
        assert (d.pending + bytes)[..|e|] == d.pending + bytes[..k] && (e + r.rest)[..|e|] == e;
      }
      assert [] + bytes[k..] == r.rest by {
        assert (d.pending + bytes)[|e|..] == bytes[k..] && (e + r.rest)[|e|..] == r.rest;
      }
      EmptyPump();
      PumpOfEncode(r.text, []);
      assert e + [] == e && r.text + "" == r.text;
      PumpOfEncode(r.text, r.rest);
    }
  }

  lemma SameStep(d: Decoded, p: Piece)
    requires d.error.None? && (p.Raw? ==> Pump(d.pending + p.bytes).ok)
    ensures DecodeOne(d, p) == ReachOne(d, p)
  {
    hide Pump;
  }

  lemma InvalidStep(d: Decoded, bytes: Bytes)
    requires d.error.None? && !Pump(d.pending + bytes).ok
    ensures ReachOne(d, Raw(bytes)).error == Some(INVALID_UTF8)
  {
    hide Pump;
  }

  /** The other extreme: a cut right before the invalid byte keeps all that can be decoded. */
  lemma {:induction false} CutBeforeInvalid(pieces: seq<Piece>) returns (cut: seq<Piece>)
    ensures Recut(cut, pieces)
    ensures DecodePieces(cut).text == Reach(pieces).text && DecodePieces(cut).error == Reach(pieces).error
  {
    hide Pump, GlueOne, DecodeOne, ReachOne, DecodePieces;
    if pieces == [] {
      cut := [];
      NothingDecoded();
    } else {
      var front, p := pieces[..|pieces| - 1], pieces[|pieces| - 1];
      var d := Reach(front);
      var start := CutBeforeInvalid(front);
      ReachGlued(front);
      ReachGlued(start);
      DecodesUpToReach(start);
      OneMoreGlued(start, p);
      OneMoreDecoded(start, p);
      cut := start + [p];
      if d.error.None? {
        if p.Raw? && !Pump(d.pending + p.bytes).ok {
          ReachIsResumable(front);
          InvalidStep(d, p.bytes);
          var k := CutPiece(d, p.bytes);
          var a, b := p.bytes[..k], p.bytes[k..];
          assert p.bytes == a + b;
          GlueRaws(Glued(start), a, b);
          OneMoreGlued(start, Raw(a));
          OneMoreGlued(start + [Raw(a)], Raw(b));
          OneMoreDecoded(start, Raw(a));
          OneMoreDecoded(start + [Raw(a)], Raw(b));
          cut := start + [Raw(a)] + [Raw(b)];
        } else {
          SameStep(d, p);
        }
      } else {
        FailureStays(d, p);
      }
    }
  }

  lemma NothingDecoded()
    ensures DecodePieces([]) == Decoded("", [], None)
  {
  }

  lemma FailureStays(d: Decoded, p: Piece)
    requires d.error.Some?
    ensures ReachOne(d, p) == d
  {
  }

  // ---------------------------------------------------------------- when the cutting makes no difference

  /** The events are the same however the stream is cut. */
  ghost predicate RecutIndependent(pieces: seq<Piece>, parse: Parser) {
    forall x, y :: Recut(x, pieces) && Recut(y, pieces) ==>
      EventsOf(DecodePieces(x), parse) == EventsOf(DecodePieces(y), parse)
  }

  /** What the complete lines of a text say. */
  function TextEvents(text: string, parse: Parser): seq<Event> {
    LineEvents(SplitLines(text).complete, parse).events
  }

  lemma SameReach(x: seq<Piece>, y: seq<Piece>)
    requires Recut(x, y)
    ensures Reach(x) == Reach(y)
  {
    ReachGlued(x);
    ReachGlued(y);
  }

  lemma {:induction false} GluedTwice(pieces: seq<Piece>)
    ensures Glued(Glued(pieces)) == Glued(pieces)
  {
    if pieces != [] {
      var g, p := Glued(pieces[..|pieces| - 1]), pieces[|pieces| - 1];
      GluedTwice(pieces[..|pieces| - 1]);
      GlueOneTwice(g, p);
    }
  }

  lemma GlueOneTwice(g: seq<Piece>, p: Piece)
    requires Glued(g) == g
    ensures Glued(GlueOne(g, p)) == GlueOne(g, p)
  {
    hide Glued;
    var n := |g| - 1;
    if p != Raw([]) {
      if n >= 0 && (g[n].Raw? <==> p.Raw?) {
        assert g == g[..n] + [g[n]];
        hide GlueOne;
        OneMoreGlued(g[..n], g[n]);
        match p
        case Raw(bytes) =>
          GluedOn(g, p);
          OneMoreGlued(g[..n], Raw(g[n].bytes + bytes));
          GlueRaws(Glued(g[..n]), g[n].bytes, bytes);
        case Text(text) =>
          GluedOn(g, p);
          OneMoreGlued(g[..n], Text(g[n].text + text));
          GlueTexts(Glued(g[..n]), g[n].text, text);
      } else {
        OneMoreGlued(g, p);
      }
    }
  }

  lemma GluedOn(g: seq<Piece>, p: Piece)
    requires g != [] && p != Raw([]) && (g[|g| - 1].Raw? <==> p.Raw?)
    ensures var n := |g| - 1;
            GlueOne(g, p) == g[..n] + [if p.Raw? then Raw(g[n].bytes + p.bytes) else Text(g[n].text + p.text)]
  {
  }

  lemma {:induction false} TextEventsGrow(a: string, b: string, parse: Parser)
    requires a <= b
    ensures TextEvents(a, parse) <= TextEvents(b, parse)
  {
    hide LineEvents, SplitLines;
    var more := b[|a|..];
    assert b == a + more;
    SplitAppend(a, more);
    LinesExtend(SplitLines(a).complete, SplitLines(SplitLines(a).rest + more).complete, parse);
  }

  /** The events before an invalid byte tell whether a line has failed. */
  lemma {:induction false} InvalidAfter(d: Decoded, parse: Parser)
    requires d.error == Some(INVALID_UTF8)
    ensures var es := TextEvents(d.text, parse);
            EventsOf(d, parse) == if es != [] && es[|es| - 1].Error? then es else es + [Error(INVALID_UTF8)]
  {
    hide LineEvents, SplitLines;
    LastIsError(SplitLines(d.text).complete, parse);
  }

  lemma {:induction false} DifferentTextEvents(d: Decoded, e: Decoded, parse: Parser)
    requires d.error == e.error == Some(INVALID_UTF8) && d.text <= e.text
    requires TextEvents(d.text, parse) != TextEvents(e.text, parse)
    ensures EventsOf(d, parse) != EventsOf(e, parse)
  {
    hide LineEvents, SplitLines, EventsOf;
    InvalidAfter(d, parse);
    InvalidAfter(e, parse);
    TextEventsGrow(d.text, e.text, parse);
    LastIsError(SplitLines(e.text).complete, parse);
    LinesNeverSayInvalid(SplitLines(e.text).complete, parse);
    var short, long := TextEvents(d.text, parse), TextEvents(e.text, parse);
    assert |short| < |long| && long[|short|] in long;
    if short != [] {
      assert short[|short| - 1] == long[|short| - 1];
    }
    assert EventsOf(d, parse)[|short|] != EventsOf(e, parse)[|short|];
  }

  /** With an invalid byte every cut decodes at least what the fewest cuts decode, and at most all that can be. */
  lemma BetweenExtremes(x: seq<Piece>, pieces: seq<Piece>)
    requires Recut(x, pieces) && Reach(pieces).error == Some(INVALID_UTF8)
    ensures DecodePieces(x).error == Some(INVALID_UTF8)
    ensures DecodePieces(Glued(pieces)).text <= DecodePieces(x).text <= Reach(pieces).text
  {
    hide Glued, Reach, DecodePieces;
    SameReach(x, pieces);
    DecodesUpToReach(x);
    GluedDecodesLeast(x);
  }

  /** Both bounds are met by some cut. */
  lemma Extremes(pieces: seq<Piece>) returns (few: seq<Piece>, many: seq<Piece>)
    requires Reach(pieces).error == Some(INVALID_UTF8)
    ensures Recut(few, pieces) && DecodePieces(few).text == DecodePieces(Glued(pieces)).text
    ensures Recut(many, pieces) && DecodePieces(many).text == Reach(pieces).text
    ensures DecodePieces(few).error == DecodePieces(many).error == Some(INVALID_UTF8)
  {
    hide Glued, Reach, DecodePieces;
    few := Glued(pieces);
    GluedTwice(pieces);
    BetweenExtremes(few, pieces);
    many := CutBeforeInvalid(pieces);
  }

  /**
   However bytes and texts are cut, the events are the same if and only if there is no invalid byte, or no line
   completed by the bytes between the last text and that byte gives an event.
   */
  lemma {:induction false} RecuttingDoesNotMatterIff(pieces: seq<Piece>, parse: Parser)
    ensures RecutIndependent(pieces, parse) <==>
            Reach(pieces).error != Some(INVALID_UTF8)
            || TextEvents(Reach(pieces).text, parse) == TextEvents(DecodePieces(Glued(pieces)).text, parse)
  {
    hide Glued, Reach, DecodePieces, EventsOf, TextEvents;
    var least, most := DecodePieces(Glued(pieces)).text, Reach(pieces).text;
    if Reach(pieces).error != Some(INVALID_UTF8) {
      forall x | Recut(x, pieces) ensures DecodePieces(x) == Reach(pieces) {
        SameReach(x, pieces);
        DecodesUpToReach(x);
      }
    } else if TextEvents(most, parse) == TextEvents(least, parse) {
      var end := Decoded(most, [], Some(INVALID_UTF8));
      forall x | Recut(x, pieces) ensures EventsOf(DecodePieces(x), parse) == EventsOf(end, parse) {
        BetweenExtremes(x, pieces);
        TextEventsGrow(least, DecodePieces(x).text, parse);
        TextEventsGrow(DecodePieces(x).text, most, parse);
        InvalidAfter(DecodePieces(x), parse);
        InvalidAfter(end, parse);
      }
    } else {
      var few, many := Extremes(pieces);
      BetweenExtremes(few, pieces);
      DifferentTextEvents(DecodePieces(few), DecodePieces(many), parse);
    }
  }
}
