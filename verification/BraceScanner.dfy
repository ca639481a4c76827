/**
 The brace scanners that cut the entitlements literal out of the policy source: one extracts it for the bundle
 (governance/app/entitlements.py), the other strips it for the sidecar image (opa-sidecar/strip_entitlements.py).
 */
module BraceScanner {
  import opened Wrappers

  // ---------------------------------------------------------------- reading one character after another

  /** `end` is set when the first brace has been closed, to the number of characters read by then. */
  datatype Scan = Scan(depth: int, inString: bool, escape: bool, read: nat, end: Option<nat>)

  const BEGIN := Scan(0, false, false, 0, None)

  function Read(s: Scan, c: char): Scan {
    if s.end.Some? then s
    else
      var t := s.(read := s.read + 1);
      if s.inString then
        if s.escape then t.(escape := false)
        else if c == '\\' then t.(escape := true)
        else if c == '"' then t.(inString := false)
        else t
      else if c == '"' then t.(inString := true)
      else if c == '{' then t.(depth := s.depth + 1)
      else if c == '}' then
        if s.depth == 1 then t.(depth := 0, end := Some(t.read)) else t.(depth := s.depth - 1)
      else t
  }

  function ReadAll(s: Scan, text: string): Scan {
    if text == "" then s else Read(ReadAll(s, text[..|text| - 1]), text[|text| - 1])
  }

  lemma {:induction false} ReadAppend(s: Scan, a: string, b: string)
    ensures ReadAll(s, a + b) == ReadAll(ReadAll(s, a), b)
    decreases |b|
  {
    hide Read;
    if b == "" {
      assert a + b == a;
    } else {
      var n := |b| - 1;
      ReadAppend(s, a, b[..n]);
      assert (a + b)[..|a| + n] == a + b[..n];
    }
  }

  lemma {:induction false} NothingAfterTheEnd(s: Scan, text: string)
    requires s.end.Some?
    ensures ReadAll(s, text) == s
  {
    if text != "" {
      NothingAfterTheEnd(s, text[..|text| - 1]);
    }
  }

  lemma {:induction false} EndIsWithin(text: string)
    ensures var s := ReadAll(BEGIN, text);
            s.read <= |text| && (s.end.None? ==> s.read == |text|) && (s.end.Some? ==> 0 < s.end.value == s.read)
  {
    if text != "" {
      EndIsWithin(text[..|text| - 1]);
    }
  }

  lemma ReadOne(text: string, start: nat, i: nat)
    requires start <= i < |text|
    ensures ReadAll(BEGIN, text[start..i + 1]) == Read(ReadAll(BEGIN, text[start..i]), text[i])
    ensures ReadAll(BEGIN, text[start..i + 1]).end.Some? ==>
            ReadAll(BEGIN, text[start..]) == ReadAll(BEGIN, text[start..i + 1])
  {
    hide Read;
    assert text[start..i + 1][..i - start] == text[start..i];
    assert text[start..] == text[start..i + 1] + text[i + 1..];
    ReadAppend(BEGIN, text[start..i + 1], text[i + 1..]);
    if ReadAll(BEGIN, text[start..i + 1]).end.Some? {
      NothingAfterTheEnd(ReadAll(BEGIN, text[start..i + 1]), text[i + 1..]);
    }
  }

  /** Where the block that starts at `start` ends, if it does. */
  function BlockEnd(text: string, start: nat): (r: Option<nat>)
    requires start <= |text|
    ensures r.Some? ==> start < r.value <= |text|
  {
    EndIsWithin(text[start..]);
    var end := ReadAll(BEGIN, text[start..]).end;
    if end.Some? then Some(start + end.value) else None
  }

  // ---------------------------------------------------------------- the two loops

  /** The loop in `_extract_entitlements`. */
  method ScanForEnd(text: string, start: nat) returns (end: Option<nat>)
    requires start <= |text|
    ensures end == BlockEnd(text, start)
  {
    hide ReadAll;
    var depth, inString, escape := 0, false, false;
    end := None;
    var i := start;
    NothingRead(text, start);
    while i < |text|
      invariant start <= i <= |text|
      invariant ReadAll(BEGIN, text[start..i]) == Scan(depth, inString, escape, i - start, None)
    {
      var c := text[i];
      ReadOne(text, start, i);
      i := i + 1;
      if inString {
        if escape {
          escape := false;
          continue;
        }
        if c == '\\' {
          escape := true;
          continue;
        }
        if c == '"' {
          inString := false;
        }
        continue;
      }
      if c == '"' {
        inString := true;
      } else if c == '{' {
        depth := depth + 1;
      } else if c == '}' {
        depth := depth - 1;
        if depth == 0 {
          end := Some(i);
          return;
        }
      }
    }
    assert text[start..i] == text[start..];
  }

  /** `_find_block_end`, which raises when the braces do not balance. */
  method FindBlockEnd(text: string, start: nat) returns (r: Result<nat, ScanError>)
    requires start <= |text|
    ensures r == match BlockEnd(text, start) case Some(end) => Ok(end) case None => Err(Unbalanced)
  {
    hide ReadAll;
    var depth, inString, escape := 0, false, false;
    NothingRead(text, start);
    for i := start to |text|
      invariant ReadAll(BEGIN, text[start..i]) == Scan(depth, inString, escape, i - start, None)
    {
      var c := text[i];
      ReadOne(text, start, i);
      if inString {
        if escape {
          escape := false;
        } else if c == '\\' {
          escape := true;
        } else if c == '"' {
          inString := false;
        }
      } else if c == '"' {
        inString := true;
      } else if c == '{' {
        depth := depth + 1;
      } else if c == '}' {
        depth := depth - 1;
        if depth == 0 {
          return Ok(i + 1);
        }
      }
    }
    assert text[start..|text|] == text[start..];
    return Err(Unbalanced);
  }

  lemma NothingRead(text: string, start: nat)
    requires start <= |text|
    ensures ReadAll(BEGIN, text[start..start]) == BEGIN
  {
  }

  // ---------------------------------------------------------------- the two programs

  datatype ScanError = NoAssignment | NoBrace | Unbalanced

  /** Where the regular expression for `entitlements :=` matches: a parameter, since it is not modelled. */
  datatype Marker = Marker(from: nat, to: nat)

  predicate MarkerIn(marker: Option<Marker>, text: string) {
    marker.Some? ==> marker.value.from <= marker.value.to <= |text|
  }

  function FindBrace(text: string, from: nat): (r: Option<nat>)
    requires from <= |text|
    ensures r.Some? ==> from <= r.value < |text| && text[r.value] == '{' && '{' !in text[from..r.value]
    ensures r.None? ==> '{' !in text[from..]
    decreases |text| - from
  {
    if from == |text| then None
    else if text[from] == '{' then Some(from)
    else
      var r := FindBrace(text, from + 1);
      assert text[from..] == [text[from]] + text[from + 1..];
      assert r.Some? ==> text[from..r.value] == [text[from]] + text[from + 1..r.value];
      r
  }

  /** The literal, before trailing commas are cleaned up and it is parsed. */
  method ExtractSnippet(text: string, marker: Option<Marker>) returns (r: Result<string, ScanError>)
    requires MarkerIn(marker, text)
    ensures r == match Located(text, marker) case Err(e) => Err(e) case Ok(b) => Ok(text[b.start..b.end])
  {
    if marker.None? {
      return Err(NoAssignment);
    }
    var start := FindBrace(text, marker.value.to);
    if start.None? {
      return Err(NoBrace);
    }
    var end := ScanForEnd(text, start.value);
    if end.None? {
      return Err(Unbalanced);
    }
    return Ok(text[start.value..end.value]);
  }

  /** The source without the assignment, before the import is added. */
  method StripEntitlements(text: string, marker: Option<Marker>) returns (r: Result<string, ScanError>)
    requires MarkerIn(marker, text)
    ensures r == match Located(text, marker) case Err(e) => Err(e)
            case Ok(b) => Ok(text[..marker.value.from] + text[b.end..])
  {
    if marker.None? {
      return Err(NoAssignment);
    }
    var start := FindBrace(text, marker.value.to);
    if start.None? {
      return Err(NoBrace);
    }
    var end := FindBlockEnd(text, start.value);
    if end.Err? {
      return Err(end.error);
    }
    return Ok(text[..marker.value.from] + text[end.value..]);
  }

  datatype Block = Block(start: nat, end: nat)

  /** Where the literal stands in the text. */
  function Located(text: string, marker: Option<Marker>): (r: Result<Block, ScanError>)
    requires MarkerIn(marker, text)
    ensures r.Ok? ==> marker.Some? && marker.value.to <= r.value.start < r.value.end <= |text|
  {
    if marker.None? then Err(NoAssignment)
    else match FindBrace(text, marker.value.to)
      case None => Err(NoBrace)
      case Some(start) =>
        match BlockEnd(text, start)
        case None => Err(Unbalanced)
        case Some(end) => Ok(Block(start, end))
  }

  // ---------------------------------------------------------------- printed JSON

  /** A character of a string, or an escape (section 7 of RFC 8259). */
  datatype Piece = Plain(c: char) | Escape(c: char) | Unicode(digits: string)

  /** A value with its layout: white space anywhere it may stand, and possibly a comma after the last element. */
  datatype Value =
    | Str(pieces: seq<Piece>)
    | Literal(text: string)
    | Array(items: Items)
    | Object(members: Members)

  datatype Items =
    | NoItem(comma: bool, space: string)
    | Item(comma: bool, before: string, value: Value, after: string, rest: Items)

  datatype Members =
    | NoMember(comma: bool, space: string)
    | Member(comma: bool, before: string, key: seq<Piece>, gap: string, space: string, value: Value, after: string,
             rest: Members)

  predicate IsHex(c: char) {
    '0' <= c <= '9' || 'a' <= c <= 'f' || 'A' <= c <= 'F'
  }

  predicate PieceOk(p: Piece) {
    match p
    case Plain(c) => c >= ' ' && c != '"' && c != '\\'
    case Escape(c) => c in "\"\\/bfnrt"
    case Unicode(digits) => |digits| == 4 && forall i :: 0 <= i < 4 ==> IsHex(digits[i])
  }

  predicate Blank(s: string) {
    forall i :: 0 <= i < |s| ==> s[i] in " \t\n\r"
  }

  /** Numbers, `true`, `false` and `null` are made of these. */
  predicate LiteralOk(s: string) {
    s != ""
    && forall i :: 0 <= i < |s| ==>
         '0' <= s[i] <= '9' || 'a' <= s[i] <= 'z' || 'A' <= s[i] <= 'Z' || s[i] in "+-."
  }

  predicate StringOk(ps: seq<Piece>) {
    forall i :: 0 <= i < |ps| ==> PieceOk(ps[i])
  }

  predicate ValueOk(v: Value) {
    match v
    case Str(pieces) => StringOk(pieces)
    case Literal(text) => LiteralOk(text)
    case Array(items) => ItemsOk(items, true)
    case Object(members) => MembersOk(members, true)
  }

  /** Elements are separated by one comma; one more may stand after the last. */
  predicate ItemsOk(items: Items, first: bool) {
    match items
    case NoItem(comma, space) => (comma ==> !first) && Blank(space)
    case Item(comma, before, value, after, rest) =>
      (comma <==> !first) && Blank(before) && ValueOk(value) && Blank(after) && ItemsOk(rest, false)
  }

  predicate MembersOk(members: Members, first: bool) {
    match members
    case NoMember(comma, space) => (comma ==> !first) && Blank(space)
    case Member(comma, before, key, gap, space, value, after, rest) =>
      (comma <==> !first) && Blank(before) && StringOk(key) && Blank(gap) && Blank(space) && ValueOk(value)
      && Blank(after)
      && MembersOk(rest, false)
  }

  function PrintPiece(p: Piece): string {
    match p
    case Plain(c) => [c]
    case Escape(c) => ['\\', c]
    case Unicode(digits) => "\\u" + digits
  }

  function PrintPieces(ps: seq<Piece>): string {
    if ps == [] then "" else PrintPieces(ps[..|ps| - 1]) + PrintPiece(ps[|ps| - 1])
  }

  function PrintString(ps: seq<Piece>): string {
    "\"" + PrintPieces(ps) + "\""
  }

  function Comma(comma: bool): string {
    if comma then "," else ""
  }

  function Print(v: Value): string {
    match v
    case Str(pieces) => PrintString(pieces)
    case Literal(text) => text
    case Array(items) => "[" + PrintItems(items) + "]"
    case Object(members) => "{" + PrintMembers(members) + "}"
  }

  function PrintItems(items: Items): string {
    match items
    case NoItem(comma, space) => Comma(comma) + space
    case Item(comma, before, value, after, rest) =>
      Comma(comma) + before + Print(value) + after + PrintItems(rest)
  }

  function PrintMembers(members: Members): string {
    match members
    case NoMember(comma, space) => Comma(comma) + space
    case Member(comma, before, key, gap, space, value, after, rest) =>
      Comma(comma) + before + PrintString(key) + gap + ":" + space + Print(value) + after + PrintMembers(rest)
  }

  // ---------------------------------------------------------------- scanner meets printer

  /** Inside a block and outside a string. */
  predicate Between(s: Scan) {
    s.depth >= 1 && !s.inString && !s.escape && s.end.None?
  }

  function Past(s: Scan, text: string): Scan {
    s.(read := s.read + |text|)
  }

  /** Text that a scanner between two tokens reads past. */
  ghost predicate Skipped(text: string) {
    forall s {:trigger Between(s)} :: Between(s) ==> ReadAll(s, text) == Past(s, text)
  }

  lemma SkippedBoth(a: string, b: string)
    requires Skipped(a) && Skipped(b)
    ensures Skipped(a + b)
  {
    hide ReadAll;
    forall s {:trigger Between(s)} | Between(s)
      ensures ReadAll(s, a + b) == Past(s, a + b)
    {
      ReadAppend(s, a, b);
      assert Between(Past(s, a));
    }
  }

  predicate Harmless(text: string) {
    forall i :: 0 <= i < |text| ==> text[i] != '"' && text[i] != '{' && text[i] != '}'
  }

  lemma {:induction false} HarmlessIsSkipped(text: string)
    requires Harmless(text)
    ensures Skipped(text)
  {
    forall s {:trigger Between(s)} | Between(s)
      ensures ReadAll(s, text) == Past(s, text)
    {
      ReadHarmless(s, text);
    }
  }

  lemma {:induction false} ReadHarmless(s: Scan, text: string)
    requires Harmless(text) && Between(s)
    ensures ReadAll(s, text) == Past(s, text)
  {
    if text != "" {
      ReadHarmless(s, text[..|text| - 1]);
    }
  }

  /** Reading the pieces of a string leaves the scanner inside it. */
  lemma {:induction false} ReadPieces(s: Scan, ps: seq<Piece>)
    requires StringOk(ps) && s.inString && !s.escape && s.end.None?
    ensures ReadAll(s, PrintPieces(ps)) == Past(s, PrintPieces(ps))
  {
    hide ReadAll;
    if ps == [] {
      ReadNone(s);
    } else {
      var n := |ps| - 1;
      ReadPieces(s, ps[..n]);
      ReadAppend(s, PrintPieces(ps[..n]), PrintPiece(ps[n]));
      ReadPiece(Past(s, PrintPieces(ps[..n])), ps[n]);
    }
  }

  lemma ReadNone(s: Scan)
    ensures ReadAll(s, "") == s
  {
  }

  lemma ReadTwo(s: Scan, c: char, d: char)
    ensures ReadAll(s, [c]) == Read(s, c)
    ensures ReadAll(s, [c, d]) == Read(Read(s, c), d)
  {
    hide Read;
    assert [c][..0] == [] && [c, d][..1] == [c];
  }

  lemma {:induction false} ReadPlain(s: Scan, text: string)
    requires s.inString && !s.escape && s.end.None?
    requires forall i :: 0 <= i < |text| ==> text[i] != '"' && text[i] != '\\'
    ensures ReadAll(s, text) == Past(s, text)
  {
    if text != "" {
      ReadPlain(s, text[..|text| - 1]);
    }
  }

  lemma ReadPiece(s: Scan, p: Piece)
    requires PieceOk(p) && s.inString && !s.escape && s.end.None?
    ensures ReadAll(s, PrintPiece(p)) == Past(s, PrintPiece(p))
  {
    hide ReadAll;
    match p
    case Plain(c) => ReadTwo(s, c, c);
    case Escape(c) => ReadTwo(s, '\\', c);
    case Unicode(digits) =>
      ReadTwo(s, '\\', 'u');
      assert "\\u" == ['\\', 'u'];
      ReadAppend(s, "\\u", digits);
      ReadPlain(Past(s, "\\u"), digits);
  }

  lemma StringIsSkipped(ps: seq<Piece>)
    requires StringOk(ps)
    ensures Skipped(PrintString(ps))
  {
    hide ReadAll, PrintPieces, StringOk;
    forall s {:trigger Between(s)} | Between(s)
      ensures ReadAll(s, PrintString(ps)) == Past(s, PrintString(ps))
    {
      var text := PrintPieces(ps);
      var t := Read(s, '"');
      ReadTwo(s, '"', '"');
      ReadPieces(t, ps);
      ReadTwo(Past(t, text), '"', '"');
      ReadAppend(s, "\"", text);
      ReadAppend(s, "\"" + text, "\"");
    }
  }

  lemma BlankIsSkipped(text: string)
    requires Blank(text)
    ensures Skipped(text)
  {
    assert Harmless(text);
    HarmlessIsSkipped(text);
  }

  /** A scanner at any depth reads past a whole value, whatever braces and quotes are in it. */
  lemma {:induction false} ValueIsSkipped(v: Value)
    requires ValueOk(v)
    ensures Skipped(Print(v))
  {
    hide ReadAll, Skipped, Harmless;
    match v
    case Str(pieces) => StringIsSkipped(pieces);
    case Literal(text) =>
      assert Harmless(text) by {
        LiteralIsHarmless(text);
      }
      HarmlessIsSkipped(text);
    case Array(items) =>
      ItemsAreSkipped(items, true);
      PunctuationIsHarmless();
      HarmlessIsSkipped("[");
      HarmlessIsSkipped("]");
      SkippedBoth("[", PrintItems(items));
      SkippedBoth("[" + PrintItems(items), "]");
    case Object(members) =>
      MembersAreSkipped(members, true);
      BracesAreSkipped(PrintMembers(members));
  }

  lemma LiteralIsHarmless(text: string)
    requires LiteralOk(text)
    ensures Harmless(text)
  {
  }

  lemma PunctuationIsHarmless()
    ensures Harmless("[") && Harmless("]") && Harmless(":") && Harmless(Comma(true)) && Harmless(Comma(false))
  {
  }

  lemma BracesAreSkipped(inner: string)
    requires Skipped(inner)
    ensures Skipped("{" + inner + "}")
  {
    hide ReadAll;
    forall s {:trigger Between(s)} | Between(s)
      ensures ReadAll(s, "{" + inner + "}") == Past(s, "{" + inner + "}")
    {
      var t := Read(s, '{');
      ReadTwo(s, '{', '{');
      assert Between(t);
      ReadTwo(Past(t, inner), '}', '}');
      ReadAppend(s, "{", inner);
      ReadAppend(s, "{" + inner, "}");
    }
  }

  lemma {:induction false} ItemsAreSkipped(items: Items, first: bool)
    requires ItemsOk(items, first)
    ensures Skipped(PrintItems(items))
  {
    hide ReadAll, Skipped, Harmless, Print;
    PunctuationIsHarmless();
    HarmlessIsSkipped(Comma(items.comma));
    match items
    case NoItem(comma, space) =>
      BlankIsSkipped(space);
      SkippedBoth(Comma(comma), space);
    case Item(comma, before, value, after, rest) =>
      BlankIsSkipped(before);
      ValueIsSkipped(value);
      BlankIsSkipped(after);
      ItemsAreSkipped(rest, false);
      SkippedBoth(Comma(comma), before);
      SkippedBoth(Comma(comma) + before, Print(value));
      SkippedBoth(Comma(comma) + before + Print(value), after);
      SkippedBoth(Comma(comma) + before + Print(value) + after, PrintItems(rest));
  }

  lemma {:induction false} MembersAreSkipped(members: Members, first: bool)
    requires MembersOk(members, first)
    ensures Skipped(PrintMembers(members))
  {
    hide ReadAll, Skipped, Harmless, Print, PrintString;
    PunctuationIsHarmless();
    HarmlessIsSkipped(Comma(members.comma));
    match members
    case NoMember(comma, space) =>
      BlankIsSkipped(space);
      SkippedBoth(Comma(comma), space);
    case Member(comma, before, key, gap, space, value, after, rest) =>
      BlankIsSkipped(before);
      StringIsSkipped(key);
      BlankIsSkipped(gap);
      HarmlessIsSkipped(":");
      BlankIsSkipped(space);
      ValueIsSkipped(value);
      BlankIsSkipped(after);
      MembersAreSkipped(rest, false);
      var head := Comma(comma) + before;
      SkippedBoth(Comma(comma), before);
      SkippedBoth(head, PrintString(key));
      SkippedBoth(head + PrintString(key), gap);
      SkippedBoth(head + PrintString(key) + gap, ":");
      SkippedBoth(head + PrintString(key) + gap + ":", space);
      SkippedBoth(head + PrintString(key) + gap + ":" + space, Print(value));
      SkippedBoth(head + PrintString(key) + gap + ":" + space + Print(value), after);
      SkippedBoth(head + PrintString(key) + gap + ":" + space + Print(value) + after, PrintMembers(rest));
  }

  /** The scanner stops exactly after a printed object, whatever follows it. */
  lemma ScannerMeetsPrinter(before: string, v: Value, suffix: string)
    requires v.Object? && ValueOk(v)
    ensures BlockEnd(before + Print(v) + suffix, |before|) == Some(|before| + |Print(v)|)
  {
    hide ReadAll, Skipped;
    var inner := PrintMembers(v.members);
    MembersAreSkipped(v.members, true);
    ReadTwo(BEGIN, '{', '{');
    ReadTwo(Past(Read(BEGIN, '{'), inner), '}', '}');
    ReadSkipped(Read(BEGIN, '{'), inner);
    ReadAppend(BEGIN, "{", inner);
    ReadAppend(BEGIN, "{" + inner, "}");
    ReadAppend(BEGIN, Print(v), suffix);
    NothingAfterTheEnd(ReadAll(BEGIN, Print(v)), suffix);
    assert (before + Print(v) + suffix)[|before|..] == Print(v) + suffix;
  }

  /** An object that is cut short is not closed. */
  lemma {:induction false} CutObjectIsOpen(before: string, v: Value, n: nat)
    requires v.Object? && ValueOk(v) && n < |Print(v)|
    ensures BlockEnd(before + Print(v)[..n], |before|) == None
  {
    hide ReadAll;
    var whole, cut, rest := Print(v), Print(v)[..n], Print(v)[n..];
    ScannerMeetsPrinter("", v, "");
    assert "" + whole + "" == whole && whole[0..] == whole && whole == cut + rest;
    assert (before + cut)[|before|..] == cut;
    ReadAppend(BEGIN, cut, rest);
    EndIsWithin(cut);
    if ReadAll(BEGIN, cut).end.Some? {
      NothingAfterTheEnd(ReadAll(BEGIN, cut), rest);
    }
  }

  lemma ReadSkipped(s: Scan, text: string)
    requires Skipped(text) && Between(s)
    ensures ReadAll(s, text) == Past(s, text)
  {
  }

  /**
   When the assignment's value is a printed object, the bundle gets exactly that object, and the sidecar's text is
   what stood before the assignment followed by what stood after the object.
   */
  lemma StripEndsWhereTheValueEnds(head: string, assignment: string, v: Value, suffix: string)
    requires v.Object? && ValueOk(v)
    ensures var text, marker := head + assignment + Print(v) + suffix, Some(Marker(|head|, |head| + |assignment|));
            Located(text, marker) == Ok(Block(|head| + |assignment|, |head| + |assignment| + |Print(v)|))
            && text[|head| + |assignment|..|head| + |assignment| + |Print(v)|] == Print(v)
            && text[..|head|] + text[|head| + |assignment| + |Print(v)|..] == head + suffix
  {
    hide BlockEnd;
    ScannerMeetsPrinter(head + assignment, v, suffix);
    var text, from := head + assignment + Print(v) + suffix, |head| + |assignment|;
    assert Print(v)[0] == '{';
    assert text[from] == '{';
    assert text[..|head|] == head;
    assert text[from + |Print(v)|..] == suffix;
  }
}
