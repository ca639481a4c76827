/**
 UTF-8 as in section 3 of RFC 3629: encoding, strict decoding, and the resumable decoding
 done by an incremental decoder. A `string` is a sequence of Unicode scalar values.
 */
module Utf8 {
  import opened Wrappers

  type Byte = b: int | 0 <= b < 256

  type Bytes = seq<Byte>

  /** A byte 10xxxxxx: what `b & 0xC0 == 0x80` tests. */
  predicate IsContinuation(b: Byte) {
    0x80 <= b < 0xC0
  }

  function EncodeChar(c: char): Bytes {
    var n := c as int;
    if n < 0x80 then [n]
    else if n < 0x800 then [0xC0 + n / 0x40, 0x80 + n % 0x40]
    else if n < 0x1_0000 then [0xE0 + n / 0x1000, 0x80 + n / 0x40 % 0x40, 0x80 + n % 0x40]
    else [0xF0 + n / 0x4_0000, 0x80 + n / 0x1000 % 0x40, 0x80 + n / 0x40 % 0x40, 0x80 + n % 0x40]
  }

  function Encode(text: string): Bytes {
    if text == [] then [] else EncodeChar(text[0]) + Encode(text[1..])
  }

  /** What the front of a byte string holds. */
  datatype Front =
    | Scalar(c: char, length: nat)
    | NeedMore
    | Invalid

  /** The second byte is restricted so that overlong forms, surrogates and values past 10FFFF are invalid. */
  predicate SecondByteOk(lead: Byte, b: Byte) {
    && (if lead == 0xE0 then 0xA0 else if lead == 0xF0 then 0x90 else 0x80) <= b
    && b <= (if lead == 0xED then 0x9F else if lead == 0xF4 then 0x8F else 0xBF)
  }

  function Scalar2(b0: int, b1: int): (r: Front)
    requires 0xC2 <= b0 < 0xE0 && 0x80 <= b1 < 0xC0
  {
    Scalar(((b0 - 0xC0) * 0x40 + (b1 - 0x80)) as char, 2)
  }

  function Scalar3(b0: Byte, b1: Byte, b2: Byte): (r: Front)
    requires 0xE0 <= b0 < 0xF0 && SecondByteOk(b0, b1) && IsContinuation(b2)
  {
    var x0: int, x1: int := b0 - 0xE0, b1 - 0x80;
    Scalar((x0 * 0x1000 + x1 * 0x40 + (b2 - 0x80)) as char, 3)
  }

  function Scalar4(b0: Byte, b1: Byte, b2: Byte, b3: Byte): (r: Front)
    requires 0xF0 <= b0 <= 0xF4 && SecondByteOk(b0, b1) && IsContinuation(b2) && IsContinuation(b3)
  {
    var x0: int, x1: int, x2: int := b0 - 0xF0, b1 - 0x80, b2 - 0x80;
    Scalar((x0 * 0x4_0000 + x1 * 0x1000 + x2 * 0x40 + (b3 - 0x80)) as char, 4)
  }

  function DecodeFront(b: Bytes): (r: Front)
    ensures r.Scalar? ==> 1 <= r.length <= |b|
  {
    if b == [] then NeedMore
    else if b[0] < 0x80 then Scalar(b[0] as char, 1)
    else if b[0] < 0xC2 || b[0] > 0xF4 then Invalid
    else if |b| == 1 then NeedMore
    else if !SecondByteOk(b[0], b[1]) then Invalid
    else if b[0] < 0xE0 then Scalar2(b[0], b[1])
    else if |b| == 2 then NeedMore
    else if !IsContinuation(b[2]) then Invalid
    else if b[0] < 0xF0 then Scalar3(b[0], b[1], b[2])
    else if |b| == 3 then NeedMore
    else if !IsContinuation(b[3]) then Invalid
    else Scalar4(b[0], b[1], b[2], b[3])
  }

  /** Strict decoding of a whole byte string. */
  function Decode(b: Bytes): Option<string> {
    if b == [] then Some("")
    else match DecodeFront(b)
      case Scalar(c, n) =>
        (match Decode(b[n..])
         case Some(s) => Some([c] + s)
         case None => None)
      case _ => None
  }

  /** `text` is decoded, `rest` is kept for later; the decoder has failed unless `ok`. */
  datatype Progress = Progress(text: string, rest: Bytes, ok: bool)

  /** One call of an incremental decoder on its pending bytes and the new ones together. */
  function Pump(b: Bytes): Progress {
    match DecodeFront(b)
    case Scalar(c, n) => var p := Pump(b[n..]); Progress([c] + p.text, p.rest, p.ok)
    case NeedMore => Progress("", b, true)
    case Invalid => Progress("", b, false)
  }

  // ---------------------------------------------------------------- one character

  lemma EncodeCharShape(c: char)
    ensures 1 <= |EncodeChar(c)| <= 4
    ensures !IsContinuation(EncodeChar(c)[0])
    ensures forall i :: 1 <= i < |EncodeChar(c)| ==> IsContinuation(EncodeChar(c)[i])
  {
  }

  lemma {:induction false} DecodeFrontOfEncodeChar(c: char, rest: Bytes)
    ensures DecodeFront(EncodeChar(c) + rest) == Scalar(c, |EncodeChar(c)|)
  {
    var n := c as int;
    if n >= 0x800 {
      assert n == n / 0x40 * 0x40 + n % 0x40;
      assert n / 0x40 / 0x40 == n / 0x1000;
      assert n / 0x1000 / 0x40 == n / 0x4_0000;
    }
  }

  lemma {:induction false} EncodeCharOfDecodeFront(b: Bytes)
    requires DecodeFront(b).Scalar?
    ensures EncodeChar(DecodeFront(b).c) == b[..DecodeFront(b).length]
  {
    if b[0] < 0x80 {
    } else if b[0] < 0xE0 {
      EncodeOfScalar2(b[0], b[1]);
    } else if b[0] < 0xF0 {
      EncodeOfScalar3(b[0], b[1], b[2]);
    } else {
      EncodeOfScalar4(b[0], b[1], b[2], b[3]);
    }
  }

  lemma EncodeOfScalar2(b0: Byte, b1: Byte)
    requires 0xC2 <= b0 < 0xE0 && 0x80 <= b1 < 0xC0
    ensures EncodeChar(Scalar2(b0, b1).c) == [b0, b1]
  {
  }

  lemma EncodeOfScalar3(b0: Byte, b1: Byte, b2: Byte)
    requires 0xE0 <= b0 < 0xF0 && SecondByteOk(b0, b1) && IsContinuation(b2)
    ensures EncodeChar(Scalar3(b0, b1, b2).c) == [b0, b1, b2]
  {
    var x0: int, x1: int, x2: int := b0 - 0xE0, b1 - 0x80, b2 - 0x80;
    var n := Scalar3(b0, b1, b2).c as int;
    assert 0x800 <= n < 0x1_0000 && n == 0 * 0x4_0000 + x0 * 0x1000 + x1 * 0x40 + x2;
    SextetDigits(0, x0, x1, x2, n);
  }

  lemma {:induction false} EncodeOfScalar4(b0: Byte, b1: Byte, b2: Byte, b3: Byte)
    requires 0xF0 <= b0 <= 0xF4 && SecondByteOk(b0, b1) && IsContinuation(b2) && IsContinuation(b3)
    ensures EncodeChar(Scalar4(b0, b1, b2, b3).c) == [b0, b1, b2, b3]
  {
    var x0: int, x1: int, x2: int, x3: int := b0 - 0xF0, b1 - 0x80, b2 - 0x80, b3 - 0x80;
    var n := Scalar4(b0, b1, b2, b3).c as int;
    assert 0x1_0000 <= n == x0 * 0x4_0000 + x1 * 0x1000 + x2 * 0x40 + x3;
    SextetDigits(x0, x1, x2, x3, n);
  }

  lemma SextetDigits(x0: int, x1: int, x2: int, x3: int, n: int)
    requires 0 <= x0 && 0 <= x1 < 0x40 && 0 <= x2 < 0x40 && 0 <= x3 < 0x40
    requires n == x0 * 0x4_0000 + x1 * 0x1000 + x2 * 0x40 + x3
    ensures n / 0x4_0000 == x0 && n / 0x1000 % 0x40 == x1 && n / 0x40 % 0x40 == x2 && n % 0x40 == x3
  {
    assert n / 0x40 == x0 * 0x1000 + x1 * 0x40 + x2;
    assert n / 0x1000 == x0 * 0x40 + x1;
  }

  /** A character cut short asks for more and never fails. */
  lemma CutCharNeedsMore(c: char, k: nat)
    requires k < |EncodeChar(c)|
    ensures DecodeFront(EncodeChar(c)[..k]) == NeedMore
  {
  }

  /** Only a character cut short asks for more. */
  lemma NeedMoreIsCutChar(b: Bytes) returns (c: char)
    requires DecodeFront(b) == NeedMore
    ensures |b| < |EncodeChar(c)| && b == EncodeChar(c)[..|b|]
  {
    if b == [] {
      c := 'a';
    } else {
      var b1: Byte := if |b| > 1 then b[1] else if b[0] == 0xE0 then 0xA0 else if b[0] == 0xF0 then 0x90 else 0x80;
      var b2: Byte := if |b| > 2 then b[2] else 0x80;
      var full := [b[0], b1, b2, 0x80];
      var n := DecodeFront(full).length;
      EncodeCharOfDecodeFront(full);
      c := DecodeFront(full).c;
      assert EncodeChar(c) == full[..n];
      assert b == full[..|b|];
    }
  }

  /** Further bytes do not change what a complete or an invalid front is. */
  lemma FrontIsStable(b: Bytes, more: Bytes)
    requires DecodeFront(b) != NeedMore
    ensures DecodeFront(b + more) == DecodeFront(b)
  {
  }

  // ---------------------------------------------------------------- whole texts

  lemma {:induction false} EncodeConcat(s: string, t: string)
    ensures Encode(s + t) == Encode(s) + Encode(t)
  {
    hide EncodeChar, DecodeFront;
    if s == [] {
      assert s + t == t;
    } else {
      EncodeConcat(s[1..], t);
      assert (s + t)[1..] == s[1..] + t && (s + t)[0] == s[0];
      assert Encode(s + t) == EncodeChar(s[0]) + Encode(s[1..] + t);
    }
  }

  lemma EncodeOne(c: char)
    ensures Encode([c]) == EncodeChar(c)
  {
    assert [c][1..] == [];
  }

  /** Strict decoding undoes encoding, */
  lemma {:induction false} DecodeOfEncode(s: string)
    ensures Decode(Encode(s)) == Some(s)
  {
    hide EncodeChar, DecodeFront;
    if s != [] {
      var e, rest := EncodeChar(s[0]), Encode(s[1..]);
      EncodeCharShape(s[0]);
      DecodeFrontOfEncodeChar(s[0], rest);
      assert (e + rest)[|e|..] == rest;
      DecodeOfEncode(s[1..]);
      assert [s[0]] + s[1..] == s;
    }
  }

  /** and accepts nothing but encodings. */
  lemma {:induction false} EncodeOfDecode(b: Bytes)
    requires Decode(b).Some?
    ensures Encode(Decode(b).value) == b
  {
    hide EncodeChar, DecodeFront;
    if b != [] {
      var c, n := DecodeFront(b).c, DecodeFront(b).length;
      EncodeCharOfDecodeFront(b);
      EncodeOfDecode(b[n..]);
      var s := Decode(b[n..]).value;
      assert ([c] + s)[1..] == s;
    }
  }

  // ---------------------------------------------------------------- resumable decoding

  lemma FirstAndRest(s: string, t: string)
    requires s != []
    ensures [s[0]] + (s[1..] + t) == s + t
  {
  }

  lemma {:induction false} PumpOfEncode(s: string, rest: Bytes)
    ensures Pump(Encode(s) + rest) == Pump(rest).(text := s + Pump(rest).text)
  {
    hide EncodeChar, DecodeFront;
    if s == [] {
      assert Encode(s) + rest == rest;
    } else {
      var e, tail := EncodeChar(s[0]), Encode(s[1..]) + rest;
      EncodeCharShape(s[0]);
      assert Encode(s) + rest == e + tail;
      DecodeFrontOfEncodeChar(s[0], tail);
      assert (e + tail)[|e|..] == tail;
      PumpOfEncode(s[1..], rest);
      FirstAndRest(s, Pump(rest).text);
    }
  }

  /** Decoding in two calls is decoding in one. */
  lemma {:induction false} PumpResumes(a: Bytes, b: Bytes)
    ensures Pump(a).ok ==> Pump(a + b) == Pump(Pump(a).rest + b).(text := Pump(a).text + Pump(Pump(a).rest + b).text)
    ensures !Pump(a).ok ==> Pump(a + b) == Pump(a).(rest := Pump(a).rest + b)
    decreases |a|
  {
    hide EncodeChar, DecodeFront;
    if DecodeFront(a).Scalar? {
      var n := DecodeFront(a).length;
      FrontIsStable(a, b);
      assert (a + b)[n..] == a[n..] + b;
      PumpResumes(a[n..], b);
    } else if DecodeFront(a).Invalid? {
      FrontIsStable(a, b);
    }
  }

  /** The bytes kept back are those of one character cut short. */
  lemma {:induction false} PumpKeepsCutChar(b: Bytes)
    ensures b == Encode(Pump(b).text) + Pump(b).rest
    ensures Pump(b).ok ==> DecodeFront(Pump(b).rest) == NeedMore
  {
    hide EncodeChar, DecodeFront;
    if DecodeFront(b).Scalar? {
      var c, n := DecodeFront(b).c, DecodeFront(b).length;
      EncodeCharOfDecodeFront(b);
      PumpKeepsCutChar(b[n..]);
      var t := Pump(b[n..]).text;
      assert ([c] + t)[1..] == t;
    }
  }
}
