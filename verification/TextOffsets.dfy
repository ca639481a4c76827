/** Byte offsets of the code points of a text (`_byte_to_codepoint_range` and the chunker's arithmetic). */
module TextOffsets {
  import opened Wrappers
  import opened Utf8

  /** The byte offset at which code point `k` starts. */
  ghost function ByteOffset(text: string, k: nat): nat
    requires k <= |text|
  {
    |Encode(text[..k])|
  }

  lemma SliceOffsets(text: string, j: nat, k: nat)
    requires j <= k <= |text|
    ensures ByteOffset(text, j) <= ByteOffset(text, k) <= |Encode(text)|
    ensures Encode(text)[ByteOffset(text, j)..ByteOffset(text, k)] == Encode(text[j..k])
  {
    assert text[..k] == text[..j] + text[j..k];
    assert text == text[..k] + text[k..];
    EncodeConcat(text[..j], text[j..k]);
    EncodeConcat(text[..k], text[k..]);
  }

  lemma {:induction false} NextOffset(text: string, k: nat)
    requires k < |text|
    ensures ByteOffset(text, k + 1) == ByteOffset(text, k) + |EncodeChar(text[k])| <= |Encode(text)|
    ensures Encode(text)[ByteOffset(text, k)..ByteOffset(text, k + 1)] == EncodeChar(text[k])
  {
    SliceOffsets(text, k, k + 1);
    assert text[k..k + 1] == [text[k]];
    EncodeOne(text[k]);
  }

  lemma {:induction false} OffsetsGrow(text: string, j: nat, k: nat)
    requires j <= k <= |text|
    ensures ByteOffset(text, k) >= ByteOffset(text, j) + (k - j)
    decreases k - j
  {
    if j < k {
      OffsetsGrow(text, j, k - 1);
      NextOffset(text, k - 1);
      EncodeCharShape(text[k - 1]);
    }
  }

  lemma OffsetEnds(text: string)
    ensures ByteOffset(text, 0) == 0 && ByteOffset(text, |text|) == |Encode(text)|
  {
    assert text[..|text|] == text;
  }

  /** Which code point the byte at `p` belongs to. */
  lemma {:induction false} CharAtByte(text: string, p: nat) returns (k: nat)
    requires p < |Encode(text)|
    ensures k < |text| && ByteOffset(text, k) <= p < ByteOffset(text, k + 1) <= ByteOffset(text, k) + 4
    ensures ByteOffset(text, k + 1) <= |Encode(text)|
    ensures !IsContinuation(Encode(text)[ByteOffset(text, k)])
    ensures IsContinuation(Encode(text)[p]) <==> p != ByteOffset(text, k)
    ensures forall q :: ByteOffset(text, k) < q <= p ==> IsContinuation(Encode(text)[q])
  {
    hide EncodeChar, Encode, IsContinuation;
    OffsetEnds(text);
    k := 0;
    while ByteOffset(text, k + 1) <= p
      invariant k < |text| && ByteOffset(text, k) <= p
      decreases |text| - k
    {
      k := k + 1;
    }
    NextOffset(text, k);
    EncodeCharShape(text[k]);
    var o, e := ByteOffset(text, k), ByteOffset(text, k + 1);
    forall q | o <= q < e ensures Encode(text)[q] == EncodeChar(text[k])[q - o] {
      assert Encode(text)[o..e][q - o] == Encode(text)[q];
    }
  }

  /** A byte position that starts a code point, or ends the text. */
  ghost predicate OnBoundary(text: string, p: int) {
    exists k: nat {:trigger ByteOffset(text, k)} :: k <= |text| && ByteOffset(text, k) == p
  }

  /** Decoding the bytes before a position works exactly on boundaries, and counts code points. */
  lemma PrefixDecodes(text: string, p: nat)
    requires p <= |Encode(text)|
    ensures Decode(Encode(text)[..p]).Some? <==> OnBoundary(text, p)
    ensures forall k: nat {:trigger ByteOffset(text, k)} :: k <= |text| && ByteOffset(text, k) == p ==>
              Decode(Encode(text)[..p]) == Some(text[..k])
  {
    OffsetEnds(text);
    forall k: nat {:trigger ByteOffset(text, k)} | k <= |text| && ByteOffset(text, k) == p
      ensures Decode(Encode(text)[..p]) == Some(text[..k])
    {
      SliceOffsets(text, 0, k);
      assert text[0..k] == text[..k];
      assert Encode(text)[0..p] == Encode(text)[..p];
      DecodeOfEncode(text[..k]);
    }
    if p == |Encode(text)| {
      assert ByteOffset(text, |text|) == p;
    } else {
      var k := CharAtByte(text, p);
      if p != ByteOffset(text, k) {
        OffBoundaryFails(text, p, k);
        forall m: nat {:trigger ByteOffset(text, m)} | m <= |text| ensures ByteOffset(text, m) != p {
          if m <= k { OffsetsGrow(text, m, k); } else { OffsetsGrow(text, k + 1, m); }
        }
      }
    }
  }

  lemma {:induction false} OffBoundaryFails(text: string, p: nat, k: nat)
    requires k < |text| && ByteOffset(text, k) < p < ByteOffset(text, k + 1) <= |Encode(text)|
    ensures Decode(Encode(text)[..p]) == None
  {
    hide EncodeChar, DecodeFront, Decode, Encode;
    var o := ByteOffset(text, k);
    NextOffset(text, k);
    SliceOffsets(text, 0, k);
    assert text[0..k] == text[..k];
    var cut := EncodeChar(text[k])[..p - o];
    SliceOfSlice(Encode(text), o, ByteOffset(text, k + 1), 0, p - o);
    SplitPrefix(Encode(text), o, p);
    CutCharNeedsMore(text[k], p - o);
    DecodeCut(text[..k], cut);
  }

  lemma SplitPrefix(b: Bytes, o: nat, p: nat)
    requires o <= p <= |b|
    ensures b[..p] == b[0..o] + b[o..p]
  {
  }

  lemma {:induction false} DecodeCut(s: string, cut: Bytes)
    requires cut != [] && DecodeFront(cut) == NeedMore
    ensures Decode(Encode(s) + cut) == None
  {
    if s == [] {
      assert Encode(s) + cut == cut;
    } else {
      var e, tail := EncodeChar(s[0]), Encode(s[1..]) + cut;
      assert Encode(s) + cut == e + tail;
      DecodeFrontOfEncodeChar(s[0], tail);
      assert (e + tail)[|e|..] == tail;
      DecodeCut(s[1..], cut);
    }
  }

  // ---------------------------------------------------------------- provider byte ranges

  datatype Range = Range(start: int, end: int)

  datatype RangeError = InvalidTextRange | NoTextRange

  function ByteToCodepointRange(text: string, start: int, end: int): (r: Result<Range, RangeError>) {
    var encoded := Encode(text);
    if start < 0 || end <= start || end > |encoded| then Err(InvalidTextRange)
    else match (Decode(encoded[..start]), Decode(encoded[..end]))
      case (Some(before), Some(upTo)) => Ok(Range(|before|, |upTo|))
      case _ => Err(InvalidTextRange)
  }

  /**
   A byte range is accepted exactly when it is a non-empty range of whole code points, and then
   it is translated to the range of those code points.
   */
  lemma ByteRangeIsCodepointRange(text: string, start: int, end: int)
    ensures ByteToCodepointRange(text, start, end).Ok? <==>
            0 <= start < end <= |Encode(text)| && OnBoundary(text, start) && OnBoundary(text, end)
    ensures forall j: nat, k: nat {:trigger ByteOffset(text, j), ByteOffset(text, k)} ::
              j < k <= |text| && ByteOffset(text, j) == start && ByteOffset(text, k) == end ==>
              ByteToCodepointRange(text, start, end) == Ok(Range(j, k))
  {
    if 0 <= start < end <= |Encode(text)| {
      PrefixDecodes(text, start);
      PrefixDecodes(text, end);
    }
    forall j: nat, k: nat {:trigger ByteOffset(text, j), ByteOffset(text, k)}
      | j < k <= |text| && ByteOffset(text, j) == start && ByteOffset(text, k) == end
      ensures ByteToCodepointRange(text, start, end) == Ok(Range(j, k))
    {
      OffsetsGrow(text, j, k);
      SliceOffsets(text, j, k);
    }
  }
}
