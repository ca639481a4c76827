/** Overlapping UTF-8 chunks of bounded size (`_google_text_chunks`). */
module Chunker {
  import opened Wrappers
  import opened Utf8
  import opened TextOffsets

  /** `offset` counts code points. */
  datatype Chunk = Chunk(offset: nat, text: string) {
    function End(): nat { offset + |text| }
  }

  datatype ChunkError = OverlapNotSmaller

  ghost predicate IsPiece(text: string, c: Chunk, maxBytes: nat) {
    c.End() <= |text| && c.text == text[c.offset..c.End()] && |Encode(c.text)| <= maxBytes
  }

  /** The next chunk starts at code point `next`, `overlap` to `overlap + 3` bytes before `c` ends. */
  ghost predicate Follows(text: string, c: Chunk, next: nat, maxBytes: nat, overlap: nat) {
    && c.offset < next <= c.End() <= |text|
    && overlap <= |Encode(text[next..c.End()])| <= overlap + 3
    && |Encode(text[c.offset..next])| >= maxBytes - overlap - 6
  }

  /** Every chunk is a piece of the text, and each one follows the one before it. */
  ghost predicate IsChain(text: string, chunks: seq<Chunk>, maxBytes: nat, overlap: nat) {
    && (chunks != [] ==> chunks[0].offset == 0)
    && (forall i :: 0 <= i < |chunks| ==> IsPiece(text, chunks[i], maxBytes))
    && (forall i, j :: 0 <= i && j == i + 1 < |chunks| ==>
          Follows(text, chunks[i], chunks[j].offset, maxBytes, overlap))
  }

  ghost predicate IsChunking(text: string, chunks: seq<Chunk>, maxBytes: nat, overlap: nat) {
    IsChain(text, chunks, maxBytes, overlap) && chunks != [] && chunks[|chunks| - 1].End() == |text|
  }

  /** Where the chunk after `chunks` has to start. */
  ghost predicate Expects(text: string, chunks: seq<Chunk>, next: nat, maxBytes: nat, overlap: nat) {
    if chunks == [] then next == 0 else Follows(text, chunks[|chunks| - 1], next, maxBytes, overlap)
  }

  lemma ChainGrows(text: string, chunks: seq<Chunk>, c: Chunk, maxBytes: nat, overlap: nat)
    requires IsChain(text, chunks, maxBytes, overlap) && Expects(text, chunks, c.offset, maxBytes, overlap)
    requires IsPiece(text, c, maxBytes)
    ensures IsChain(text, chunks + [c], maxBytes, overlap)
  {
    var more := chunks + [c];
    forall i, j | 0 <= i && j == i + 1 < |more| ensures Follows(text, more[i], more[j].offset, maxBytes, overlap) {
      if j < |chunks| {
        assert Follows(text, chunks[i], chunks[j].offset, maxBytes, overlap);
      }
    }
  }

  function Min(a: int, b: int): int { if a < b then a else b }

  /** The byte position reached by walking back from `p` over continuation bytes. */
  ghost function StepBack(encoded: Bytes, p: nat): nat {
    if 0 < p < |encoded| && IsContinuation(encoded[p]) then StepBack(encoded, p - 1) else p
  }

  /** Walk back from byte `p` to the first byte of the code point there. */
  method BackToBoundary(text: string, encoded: Bytes, p: nat) returns (q: nat, ghost k: nat)
    requires encoded == Encode(text) && p <= |encoded|
    ensures k <= |text| && q == ByteOffset(text, k) && q <= p <= q + 3
    ensures p < |encoded| ==> k < |text|
    ensures p == |encoded| ==> q == p && k == |text|
    ensures q == StepBack(encoded, p)
  {
    q := p;
    OffsetEnds(text);
    if p == |encoded| {
      return q, |text|;
    }
    k := CharAtByte(text, p);
    while q < |encoded| && IsContinuation(encoded[q])
      invariant ByteOffset(text, k) <= q <= p && StepBack(encoded, q) == StepBack(encoded, p)
      decreases q
    {
      ghost var j := CharAtByte(text, q);
      q := q - 1;
    }
  }

  /** A chunk without overlap must hold any character; with an overlap, both its ends may be walked back three bytes. */
  predicate EnoughRoom(maxBytes: nat, overlap: nat) {
    maxBytes - overlap > 6 || (overlap == 0 && maxBytes >= 4)
  }

  lemma {:induction false} StepBackTwice(encoded: Bytes, p: nat)
    ensures StepBack(encoded, StepBack(encoded, p)) == StepBack(encoded, p)
  {
    if 0 < p < |encoded| && IsContinuation(encoded[p]) {
      StepBackTwice(encoded, p - 1);
    }
  }

  /**
   The chunks of a text. The guard of the source, an overlap smaller than the chunk size, does not make
   the loop terminate; `EnoughRoom` does, and nothing less (see `ProgressNeedsRoom`).
   */
  method TextChunks(text: string, maxBytes: nat, overlap: nat) returns (r: Result<seq<Chunk>, ChunkError>)
    requires overlap < maxBytes < |Encode(text)| ==> EnoughRoom(maxBytes, overlap)
    ensures r.Err? <==> maxBytes < |Encode(text)| && maxBytes <= overlap
    ensures r.Err? ==> r.error == OverlapNotSmaller
    ensures r.Ok? ==> IsChunking(text, r.value, maxBytes, overlap)
  {
    hide Encode, Decode, ByteOffset, StepBack, IsChain, IsPiece, Follows;
    var encoded := Encode(text);
    if |encoded| <= maxBytes {
      WholeTextIsChunk(text, maxBytes, overlap);
      return Ok([Chunk(0, text)]);
    }
    if overlap >= maxBytes {
      return Err(OverlapNotSmaller);
    }
    var chunks: seq<Chunk> := [];
    var startByte: nat, startCodepoint := 0, 0;
    ghost var k: nat := 0;
    OffsetEnds(text);
    NothingChained(text, maxBytes, overlap);
    while startByte < |encoded|
      invariant startCodepoint == k < |text| && startByte == ByteOffset(text, k) < |encoded|
      invariant IsChain(text, chunks, maxBytes, overlap) && Expects(text, chunks, k, maxBytes, overlap)
      decreases |encoded| - startByte
    {
      var target := Min(startByte + maxBytes, |encoded|);
      var endByte, endCodepoint := BackToBoundary(text, encoded, target);
      TurnAddsPiece(text, chunks, k, endCodepoint, maxBytes, overlap);
      var chunk := Decode(encoded[startByte..endByte]).value;
      chunks := chunks + [Chunk(startCodepoint, chunk)];
      assert chunks[|chunks| - 1].End() == endCodepoint;
      if endByte == |encoded| {
        OnlyTheEnd(text, endCodepoint);
        return Ok(chunks);
      }
      var nextStart, nextCodepoint := BackToBoundary(text, encoded, endByte - overlap);
      WithoutOverlap(encoded, target, endByte, overlap, nextStart);
      NextTurn(text, chunks, encoded[startByte..nextStart], nextCodepoint, maxBytes, overlap);
      var skipped := Decode(encoded[startByte..nextStart]).value;
      startByte, startCodepoint := nextStart, startCodepoint + |skipped|;
      k := nextCodepoint;
    }
    assert false;
  }

  lemma WholeTextIsChunk(text: string, maxBytes: nat, overlap: nat)
    requires |Encode(text)| <= maxBytes
    ensures IsChunking(text, [Chunk(0, text)], maxBytes, overlap)
  {
    assert text[0..|text|] == text;
  }

  lemma NothingChained(text: string, maxBytes: nat, overlap: nat)
    ensures IsChain(text, [], maxBytes, overlap)
    ensures Encode(text) != [] ==> text != ""
  {
  }

  lemma WithoutOverlap(encoded: Bytes, target: nat, end: nat, overlap: nat, next: nat)
    requires end == StepBack(encoded, target) && overlap <= end && next == StepBack(encoded, end - overlap)
    ensures overlap == 0 ==> next == end
  {
    StepBackTwice(encoded, target);
  }

  lemma {:induction false} TurnAddsPiece(text: string, chunks: seq<Chunk>, start: nat, end: nat, maxBytes: nat,
                                         overlap: nat)
    requires IsChain(text, chunks, maxBytes, overlap) && Expects(text, chunks, start, maxBytes, overlap)
    requires start <= |text| && end <= |text|
    requires ByteOffset(text, start) < ByteOffset(text, end) <= ByteOffset(text, start) + maxBytes
    ensures ByteOffset(text, end) <= |Encode(text)| && start < end
    ensures Decode(Encode(text)[ByteOffset(text, start)..ByteOffset(text, end)]) == Some(text[start..end])
    ensures IsChain(text, chunks + [Chunk(start, text[start..end])], maxBytes, overlap)
  {
    hide Encode, Decode, ByteOffset, IsChain, Expects;
    SliceDecodes(text, start, end);
    var c := Chunk(start, text[start..end]);
    assert IsPiece(text, c, maxBytes);
    assert Expects(text, chunks, c.offset, maxBytes, overlap);
    ChainGrows(text, chunks, c, maxBytes, overlap);
  }

  /** Both ends in order, the decoded slice is the slice of the text. */
  lemma SliceDecodes(text: string, j: nat, k: nat)
    requires j <= |text| && k <= |text| && ByteOffset(text, j) < ByteOffset(text, k)
    ensures j < k && ByteOffset(text, k) <= |Encode(text)|
    ensures Decode(Encode(text)[ByteOffset(text, j)..ByteOffset(text, k)]) == Some(text[j..k])
    ensures |Encode(text[j..k])| == ByteOffset(text, k) - ByteOffset(text, j)
  {
    if k <= j { OffsetsGrow(text, k, j); }
    SliceOffsets(text, j, k);
    DecodeOfEncode(text[j..k]);
  }

  lemma OnlyTheEnd(text: string, k: nat)
    requires k <= |text| && ByteOffset(text, k) == |Encode(text)|
    ensures k == |text|
  {
    OffsetEnds(text);
    OffsetsGrow(text, k, |text|);
  }

  lemma OffsetOrder(text: string, j: nat, k: nat)
    requires j <= |text| && k <= |text|
    ensures ByteOffset(text, j) < ByteOffset(text, k) ==> j < k
    ensures ByteOffset(text, j) <= ByteOffset(text, k) ==> j <= k
    ensures ByteOffset(text, k) <= |Encode(text)|
  {
    if k < j { OffsetsGrow(text, k, j); }
    SliceOffsets(text, k, |text|);
  }

  /** The next start is where the decoded text skipped by this turn says it is, and continues the chain. */
  lemma {:induction false} NextTurn(text: string, chunks: seq<Chunk>, slice: Bytes, next: nat, maxBytes: nat,
                                    overlap: nat)
    requires chunks != [] && next <= |text| && EnoughRoom(maxBytes, overlap) && chunks[|chunks| - 1].End() <= |text|
    requires overlap == 0 ==> ByteOffset(text, next) == ByteOffset(text, chunks[|chunks| - 1].End())
    requires var c := chunks[|chunks| - 1];
             (ByteOffset(text, c.offset) + maxBytes - 3 <= ByteOffset(text, c.End())
              && ByteOffset(text, c.End()) - overlap - 3 <= ByteOffset(text, next)
              && ByteOffset(text, next) <= ByteOffset(text, c.End()) - overlap)
    requires ByteOffset(text, next) <= |Encode(text)|
    requires slice == Encode(text)[ByteOffset(text, chunks[|chunks| - 1].offset)..ByteOffset(text, next)]
    ensures Decode(slice).Some? && chunks[|chunks| - 1].offset + |Decode(slice).value| == next
    ensures Expects(text, chunks, next, maxBytes, overlap)
  {
    var c := chunks[|chunks| - 1];
    SliceDecodes(text, c.offset, next);
    OffsetOrder(text, next, c.End());
    SliceOffsets(text, next, c.End());
  }

  // ---------------------------------------------------------------- what the overlap is for

  /** A span of at most `overlap` bytes lies wholly in one of the chunks. */
  lemma ShortSpanInOneChunk(text: string, chunks: seq<Chunk>, maxBytes: nat, overlap: nat, s: nat, e: nat)
    returns (i: nat)
    requires IsChunking(text, chunks, maxBytes, overlap)
    requires s < e <= |text| && |Encode(text[s..e])| <= overlap
    ensures i < |chunks| && chunks[i].offset <= s && e <= chunks[i].End()
  {
    i := 0;
    while chunks[i].End() < e
      invariant i < |chunks|
      invariant i > 0 ==> chunks[i - 1].End() < e
      decreases |chunks| - i
    {
      i := i + 1;
    }
    if i > 0 {
      assert Follows(text, chunks[i - 1], chunks[i].offset, maxBytes, overlap);
      SpanKeepsToChunk(text, s, chunks[i].offset, chunks[i - 1].End(), e);
    }
  }

  /** A span that reaches past `end` and starts before `next` holds the overlap between them, and more. */
  lemma SpanKeepsToChunk(text: string, s: nat, next: nat, end: nat, e: nat)
    requires next <= end < e <= |text| && s < e
    requires |Encode(text[s..e])| <= |Encode(text[next..end])|
    ensures next <= s
  {
    if s < next {
      SliceOffsets(text, s, e);
      SliceOffsets(text, next, end);
      OffsetsGrow(text, s, next);
      OffsetsGrow(text, end, e);
    }
  }

  // ---------------------------------------------------------------- termination

  /** Where the turn of the loop that starts at byte `start` puts the next start, if it does not end the loop. */
  ghost function NextStart(encoded: Bytes, start: nat, maxBytes: nat, overlap: nat): int {
    var end := StepBack(encoded, Min(start + maxBytes, |encoded|));
    if end < overlap then -1 else StepBack(encoded, end - overlap)
  }

  ghost predicate AlwaysProgresses(maxBytes: nat, overlap: nat) {
    forall text: string, k: nat {:trigger ByteOffset(text, k)} ::
      k <= |text| && ByteOffset(text, k) + maxBytes < |Encode(text)| ==>
        ByteOffset(text, k) < NextStart(Encode(text), ByteOffset(text, k), maxBytes, overlap)
  }

  lemma StepBackIsNear(text: string, p: nat)
    requires p < |Encode(text)|
    ensures StepBack(Encode(text), p) <= p <= StepBack(Encode(text), p) + 3
  {
    var k := CharAtByte(text, p);
    StepBackTo(Encode(text), ByteOffset(text, k), p);
  }

  lemma {:induction false} StepBackTo(encoded: Bytes, q: nat, p: nat)
    requires q <= p < |encoded| && (q == 0 || !IsContinuation(encoded[q]))
    requires forall r :: q < r <= p ==> IsContinuation(encoded[r])
    ensures StepBack(encoded, p) == q
    decreases p
  {
    if q < p {
      StepBackTo(encoded, q, p - 1);
    }
  }

  const ASTRAL: char := 0x1_0000 as char

  /** One four-byte character, `n` one-byte characters, one four-byte character. */
  function StallingText(n: nat): string { [ASTRAL] + seq(n, _ => 'a') + [ASTRAL] }

  lemma {:induction false} EncodeRun(n: nat)
    ensures Encode(seq(n, _ => 'a')) == seq(n, _ => 0x61)
  {
    if n > 0 {
      assert seq(n, _ => 'a')[1..] == seq(n - 1, _ => 'a');
      EncodeRun(n - 1);
      assert seq(n, _ => 0x61 as Byte) == [0x61] + seq(n - 1, _ => 0x61 as Byte);
    }
  }

  lemma EncodeStallingText(n: nat)
    ensures Encode(StallingText(n)) == EncodeChar(ASTRAL) + seq(n, _ => 0x61) + EncodeChar(ASTRAL)
  {
    EncodeConcat([ASTRAL] + seq(n, _ => 'a'), [ASTRAL]);
    EncodeConcat([ASTRAL], seq(n, _ => 'a'));
    EncodeOne(ASTRAL);
    EncodeRun(n);
  }

  lemma StallingTextStalls(maxBytes: nat, overlap: nat)
    requires 4 <= maxBytes && 0 < overlap && maxBytes - 6 <= overlap < maxBytes
    ensures !AlwaysProgresses(maxBytes, overlap)
  {
    var gap := maxBytes - overlap;
    var back := if gap > 3 then gap - 3 else 0;
    var text := StallingText(maxBytes - back - 4);
    EncodeStallingText(maxBytes - back - 4);
    var encoded := Encode(text);
    assert |encoded| == maxBytes - back + 4;
    StepBackTo(encoded, maxBytes - back, maxBytes);
    StepBackTo(encoded, 0, gap - back);
    OffsetEnds(text);
    assert ByteOffset(text, 0) + maxBytes < |encoded| && NextStart(encoded, 0, maxBytes, overlap) == 0;
  }

  /** A chunk too small for its first character is empty. */
  lemma TinyChunkStalls(maxBytes: nat, overlap: nat)
    requires overlap < maxBytes < 4
    ensures !AlwaysProgresses(maxBytes, overlap)
  {
    var text := [ASTRAL];
    EncodeOne(ASTRAL);
    StepBackTo(Encode(text), 0, maxBytes);
    OffsetEnds(text);
    assert ByteOffset(text, 0) + maxBytes < |Encode(text)| && NextStart(Encode(text), 0, maxBytes, overlap) <= 0;
  }

  /**
   The loop of `TextChunks` advances on every text exactly when there is enough room; otherwise there is a text
   on which a turn does not move the start forward.
   */
  lemma ProgressNeedsRoom(maxBytes: nat, overlap: nat)
    requires overlap < maxBytes
    ensures AlwaysProgresses(maxBytes, overlap) <==> EnoughRoom(maxBytes, overlap)
  {
    hide Encode, ByteOffset;
    if EnoughRoom(maxBytes, overlap) {
      forall text: string, k: nat {:trigger ByteOffset(text, k)}
        | k <= |text| && ByteOffset(text, k) + maxBytes < |Encode(text)|
        ensures ByteOffset(text, k) < NextStart(Encode(text), ByteOffset(text, k), maxBytes, overlap)
      {
        var target := ByteOffset(text, k) + maxBytes;
        StepBackIsNear(text, target);
        StepBackTwice(Encode(text), target);
        StepBackIsNear(text, StepBack(Encode(text), target) - overlap);
      }
    } else if maxBytes < 4 {
      TinyChunkStalls(maxBytes, overlap);
    } else {
      StallingTextStalls(maxBytes, overlap);
    }
  }
}
