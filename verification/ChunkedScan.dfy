/**
 The chunked scan of a long text (`run_google`): normalise the findings of every chunk, shift them to
 their place in the text, merge them globally and splice markers over them.
 */
module ChunkedScan {
  import opened Wrappers
  import opened Utf8
  import opened TextOffsets
  import opened Findings
  import opened Redaction
  import opened Chunker

  // ---------------------------------------------------------------- one response

  /** A provider finding carries its place in code points, in bytes, or not at all. */
  datatype RawFinding = RawFinding(infoType: string, likelihood: int, codepoints: Option<Range>, bytes: Option<Range>)

  function TypeName(infoType: string): string {
    if infoType == "PERSON_NAME" then "PERSON"
    else if infoType == "US_SOCIAL_SECURITY_NUMBER" then "US_SSN"
    else infoType
  }

  function LikelihoodScore(likelihood: int): real {
    if likelihood == 1 then 0.1
    else if likelihood == 2 then 0.3
    else if likelihood == 3 then 0.5
    else if likelihood == 4 then 0.7
    else if likelihood == 5 then 0.9
    else 0.0
  }

  function FindingRange(text: string, raw: RawFinding): Result<Range, RangeError> {
    if raw.codepoints.Some? then Ok(raw.codepoints.value)
    else if raw.bytes.Some? then ByteToCodepointRange(text, raw.bytes.value.start, raw.bytes.value.end)
    else Err(NoTextRange)
  }

  function Locate(text: string, raw: RawFinding): (r: Result<Finding, RangeError>)
    ensures r.Ok? ==> 0 <= r.value.start < r.value.end <= |text|
  {
    match FindingRange(text, raw)
    case Err(e) => Err(e)
    case Ok(Range(start, end)) =>
      if start < 0 || end <= start || end > |text| then Err(InvalidTextRange)
      else Ok(Finding(TypeName(raw.infoType), start, end, LikelihoodScore(raw.likelihood)))
  }

  /** The provider's names that are changed. */
  predicate Renamed(infoType: string, kind: string) {
    || (infoType == "PERSON_NAME" && kind == "PERSON")
    || (infoType == "US_SOCIAL_SECURITY_NUMBER" && kind == "US_SSN")
  }

  /** The five likelihoods have the scores 0.1, 0.3, 0.5, 0.7 and 0.9; any other has none. */
  predicate Scored(likelihood: int, score: real) {
    if 1 <= likelihood <= 5 then score * 10.0 == (2 * likelihood - 1) as real else score == 0.0
  }

  /**
   `f` is where the provider says: at its code points if it gives any, and else over exactly the code points whose
   encoding is its bytes.
   */
  ghost predicate Places(text: string, raw: RawFinding, f: Finding) {
    && 0 <= f.start < f.end <= |text|
    && (match raw.codepoints
        case Some(range) => range == Range(f.start, f.end)
        case None => raw.bytes == Some(Range(ByteOffset(text, f.start), ByteOffset(text, f.end))))
    && (Renamed(raw.infoType, f.kind) || (f.kind == raw.infoType && forall kind :: !Renamed(raw.infoType, kind)))
    && Scored(raw.likelihood, f.score)
  }

  ghost predicate Placeable(text: string, raw: RawFinding) {
    exists f :: Places(text, raw, f)
  }

  /** A finding is located exactly where it is placed, and refused exactly if it has no valid place. */
  lemma {:induction false} LocatedIffPlaced(text: string, raw: RawFinding, f: Finding)
    ensures Locate(text, raw) == Ok(f) <==> Places(text, raw, f)
    ensures Locate(text, raw).Err? ==>
              Locate(text, raw).error
              == if raw.codepoints.None? && raw.bytes.None? then NoTextRange else InvalidTextRange
  {
    hide ByteToCodepointRange, ByteOffset;
    NameAndScore(raw, f);
    if raw.codepoints.None? && raw.bytes.Some? {
      var range := raw.bytes.value;
      RefusedBytes(text, range);
      ByteRangeIsCodepointRange(text, range.start, range.end);
      var r := ByteToCodepointRange(text, range.start, range.end);
      if r.Ok? {
        var j: nat, k: nat := BoundariesOf(text, range);
        assert r == Ok(Range(j, k));
      }
      if Places(text, raw, f) {
        var j: nat, k: nat := f.start, f.end;
        OffsetsGrow(text, j, k);
        SliceOffsets(text, j, k);
        assert ByteOffset(text, j) == range.start && ByteOffset(text, k) == range.end;
      }
    }
  }

  lemma {:induction false} NameAndScore(raw: RawFinding, f: Finding)
    ensures f.kind == TypeName(raw.infoType)
       <==> Renamed(raw.infoType, f.kind) || (f.kind == raw.infoType && forall kind :: !Renamed(raw.infoType, kind))
    ensures f.score == LikelihoodScore(raw.likelihood) <==> Scored(raw.likelihood, f.score)
  {
    assert raw.infoType == "PERSON_NAME" ==> Renamed(raw.infoType, "PERSON");
    assert raw.infoType == "US_SOCIAL_SECURITY_NUMBER" ==> Renamed(raw.infoType, "US_SSN");
    assert "PERSON_NAME"[0] != "US_SOCIAL_SECURITY_NUMBER"[0];
  }

  lemma RefusedBytes(text: string, range: Range)
    ensures var r := ByteToCodepointRange(text, range.start, range.end); r.Err? ==> r.error == InvalidTextRange
  {
  }

  /** The code points at which an accepted byte range starts and ends. */
  lemma {:induction false} BoundariesOf(text: string, range: Range) returns (j: nat, k: nat)
    requires range.start < range.end && OnBoundary(text, range.start) && OnBoundary(text, range.end)
    ensures j < k <= |text| && ByteOffset(text, j) == range.start && ByteOffset(text, k) == range.end
  {
    j :| j <= |text| && ByteOffset(text, j) == range.start;
    k :| k <= |text| && ByteOffset(text, k) == range.end;
    if k <= j {
      SliceOffsets(text, k, j);
    }
  }

  ghost predicate PlacesAll(text: string, raws: seq<RawFinding>, fs: seq<Finding>) {
    |fs| == |raws| && forall i :: 0 <= i < |raws| ==> Places(text, raws[i], fs[i])
  }

  function LocateAll(text: string, raws: seq<RawFinding>): (r: Result<seq<Finding>, RangeError>)
    ensures r.Ok? ==> forall f :: f in r.value ==> 0 <= f.start < f.end <= |text|
  {
    if raws == [] then Ok([])
    else match LocateAll(text, raws[..|raws| - 1])
      case Err(e) => Err(e)
      case Ok(fs) =>
        (match Locate(text, raws[|raws| - 1])
         case Err(e) => Err(e)
         case Ok(f) => Ok(fs + [f]))
  }

  /** All are located exactly where they are placed. */
  lemma {:induction false} LocatedAllIffPlaced(text: string, raws: seq<RawFinding>, fs: seq<Finding>)
    ensures LocateAll(text, raws) == Ok(fs) <==> PlacesAll(text, raws, fs)
  {
    hide Locate, Places;
    if raws != [] {
      var n := |raws| - 1;
      if |fs| == |raws| {
        LocatedAllIffPlaced(text, raws[..n], fs[..n]);
        LocatedIffPlaced(text, raws[n], fs[n]);
        assert fs == fs[..n] + [fs[n]];
      }
      if LocateAll(text, raws) == Ok(fs) {
        var before := LocateAll(text, raws[..n]).value;
        LocatedAllIffPlaced(text, raws[..n], before);
        assert fs[..n] == before;
      }
    }
  }

  /** The first finding without a valid place, and the error it gives. */
  ghost predicate RefusedAt(text: string, raws: seq<RawFinding>, i: nat, e: RangeError) {
    && i < |raws| && (forall j :: 0 <= j < i ==> Placeable(text, raws[j])) && !Placeable(text, raws[i])
    && e == if raws[i].codepoints.None? && raws[i].bytes.None? then NoTextRange else InvalidTextRange
  }

  lemma Unplaceable(text: string, raw: RawFinding)
    requires Locate(text, raw).Err?
    ensures !Placeable(text, raw)
    ensures Locate(text, raw).error
         == if raw.codepoints.None? && raw.bytes.None? then NoTextRange else InvalidTextRange
  {
    hide Locate, Places;
    forall f ensures !Places(text, raw, f) {
      LocatedIffPlaced(text, raw, f);
    }
    LocatedIffPlaced(text, raw, Finding("", 0, 0, 0.0));
  }

  lemma {:induction false} RefusedIfUnplaceable(text: string, raws: seq<RawFinding>)
    ensures match LocateAll(text, raws)
            case Ok(fs) => PlacesAll(text, raws, fs) && forall i :: 0 <= i < |raws| ==> Placeable(text, raws[i])
            case Err(e) => exists i :: RefusedAt(text, raws, i, e)
  {
    hide Locate, Places;
    if raws != [] {
      var n := |raws| - 1;
      var front := raws[..n];
      RefusedIfUnplaceable(text, front);
      match LocateAll(text, front)
      case Err(e) =>
        var i :| RefusedAt(text, front, i, e);
        assert forall j :: 0 <= j <= i ==> raws[j] == front[j];
        assert RefusedAt(text, raws, i, e);
      case Ok(fs) =>
        forall j | 0 <= j < n ensures Placeable(text, raws[j]) {
          assert Placeable(text, front[j]);
        }
        match Locate(text, raws[n])
        case Ok(f) =>
          LocatedIffPlaced(text, raws[n], f);
          LocatedAllIffPlaced(text, raws, fs + [f]);
        case Err(e) =>
          Unplaceable(text, raws[n]);
          assert RefusedAt(text, raws, n, e);
    }
  }

  lemma {:induction false} LocateAllFailsEarly(text: string, raws: seq<RawFinding>, i: nat)
    requires i <= |raws| && LocateAll(text, raws[..i]).Err?
    ensures LocateAll(text, raws) == LocateAll(text, raws[..i])
    decreases |raws| - i
  {
    if i < |raws| {
      assert raws[..i + 1][..i] == raws[..i];
      LocateAllFailsEarly(text, raws, i + 1);
    } else {
      assert raws[..i] == raws;
    }
  }

  lemma ExactlyOneAnswer(text: string, raws: seq<RawFinding>)
    ensures forall fs :: PlacesAll(text, raws, fs) ==> LocateAll(text, raws) == Ok(fs)
    ensures forall i, e :: RefusedAt(text, raws, i, e) ==> exists j :: 0 <= j < |raws| && !Placeable(text, raws[j])
  {
    hide LocateAll, PlacesAll, Placeable;
    forall fs | PlacesAll(text, raws, fs) ensures LocateAll(text, raws) == Ok(fs) {
      LocatedAllIffPlaced(text, raws, fs);
    }
  }

  method NormalizeFindings(text: string, raws: seq<RawFinding>) returns (r: Result<seq<Finding>, RangeError>)
    ensures r == match LocateAll(text, raws) case Ok(fs) => Ok(Merged(fs)) case Err(e) => Err(e)
    ensures r.Ok? <==> forall i :: 0 <= i < |raws| ==> Placeable(text, raws[i])
    ensures forall fs :: PlacesAll(text, raws, fs) ==> r == Ok(Merged(fs))
    ensures r.Err? ==> exists i :: RefusedAt(text, raws, i, r.error)
  {
    hide Locate, Merged, Placeable, PlacesAll, RefusedAt;
    RefusedIfUnplaceable(text, raws);
    ExactlyOneAnswer(text, raws);
    var normalized: seq<Finding> := [];
    var i := 0;
    while i < |raws|
      invariant 0 <= i <= |raws| && LocateAll(text, raws[..i]) == Ok(normalized)
    {
      assert raws[..i + 1][..i] == raws[..i];
      var located := Locate(text, raws[i]);
      if located.Err? {
        LocateAllFailsEarly(text, raws, i + 1);
        return Err(located.error);
      }
      normalized := normalized + [located.value];
      i := i + 1;
    }
    assert raws[..i] == raws;
    var merged := DeduplicateFindings(normalized);
    return Ok(merged);
  }

  // ---------------------------------------------------------------- the whole scan

  /** What is left of one `inspect_content` call after its retries. */
  datatype Response =
    | Failed
    | Response(findings: seq<RawFinding>, truncated: bool)

  datatype ScanError =
    | InspectionFailed
    | IncompleteFindings
    | BadRange(range: RangeError)
    | BadChunkSizes(sizes: ChunkError)

  datatype DataClassification = NoPii | Pii

  datatype PiiResult = PiiResult(findings: seq<Finding>, classification: DataClassification, redactedText: string)

  type Detector = string -> Response

  ghost predicate Usable(inspect: Detector, text: string) {
    var r := inspect(text);
    r.Response? && !r.truncated && forall i :: 0 <= i < |r.findings| ==> Placeable(text, r.findings[i])
  }

  ghost function FindingsIn(inspect: Detector, text: string): (fs: seq<Finding>)
    requires Usable(inspect, text)
    ensures PlacesAll(text, inspect(text).findings, fs)
    ensures forall f :: f in fs ==> 0 <= f.start < f.end <= |text|
  {
    RefusedIfUnplaceable(text, inspect(text).findings);
    LocateAll(text, inspect(text).findings).value
  }

  ghost predicate AllUsable(inspect: Detector, chunks: seq<Chunk>) {
    forall i :: 0 <= i < |chunks| ==> Usable(inspect, chunks[i].text)
  }

  /** The findings reported for each chunk, at their places in the whole text. */
  ghost function Parts(inspect: Detector, chunks: seq<Chunk>): (parts: seq<seq<Finding>>)
    requires AllUsable(inspect, chunks)
    ensures |parts| == |chunks|
  {
    seq(|chunks|, i requires 0 <= i < |chunks| =>
      ShiftAll(FindingsIn(inspect, chunks[i].text), chunks[i].offset))
  }

  /**
   `whole` is what the text holds, each finding at most `overlap` bytes long, and on any piece of the text
   the detector reports exactly the findings lying wholly inside that piece.
   */
  ghost predicate IsLocalDetector(inspect: Detector, text: string, whole: seq<Finding>, overlap: nat) {
    && (forall f :: f in whole ==> 0 <= f.start < f.end <= |text| && |Encode(text[f.start..f.end])| <= overlap)
    && (forall a: nat, b: nat :: a <= b <= |text| ==> ReportsInside(inspect, text, whole, a, b))
  }

  ghost predicate ReportsInside(inspect: Detector, text: string, whole: seq<Finding>, a: nat, b: nat)
    requires a <= b <= |text|
  {
    && Usable(inspect, text[a..b])
    && forall f :: f in FindingsIn(inspect, text[a..b]) <==>
                   Shift(f, a) in whole && 0 <= f.start && f.end <= b - a
  }

  lemma LocalDetectorOnChunk(inspect: Detector, text: string, whole: seq<Finding>, c: Chunk, maxBytes: nat,
                             overlap: nat)
    requires IsLocalDetector(inspect, text, whole, overlap) && IsPiece(text, c, maxBytes)
    ensures Usable(inspect, c.text)
    ensures forall f :: f in ShiftAll(FindingsIn(inspect, c.text), c.offset) <==>
                        f in whole && c.offset <= f.start && f.end <= c.End()
  {
    hide Usable, FindingsIn, Encode, Shift, ShiftAll;
    assert ReportsInside(inspect, text, whole, c.offset, c.End());
    ShiftMembers(FindingsIn(inspect, c.text), c.offset);
    forall f
      ensures f in ShiftAll(FindingsIn(inspect, c.text), c.offset) <==>
              f in whole && c.offset <= f.start && f.end <= c.End()
    {
      ShiftThere(f, c.offset);
    }
  }

  lemma ShiftThere(f: Finding, offset: int)
    ensures var back := Shift(f, 0 - offset);
            Shift(back, offset) == f && back.start == f.start - offset && back.end == f.end - offset
  {
  }

  /** Between them, the chunks report everything a local detector would report on the whole text. */
  lemma {:induction false} ChunksReportEverything(inspect: Detector, text: string, whole: seq<Finding>,
                                                  chunks: seq<Chunk>, maxBytes: nat, overlap: nat)
    requires IsLocalDetector(inspect, text, whole, overlap) && IsChunking(text, chunks, maxBytes, overlap)
    ensures AllUsable(inspect, chunks) && Flattens(Parts(inspect, chunks), whole)
  {
    forall i | 0 <= i < |chunks| ensures Usable(inspect, chunks[i].text) {
      LocalDetectorOnChunk(inspect, text, whole, chunks[i], maxBytes, overlap);
    }
    var parts := Parts(inspect, chunks);
    forall f ensures f in whole <==> exists i :: 0 <= i < |parts| && f in parts[i] {
      if f in whole {
        var i := ShortSpanInOneChunk(text, chunks, maxBytes, overlap, f.start, f.end);
        LocalDetectorOnChunk(inspect, text, whole, chunks[i], maxBytes, overlap);
        assert f in parts[i];
      }
      if i :| 0 <= i < |parts| && f in parts[i] {
        LocalDetectorOnChunk(inspect, text, whole, chunks[i], maxBytes, overlap);
      }
    }
  }

  /** What the loop over the chunks has collected after them: shifted per-chunk merges, one after the other. */
  ghost function Collected(inspect: Detector, chunks: seq<Chunk>): seq<Finding>
    requires AllUsable(inspect, chunks)
  {
    if chunks == [] then []
    else
      var c := chunks[|chunks| - 1];
      Collected(inspect, chunks[..|chunks| - 1]) + ShiftAll(Merged(FindingsIn(inspect, c.text)), c.offset)
  }

  ghost function MergedPieces(inspect: Detector, chunks: seq<Chunk>): (outs: seq<seq<Finding>>)
    requires AllUsable(inspect, chunks)
    ensures |outs| == |chunks|
  {
    seq(|chunks|, i requires 0 <= i < |chunks| =>
      ShiftAll(Merged(FindingsIn(inspect, chunks[i].text)), chunks[i].offset))
  }

  lemma {:induction false} CollectedFlattens(inspect: Detector, chunks: seq<Chunk>)
    requires AllUsable(inspect, chunks)
    ensures Flattens(MergedPieces(inspect, chunks), Collected(inspect, chunks))
  {
    hide Merged, FindingsIn, Usable, ShiftAll;
    if chunks != [] {
      var front := chunks[..|chunks| - 1];
      CollectedFlattens(inspect, front);
      var outs, before := MergedPieces(inspect, chunks), MergedPieces(inspect, front);
      assert outs == before + [outs[|chunks| - 1]];
      forall f ensures f in Collected(inspect, chunks) <==> exists i :: 0 <= i < |outs| && f in outs[i] {
        if i :| 0 <= i < |before| && f in before[i] {
          assert f in outs[i];
        }
        assert f in outs[|chunks| - 1] ==> exists i :: 0 <= i < |outs| && f in outs[i];
      }
    }
  }

  lemma PiecesAreMerges(inspect: Detector, chunks: seq<Chunk>)
    requires AllUsable(inspect, chunks)
    ensures MergedParts(MergedPieces(inspect, chunks), Parts(inspect, chunks))
  {
    var outs, parts := MergedPieces(inspect, chunks), Parts(inspect, chunks);
    forall i | 0 <= i < |chunks| ensures IsMergeOf(outs[i], parts[i]) {
      var fs := FindingsIn(inspect, chunks[i].text);
      MergedIsMerge(fs);
      ShiftIsMerge(Merged(fs), fs, chunks[i].offset);
    }
  }

  /** All chunk findings lie in the text, and the collected merges are proper. */
  lemma CollectedIsProper(inspect: Detector, text: string, chunks: seq<Chunk>, maxBytes: nat)
    requires AllUsable(inspect, chunks) && forall i :: 0 <= i < |chunks| ==> IsPiece(text, chunks[i], maxBytes)
    ensures forall f :: f in Collected(inspect, chunks) ==> 0 <= f.start < f.end <= |text|
  {
    CollectedFlattens(inspect, chunks);
    PiecesAreMerges(inspect, chunks);
    var outs, parts := MergedPieces(inspect, chunks), Parts(inspect, chunks);
    forall f | f in Collected(inspect, chunks) ensures 0 <= f.start < f.end <= |text| {
      var i :| 0 <= i < |outs| && f in outs[i];
      assert IsMergeOf(outs[i], parts[i]);
      forall g: Finding | g in parts[i] ensures 0 <= g.start && g.end <= |text| {
        ShiftMembers(FindingsIn(inspect, chunks[i].text), chunks[i].offset);
      }
      MergeStaysInside(outs[i], parts[i], |text|);
    }
  }

  lemma MergeStaysInside(out: seq<Finding>, fs: seq<Finding>, length: nat)
    requires IsMergeOf(out, fs) && forall g :: g in fs ==> 0 <= g.start && g.end <= length
    ensures forall o :: o in out ==> 0 <= o.start < o.end <= length
  {
    forall o | o in out ensures 0 <= o.start < o.end <= length {
      assert Covers(out, o.start) && Covers(out, o.end - 1);
      assert Covers(fs, o.start) && Covers(fs, o.end - 1);
    }
  }

  /** Whatever the detector does: the scan's findings are one merge of everything reported for any chunk. */
  lemma {:induction false} ScanIsOneMerge(inspect: Detector, text: string, chunks: seq<Chunk>, maxBytes: nat,
                                          fs: seq<Finding>)
    requires AllUsable(inspect, chunks) && forall i :: 0 <= i < |chunks| ==> IsPiece(text, chunks[i], maxBytes)
    requires Flattens(Parts(inspect, chunks), fs)
    ensures IsMergeOf(Merged(Collected(inspect, chunks)), fs)
  {
    var gs := Collected(inspect, chunks);
    CollectedIsProper(inspect, text, chunks, maxBytes);
    MergedIsMerge(gs);
    CollectedFlattens(inspect, chunks);
    PiecesAreMerges(inspect, chunks);
    forall f | f in fs ensures f.start < f.end {
      var i :| 0 <= i < |chunks| && f in Parts(inspect, chunks)[i];
      ShiftMembers(FindingsIn(inspect, chunks[i].text), chunks[i].offset);
    }
    TwoStageMerge(Merged(gs), MergedPieces(inspect, chunks), Parts(inspect, chunks), gs, fs);
  }

  ghost predicate Chunkable(text: string, maxBytes: nat, overlap: nat) {
    |Encode(text)| <= maxBytes || overlap < maxBytes
  }

  /** The first chunk without a usable response, and the error it gives. */
  ghost predicate FailsAt(pieces: seq<Chunk>, inspect: Detector, i: nat, e: ScanError) {
    && i < |pieces| && AllUsable(inspect, pieces[..i])
    && match inspect(pieces[i].text)
       case Failed => e == InspectionFailed
       case Response(_, true) => e == IncompleteFindings
       case Response(raws, false) => e.BadRange? && exists j :: RefusedAt(pieces[i].text, raws, j, e.range)
  }

  /** The loop over the chunks: it gives up at the first response that is missing, truncated or badly ranged. */
  method ScanChunks(pieces: seq<Chunk>, inspect: Detector) returns (r: Result<seq<Finding>, ScanError>)
    ensures r.Ok? <==> AllUsable(inspect, pieces)
    ensures r.Ok? ==> r.value == Collected(inspect, pieces)
    ensures r.Err? ==> exists i :: FailsAt(pieces, inspect, i, r.error)
  {
    hide Merged, LocateAll, ShiftAll, PlacesAll, Placeable, RefusedAt;
    var findings: seq<Finding> := [];
    var i := 0;
    while i < |pieces|
      invariant 0 <= i <= |pieces| && AllUsable(inspect, pieces[..i])
      invariant findings == Collected(inspect, pieces[..i])
    {
      var response := inspect(pieces[i].text);
      if response.Failed? {
        assert FailsAt(pieces, inspect, i, InspectionFailed);
        return Err(InspectionFailed);
      }
      if response.truncated {
        assert FailsAt(pieces, inspect, i, IncompleteFindings);
        return Err(IncompleteFindings);
      }
      var normalized := NormalizeFindings(pieces[i].text, response.findings);
      if normalized.Err? {
        assert FailsAt(pieces, inspect, i, BadRange(normalized.error));
        return Err(BadRange(normalized.error));
      }
      assert pieces[..i + 1][..i] == pieces[..i];
      findings := findings + ShiftAll(normalized.value, pieces[i].offset);
      i := i + 1;
    }
    assert pieces[..i] == pieces;
    return Ok(findings);
  }

  ghost predicate SameScores(a: seq<Finding>, b: seq<Finding>) {
    |a| == |b| && forall i :: 0 <= i < |a| ==> a[i].score == b[i].score
  }

  /** `f` is, at its place in the whole text, where the response to the chunk says. */
  ghost predicate Reports(inspect: Detector, c: Chunk, f: Finding) {
    inspect(c.text).Response?
    && exists i :: 0 <= i < |inspect(c.text).findings|
                   && Places(c.text, inspect(c.text).findings[i],
                             Finding(f.kind, f.start - c.offset, f.end - c.offset, f.score))
  }

  /** `fs` are all the findings that the responses report. */
  ghost predicate HoldsReports(fs: seq<Finding>, inspect: Detector, chunks: seq<Chunk>) {
    forall f :: f in fs <==> exists i :: 0 <= i < |chunks| && Reports(inspect, chunks[i], f)
  }

  /** There are reports to be merged, and `found` is a merge of them. */
  ghost predicate MergesReports(found: seq<Finding>, inspect: Detector, chunks: seq<Chunk>) {
    (exists fs :: HoldsReports(fs, inspect, chunks))
    && forall fs :: HoldsReports(fs, inspect, chunks) ==> IsMergeOf(found, fs)
  }

  lemma {:induction false} ReportsOfChunk(inspect: Detector, c: Chunk, f: Finding)
    requires Usable(inspect, c.text)
    ensures Reports(inspect, c, f) <==> f in ShiftAll(FindingsIn(inspect, c.text), c.offset)
  {
    hide Usable, Places, FindingsIn, ShiftAll;
    UsableResponds(inspect, c.text);
    var fs, raws := FindingsIn(inspect, c.text), inspect(c.text).findings;
    var back := Finding(f.kind, f.start - c.offset, f.end - c.offset, f.score);
    ShiftMembers(fs, c.offset);
    assert Shift(f, 0 - c.offset) == back;
    if back in fs {
      var i :| 0 <= i < |fs| && fs[i] == back;
      assert Places(c.text, raws[i], fs[i]);
    }
    if Reports(inspect, c, f) {
      var i :| 0 <= i < |raws| && Places(c.text, raws[i], back);
      assert Places(c.text, raws[i], fs[i]);
      LocatedIffPlaced(c.text, raws[i], back);
      LocatedIffPlaced(c.text, raws[i], fs[i]);
      assert fs[i] in fs;
    }
  }

  lemma UsableResponds(inspect: Detector, text: string)
    requires Usable(inspect, text)
    ensures inspect(text).Response?
  {
  }

  lemma {:induction false} InSomePart(inspect: Detector, chunks: seq<Chunk>, f: Finding)
    requires AllUsable(inspect, chunks)
    ensures var parts := Parts(inspect, chunks);
            (exists i :: 0 <= i < |chunks| && Reports(inspect, chunks[i], f))
            <==> exists i :: 0 <= i < |parts| && f in parts[i]
  {
    hide Reports, Usable, FindingsIn, ShiftAll;
    var parts := Parts(inspect, chunks);
    forall i | 0 <= i < |chunks| ensures Reports(inspect, chunks[i], f) <==> f in parts[i] {
      assert Usable(inspect, chunks[i].text);
      ReportsOfChunk(inspect, chunks[i], f);
    }
  }

  lemma {:induction false} ReportsAreParts(inspect: Detector, chunks: seq<Chunk>, fs: seq<Finding>)
    requires AllUsable(inspect, chunks)
    ensures HoldsReports(fs, inspect, chunks) <==> Flattens(Parts(inspect, chunks), fs)
  {
    hide Reports, Usable, Parts;
    var parts := Parts(inspect, chunks);
    if Flattens(parts, fs) {
      forall f ensures f in fs <==> exists i :: 0 <= i < |chunks| && Reports(inspect, chunks[i], f) {
        InSomePart(inspect, chunks, f);
      }
    }
    if HoldsReports(fs, inspect, chunks) {
      forall f ensures f in fs <==> exists i :: 0 <= i < |parts| && f in parts[i] {
        InSomePart(inspect, chunks, f);
      }
    }
  }

  /** All parts, one after the other. */
  ghost function Flat(parts: seq<seq<Finding>>): seq<Finding> {
    if parts == [] then [] else Flat(parts[..|parts| - 1]) + parts[|parts| - 1]
  }

  lemma {:induction false} FlatFlattens(parts: seq<seq<Finding>>)
    ensures Flattens(parts, Flat(parts))
  {
    if parts != [] {
      var n := |parts| - 1;
      FlatFlattens(parts[..n]);
      forall f ensures f in Flat(parts) <==> exists i :: 0 <= i < |parts| && f in parts[i] {
        if i :| 0 <= i < |parts[..n]| && f in parts[..n][i] {
          assert f in parts[i];
        }
        assert f in parts[n] ==> exists i :: 0 <= i < |parts| && f in parts[i];
      }
    }
  }

  /** `found` agrees with one merge over the findings of the whole text. */
  ghost predicate AgreesWithWholeScan(found: seq<Finding>, whole: seq<Finding>) {
    IsMergeOf(found, whole) && SameSpans(found, Merged(whole)) && SameScores(found, Merged(whole))
  }

  lemma {:induction false} ScanMergesReports(inspect: Detector, text: string, chunks: seq<Chunk>, maxBytes: nat,
                                             overlap: nat)
    requires IsChunking(text, chunks, maxBytes, overlap) && AllUsable(inspect, chunks)
    ensures FitsFrom(text, Merged(Collected(inspect, chunks)), 0)
    ensures MergesReports(Merged(Collected(inspect, chunks)), inspect, chunks)
  {
    var findings := Collected(inspect, chunks);
    CollectedIsProper(inspect, text, chunks, maxBytes);
    MergedIsMerge(findings);
    MergeStaysInside(Merged(findings), findings, |text|);
    hide Flattens, HoldsReports, IsMergeOf, Merged;
    FlatFlattens(Parts(inspect, chunks));
    ReportsAreParts(inspect, chunks, Flat(Parts(inspect, chunks)));
    forall fs | HoldsReports(fs, inspect, chunks) ensures IsMergeOf(Merged(findings), fs) {
      ReportsAreParts(inspect, chunks, fs);
      ScanIsOneMerge(inspect, text, chunks, maxBytes, fs);
    }
  }

  lemma {:induction false} ScanAgreesWithWhole(inspect: Detector, text: string, chunks: seq<Chunk>, maxBytes: nat,
                                               overlap: nat, whole: seq<Finding>)
    requires IsChunking(text, chunks, maxBytes, overlap) && IsLocalDetector(inspect, text, whole, overlap)
    ensures AllUsable(inspect, chunks)
    ensures AgreesWithWholeScan(Merged(Collected(inspect, chunks)), whole)
  {
    ChunksReportEverything(inspect, text, whole, chunks, maxBytes, overlap);
    var findings := Collected(inspect, chunks);
    ScanIsOneMerge(inspect, text, chunks, maxBytes, whole);
    MergedIsMerge(whole);
    MergesAgree(Merged(findings), Merged(whole), whole);
  }

  /** Without its markers, the redacted text is what no finding of the whole text covers, code point by code point. */
  lemma {:induction false} RedactionKeepsUncovered(text: string, found: seq<Finding>, whole: seq<Finding>)
    requires FitsFrom(text, found, 0) && AgreesWithWholeScan(found, whole)
    ensures GapText(text, found, 0, NoMarker) == Uncovered(text, whole, 0)
  {
    hide GapText, Uncovered, FitsFrom, SameSpans, SameScores, Merged, Covers, Glues;
    KeptTextIsUncoveredText(text, found, 0);
    UncoveredLocal(text, found, whole, 0);
  }

  /**
   The scan fails exactly when some chunk's response is missing, truncated or carries a bad range. Otherwise
   its findings are one merge of all chunk findings, spliced out of the text. With a local detector it cannot
   fail, its spans and scores are those of one merge over the findings of the whole text, and what it leaves of
   the text is exactly what none of these covers.
   */
  method RunGoogle(text: string, inspect: Detector, maxBytes: nat, overlap: nat)
    returns (r: Result<PiiResult, ScanError>, ghost chunks: seq<Chunk>)
    requires overlap < maxBytes < |Encode(text)| ==> EnoughRoom(maxBytes, overlap)
    ensures !Chunkable(text, maxBytes, overlap) ==> r == Err(BadChunkSizes(OverlapNotSmaller))
    ensures Chunkable(text, maxBytes, overlap) && text != "" ==> IsChunking(text, chunks, maxBytes, overlap)
    ensures text == "" ==> chunks == []
    ensures Chunkable(text, maxBytes, overlap) ==> (r.Ok? <==> AllUsable(inspect, chunks))
    ensures r.Ok? ==> FitsFrom(text, r.value.findings, 0)
                      && r.value.redactedText == GapText(text, r.value.findings, 0, TypedMarker)
                      && (r.value.classification == Pii <==> r.value.findings != [])
    ensures Chunkable(text, maxBytes, overlap) && r.Err? ==> exists i :: FailsAt(chunks, inspect, i, r.error)
    ensures r.Ok? ==> MergesReports(r.value.findings, inspect, chunks)
    ensures Chunkable(text, maxBytes, overlap) ==>
              forall whole :: IsLocalDetector(inspect, text, whole, overlap) ==>
                r.Ok? && AgreesWithWholeScan(r.value.findings, whole)
                && GapText(text, r.value.findings, 0, NoMarker) == Uncovered(text, whole, 0)
  {
    hide IsLocalDetector, AgreesWithWholeScan, MergesReports, IsChunking, Merged, Collected;
    hide GapText, Uncovered, FitsFrom;
    if text == "" {
      EmptyTextHasNoFindings(inspect, overlap);
      return Ok(PiiResult([], NoPii, "")), [];
    }
    var cut := TextChunks(text, maxBytes, overlap);
    if cut.Err? {
      return Err(BadChunkSizes(cut.error)), [];
    }
    chunks := cut.value;
    forall whole | IsLocalDetector(inspect, text, whole, overlap)
      ensures AllUsable(inspect, chunks) && AgreesWithWholeScan(Merged(Collected(inspect, chunks)), whole)
    {
      ScanAgreesWithWhole(inspect, text, chunks, maxBytes, overlap, whole);
    }
    var scanned := ScanChunks(cut.value, inspect);
    if scanned.Err? {
      return Err(scanned.error), chunks;
    }
    var merged := DeduplicateFindings(scanned.value);
    ScanMergesReports(inspect, text, chunks, maxBytes, overlap);
    forall whole | IsLocalDetector(inspect, text, whole, overlap)
      ensures GapText(text, merged, 0, NoMarker) == Uncovered(text, whole, 0)
    {
      RedactionKeepsUncovered(text, merged, whole);
    }
    var redacted := RedactWithTypedMarkers(text, merged);
    return Ok(PiiResult(merged, if merged != [] then Pii else NoPii, redacted)), chunks;
  }

  lemma NothingToReport(inspect: Detector)
    ensures MergesReports([], inspect, [])
  {
    hide IsMergeOf;
    assert HoldsReports([], inspect, []);
    MergedIsMerge([]);
    forall fs | HoldsReports(fs, inspect, []) ensures fs == [] {
      if fs != [] { var i := ReporterOf(fs, inspect, [], fs[0]); }
    }
  }

  lemma ReporterOf(fs: seq<Finding>, inspect: Detector, chunks: seq<Chunk>, f: Finding) returns (i: nat)
    requires HoldsReports(fs, inspect, chunks) && f in fs
    ensures i < |chunks| && Reports(inspect, chunks[i], f)
  {
    i :| 0 <= i < |chunks| && Reports(inspect, chunks[i], f);
  }

  lemma EmptyTextHasNoFindings(inspect: Detector, overlap: nat)
    ensures forall whole :: IsLocalDetector(inspect, "", whole, overlap) ==> AgreesWithWholeScan([], whole)
    ensures MergesReports([], inspect, [])
    ensures FitsFrom("", [], 0) && GapText("", [], 0, TypedMarker) == ""
    ensures forall whole {:trigger Uncovered("", whole, 0)} :: GapText("", [], 0, NoMarker) == Uncovered("", whole, 0)
  {
    hide IsLocalDetector, MergesReports, IsMergeOf;
    MergedIsMerge([]);
    forall whole | IsLocalDetector(inspect, "", whole, overlap) ensures whole == [] {
      if whole != [] { LocalFindingInText(inspect, "", whole, overlap, whole[0]); }
    }
    NothingToReport(inspect);
  }

  lemma LocalFindingInText(inspect: Detector, text: string, whole: seq<Finding>, overlap: nat, f: Finding)
    requires IsLocalDetector(inspect, text, whole, overlap) && f in whole
    ensures 0 <= f.start < f.end <= |text|
  {
  }
}
