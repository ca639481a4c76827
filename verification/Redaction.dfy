/** Splicing typed markers over merged findings (`_redact_with_typed_markers`). */
module Redaction {
  import opened Wrappers
  import opened Findings

  ghost predicate FitsFrom(text: string, fs: seq<Finding>, from: int) {
    Disjoint(fs) && 0 <= from <= |text| && forall f :: f in fs ==> from <= f.start && f.end <= |text|
  }

  function TypedMarker(f: Finding): string { "[" + f.kind + "]" }

  function NoMarker(f: Finding): string { "" }

  /** The text from `from` on, read left to right: gap, marker, gap, marker, ..., gap. */
  ghost function GapText(text: string, fs: seq<Finding>, from: int, marker: Finding -> string): string
    requires FitsFrom(text, fs, from)
    decreases |fs|
  {
    if fs == [] then text[from..]
    else
      assert fs[0] in fs;
      FitsAfterFirst(text, fs, from);
      text[from..fs[0].start] + marker(fs[0]) + GapText(text, fs[1..], fs[0].end, marker)
  }

  lemma FitsAfterFirst(text: string, fs: seq<Finding>, from: int)
    requires FitsFrom(text, fs, from) && fs != []
    ensures FitsFrom(text, fs[1..], fs[0].end)
  {
    assert fs[0] in fs;
    forall f | f in fs[1..] ensures f in fs && fs[0].end <= f.start {
      var i :| 0 <= i < |fs[1..]| && fs[1..][i] == f;
      assert fs[i + 1] == f;
    }
  }

  /** Where the text left of finding `i` that is still untouched ends. */
  ghost function Untouched(fs: seq<Finding>, i: nat): int
    requires i <= |fs|
  {
    if i == 0 then 0 else fs[i - 1].end
  }

  lemma FitsAt(text: string, fs: seq<Finding>, i: nat)
    requires FitsFrom(text, fs, 0) && i <= |fs|
    ensures FitsFrom(text, fs[i..], Untouched(fs, i))
  {
    if i > 0 { assert fs[i - 1] in fs; }
    assert forall f :: f in fs[i..] ==> f in fs;
  }

  lemma GapTextOfFirst(text: string, fs: seq<Finding>, from: int)
    requires FitsFrom(text, fs, from) && fs != []
    ensures from <= fs[0].start < fs[0].end <= |text| && FitsFrom(text, fs[1..], fs[0].end)
    ensures GapText(text, fs, from, TypedMarker)
         == text[from..fs[0].start] + TypedMarker(fs[0]) + GapText(text, fs[1..], fs[0].end, TypedMarker)
  {
    assert fs[0] in fs;
    FitsAfterFirst(text, fs, from);
  }

  lemma {:induction false} SpliceStep(text: string, fs: seq<Finding>, i: nat, redacted: string)
    requires i < |fs| && FitsFrom(text, fs, 0) && FitsFrom(text, fs[i + 1..], fs[i].end)
    requires redacted == text[..fs[i].end] + GapText(text, fs[i + 1..], fs[i].end, TypedMarker)
    ensures FitsFrom(text, fs[i..], Untouched(fs, i)) && 0 <= fs[i].start < fs[i].end <= |redacted|
    ensures redacted[..fs[i].start] + TypedMarker(fs[i]) + redacted[fs[i].end..]
         == text[..Untouched(fs, i)] + GapText(text, fs[i..], Untouched(fs, i), TypedMarker)
  {
    hide Disjoint, Untouched;
    FitsAt(text, fs, i);
    var from, f, rest := Untouched(fs, i), fs[i], GapText(text, fs[i + 1..], fs[i].end, TypedMarker);
    GapTextOfFirst(text, fs[i..], from);
    assert fs[i..][1..] == fs[i + 1..];
    assert redacted[..f.start] == text[..from] + text[from..f.start];
    assert redacted[f.end..] == rest;
  }

  method RedactWithTypedMarkers(text: string, findings: seq<Finding>) returns (redacted: string)
    requires FitsFrom(text, findings, 0)
    ensures redacted == GapText(text, findings, 0, TypedMarker)
  {
    hide Disjoint;
    redacted := text;
    var i := |findings|;
    FitsAt(text, findings, i);
    assert text == text[..Untouched(findings, i)] + text[Untouched(findings, i)..];
    while i > 0
      invariant 0 <= i <= |findings|
      invariant FitsFrom(text, findings[i..], Untouched(findings, i))
      invariant redacted == text[..Untouched(findings, i)]
                            + GapText(text, findings[i..], Untouched(findings, i), TypedMarker)
    {
      i := i - 1;
      var finding := findings[i];
      SpliceStep(text, findings, i, redacted);
      redacted := redacted[..finding.start] + ("[" + finding.kind + "]") + redacted[finding.end..];
    }
    assert findings[0..] == findings;
  }

  /** Read from the right: the text behind the last finding, its bracketed type, and the redaction of what is before. */
  lemma {:induction false} LastMarker(text: string, fs: seq<Finding>, f: Finding, from: int)
    requires FitsFrom(text, fs + [f], from)
    ensures from <= f.start < f.end <= |text| && FitsFrom(text[..f.start], fs, from)
    ensures GapText(text, fs + [f], from, TypedMarker)
         == GapText(text[..f.start], fs, from, TypedMarker) + "[" + f.kind + "]" + text[f.end..]
    decreases |fs|
  {
    hide FitsFrom, GapText, TypedMarker;
    LastEndsAll(text, fs, f, from);
    var all, before := fs + [f], text[..f.start];
    GapTextOfFirst(text, all, from);
    if fs == [] {
      assert all[1..] == [] && before[from..] == text[from..f.start];
      NoMoreMarkers(text, f.end);
      NoMoreMarkers(before, from);
      Bracketed(f);
    } else {
      assert all[1..] == fs[1..] + [f] && all[0] == fs[0];
      LastMarker(text, fs[1..], f, fs[0].end);
      GapTextOfFirst(before, fs, from);
      assert before[from..fs[0].start] == text[from..fs[0].start];
      var head, rest := text[from..fs[0].start] + TypedMarker(fs[0]), GapText(before, fs[1..], fs[0].end, TypedMarker);
      Associate(head, rest, "[");
      Associate(head, rest + "[", f.kind);
      Associate(head, rest + "[" + f.kind, "]");
      Associate(head, rest + "[" + f.kind + "]", text[f.end..]);
    }
  }

  lemma NoMoreMarkers(text: string, from: int)
    requires 0 <= from <= |text|
    ensures FitsFrom(text, [], from) && GapText(text, [], from, TypedMarker) == text[from..]
  {
  }

  lemma Bracketed(f: Finding)
    ensures forall before: string, after: string ::
              before + TypedMarker(f) + after == before + "[" + f.kind + "]" + after
  {
    forall before: string, after: string
      ensures before + TypedMarker(f) + after == before + "[" + f.kind + "]" + after
    {
      Associate(before, "[" + f.kind, "]");
      Associate(before, "[", f.kind);
    }
  }

  lemma LastEndsAll(text: string, fs: seq<Finding>, f: Finding, from: int)
    requires FitsFrom(text, fs + [f], from)
    ensures from <= f.start < f.end <= |text| && FitsFrom(text[..f.start], fs, from)
  {
    var all := fs + [f];
    assert all[|fs|] == f && f in all;
    forall g | g in fs ensures g in all && g.end <= f.start {
      var i :| 0 <= i < |fs| && fs[i] == g;
      assert all[i] == g;
    }
    assert forall i :: 0 <= i < |fs| ==> all[i] == fs[i];
  }

  /** The code points from position `i` on that no finding covers, in order. */
  ghost function Uncovered(text: string, fs: seq<Finding>, i: int): string
    requires 0 <= i <= |text|
    decreases |text| - i
  {
    if i == |text| then ""
    else (if Covers(fs, i) then "" else [text[i]]) + Uncovered(text, fs, i + 1)
  }

  lemma {:induction false} UncoveredRun(text: string, fs: seq<Finding>, i: int, j: int)
    requires 0 <= i <= j <= |text|
    ensures (forall x :: i <= x < j ==> !Covers(fs, x)) ==>
            Uncovered(text, fs, i) == text[i..j] + Uncovered(text, fs, j)
    ensures (forall x :: i <= x < j ==> Covers(fs, x)) ==> Uncovered(text, fs, i) == Uncovered(text, fs, j)
    decreases j - i
  {
    if i < j {
      UncoveredRun(text, fs, i + 1, j);
      assert text[i..j] == [text[i]] + text[i + 1..j];
    }
  }

  lemma {:induction false} UncoveredLocal(text: string, a: seq<Finding>, b: seq<Finding>, i: int)
    requires 0 <= i <= |text| && forall x :: i <= x < |text| ==> (Covers(a, x) <==> Covers(b, x))
    ensures Uncovered(text, a, i) == Uncovered(text, b, i)
    decreases |text| - i
  {
    if i < |text| {
      UncoveredLocal(text, a, b, i + 1);
    }
  }

  lemma UncoveredFirst(text: string, fs: seq<Finding>, from: int)
    requires FitsFrom(text, fs, from) && fs != [] && FitsFrom(text, fs[1..], fs[0].end)
    requires from <= fs[0].start < fs[0].end <= |text|
    ensures Uncovered(text, fs, from) == text[from..fs[0].start] + Uncovered(text, fs[1..], fs[0].end)
  {
    var f := fs[0];
    forall x | from <= x < f.start ensures !Covers(fs, x) {
      FirstStartsFirst(fs, x);
    }
    UncoveredRun(text, fs, from, f.start);
    assert f in fs;
    assert forall x :: f.start <= x < f.end ==> Covers(fs, x);
    UncoveredRun(text, fs, f.start, f.end);
    forall x | f.end <= x < |text| ensures Covers(fs, x) <==> Covers(fs[1..], x) {
      TailExtent(fs, x);
    }
    UncoveredLocal(text, fs, fs[1..], f.end);
  }

  lemma FirstStartsFirst(fs: seq<Finding>, x: int)
    requires Disjoint(fs) && fs != [] && x < fs[0].start
    ensures !Covers(fs, x)
  {
    assert fs[0] in fs;
    forall g | g in fs ensures fs[0].start <= g.start {
      var k :| 0 <= k < |fs| && fs[k] == g;
    }
  }

  /** Take the markers out and what is left is exactly the uncovered text. */
  lemma {:induction false} KeptTextIsUncoveredText(text: string, fs: seq<Finding>, from: int)
    requires FitsFrom(text, fs, from)
    ensures GapText(text, fs, from, NoMarker) == Uncovered(text, fs, from)
    decreases |fs|
  {
    hide Disjoint;
    if fs == [] {
      assert forall x :: !Covers(fs, x);
      UncoveredRun(text, fs, from, |text|);
      assert text[from..|text|] == text[from..];
    } else {
      GapTextOfFirst(text, fs, from);
      UncoveredFirst(text, fs, from);
      KeptTextIsUncoveredText(text, fs[1..], fs[0].end);
      assert text[from..fs[0].start] + "" == text[from..fs[0].start];
    }
  }
}
