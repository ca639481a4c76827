/**
 Merging of overlapping findings (`_deduplicate_findings` in governance/app/pii.py).

 The merge is proved against two independent descriptions of what the result has to be:
 the set of covered positions together with the set of positions at which two neighbouring
 code points are glued by one finding, and the connected components of the overlap relation.
 */
module Findings {
  /** `start` and `end` are code point offsets, `end` exclusive. */
  datatype Finding = Finding(kind: string, start: int, end: int, score: real)

  ghost predicate Proper(fs: seq<Finding>) {
    forall f :: f in fs ==> f.start < f.end
  }

  // ---------------------------------------------------------------- sorting

  /** The order of the sort key (start, -end, -score). */
  predicate KeyLeq(a: Finding, b: Finding) {
    a.start < b.start
    || (a.start == b.start && (a.end > b.end || (a.end == b.end && a.score >= b.score)))
  }

  ghost predicate Sorted(fs: seq<Finding>) {
    forall i, j :: 0 <= i < j < |fs| ==> KeyLeq(fs[i], fs[j])
  }

  function Insert(f: Finding, fs: seq<Finding>): (r: seq<Finding>) {
    if fs == [] || KeyLeq(f, fs[0]) then [f] + fs else [fs[0]] + Insert(f, fs[1..])
  }

  /** A stable sort by key, as `list.sort` is. */
  function SortByKey(fs: seq<Finding>): (r: seq<Finding>) {
    if fs == [] then [] else Insert(fs[0], SortByKey(fs[1..]))
  }

  lemma {:induction false} InsertIsSorted(f: Finding, fs: seq<Finding>)
    requires Sorted(fs)
    ensures Sorted(Insert(f, fs))
    ensures multiset(Insert(f, fs)) == multiset(fs) + multiset{f}
  {
    hide KeyLeq, Sorted;
    InsertIsPermutation(f, fs);
    if fs == [] || KeyLeq(f, fs[0]) {
      forall g | g in fs ensures KeyLeq(f, g) {
        FirstIsLeast(fs, g);
        KeyLeqTransitive(f, fs[0], g);
      }
      SortedInFront(f, fs);
    } else {
      SortedRest(fs);
      InsertIsSorted(f, fs[1..]);
      InsertIsPermutation(f, fs[1..]);
      forall g | g in Insert(f, fs[1..]) ensures KeyLeq(fs[0], g) {
        assert g in multiset(Insert(f, fs[1..]));
        if g == f {
          KeyLeqTotal(f, fs[0]);
        } else {
          assert g in multiset(fs[1..]);
          FirstIsLeast(fs, g);
        }
      }
      SortedInFront(fs[0], Insert(f, fs[1..]));
    }
  }

  lemma {:induction false} InsertIsPermutation(f: Finding, fs: seq<Finding>)
    ensures multiset(Insert(f, fs)) == multiset(fs) + multiset{f}
  {
    hide KeyLeq;
    if fs != [] && !KeyLeq(f, fs[0]) {
      assert fs == [fs[0]] + fs[1..];
      InsertIsPermutation(f, fs[1..]);
    }
  }

  lemma KeyLeqTotal(a: Finding, b: Finding)
    ensures KeyLeq(a, b) || KeyLeq(b, a)
  {
  }

  lemma KeyLeqTransitive(a: Finding, b: Finding, c: Finding)
    requires KeyLeq(a, b) && KeyLeq(b, c)
    ensures KeyLeq(a, c)
  {
  }

  lemma FirstIsLeast(fs: seq<Finding>, g: Finding)
    requires Sorted(fs) && g in fs
    ensures KeyLeq(fs[0], g)
  {
    var i :| 0 <= i < |fs| && fs[i] == g;
    if i > 0 {
      assert KeyLeq(fs[0], fs[i]);
    }
  }

  lemma SortedRest(fs: seq<Finding>)
    requires fs != [] && Sorted(fs)
    ensures Sorted(fs[1..])
  {
    hide KeyLeq;
    forall i, j | 0 <= i < j < |fs[1..]| ensures KeyLeq(fs[1..][i], fs[1..][j]) {
      assert KeyLeq(fs[i + 1], fs[j + 1]);
    }
  }

  lemma SortedInFront(f: Finding, fs: seq<Finding>)
    requires Sorted(fs) && forall g :: g in fs ==> KeyLeq(f, g)
    ensures Sorted([f] + fs)
  {
    hide KeyLeq;
  }

  predicate SameKey(a: Finding, b: Finding) {
    a.start == b.start && a.end == b.end && a.score == b.score
  }

  /** The findings with the sort key of `g`, in the order they stand in. */
  function WithKeyOf(g: Finding, fs: seq<Finding>): seq<Finding> {
    if fs == [] then []
    else (if SameKey(fs[0], g) then [fs[0]] else []) + WithKeyOf(g, fs[1..])
  }

  lemma {:induction false} InsertIsStable(f: Finding, fs: seq<Finding>, g: Finding)
    ensures WithKeyOf(g, Insert(f, fs)) == (if SameKey(f, g) then [f] else []) + WithKeyOf(g, fs)
  {
    if fs == [] || KeyLeq(f, fs[0]) {
      assert ([f] + fs)[1..] == fs;
    } else {
      InsertIsStable(f, fs[1..], g);
      assert ([fs[0]] + Insert(f, fs[1..]))[1..] == Insert(f, fs[1..]);
    }
  }

  /** Ordered, a permutation, and findings with equal keys keep their order. */
  lemma {:induction false} SortByKeyIsStableSort(fs: seq<Finding>)
    ensures Sorted(SortByKey(fs))
    ensures multiset(SortByKey(fs)) == multiset(fs)
    ensures forall g {:trigger WithKeyOf(g, fs)} :: WithKeyOf(g, SortByKey(fs)) == WithKeyOf(g, fs)
  {
    if fs != [] {
      assert fs == [fs[0]] + fs[1..];
      SortByKeyIsStableSort(fs[1..]);
      InsertIsSorted(fs[0], SortByKey(fs[1..]));
      forall g
        ensures WithKeyOf(g, SortByKey(fs)) == WithKeyOf(g, fs)
      {
        InsertIsStable(fs[0], SortByKey(fs[1..]), g);
        assert WithKeyOf(g, SortByKey(fs[1..])) == WithKeyOf(g, fs[1..]);
      }
    }
  }

  lemma SortKeepsMembers(fs: seq<Finding>)
    ensures Sorted(SortByKey(fs))
    ensures forall f :: f in SortByKey(fs) <==> f in fs
  {
    SortByKeyIsStableSort(fs);
    forall f ensures f in SortByKey(fs) <==> f in fs {
      assert f in SortByKey(fs) <==> f in multiset(SortByKey(fs));
      assert f in fs <==> f in multiset(fs);
    }
  }

  lemma {:induction false} SortOfSortedIsIdentity(fs: seq<Finding>)
    requires Sorted(fs)
    ensures SortByKey(fs) == fs
  {
    if fs != [] {
      SortOfSortedIsIdentity(fs[1..]);
      assert fs == [fs[0]] + fs[1..];
    }
  }

  // ---------------------------------------------------------------- merging

  function Max(a: int, b: int): int { if a < b then b else a }

  function Last(fs: seq<Finding>): Finding
    requires fs != []
  {
    fs[|fs| - 1]
  }

  /** What one turn of the merge loop does to the list built so far. */
  function Absorb(merged: seq<Finding>, item: Finding): seq<Finding> {
    if merged != [] && item.start < Last(merged).end then
      var previous := Last(merged);
      var labelled := if item.score > previous.score
                      then previous.(kind := item.kind, score := item.score) else previous;
      merged[..|merged| - 1] + [labelled.(end := Max(previous.end, item.end))]
    else
      merged + [item]
  }

  function AbsorbAll(fs: seq<Finding>): seq<Finding> {
    if fs == [] then [] else Absorb(AbsorbAll(fs[..|fs| - 1]), Last(fs))
  }

  lemma NothingAbsorbed(fs: seq<Finding>)
    ensures AbsorbAll(fs[..0]) == []
  {
  }

  lemma AbsorbNext(fs: seq<Finding>, i: nat)
    requires i < |fs|
    ensures AbsorbAll(fs[..i + 1]) == Absorb(AbsorbAll(fs[..i]), fs[i])
  {
    assert fs[..i + 1][..i] == fs[..i];
  }

  function Merged(fs: seq<Finding>): seq<Finding> {
    AbsorbAll(SortByKey(fs))
  }

  method DeduplicateFindings(findings: seq<Finding>) returns (deduplicated: seq<Finding>)
    ensures deduplicated == Merged(findings)
  {
    var sorted := SortByKey(findings);
    deduplicated := [];
    var i := 0;
    hide KeyLeq, SortByKey, AbsorbAll;
    NothingAbsorbed(sorted);
    while i < |sorted|
      invariant 0 <= i <= |sorted|
      invariant deduplicated == AbsorbAll(sorted[..i])
    {
      var item := sorted[i];
      AbsorbNext(sorted, i);
      if deduplicated != [] && item.start < deduplicated[|deduplicated| - 1].end {
        var previous := deduplicated[|deduplicated| - 1];
        if item.score > previous.score {
          previous := previous.(kind := item.kind, score := item.score);
        }
        previous := previous.(end := Max(previous.end, item.end));
        deduplicated := deduplicated[..|deduplicated| - 1] + [previous];
      } else {
        deduplicated := deduplicated + [item];
      }
      i := i + 1;
    }
    assert sorted[..i] == sorted;
  }

  // ---------------------------------------------------------------- what a merge is

  ghost predicate Covers(fs: seq<Finding>, x: int) {
    exists f :: f in fs && f.start <= x < f.end
  }

  /** One finding holds both the code point before position `x` and the one at `x`. */
  ghost predicate Glues(fs: seq<Finding>, x: int) {
    exists f :: f in fs && f.start < x < f.end
  }

  ghost predicate SameExtent(a: seq<Finding>, b: seq<Finding>) {
    (forall x :: Covers(a, x) <==> Covers(b, x)) && (forall x :: Glues(a, x) <==> Glues(b, x))
  }

  ghost predicate Disjoint(fs: seq<Finding>) {
    Proper(fs) && forall i, j :: 0 <= i < j < |fs| ==> fs[i].end <= fs[j].start
  }

  predicate Within(f: Finding, o: Finding) {
    o.start <= f.start && f.end <= o.end
  }

  /** `o` carries the best score found inside it, and a label found with that score. */
  ghost predicate Labels(o: Finding, fs: seq<Finding>) {
    (exists f :: f in fs && Within(f, o) && f.score == o.score && f.kind == o.kind)
    && (forall f :: f in fs && Within(f, o) ==> f.score <= o.score)
  }

  ghost predicate Houses(out: seq<Finding>, fs: seq<Finding>) {
    forall f :: f in fs ==> exists o :: o in out && Within(f, o)
  }

  /** `out` consists of disjoint spans in order, with the extent of `fs`. */
  ghost predicate Groups(out: seq<Finding>, fs: seq<Finding>) {
    Disjoint(out) && SameExtent(out, fs) && Houses(out, fs)
  }

  ghost predicate IsMergeOf(out: seq<Finding>, fs: seq<Finding>) {
    Groups(out, fs) && forall o {:trigger Labels(o, fs)} :: o in out ==> Labels(o, fs)
  }

  /** Housed in disjoint spans, a finding that reaches into a span lies within it. */
  lemma HousedWithin(out: seq<Finding>, fs: seq<Finding>, f: Finding, o: Finding)
    requires Disjoint(out) && Houses(out, fs) && Proper(fs)
    requires f in fs && o in out && f.start < o.end && o.start < f.end
    ensures Within(f, o)
  {
    var h :| h in out && Within(f, h);
    var i :| 0 <= i < |out| && out[i] == h;
    var j :| 0 <= j < |out| && out[j] == o;
    assert i == j by {
      assert f.start < f.end;
    }
  }

  lemma AbsorbGrowsExtent(out: seq<Finding>, fs: seq<Finding>, item: Finding)
    requires SameExtent(out, fs) && item.start < item.end
    requires out != [] ==> Last(out).start <= item.start
    ensures SameExtent(Absorb(out, item), fs + [item])
  {
    var merged := Absorb(out, item);
    forall x
      ensures Covers(merged, x) <==> Covers(out, x) || item.start <= x < item.end
      ensures Glues(merged, x) <==> Glues(out, x) || item.start < x < item.end
    {
      AbsorbAtPosition(out, item, x);
    }
    forall x
      ensures Covers(fs + [item], x) <==> Covers(fs, x) || item.start <= x < item.end
      ensures Glues(fs + [item], x) <==> Glues(fs, x) || item.start < x < item.end
    {
      AppendAtPosition(fs, item, x);
    }
  }

  lemma AppendAtPosition(fs: seq<Finding>, item: Finding, x: int)
    ensures Covers(fs + [item], x) <==> Covers(fs, x) || item.start <= x < item.end
    ensures Glues(fs + [item], x) <==> Glues(fs, x) || item.start < x < item.end
  {
    assert item in fs + [item];
    assert forall f :: f in fs ==> f in fs + [item];
  }

  lemma AbsorbAtPosition(out: seq<Finding>, item: Finding, x: int)
    requires item.start < item.end
    requires out != [] ==> Last(out).start <= item.start
    ensures Covers(Absorb(out, item), x) <==> Covers(out, x) || item.start <= x < item.end
    ensures Glues(Absorb(out, item), x) <==> Glues(out, x) || item.start < x < item.end
  {
    if out != [] && item.start < Last(out).end {
      var front, grown := out[..|out| - 1], Last(Absorb(out, item));
      assert out == front + [Last(out)];
      assert Absorb(out, item) == front + [grown];
      AppendAtPosition(front, Last(out), x);
      AppendAtPosition(front, grown, x);
    } else {
      AppendAtPosition(out, item, x);
    }
  }

  lemma AbsorbKeepsHouses(out: seq<Finding>, fs: seq<Finding>, item: Finding)
    requires Houses(out, fs)
    requires out != [] ==> Last(out).start <= item.start
    ensures Houses(Absorb(out, item), fs + [item])
  {
    var merged := Absorb(out, item);
    assert Last(merged) in merged && Within(item, Last(merged));
    forall f | f in fs ensures exists o :: o in merged && Within(f, o) {
      var o :| o in out && Within(f, o);
      if o in merged {
      } else {
        assert o == Last(out);
        assert Within(f, Last(merged));
      }
    }
  }

  lemma AbsorbKeepsDisjoint(out: seq<Finding>, item: Finding)
    requires Disjoint(out) && item.start < item.end
    requires out != [] ==> Last(out).start <= item.start
    ensures Disjoint(Absorb(out, item))
  {
    if out != [] && item.start < Last(out).end {
      assert Last(out) in out;
      assert forall f :: f in out[..|out| - 1] ==> f in out;
    } else if out != [] {
      assert forall i :: 0 <= i < |out| ==> out[i].end <= Last(out).end by {
        assert Last(out) in out;
        assert forall i :: 0 <= i < |out| - 1 ==> out[i].end <= Last(out).start;
      }
    }
  }

  lemma LabelsCarryOver(o: Finding, fs: seq<Finding>, item: Finding)
    requires Labels(o, fs) && !Within(item, o)
    ensures Labels(o, fs + [item])
  {
    var f :| f in fs && Within(f, o) && f.score == o.score && f.kind == o.kind;
    assert f in fs + [item];
  }

  lemma LabelsOfFreshSpan(out: seq<Finding>, fs: seq<Finding>, item: Finding)
    requires Disjoint(out) && Houses(out, fs) && Proper(fs) && item.start < item.end
    requires out != [] ==> Last(out).end <= item.start
    ensures Labels(item, fs + [item])
  {
    assert item in fs + [item];
    forall g | g in fs ensures !Within(g, item) {
      var h :| h in out && Within(g, h);
      LastEndsLast(out, h);
    }
  }

  lemma LabelsOfGrownSpan(out: seq<Finding>, fs: seq<Finding>, item: Finding)
    requires Disjoint(out) && Houses(out, fs) && Proper(fs) && out != []
    requires Last(out).start <= item.start < Last(out).end && Labels(Last(out), fs)
    ensures Labels(Last(Absorb(out, item)), fs + [item])
  {
    hide Houses, Disjoint;
    var p, o := Last(out), Last(Absorb(out, item));
    assert p in out;
    var f :| f in fs && Within(f, p) && f.score == p.score && f.kind == p.kind;
    assert f in fs + [item] && item in fs + [item];
    forall g | g in fs && Within(g, o) ensures g.score <= o.score {
      assert g.start < g.end;
      HousedEndsLast(out, fs, g);
      HousedWithin(out, fs, g, p);
    }
  }

  lemma HousedEndsLast(out: seq<Finding>, fs: seq<Finding>, g: Finding)
    requires Disjoint(out) && Houses(out, fs) && Proper(fs) && g in fs
    ensures out != [] && g.end <= Last(out).end
  {
    var h :| h in out && Within(g, h);
    LastEndsLast(out, h);
  }

  lemma LastEndsLast(out: seq<Finding>, o: Finding)
    requires Disjoint(out) && o in out
    ensures o.end <= Last(out).end
  {
    assert Last(out) in out;
    var i :| 0 <= i < |out| && out[i] == o;
  }

  lemma AbsorbKeepsLabels(out: seq<Finding>, fs: seq<Finding>, item: Finding, o: Finding)
    requires Disjoint(out) && Houses(out, fs) && Proper(fs) && item.start < item.end
    requires out != [] ==> Last(out).start <= item.start && Labels(Last(out), fs)
    requires o in Absorb(out, item) && (o in out ==> Labels(o, fs))
    ensures Labels(o, fs + [item])
  {
    if out != [] && item.start < Last(out).end {
      if o in out[..|out| - 1] {
        FrontEndsBefore(out, o);
        assert Last(out) in out;
        LabelsCarryOver(o, fs, item);
      } else {
        LabelsOfGrownSpan(out, fs, item);
      }
    } else if o in out {
      LastEndsLast(out, o);
      LabelsCarryOver(o, fs, item);
    } else {
      LabelsOfFreshSpan(out, fs, item);
    }
  }

  lemma FrontEndsBefore(out: seq<Finding>, o: Finding)
    requires Disjoint(out) && out != [] && o in out[..|out| - 1]
    ensures o.end <= Last(out).start
  {
    var i :| 0 <= i < |out| - 1 && out[i] == o;
  }

  lemma LastStartsFirst(out: seq<Finding>, front: seq<Finding>, item: Finding)
    requires out != [] && Labels(Last(out), front) && Sorted(front + [item])
    ensures Last(out).start <= item.start
  {
    var f :| f in front && Within(f, Last(out));
    var i :| 0 <= i < |front| && front[i] == f;
    assert KeyLeq((front + [item])[i], (front + [item])[|front|]);
  }

  lemma AbsorbStep(out: seq<Finding>, front: seq<Finding>, item: Finding)
    requires IsMergeOf(out, front) && Proper(front) && item.start < item.end && Sorted(front + [item])
    ensures IsMergeOf(Absorb(out, item), front + [item])
  {
    if out != [] {
      assert Last(out) in out;
      LastStartsFirst(out, front, item);
    }
    AbsorbGrowsExtent(out, front, item);
    AbsorbKeepsHouses(out, front, item);
    AbsorbKeepsDisjoint(out, item);
    forall o | o in Absorb(out, item) ensures Labels(o, front + [item]) {
      AbsorbKeepsLabels(out, front, item, o);
    }
  }

  lemma {:induction false} AbsorbAllIsMerge(fs: seq<Finding>)
    requires Sorted(fs) && Proper(fs)
    ensures IsMergeOf(AbsorbAll(fs), fs)
  {
    if fs != [] {
      var front, item := fs[..|fs| - 1], Last(fs);
      assert fs == front + [item];
      assert item in fs;
      AbsorbAllIsMerge(front);
      AbsorbStep(AbsorbAll(front), front, item);
    }
  }

  /**
   The merge keeps exactly the extent of its input: nothing sensitive is uncovered, nothing
   else is covered, and spans that only touch stay apart. Every span has the best score of the
   findings in it and a label that was reported with that score.
   */
  lemma MergedIsMerge(fs: seq<Finding>)
    requires Proper(fs)
    ensures IsMergeOf(Merged(fs), fs)
  {
    var sorted := SortByKey(fs);
    SortKeepsMembers(fs);
    AbsorbAllIsMerge(sorted);
    MergeDependsOnMembers(Merged(fs), sorted, fs);
  }

  lemma MergeDependsOnMembers(out: seq<Finding>, a: seq<Finding>, b: seq<Finding>)
    requires IsMergeOf(out, a)
    requires forall f :: f in a <==> f in b
    ensures IsMergeOf(out, b)
  {
    forall x ensures Covers(a, x) <==> Covers(b, x) {}
    forall x ensures Glues(a, x) <==> Glues(b, x) {}
    forall o | o in out ensures Labels(o, b) {
      assert Labels(o, a);
    }
  }

  // ---------------------------------------------------------------- the extent decides the spans

  ghost predicate SameSpans(a: seq<Finding>, b: seq<Finding>) {
    |a| == |b| && forall i :: 0 <= i < |a| ==> a[i].start == b[i].start && a[i].end == b[i].end
  }

  lemma FirstEndNotAfter(a: seq<Finding>, b: seq<Finding>)
    requires Disjoint(a) && Disjoint(b) && SameExtent(a, b) && a != [] && b != []
    requires a[0].start == b[0].start
    ensures b[0].end <= a[0].end
  {
    assert b[0] in b;
    assert b[0].start < a[0].end < b[0].end ==> Glues(b, a[0].end);
    FirstEndNotGlued(a);
    assert a[0] in a;
  }

  lemma FirstEndNotGlued(a: seq<Finding>)
    requires Disjoint(a) && a != []
    ensures !Glues(a, a[0].end)
  {
    forall f | f in a ensures !(f.start < a[0].end < f.end) {
      var i :| 0 <= i < |a| && a[i] == f;
    }
  }

  lemma FirstStartNotAfter(a: seq<Finding>, b: seq<Finding>)
    requires Disjoint(a) && Disjoint(b) && SameExtent(a, b) && b != []
    ensures a != [] && a[0].start <= b[0].start
  {
    assert b[0] in b;
    assert Covers(b, b[0].start);
    var f :| f in a && f.start <= b[0].start < f.end;
    var i :| 0 <= i < |a| && a[i] == f;
    assert a[0] in a;
  }

  lemma TailExtent(a: seq<Finding>, x: int)
    requires Disjoint(a) && a != []
    ensures Covers(a[1..], x) <==> Covers(a, x) && a[0].end <= x
    ensures Glues(a[1..], x) <==> Glues(a, x) && a[0].end < x
  {
    assert a == [a[0]] + a[1..];
    assert a[0] in a;
    forall f | f in a[1..] ensures f in a && a[0].end <= f.start {
      var i :| 0 <= i < |a[1..]| && a[1..][i] == f;
      assert a[i + 1] == f;
    }
  }

  lemma TailsShareExtent(a: seq<Finding>, b: seq<Finding>)
    requires Disjoint(a) && Disjoint(b) && SameExtent(a, b) && a != [] && b != [] && a[0].end == b[0].end
    ensures Disjoint(a[1..]) && Disjoint(b[1..]) && SameExtent(a[1..], b[1..])
  {
    forall x
      ensures Covers(a[1..], x) <==> Covers(b[1..], x)
      ensures Glues(a[1..], x) <==> Glues(b[1..], x)
    {
      TailExtent(a, x);
      TailExtent(b, x);
    }
    TailDisjoint(a);
    TailDisjoint(b);
  }

  lemma TailDisjoint(a: seq<Finding>)
    requires Disjoint(a) && a != []
    ensures Disjoint(a[1..])
  {
    forall i, j | 0 <= i < j < |a[1..]| ensures a[1..][i].end <= a[1..][j].start {
      assert a[i + 1].end <= a[j + 1].start;
    }
  }

  lemma SameExtentSymmetric(a: seq<Finding>, b: seq<Finding>)
    requires SameExtent(a, b)
    ensures SameExtent(b, a)
  {
  }

  lemma {:induction false} ExtentDecidesSpans(a: seq<Finding>, b: seq<Finding>)
    requires Disjoint(a) && Disjoint(b) && SameExtent(a, b)
    ensures SameSpans(a, b)
  {
    hide Disjoint, SameExtent;
    SameExtentSymmetric(a, b);
    if a != [] { FirstStartNotAfter(b, a); }
    if b != [] { FirstStartNotAfter(a, b); }
    if a != [] && b != [] {
      FirstEndNotAfter(a, b);
      FirstEndNotAfter(b, a);
      TailsShareExtent(a, b);
      ExtentDecidesSpans(a[1..], b[1..]);
      assert a == [a[0]] + a[1..] && b == [b[0]] + b[1..];
    }
  }

  /** Two merges of one set of findings have the same spans and the same scores. */
  lemma MergesAgree(a: seq<Finding>, b: seq<Finding>, fs: seq<Finding>)
    requires IsMergeOf(a, fs) && IsMergeOf(b, fs)
    ensures SameSpans(a, b)
    ensures forall i :: 0 <= i < |a| ==> a[i].score == b[i].score
  {
    ExtentDecidesSpans(a, b);
    forall i | 0 <= i < |a| ensures a[i].score == b[i].score {
      assert a[i] in a && b[i] in b;
      assert Labels(a[i], fs) && Labels(b[i], fs);
      LabelsDecideScore(a[i], b[i], fs);
    }
  }

  lemma LabelsDecideScore(o: Finding, p: Finding, fs: seq<Finding>)
    requires Labels(o, fs) && Labels(p, fs) && o.start == p.start && o.end == p.end
    ensures o.score == p.score
  {
    var f :| f in fs && Within(f, o) && f.score == o.score;
    var g :| g in fs && Within(g, p) && g.score == p.score;
    assert Within(f, p) && Within(g, o);
  }

  /** Merging a merge changes nothing. */
  lemma MergedIsIdempotent(fs: seq<Finding>)
    requires Proper(fs)
    ensures Merged(Merged(fs)) == Merged(fs)
  {
    MergedIsMerge(fs);
    DisjointIsFixed(Merged(fs));
  }

  lemma DisjointIsFixed(out: seq<Finding>)
    requires Disjoint(out)
    ensures Merged(out) == out
  {
    forall i, j | 0 <= i < j < |out| ensures KeyLeq(out[i], out[j]) {
      assert out[i] in out;
    }
    SortOfSortedIsIdentity(out);
    AbsorbAllOfDisjoint(out);
  }

  lemma {:induction false} AbsorbAllOfDisjoint(out: seq<Finding>)
    requires Disjoint(out)
    ensures AbsorbAll(out) == out
  {
    if out != [] {
      var front := out[..|out| - 1];
      assert out == front + [Last(out)];
      AbsorbAllOfDisjoint(front);
    }
  }

  // ---------------------------------------------------------------- overlap components

  predicate Overlap(f: Finding, g: Finding) {
    f.start < g.end && g.start < f.end
  }

  ghost predicate IsChain(path: seq<Finding>, fs: seq<Finding>) {
    path != [] && (forall f :: f in path ==> f in fs)
    && forall i :: 0 <= i < |path| - 1 ==> Overlap(path[i], path[i + 1])
  }

  /** `f` and `g` belong to one connected component of the overlap relation on `fs`. */
  ghost predicate Connected(f: Finding, g: Finding, fs: seq<Finding>) {
    exists path :: IsChain(path, fs) && path[0] == f && Last(path) == g
  }

  lemma ConnectedSelf(f: Finding, fs: seq<Finding>)
    requires f in fs
    ensures Connected(f, f, fs)
  {
    assert IsChain([f], fs) && [f][0] == f && Last([f]) == f;
  }

  lemma ConnectedStep(f: Finding, g: Finding, h: Finding, fs: seq<Finding>)
    requires Connected(f, g, fs) && Overlap(g, h) && h in fs
    ensures Connected(f, h, fs)
  {
    var path :| IsChain(path, fs) && path[0] == f && Last(path) == g;
    var longer := path + [h];
    assert IsChain(longer, fs) && longer[0] == f && Last(longer) == h;
  }

  lemma ConnectedSymmetric(f: Finding, g: Finding, fs: seq<Finding>)
    requires Connected(f, g, fs)
    ensures Connected(g, f, fs)
  {
    var path :| IsChain(path, fs) && path[0] == f && Last(path) == g;
    var back := seq(|path|, i requires 0 <= i < |path| => path[|path| - 1 - i]);
    forall h | h in back ensures h in fs {
      var i :| 0 <= i < |back| && back[i] == h;
      assert path[|path| - 1 - i] in path;
    }
    forall i | 0 <= i < |back| - 1 ensures Overlap(back[i], back[i + 1]) {
      assert Overlap(path[|path| - 2 - i], path[|path| - 2 - i + 1]);
    }
    assert IsChain(back, fs) && back[0] == g && Last(back) == f;
  }

  /** Walking along overlaps never leaves a span. */
  lemma {:induction false} ChainStaysWithin(out: seq<Finding>, fs: seq<Finding>, path: seq<Finding>, o: Finding)
    requires Disjoint(out) && Houses(out, fs) && Proper(fs) && o in out
    requires IsChain(path, fs) && Within(path[0], o)
    ensures Within(Last(path), o)
    decreases |path|
  {
    if |path| > 1 {
      assert Overlap(path[0], path[1]);
      assert path[1] in path;
      assert Within(path[1], o) by {
        HousedWithin(out, fs, path[1], o);
      }
      forall g | g in path[1..] ensures g in fs { assert g in path; }
      forall i | 0 <= i < |path[1..]| - 1 ensures Overlap(path[1..][i], path[1..][i + 1]) {
        assert Overlap(path[i + 1], path[i + 2]);
      }
      ChainStaysWithin(out, fs, path[1..], o);
    }
  }

  /** From `cur`, reach across the end of the last finding again and again until `g` is met. */
  lemma {:induction false} ConnectedReach(out: seq<Finding>, fs: seq<Finding>, f: Finding, cur: Finding,
                                          g: Finding, o: Finding)
    requires Groups(out, fs) && Proper(fs) && o in out
    requires cur in fs && g in fs && Within(cur, o) && Within(g, o)
    requires Connected(f, cur, fs) && cur.start < g.end
    ensures Connected(f, g, fs)
    decreases g.start - cur.end
  {
    assert cur.start < cur.end && g.start < g.end;
    if g.start < cur.end {
      ConnectedStep(f, cur, g, fs);
    } else {
      var next := FindingAcross(out, fs, cur.end, o);
      ConnectedStep(f, cur, next, fs);
      ConnectedReach(out, fs, f, next, g, o);
    }
  }

  /** Every position strictly inside a span is strictly inside a finding of that span. */
  lemma FindingAcross(out: seq<Finding>, fs: seq<Finding>, x: int, o: Finding) returns (f: Finding)
    requires Groups(out, fs) && Proper(fs) && o in out && o.start < x < o.end
    ensures f in fs && f.start < x < f.end && Within(f, o)
  {
    assert Glues(out, x);
    f :| f in fs && f.start < x < f.end;
    HousedWithin(out, fs, f, o);
  }

  lemma SpanIsConnected(out: seq<Finding>, fs: seq<Finding>, f: Finding, g: Finding, o: Finding)
    requires Groups(out, fs) && Proper(fs) && o in out
    requires f in fs && g in fs && Within(f, o) && Within(g, o)
    ensures Connected(f, g, fs)
  {
    if f.start < g.end {
      ConnectedSelf(f, fs);
      ConnectedReach(out, fs, f, f, g, o);
    } else {
      ConnectedSelf(g, fs);
      ConnectedReach(out, fs, g, g, f, o);
      ConnectedSymmetric(g, f, fs);
    }
  }

  lemma ConnectedShareSpan(out: seq<Finding>, fs: seq<Finding>, f: Finding, g: Finding) returns (o: Finding)
    requires Groups(out, fs) && Proper(fs) && Connected(f, g, fs)
    ensures o in out && Within(f, o) && Within(g, o)
  {
    var path :| IsChain(path, fs) && path[0] == f && Last(path) == g;
    assert path[0] in path;
    o :| o in out && Within(f, o);
    ChainStaysWithin(out, fs, path, o);
  }

  /** The spans of a merge are exactly the overlap components of its input. */
  lemma SpansAreOverlapComponents(fs: seq<Finding>, f: Finding, g: Finding)
    requires Proper(fs) && f in fs && g in fs
    ensures Connected(f, g, fs) <==> exists o :: o in Merged(fs) && Within(f, o) && Within(g, o)
  {
    MergedIsMerge(fs);
    if Connected(f, g, fs) {
      var o := ConnectedShareSpan(Merged(fs), fs, f, g);
    }
    if o :| o in Merged(fs) && Within(f, o) && Within(g, o) {
      SpanIsConnected(Merged(fs), fs, f, g, o);
    }
  }

  // ---------------------------------------------------------------- merging in two stages

  /** `fs` has the members of the `parts`, in any order and with any repetition. */
  ghost predicate Flattens(parts: seq<seq<Finding>>, fs: seq<Finding>) {
    forall f :: f in fs <==> exists i :: 0 <= i < |parts| && f in parts[i]
  }

  lemma ExtentOfParts(parts: seq<seq<Finding>>, fs: seq<Finding>, x: int)
    requires Flattens(parts, fs)
    ensures Covers(fs, x) <==> exists i :: 0 <= i < |parts| && Covers(parts[i], x)
    ensures Glues(fs, x) <==> exists i :: 0 <= i < |parts| && Glues(parts[i], x)
  {
    if Covers(fs, x) {
      var f :| f in fs && f.start <= x < f.end;
      var i :| 0 <= i < |parts| && f in parts[i];
      assert Covers(parts[i], x);
    }
    if Glues(fs, x) {
      var f :| f in fs && f.start < x < f.end;
      var i :| 0 <= i < |parts| && f in parts[i];
      assert Glues(parts[i], x);
    }
  }

  ghost predicate MergedParts(outs: seq<seq<Finding>>, parts: seq<seq<Finding>>) {
    |outs| == |parts|
    && forall i {:trigger IsMergeOf(outs[i], parts[i])} :: 0 <= i < |parts| ==> IsMergeOf(outs[i], parts[i])
  }

  lemma StagesKeepExtent(outs: seq<seq<Finding>>, parts: seq<seq<Finding>>, gs: seq<Finding>, fs: seq<Finding>)
    requires MergedParts(outs, parts) && Flattens(outs, gs) && Flattens(parts, fs)
    ensures SameExtent(gs, fs)
  {
    forall x
      ensures Covers(gs, x) <==> Covers(fs, x)
      ensures Glues(gs, x) <==> Glues(fs, x)
    {
      ExtentOfParts(outs, gs, x);
      ExtentOfParts(parts, fs, x);
      forall i | 0 <= i < |parts|
        ensures Covers(outs[i], x) <==> Covers(parts[i], x)
        ensures Glues(outs[i], x) <==> Glues(parts[i], x)
      {
        assert IsMergeOf(outs[i], parts[i]);
      }
    }
  }

  lemma StagesHouse(outs: seq<seq<Finding>>, parts: seq<seq<Finding>>, gs: seq<Finding>, fs: seq<Finding>,
                    f: Finding) returns (g: Finding)
    requires MergedParts(outs, parts) && Flattens(outs, gs) && Flattens(parts, fs) && f in fs
    ensures g in gs && Within(f, g) && f.score <= g.score
  {
    var i :| 0 <= i < |parts| && f in parts[i];
    assert IsMergeOf(outs[i], parts[i]);
    g :| g in outs[i] && Within(f, g);
    assert Labels(g, parts[i]);
  }

  lemma StagesTrace(outs: seq<seq<Finding>>, parts: seq<seq<Finding>>, gs: seq<Finding>, fs: seq<Finding>,
                    g: Finding) returns (f: Finding)
    requires MergedParts(outs, parts) && Flattens(outs, gs) && Flattens(parts, fs) && g in gs
    ensures f in fs && Within(f, g) && f.score == g.score && f.kind == g.kind
  {
    var i :| 0 <= i < |outs| && g in outs[i];
    assert IsMergeOf(outs[i], parts[i]);
    assert Labels(g, parts[i]);
    f :| f in parts[i] && Within(f, g) && f.score == g.score && f.kind == g.kind;
  }

  lemma StagesLabel(out: seq<Finding>, outs: seq<seq<Finding>>, parts: seq<seq<Finding>>, gs: seq<Finding>,
                    fs: seq<Finding>, o: Finding)
    requires MergedParts(outs, parts) && Flattens(outs, gs) && Flattens(parts, fs)
    requires Disjoint(out) && Houses(out, gs) && Proper(gs) && Proper(fs) && o in out && Labels(o, gs)
    ensures Labels(o, fs)
  {
    var g :| g in gs && Within(g, o) && g.score == o.score && g.kind == o.kind;
    var f := StagesTrace(outs, parts, gs, fs, g);
    forall e | e in fs && Within(e, o) ensures e.score <= o.score {
      assert e.start < e.end;
      var h := StagesHouse(outs, parts, gs, fs, e);
      HousedWithin(out, gs, h, o);
    }
  }

  /** Merging parts first and then merging the merges is one merge of everything. */
  lemma TwoStageMerge(out: seq<Finding>, outs: seq<seq<Finding>>, parts: seq<seq<Finding>>, gs: seq<Finding>,
                      fs: seq<Finding>)
    requires MergedParts(outs, parts) && Flattens(outs, gs) && Flattens(parts, fs)
    requires Proper(fs) && IsMergeOf(out, gs)
    ensures IsMergeOf(out, fs)
  {
    StagesKeepExtent(outs, parts, gs, fs);
    forall f | f in fs ensures exists o :: o in out && Within(f, o) {
      var g := StagesHouse(outs, parts, gs, fs, f);
      var o :| o in out && Within(g, o);
      assert Within(f, o);
    }
    forall g | g in gs ensures g.start < g.end {
      var f := StagesTrace(outs, parts, gs, fs, g);
    }
    forall o | o in out ensures Labels(o, fs) {
      assert Labels(o, gs);
      StagesLabel(out, outs, parts, gs, fs, o);
    }
  }

  // ---------------------------------------------------------------- shifting

  function Shift(f: Finding, offset: int): Finding {
    f.(start := f.start + offset, end := f.end + offset)
  }

  function ShiftAll(fs: seq<Finding>, offset: int): (r: seq<Finding>)
    ensures |r| == |fs|
  {
    seq(|fs|, i requires 0 <= i < |fs| => Shift(fs[i], offset))
  }

  lemma ShiftMembers(fs: seq<Finding>, offset: int)
    ensures forall f :: f in ShiftAll(fs, offset) <==> Shift(f, -offset) in fs
  {
    forall f ensures f in ShiftAll(fs, offset) <==> Shift(f, -offset) in fs {
      if Shift(f, -offset) in fs {
        var i :| 0 <= i < |fs| && fs[i] == Shift(f, -offset);
        assert ShiftAll(fs, offset)[i] == f;
      }
    }
  }

  lemma ShiftExtent(fs: seq<Finding>, offset: int, x: int)
    ensures Covers(ShiftAll(fs, offset), x) <==> Covers(fs, x - offset)
    ensures Glues(ShiftAll(fs, offset), x) <==> Glues(fs, x - offset)
  {
    var shifted := ShiftAll(fs, offset);
    ShiftMembers(fs, offset);
    if Covers(fs, x - offset) {
      var f :| f in fs && f.start <= x - offset < f.end;
      assert Shift(Shift(f, offset), -offset) == f;
      assert Shift(f, offset) in shifted;
    }
    if Glues(fs, x - offset) {
      var f :| f in fs && f.start < x - offset < f.end;
      assert Shift(Shift(f, offset), -offset) == f;
      assert Shift(f, offset) in shifted;
    }
  }

  lemma ShiftLabels(o: Finding, fs: seq<Finding>, offset: int)
    requires Labels(o, fs)
    ensures Labels(Shift(o, offset), ShiftAll(fs, offset))
  {
    ShiftMembers(fs, offset);
    var f :| f in fs && Within(f, o) && f.score == o.score && f.kind == o.kind;
    assert Shift(Shift(f, offset), -offset) == f;
    assert Shift(f, offset) in ShiftAll(fs, offset);
  }

  /** A merge moved as a whole is a merge of the moved findings. */
  lemma ShiftIsMerge(out: seq<Finding>, fs: seq<Finding>, offset: int)
    requires IsMergeOf(out, fs)
    ensures IsMergeOf(ShiftAll(out, offset), ShiftAll(fs, offset))
  {
    ShiftMembers(out, offset);
    ShiftMembers(fs, offset);
    forall x
      ensures Covers(ShiftAll(out, offset), x) <==> Covers(ShiftAll(fs, offset), x)
      ensures Glues(ShiftAll(out, offset), x) <==> Glues(ShiftAll(fs, offset), x)
    {
      ShiftExtent(out, offset, x);
      ShiftExtent(fs, offset, x);
    }
    forall f | f in ShiftAll(fs, offset) ensures exists o :: o in ShiftAll(out, offset) && Within(f, o) {
      var o :| o in out && Within(Shift(f, -offset), o);
      assert Shift(Shift(o, offset), -offset) == o;
      assert Within(f, Shift(o, offset));
    }
    forall o | o in ShiftAll(out, offset) ensures Labels(o, ShiftAll(fs, offset)) {
      var p := Shift(o, -offset);
      assert p in out && Shift(p, offset) == o;
      assert Labels(p, fs);
      ShiftLabels(p, fs, offset);
    }
    forall i | 0 <= i < |out| ensures ShiftAll(out, offset)[i].start < ShiftAll(out, offset)[i].end {
      assert out[i] in out;
    }
  }
}
