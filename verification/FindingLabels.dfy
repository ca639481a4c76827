/** Which label a merged span keeps when several findings in it have the best score (governance/app/pii.py). */
module FindingLabels {
  import opened Findings

  /** Finding `i` gives span `o` its label: it is the first in it with the best score. */
  ghost predicate Names(s: seq<Finding>, i: nat, o: Finding) {
    && i < |s| && Within(s[i], o) && s[i].score == o.score && s[i].kind == o.kind
    && forall j :: 0 <= j < i && Within(s[j], o) ==> s[j].score < o.score
  }

  ghost predicate Named(s: seq<Finding>, o: Finding) {
    exists i: nat :: Names(s, i, o)
  }

  /** Findings up to the last span that reach into the grown span lie in the last span. */
  lemma OldOnesLieInLast(out: seq<Finding>, front: seq<Finding>, o: Finding, g: Finding)
    requires IsMergeOf(out, front) && Proper(front) && out != [] && g in front
    requires o.start == Last(out).start && Within(g, o)
    ensures Within(g, Last(out)) && g.score <= Last(out).score
  {
    var p := Last(out);
    assert p in out && Labels(p, front) && g.start < g.end;
    HousedEndsLast(out, front, g);
    HousedWithin(out, front, g, p);
  }

  lemma {:induction false} GrownIsNamed(out: seq<Finding>, front: seq<Finding>, item: Finding)
    requires IsMergeOf(out, front) && Proper(front) && out != [] && Named(front, Last(out))
    requires Last(out).start <= item.start < Last(out).end
    ensures Named(front + [item], Last(Absorb(out, item)))
  {
    hide IsMergeOf, Proper;
    var p, o, s := Last(out), Last(Absorb(out, item)), front + [item];
    var i: nat :| Names(front, i, p);
    forall j | 0 <= j < |front| && Within(s[j], o) ensures Within(front[j], p) && front[j].score <= p.score {
      assert s[j] == front[j] && front[j] in front;
      OldOnesLieInLast(out, front, o, front[j]);
    }
    if item.score > p.score {
      assert Names(s, |front|, o);
    } else {
      assert Names(s, i, o);
    }
  }

  lemma {:induction false} FreshIsNamed(out: seq<Finding>, front: seq<Finding>, item: Finding)
    requires IsMergeOf(out, front) && Proper(front) && (out != [] ==> Last(out).end <= item.start)
    requires item.start < item.end
    ensures Named(front + [item], item)
  {
    var s := front + [item];
    forall j | 0 <= j < |front| ensures !Within(s[j], item) {
      assert s[j] == front[j] && front[j] in front;
      HousedEndsLast(out, front, front[j]);
    }
    assert Names(s, |front|, item);
  }

  lemma NamedCarriesOver(front: seq<Finding>, item: Finding, o: Finding)
    requires Named(front, o)
    ensures Named(front + [item], o)
  {
    var i: nat :| Names(front, i, o);
    assert Names(front + [item], i, o);
  }

  lemma {:induction false} AllAreNamed(s: seq<Finding>)
    requires Sorted(s) && Proper(s)
    ensures forall o :: o in AbsorbAll(s) ==> Named(s, o)
  {
    hide Named, Sorted, IsMergeOf;
    if s != [] {
      var front, item := s[..|s| - 1], Last(s);
      FrontIsSorted(s);
      AllAreNamed(front);
      AbsorbAllIsMerge(front);
      var out := AbsorbAll(front);
      assert s == front + [item] && item in s;
      LastIsLabelled(out, front, item);
      forall o | o in Absorb(out, item) ensures Named(s, o) {
        if o in out && (o in out[..|out| - 1] || item.start >= Last(out).end) {
          NamedCarriesOver(front, item, o);
        } else if out != [] && item.start < Last(out).end {
          assert Last(out) in out;
          GrownIsNamed(out, front, item);
        } else {
          FreshIsNamed(out, front, item);
        }
      }
    }
  }

  lemma FrontIsSorted(s: seq<Finding>)
    requires s != [] && Sorted(s) && Proper(s)
    ensures Sorted(s[..|s| - 1]) && Proper(s[..|s| - 1])
  {
  }

  lemma LastIsLabelled(out: seq<Finding>, front: seq<Finding>, item: Finding)
    requires IsMergeOf(out, front) && Sorted(front + [item])
    ensures out != [] ==> Last(out).start <= item.start
  {
    if out != [] {
      assert Last(out) in out && Labels(Last(out), front);
      LastStartsFirst(out, front, item);
    }
  }

  // ---------------------------------------------------------------- before sorting

  lemma {:induction false} FirstWithKey(f: Finding, s: seq<Finding>, i: nat)
    requires i < |s| && s[i] == f && forall j :: 0 <= j < i ==> !SameKey(s[j], f)
    ensures WithKeyOf(f, s) != [] && WithKeyOf(f, s)[0] == f
  {
    if i > 0 {
      FirstWithKey(f, s[1..], i - 1);
    }
  }

  lemma {:induction false} FirstInPlace(f: Finding, fs: seq<Finding>) returns (i: nat)
    requires WithKeyOf(f, fs) != [] && WithKeyOf(f, fs)[0] == f
    ensures i < |fs| && fs[i] == f && forall j :: 0 <= j < i ==> !SameKey(fs[j], f)
  {
    if SameKey(fs[0], f) {
      i := 0;
    } else {
      i := FirstInPlace(f, fs[1..]);
      i := i + 1;
    }
  }

  /**
   Of the findings in a span with its score, the label is that of the one that starts first; of these, that of the
   longest; and of those with one extent, that of the one reported first.
   */
  lemma {:induction false} LabelOnTie(fs: seq<Finding>, o: Finding) returns (i: nat)
    requires Proper(fs) && o in Merged(fs)
    ensures i < |fs| && Within(fs[i], o) && fs[i].score == o.score && fs[i].kind == o.kind
    ensures forall g :: g in fs && Within(g, o) && g.score == o.score ==>
              fs[i].start < g.start || (fs[i].start == g.start && fs[i].end >= g.end)
    ensures forall j :: 0 <= j < i && fs[j].score == o.score ==>
              fs[j].start != fs[i].start || fs[j].end != fs[i].end
  {
    hide Named, Sorted;
    var s := SortByKey(fs);
    SortKeepsMembers(fs);
    SortByKeyIsStableSort(fs);
    assert Proper(s);
    AllAreNamed(s);
    assert Named(s, o);
    var k := NamingIndex(s, o);
    var f := s[k];
    SortedFrom(s, k, o);
    NoneBefore(s, k, o);
    FirstWithKey(f, s, k);
    assert WithKeyOf(f, s) == WithKeyOf(f, fs);
    i := FirstInPlace(f, fs);
  }

  lemma NoneBefore(s: seq<Finding>, k: nat, o: Finding)
    requires Names(s, k, o)
    ensures forall j :: 0 <= j < k ==> !SameKey(s[j], s[k])
  {
  }

  lemma NamingIndex(s: seq<Finding>, o: Finding) returns (i: nat)
    requires Named(s, o)
    ensures Names(s, i, o)
  {
    i :| Names(s, i, o);
  }

  /** What comes later in the order does not start earlier, and is not longer from the same start. */
  lemma SortedFrom(s: seq<Finding>, k: nat, o: Finding)
    requires Sorted(s) && Names(s, k, o)
    ensures forall g :: g in s && Within(g, o) && g.score == o.score ==>
              s[k].start < g.start || (s[k].start == g.start && s[k].end >= g.end)
  {
    forall g | g in s && Within(g, o) && g.score == o.score
      ensures s[k].start < g.start || (s[k].start == g.start && s[k].end >= g.end)
    {
      var j :| 0 <= j < |s| && s[j] == g;
      if k < j {
        assert KeyLeq(s[k], s[j]);
      }
    }
  }
}
