/**
 Writing one redacted string back into the text leaves it was flattened from (`redistribute_redacted_text`
 in proxy/app/protocol_types.py). The edit script is any one that turns the original into the redacted text.
 */
module WriteBack {
  import opened Wrappers

  datatype Tag = Equal | Insert | Delete | Replace

  /** Positions `a0..a1` of the original become positions `b0..b1` of the redacted text. */
  datatype Op = Op(tag: Tag, a0: nat, a1: nat, b0: nat, b1: nat)

  type Differ = (string, string) -> seq<Op>

  ghost predicate ValidOp(op: Op, a: string, b: string) {
    && op.a0 <= op.a1 <= |a| && op.b0 <= op.b1 <= |b|
    && match op.tag
       case Equal => op.a0 < op.a1 && a[op.a0..op.a1] == b[op.b0..op.b1]
       case Insert => op.a0 == op.a1 && op.b0 < op.b1
       case Delete => op.a0 < op.a1 && op.b0 == op.b1
       case Replace => op.a0 < op.a1 && op.b0 < op.b1
  }

  function EndOf(ops: seq<Op>): (nat, nat) {
    if ops == [] then (0, 0) else (ops[|ops| - 1].a1, ops[|ops| - 1].b1)
  }

  /** The operations cover both texts from the left, up to `EndOf(ops)`, without gaps. */
  ghost predicate ValidPrefix(ops: seq<Op>, a: string, b: string)
    decreases |ops|
  {
    ops != [] ==>
      var front, op := ops[..|ops| - 1], ops[|ops| - 1];
      ValidPrefix(front, a, b) && ValidOp(op, a, b) && (op.a0, op.b0) == EndOf(front)
  }

  ghost predicate ValidScript(ops: seq<Op>, a: string, b: string) {
    ValidPrefix(ops, a, b) && EndOf(ops) == (|a|, |b|)
  }

  ghost predicate ValidDiffer(diff: Differ) {
    forall a, b :: ValidScript(diff(a, b), a, b)
  }

  // ---------------------------------------------------------------- leaves

  function Join(leaves: seq<string>): string {
    if leaves == [] then "" else Join(leaves[..|leaves| - 1]) + leaves[|leaves| - 1]
  }

  /** The position at which leaf `i` starts, and leaf `i - 1` ends. */
  function Start(leaves: seq<string>, i: nat): nat
    requires i <= |leaves|
  {
    |Join(leaves[..i])|
  }

  lemma {:induction false} StartNext(leaves: seq<string>, i: nat)
    requires i < |leaves|
    ensures Join(leaves[..i + 1]) == Join(leaves[..i]) + leaves[i]
    ensures Start(leaves, i + 1) == Start(leaves, i) + |leaves[i]|
  {
    assert leaves[..i + 1][..i] == leaves[..i];
  }

  lemma {:induction false} JoinPrefix(leaves: seq<string>, i: nat, j: nat)
    requires i <= j <= |leaves|
    ensures Join(leaves[..i]) <= Join(leaves[..j])
    ensures Start(leaves, i) <= Start(leaves, j)
    decreases j - i
  {
    if i < j {
      StartNext(leaves, j - 1);
      JoinPrefix(leaves, i, j - 1);
    }
  }

  lemma {:induction false} JoinAll(leaves: seq<string>)
    ensures Start(leaves, |leaves|) == |Join(leaves)| && leaves[..|leaves|] == leaves && Start(leaves, 0) == 0
  {
    assert leaves[..|leaves|] == leaves;
  }

  /** The leaf holding `position`; the last leaf for a position past every leaf. */
  function LeafFrom(leaves: seq<string>, position: nat, i: nat): (k: nat)
    requires i <= |leaves| && leaves != []
    ensures k < |leaves|
    decreases |leaves| - i
  {
    if i == |leaves| then |leaves| - 1
    else if Start(leaves, i) <= position < Start(leaves, i + 1) then i
    else LeafFrom(leaves, position, i + 1)
  }

  function LeafFor(leaves: seq<string>, position: nat): (k: nat)
    requires leaves != []
    ensures k < |leaves|
  {
    LeafFrom(leaves, position, 0)
  }

  lemma {:induction false} LeafFromHolds(leaves: seq<string>, position: nat, i: nat)
    requires leaves != [] && i <= |leaves| && Start(leaves, i) <= position <= |Join(leaves)|
    ensures var k := LeafFrom(leaves, position, i);
            (Start(leaves, k) <= position
             && if position < |Join(leaves)| then position < Start(leaves, k + 1) else k == |leaves| - 1)
    decreases |leaves| - i
  {
    hide Join, Start;
    JoinAll(leaves);
    if i < |leaves| {
      JoinPrefix(leaves, i + 1, |leaves|);
      if !(position < Start(leaves, i + 1)) {
        LeafFromHolds(leaves, position, i + 1);
      }
    } else {
      JoinPrefix(leaves, |leaves| - 1, |leaves|);
    }
  }

  lemma {:induction false} LeafForHolds(leaves: seq<string>, position: nat)
    requires leaves != [] && position <= |Join(leaves)|
    ensures var k := LeafFor(leaves, position);
            (Start(leaves, k) <= position
             && if position < |Join(leaves)| then position < Start(leaves, k + 1) else k == |leaves| - 1)
  {
    JoinAll(leaves);
    LeafFromHolds(leaves, position, 0);
  }

  // ---------------------------------------------------------------- applying a script

  function Max(a: int, b: int): int { if a < b then b else a }

  function Min(a: int, b: int): int { if a < b then a else b }

  predicate Overlaps(leaves: seq<string>, op: Op, i: nat)
    requires i < |leaves|
  {
    Max(op.a0, Start(leaves, i)) < Min(op.a1, Start(leaves, i + 1))
  }

  function Clamp(x: int, lo: int, hi: int): int { Max(lo, Min(x, hi)) }

  /** How far into `op`'s stretch of the original the leaves before leaf `m` reach. */
  function Reach(leaves: seq<string>, op: Op, m: nat): (r: nat)
    requires m <= |leaves| && op.a0 <= op.a1
    ensures r <= op.a1 - op.a0
  {
    Clamp(Start(leaves, m), op.a0, op.a1) - op.a0
  }

  lemma {:induction false} ReachGrows(leaves: seq<string>, op: Op, i: nat, redacted: string)
    requires i < |leaves| && ValidOp(op, Join(leaves), redacted)
    ensures Reach(leaves, op, i) <= Reach(leaves, op, i + 1)
    ensures op.tag.Equal? ==> op.b0 + Reach(leaves, op, i + 1) <= op.b1
    ensures Overlaps(leaves, op, i) <==> Reach(leaves, op, i) < Reach(leaves, op, i + 1)
    ensures Overlaps(leaves, op, i) ==> op.a0 + Reach(leaves, op, i) == Max(op.a0, Start(leaves, i))
                                        && op.a0 + Reach(leaves, op, i + 1) == Min(op.a1, Start(leaves, i + 1))
  {
    hide Join, Start;
    JoinPrefix(leaves, i, i + 1);
    if op.tag.Equal? { EqualLengths(op, Join(leaves), redacted); }
  }

  /** What operation `op` adds to leaf `i`. */
  function Piece(leaves: seq<string>, redacted: string, op: Op, i: nat): string
    requires i < |leaves| && ValidOp(op, Join(leaves), redacted)
  {
    match op.tag
    case Insert => if i == LeafFor(leaves, op.a0) then redacted[op.b0..op.b1] else ""
    case Delete => ""
    case Equal =>
      ReachGrows(leaves, op, i, redacted);
      redacted[op.b0 + Reach(leaves, op, i)..op.b0 + Reach(leaves, op, i + 1)]
    case Replace => if i == LeafFor(leaves, op.a0) then redacted[op.b0..op.b1] else ""
  }

  lemma {:induction false} EqualLengths(op: Op, a: string, b: string)
    requires ValidOp(op, a, b) && op.tag.Equal?
    ensures op.a1 - op.a0 == op.b1 - op.b0
  {
    assert |a[op.a0..op.a1]| == |b[op.b0..op.b1]|;
  }

  function Pieces(leaves: seq<string>, redacted: string, op: Op): (p: seq<string>)
    requires ValidOp(op, Join(leaves), redacted)
    ensures |p| == |leaves|
  {
    seq(|leaves|, i requires 0 <= i < |leaves| => Piece(leaves, redacted, op, i))
  }

  function Zip(a: seq<string>, b: seq<string>): (r: seq<string>)
    requires |a| == |b|
    ensures |r| == |a|
  {
    seq(|a|, i requires 0 <= i < |a| => a[i] + b[i])
  }

  function ApplyAll(leaves: seq<string>, redacted: string, ops: seq<Op>): (output: seq<string>)
    requires ValidPrefix(ops, Join(leaves), redacted)
    ensures |output| == |leaves|
    decreases |ops|
  {
    if ops == [] then seq(|leaves|, _ => "")
    else Zip(ApplyAll(leaves, redacted, ops[..|ops| - 1]), Pieces(leaves, redacted, ops[|ops| - 1]))
  }

  function Redistributed(leaves: seq<string>, redacted: string, diff: Differ): (output: seq<string>)
    requires ValidDiffer(diff)
    ensures |output| == |leaves|
  {
    if leaves == [] then []
    else if Join(leaves) == redacted then leaves
    else
      assert ValidScript(diff(Join(leaves), redacted), Join(leaves), redacted);
      ApplyAll(leaves, redacted, diff(Join(leaves), redacted))
  }

  lemma {:induction false} PrefixOfScript(ops: seq<Op>, a: string, b: string, k: nat)
    requires ValidPrefix(ops, a, b) && k <= |ops|
    ensures ValidPrefix(ops[..k], a, b)
    decreases |ops|
  {
    if k < |ops| {
      PrefixOfScript(ops[..|ops| - 1], a, b, k);
      assert ops[..|ops| - 1][..k] == ops[..k];
    } else {
      assert ops[..k] == ops;
    }
  }

  /** Leaves before the one holding `op.a0` do not overlap a non-empty `op`; that one does. */
  lemma {:induction false} FirstOverlap(leaves: seq<string>, op: Op, redacted: string, i: nat)
    requires leaves != [] && i < |leaves| && ValidOp(op, Join(leaves), redacted) && op.a0 < op.a1
    ensures i < LeafFor(leaves, op.a0) ==> !Overlaps(leaves, op, i)
    ensures i == LeafFor(leaves, op.a0) ==> Overlaps(leaves, op, i)
  {
    hide Join, Start, LeafFor;
    var k := LeafFor(leaves, op.a0);
    LeafForHolds(leaves, op.a0);
    if i < k {
      JoinPrefix(leaves, i + 1, k);
    }
  }

  ghost predicate IsBoundaries(leaves: seq<string>, boundaries: seq<(nat, nat)>) {
    |boundaries| <= |leaves|
    && forall i :: 0 <= i < |boundaries| ==> boundaries[i] == (Start(leaves, i), Start(leaves, i + 1))
  }

  method BoundariesOf(leaves: seq<string>) returns (boundaries: seq<(nat, nat)>)
    ensures IsBoundaries(leaves, boundaries) && |boundaries| == |leaves|
  {
    boundaries := [];
    var cursor := 0;
    var i := 0;
    while i < |leaves|
      invariant 0 <= i <= |leaves| && |boundaries| == i
      invariant IsBoundaries(leaves, boundaries) && cursor == Start(leaves, i)
    {
      StartNext(leaves, i);
      boundaries := boundaries + [(cursor, cursor + |leaves[i]|)];
      cursor := cursor + |leaves[i]|;
      i := i + 1;
    }
  }

  method LeafForPosition(ghost leaves: seq<string>, boundaries: seq<(nat, nat)>, position: nat) returns (k: nat)
    requires IsBoundaries(leaves, boundaries) && |boundaries| == |leaves| && leaves != []
    ensures k == LeafFor(leaves, position)
  {
    hide Start;
    var index := 0;
    while index < |boundaries|
      invariant 0 <= index <= |boundaries|
      invariant LeafFrom(leaves, position, 0) == LeafFrom(leaves, position, index)
    {
      if boundaries[index].0 <= position < boundaries[index].1 {
        return index;
      }
      index := index + 1;
    }
    return |boundaries| - 1;
  }

  lemma {:induction false} EqualShare(leaves: seq<string>, redacted: string, op: Op, i: nat, from: nat, to: nat)
    requires i < |leaves| && ValidOp(op, Join(leaves), redacted) && op.tag.Equal?
    requires from == Reach(leaves, op, i) && to == Reach(leaves, op, i + 1)
    ensures from <= to <= op.b1 - op.b0 && op.b1 <= |redacted|
    ensures Piece(leaves, redacted, op, i) == redacted[op.b0..op.b1][from..to]
  {
    hide Start, Join, Reach, Piece, LeafFor, Overlaps;
    ReachGrows(leaves, op, i, redacted);
    EqualLengths(op, Join(leaves), redacted);
    assert op.b1 <= |redacted|;
    hide ValidOp;
    EqualPiece(leaves, redacted, op, i, op.b0 + from, op.b0 + to);
    SliceOfSlice(redacted, op.b0, op.b1, from, to);
  }

  lemma {:induction false} OtherShare(leaves: seq<string>, redacted: string, op: Op, i: nat)
    requires i < |leaves| && ValidOp(op, Join(leaves), redacted) && !op.tag.Equal? && !op.tag.Insert?
    ensures Piece(leaves, redacted, op, i)
         == if op.tag.Replace? && i == LeafFor(leaves, op.a0) then redacted[op.b0..op.b1] else ""
  {
    hide Start, Join, LeafFor;
  }

  /** One operation that is not an insertion, written leaf by leaf. */
  method WriteOp(ghost leaves: seq<string>, boundaries: seq<(nat, nat)>, redacted: string, op: Op, before: seq<string>)
    returns (output: seq<string>)
    requires IsBoundaries(leaves, boundaries) && |boundaries| == |leaves| == |before| && leaves != []
    requires ValidOp(op, Join(leaves), redacted) && !op.tag.Insert?
    ensures output == Zip(before, Pieces(leaves, redacted, op))
  {
    hide Start, Join, LeafFor, Piece, Reach;
    output := before;
    var replacement := redacted[op.b0..op.b1];
    var replacementWritten := false;
    var index := 0;
    ghost var first := LeafFor(leaves, op.a0);
    while index < |boundaries|
      invariant 0 <= index <= |boundaries| && |output| == |before|
      invariant forall i :: 0 <= i < index ==> output[i] == before[i] + Piece(leaves, redacted, op, i)
      invariant forall i :: index <= i < |before| ==> output[i] == before[i]
      invariant op.tag.Replace? ==> (replacementWritten <==> first < index)
    {
      FirstOverlap(leaves, op, redacted, index);
      ReachGrows(leaves, op, index, redacted);
      if op.tag.Equal? {
        EqualShare(leaves, redacted, op, index, Reach(leaves, op, index), Reach(leaves, op, index + 1));
      } else {
        OtherShare(leaves, redacted, op, index);
      }
      assert before[index] + "" == before[index];
      var (leafStart, leafEnd) := boundaries[index];
      var overlapStart, overlapEnd := Max(op.a0, leafStart), Min(op.a1, leafEnd);
      if overlapStart < overlapEnd {
        if op.tag.Equal? {
          var offset, length := overlapStart - op.a0, overlapEnd - overlapStart;
          output := output[index := output[index] + replacement[offset..offset + length]];
        } else if op.tag.Replace? && !replacementWritten {
          output := output[index := output[index] + replacement];
          replacementWritten := true;
        }
      }
      assert output[index] == before[index] + Piece(leaves, redacted, op, index);
      index := index + 1;
    }
  }

  method RedistributeRedactedText(leaves: seq<string>, redacted: string, diff: Differ) returns (output: seq<string>)
    requires ValidDiffer(diff)
    ensures output == Redistributed(leaves, redacted, diff)
  {
    hide Join, Pieces, Zip;
    if leaves == [] {
      return [];
    }
    var original := Join(leaves);
    if original == redacted {
      return leaves;
    }
    var boundaries := BoundariesOf(leaves);
    output := seq(|leaves|, _ => "");
    var ops := diff(original, redacted);
    assert ValidScript(ops, original, redacted);
    var n := 0;
    PrefixOfScript(ops, original, redacted, 0);
    while n < |ops|
      invariant 0 <= n <= |ops| && ValidPrefix(ops[..n], original, redacted)
      invariant output == ApplyAll(leaves, redacted, ops[..n])
    {
      PrefixOfScript(ops, original, redacted, n + 1);
      assert ops[..n + 1][..n] == ops[..n];
      var op := ops[n];
      if op.tag.Insert? {
        var k := LeafForPosition(leaves, boundaries, op.a0);
        InsertIsZip(leaves, redacted, op, output);
        output := output[k := output[k] + redacted[op.b0..op.b1]];
      } else {
        output := WriteOp(leaves, boundaries, redacted, op, output);
      }
      n := n + 1;
    }
    assert ops[..n] == ops;
  }

  lemma {:induction false} InsertIsZip(leaves: seq<string>, redacted: string, op: Op, before: seq<string>)
    requires leaves != [] && |before| == |leaves| && ValidOp(op, Join(leaves), redacted) && op.tag.Insert?
    ensures var k := LeafFor(leaves, op.a0);
            before[k := before[k] + redacted[op.b0..op.b1]] == Zip(before, Pieces(leaves, redacted, op))
  {
    hide Start, Join, LeafFor;
    var k := LeafFor(leaves, op.a0);
    var written := before[k := before[k] + redacted[op.b0..op.b1]];
    forall i | 0 <= i < |before| ensures written[i] == before[i] + Piece(leaves, redacted, op, i) {
      assert before[i] + "" == before[i];
    }
    assert written == Zip(before, Pieces(leaves, redacted, op));
  }

  // ---------------------------------------------------------------- nothing is lost or made up

  /** Text already written reaches leaf `k` at most, text still to come starts at leaf `k` at least. */
  lemma {:induction false} ZipJoin(a: seq<string>, b: seq<string>, k: nat)
    requires |a| == |b|
    requires forall i :: k < i < |a| ==> a[i] == ""
    requires forall i :: 0 <= i < k && i < |b| ==> b[i] == ""
    ensures Join(Zip(a, b)) == Join(a) + Join(b)
    decreases |a|
  {
    hide Join;
    if a == [] {
      AllEmpty(a);
      assert Zip(a, b) == a && b == a;
    }
    if a != [] {
      var n := |a| - 1;
      ZipJoin(a[..n], b[..n], k);
      assert Zip(a, b)[..n] == Zip(a[..n], b[..n]);
      if n <= k {
        AllEmpty(b[..n]);
      }
      JoinLast(a);
      JoinLast(b);
      JoinLast(Zip(a, b));
      Interleave(Join(a[..n]), Join(b[..n]), a[n], b[n]);
    }
  }

  lemma {:induction false} JoinLast(leaves: seq<string>)
    requires leaves != []
    ensures Join(leaves) == Join(leaves[..|leaves| - 1]) + leaves[|leaves| - 1]
  {
  }

  lemma {:induction false} Interleave(x: string, y: string, u: string, v: string)
    requires u == "" || y == ""
    ensures (x + y) + (u + v) == (x + u) + (y + v)
  {
    assert (x + y) + (u + v) == (x + u) + (y + v);
  }

  lemma {:induction false} AllEmpty(b: seq<string>)
    requires forall i :: 0 <= i < |b| ==> b[i] == ""
    ensures Join(b) == ""
  {
    if b != [] {
      AllEmpty(b[..|b| - 1]);
    }
  }

  lemma {:induction false} JoinOfOne(b: seq<string>, k: nat)
    requires k < |b| && forall i :: 0 <= i < |b| && i != k ==> b[i] == ""
    ensures Join(b) == b[k]
    decreases |b|
  {
    var n := |b| - 1;
    if k == n {
      AllEmpty(b[..n]);
    } else {
      JoinOfOne(b[..n], k);
    }
  }

  lemma {:induction false} EqualPiece(leaves: seq<string>, redacted: string, op: Op, i: nat, from: nat, to: nat)
    requires i < |leaves| && ValidOp(op, Join(leaves), redacted) && op.tag.Equal?
    requires from == op.b0 + Reach(leaves, op, i) && to == op.b0 + Reach(leaves, op, i + 1)
    requires from <= to <= |redacted|
    ensures Piece(leaves, redacted, op, i) == redacted[from..to]
  {
    hide Join, Start, Reach, LeafFor, ValidOp, Overlaps;
  }

  ghost predicate SliceAt(shares: seq<string>, text: string, cuts: seq<nat>, i: nat) {
    i < |shares| && i + 1 < |cuts| && cuts[i] <= cuts[i + 1] <= |text| && shares[i] == text[cuts[i]..cuts[i + 1]]
  }

  /** Adjacent slices of a text, joined, are one slice. */
  lemma {:induction false} SlicesJoin(shares: seq<string>, text: string, cuts: seq<nat>)
    requires |cuts| == |shares| + 1 && cuts[0] <= |text|
    requires forall i: nat {:trigger SliceAt(shares, text, cuts, i)} :: i < |shares| ==> SliceAt(shares, text, cuts, i)
    ensures cuts[0] <= cuts[|shares|] <= |text| && Join(shares) == text[cuts[0]..cuts[|shares|]]
    decreases |shares|
  {
    if shares != [] {
      var n := |shares| - 1;
      var front, frontCuts := shares[..n], cuts[..n + 1];
      forall i: nat {:trigger SliceAt(front, text, frontCuts, i)} | i < n ensures SliceAt(front, text, frontCuts, i) {
        assert SliceAt(shares, text, cuts, i);
      }
      SlicesJoin(front, text, frontCuts);
      assert SliceAt(shares, text, cuts, n);
      AdjacentSlices(text, cuts[0], cuts[n], cuts[n + 1]);
    }
  }

  /** The shares of an unchanged stretch are the stretch. */
  lemma {:induction false} EqualSharesJoin(leaves: seq<string>, redacted: string, op: Op)
    requires leaves != [] && ValidOp(op, Join(leaves), redacted) && op.tag.Equal?
    ensures Join(Pieces(leaves, redacted, op)) == redacted[op.b0..op.b1]
  {
    var n, shares := |leaves|, Pieces(leaves, redacted, op);
    var cuts := seq(n + 1, i requires 0 <= i < n + 1 => op.b0 + Reach(leaves, op, i));
    EqualLengths(op, Join(leaves), redacted);
    ReachStarts(leaves, op);
    hide Start, Reach, Join, Piece, Overlaps, ValidOp, SliceAt;
    forall i: nat | i < n ensures SliceAt(shares, redacted, cuts, i) {
      EqualSlice(leaves, redacted, op, i, shares, cuts);
    }
    SlicesJoin(shares, redacted, cuts);
  }

  lemma {:induction false} EqualSlice(leaves: seq<string>, redacted: string, op: Op, i: nat, shares: seq<string>,
                                      cuts: seq<nat>)
    requires i < |leaves| && ValidOp(op, Join(leaves), redacted) && op.tag.Equal?
    requires i < |shares| && shares[i] == Piece(leaves, redacted, op, i)
    requires i + 1 < |cuts| && cuts[i] == op.b0 + Reach(leaves, op, i)
             && cuts[i + 1] == op.b0 + Reach(leaves, op, i + 1)
    ensures SliceAt(shares, redacted, cuts, i)
  {
    ReachGrows(leaves, op, i, redacted);
    hide Start, Reach, Join, Piece, Overlaps;
    EqualPiece(leaves, redacted, op, i, cuts[i], cuts[i + 1]);
  }

  lemma {:induction false} ReachStarts(leaves: seq<string>, op: Op)
    requires op.a0 <= op.a1 <= |Join(leaves)|
    ensures Reach(leaves, op, 0) == 0 && Reach(leaves, op, |leaves|) == op.a1 - op.a0
  {
    JoinAll(leaves);
  }

  /** All an operation writes, taken together, is its stretch of the redacted text. */
  lemma {:induction false} PiecesJoin(leaves: seq<string>, redacted: string, op: Op)
    requires leaves != [] && ValidOp(op, Join(leaves), redacted)
    ensures Join(Pieces(leaves, redacted, op)) == redacted[op.b0..op.b1]
  {
    hide Join, Start, LeafFor;
    var shares := Pieces(leaves, redacted, op);
    match op.tag
    case Equal =>
      EqualSharesJoin(leaves, redacted, op);
    case Delete =>
      AllEmpty(shares);
    case _ =>
      JoinOfOne(shares, LeafFor(leaves, op.a0));
  }

  /** Writes never go back: nothing is written before the leaf an operation starts in. */
  lemma {:induction false} PiecesStartAt(leaves: seq<string>, redacted: string, op: Op, i: nat)
    requires leaves != [] && i < |leaves| && ValidOp(op, Join(leaves), redacted)
    ensures i < LeafFor(leaves, op.a0) ==> Piece(leaves, redacted, op, i) == ""
    ensures LeafFor(leaves, op.a0) <= LeafFor(leaves, op.a1)
    ensures i > LeafFor(leaves, op.a1) ==> Piece(leaves, redacted, op, i) == ""
  {
    hide Join, Start, LeafFor;
    var from, to := LeafFor(leaves, op.a0), LeafFor(leaves, op.a1);
    LeafForHolds(leaves, op.a0);
    LeafForHolds(leaves, op.a1);
    ReachGrows(leaves, op, i, redacted);
    if op.a0 < op.a1 {
      FirstOverlap(leaves, op, redacted, i);
    }
    if to < from {
      JoinPrefix(leaves, to + 1, from);
    }
    if to < i {
      JoinPrefix(leaves, to + 1, i);
    }
  }

  lemma {:induction false} AppliedSoFar(leaves: seq<string>, redacted: string, ops: seq<Op>)
    requires leaves != [] && ValidPrefix(ops, Join(leaves), redacted)
    ensures EndOf(ops).0 <= |Join(leaves)| && EndOf(ops).1 <= |redacted|
    ensures Join(ApplyAll(leaves, redacted, ops)) == redacted[..EndOf(ops).1]
    ensures forall i :: LeafFor(leaves, EndOf(ops).0) < i < |leaves| ==> ApplyAll(leaves, redacted, ops)[i] == ""
    decreases |ops|
  {
    hide Join, LeafFor, Piece, Start, Reach, Overlaps;
    if ops == [] {
      AllEmpty(seq(|leaves|, _ => ""));
    } else {
      var front, op := ops[..|ops| - 1], ops[|ops| - 1];
      AppliedSoFar(leaves, redacted, front);
      var before, shares := ApplyAll(leaves, redacted, front), Pieces(leaves, redacted, op);
      forall i | 0 <= i < |leaves|
        ensures i < LeafFor(leaves, op.a0) ==> shares[i] == ""
        ensures i > LeafFor(leaves, op.a1) ==> shares[i] == "" && before[i] == ""
      {
        PiecesStartAt(leaves, redacted, op, i);
      }
      ZipJoin(before, shares, LeafFor(leaves, op.a0));
      PiecesJoin(leaves, redacted, op);
      AdjacentSlices(redacted, 0, op.b0, op.b1);
    }
  }

  /**
   The leaves written back hold exactly the redacted text, in order. With no leaf at all there is nowhere to
   write, and only an empty redaction survives.
   */
  lemma {:induction false} WriteBackConserves(leaves: seq<string>, redacted: string, diff: Differ)
    requires ValidDiffer(diff)
    ensures |Redistributed(leaves, redacted, diff)| == |leaves|
    ensures Join(Redistributed(leaves, redacted, diff)) == redacted <==> leaves != [] || redacted == ""
  {
    if leaves != [] && Join(leaves) != redacted {
      var ops := diff(Join(leaves), redacted);
      assert ValidScript(ops, Join(leaves), redacted);
      AppliedSoFar(leaves, redacted, ops);
    }
  }

  // ---------------------------------------------------------------- what stays as it is

  /** `op` changes text of leaf `i`, or inserts text into it. */
  predicate Touches(leaves: seq<string>, op: Op, i: nat)
    requires i < |leaves|
  {
    match op.tag
    case Equal => false
    case Insert => i == LeafFor(leaves, op.a0)
    case _ => Overlaps(leaves, op, i)
  }

  lemma {:induction false} AdjacentSlices(s: string, i: nat, j: nat, k: nat)
    requires i <= j <= k <= |s|
    ensures s[i..j] + s[j..k] == s[i..k]
  {
    assert s[i..j] + s[j..k] == s[i..k];
  }

  lemma {:induction false} UntouchedEqualShare(leaves: seq<string>, redacted: string, op: Op, i: nat)
    requires i < |leaves| && ValidOp(op, Join(leaves), redacted) && op.tag.Equal?
    ensures Reach(leaves, op, i) <= Reach(leaves, op, i + 1) <= op.a1 - op.a0
    ensures op.a1 <= |Join(leaves)|
    ensures Piece(leaves, redacted, op, i)
         == Join(leaves)[op.a0 + Reach(leaves, op, i)..op.a0 + Reach(leaves, op, i + 1)]
  {
    hide Join, Start, LeafFor, Reach, Overlaps, Piece;
    ReachGrows(leaves, op, i, redacted);
    EqualPiece(leaves, redacted, op, i, op.b0 + Reach(leaves, op, i), op.b0 + Reach(leaves, op, i + 1));
    EqualLengths(op, Join(leaves), redacted);
    SliceOfSlice(Join(leaves), op.a0, op.a1, Reach(leaves, op, i), Reach(leaves, op, i + 1));
    SliceOfSlice(redacted, op.b0, op.b1, Reach(leaves, op, i), Reach(leaves, op, i + 1));
  }

  lemma {:induction false} UntouchedShare(leaves: seq<string>, redacted: string, op: Op, i: nat)
    requires i < |leaves| && ValidOp(op, Join(leaves), redacted) && !Touches(leaves, op, i)
    ensures var lo, hi := Start(leaves, i), Start(leaves, i + 1);
            0 <= lo <= hi <= |Join(leaves)|
            && Piece(leaves, redacted, op, i) == Join(leaves)[Clamp(op.a0, lo, hi)..Clamp(op.a1, lo, hi)]
  {
    hide Join, Start, LeafFor;
    JoinAll(leaves);
    JoinPrefix(leaves, i, i + 1);
    JoinPrefix(leaves, i + 1, |leaves|);
    match op.tag
    case Equal =>
      UntouchedEqualShare(leaves, redacted, op, i);
      ReachGrows(leaves, op, i, redacted);
      if !Overlaps(leaves, op, i) {
        var at := op.a0 + Reach(leaves, op, i);
        assert Join(leaves)[at..at] == "";
      }
    case Replace =>
      FirstOverlap(leaves, op, redacted, i);
    case _ =>
  }

  lemma {:induction false} UntouchedSoFar(leaves: seq<string>, redacted: string, ops: seq<Op>, i: nat)
    requires i < |leaves| && ValidPrefix(ops, Join(leaves), redacted)
    requires forall op :: op in ops ==> !Touches(leaves, op, i)
    ensures var lo, hi := Start(leaves, i), Start(leaves, i + 1);
            0 <= lo <= hi <= |Join(leaves)| && EndOf(ops).0 <= |Join(leaves)|
            && ApplyAll(leaves, redacted, ops)[i] == Join(leaves)[lo..Clamp(EndOf(ops).0, lo, hi)]
    decreases |ops|
  {
    hide Join, Start, LeafFor, Piece, Touches;
    JoinAll(leaves);
    JoinPrefix(leaves, i, i + 1);
    JoinPrefix(leaves, i + 1, |leaves|);
    if ops != [] {
      var front, op := ops[..|ops| - 1], ops[|ops| - 1];
      assert op in ops && forall o :: o in front ==> o in ops;
      UntouchedSoFar(leaves, redacted, front, i);
      UntouchedShare(leaves, redacted, op, i);
    }
  }

  /** A leaf with no edit inside it and no insertion into it comes back unchanged. */
  lemma {:induction false} UntouchedLeafUnchanged(leaves: seq<string>, redacted: string, diff: Differ, i: nat)
    requires ValidDiffer(diff) && i < |leaves|
    requires Join(leaves) != redacted ==>
               forall op :: op in diff(Join(leaves), redacted) ==> !Touches(leaves, op, i)
    ensures Redistributed(leaves, redacted, diff)[i] == leaves[i]
  {
    if Join(leaves) != redacted {
      var ops := diff(Join(leaves), redacted);
      assert ValidScript(ops, Join(leaves), redacted);
      UntouchedSoFar(leaves, redacted, ops, i);
      LeafIsSlice(leaves, i);
    }
  }

  lemma {:induction false} LeafIsSlice(leaves: seq<string>, i: nat)
    requires i < |leaves|
    ensures Start(leaves, i) <= Start(leaves, i + 1) <= |Join(leaves)|
    ensures Join(leaves)[Start(leaves, i)..Start(leaves, i + 1)] == leaves[i]
  {
    StartNext(leaves, i);
    JoinPrefix(leaves, i + 1, |leaves|);
    JoinAll(leaves);
    var upTo := Join(leaves[..i + 1]);
    assert Join(leaves)[..|upTo|] == upTo;
  }
}
