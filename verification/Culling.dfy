/**
 The culling loops of R_SubdividePatchToGrid. A marked line is removed by sliding the later ones
 down, and the loop then steps past the line that slid into its place without looking at it.
 */
module Culling {
  import opened Vertex
  import opened Subdivision

  /** The lines the loop keeps, from line p on, of a grid of `width` lines. */
  function Kept(errors: seq<real>, p: nat, width: nat): (kept: seq<nat>)
    requires width <= |errors|
    decreases width - p
  {
    if p >= width then []
    else if p == width - 1 then [p]
    else if errors[p] != COLINEAR then [p] + Kept(errors, p + 1, width)
    else [p + 1] + Kept(errors, p + 2, width)
  }

  /** The lines that are not marked, and the last one. */
  function Unmarked(errors: seq<real>, p: nat, width: nat): (kept: seq<nat>)
    requires width <= |errors|
    decreases width - p
  {
    if p >= width then []
    else if p == width - 1 || errors[p] != COLINEAR then [p] + Unmarked(errors, p + 1, width)
    else Unmarked(errors, p + 1, width)
  }

  /** What the loop leaves of a grid: line 0 is never looked at. */
  function KeptLines(errors: seq<real>, width: nat): seq<nat>
    requires 2 <= width <= |errors|
  {
    [0] + Kept(errors, 1, width)
  }

  /** The filter the loop stands for: both end lines and the unmarked lines in between. */
  function UnmarkedLines(errors: seq<real>, width: nat): seq<nat>
    requires 2 <= width <= |errors|
  {
    [0] + Unmarked(errors, 1, width)
  }

  /** Two marked lines next to each other, at p or later, strictly inside the grid. */
  ghost predicate AdjacentMarks(errors: seq<real>, p: nat, width: nat)
    requires width <= |errors|
  {
    exists k, l :: p <= k && l == k + 1 && l < width - 1 && errors[k] == COLINEAR && errors[l] == COLINEAR
  }

  lemma {:induction false} UnmarkedFrom(errors: seq<real>, p: nat, width: nat)
    requires width <= |errors|
    ensures forall i :: 0 <= i < |Unmarked(errors, p, width)| ==> p <= Unmarked(errors, p, width)[i] < width
    decreases width - p
  {
    if p < width {
      UnmarkedFrom(errors, p + 1, width);
    }
  }

  /** A line with no marked neighbour after it can be passed over when looking for adjacent marks. */
  lemma AdjacentLater(errors: seq<real>, p: nat, width: nat)
    requires p < width <= |errors|
    requires !(p + 1 < width - 1 && errors[p] == COLINEAR && errors[p + 1] == COLINEAR)
    ensures AdjacentMarks(errors, p, width) <==> AdjacentMarks(errors, p + 1, width)
  {
    if AdjacentMarks(errors, p, width) {
      var k, l :| p <= k && l == k + 1 && l < width - 1 && errors[k] == COLINEAR && errors[l] == COLINEAR;
      assert k != p;
    }
  }

  lemma {:induction false} KeptIsUnmarkedFrom(errors: seq<real>, p: nat, width: nat)
    requires width <= |errors|
    ensures Kept(errors, p, width) == Unmarked(errors, p, width) <==> !AdjacentMarks(errors, p, width)
    decreases width - p
  {
    if p + 1 >= width {
    } else if errors[p] != COLINEAR {
      KeptIsUnmarkedFrom(errors, p + 1, width);
      AdjacentLater(errors, p, width);
      SameTail(p, Kept(errors, p + 1, width), Unmarked(errors, p + 1, width));
    } else if p + 1 < width - 1 && errors[p + 1] == COLINEAR {
      UnmarkedFrom(errors, p + 2, width);
      assert Kept(errors, p, width)[0] == p + 1;
      assert Unmarked(errors, p, width) == Unmarked(errors, p + 2, width);
    } else {
      KeptIsUnmarkedFrom(errors, p + 2, width);
      AdjacentLater(errors, p, width);
      AdjacentLater(errors, p + 1, width);
      SameTail(p + 1, Kept(errors, p + 2, width), Unmarked(errors, p + 2, width));
    }
  }

  lemma SameTail(p: nat, a: seq<nat>, b: seq<nat>)
    ensures [p] + a == [p] + b <==> a == b
  {
    assert ([p] + a)[1..] == a && ([p] + b)[1..] == b;
  }

  /** The loop is the filter exactly when no two marked lines are neighbours. */
  lemma CullIsFilter(errors: seq<real>, width: nat)
    requires 2 <= width <= |errors|
    ensures KeptLines(errors, width) == UnmarkedLines(errors, width) <==> !AdjacentMarks(errors, 1, width)
  {
    KeptIsUnmarkedFrom(errors, 1, width);
    assert KeptLines(errors, width)[1..] == Kept(errors, 1, width);
    assert UnmarkedLines(errors, width)[1..] == Unmarked(errors, 1, width);
  }

  /** A table that meets the loop's promise falls short of it: two neighbouring marks, one survives. */
  lemma AdjacentMarkSurvives()
    ensures KeptLines([0.0, COLINEAR, COLINEAR, 0.0], 4) == [0, 2, 3]
    ensures UnmarkedLines([0.0, COLINEAR, COLINEAR, 0.0], 4) == [0, 3]
  {
    var errors := [0.0, COLINEAR, COLINEAR, 0.0];
    assert Kept(errors, 3, 4) == [3];
    assert Kept(errors, 1, 4) == [2] + Kept(errors, 3, 4);
    assert Unmarked(errors, 3, 4) == [3] + Unmarked(errors, 4, 4);
    assert Unmarked(errors, 1, 4) == Unmarked(errors, 2, 4) == Unmarked(errors, 3, 4);
  }

  ghost predicate Increasing(lines: seq<nat>) {
    forall a, b :: 0 <= a < b < |lines| ==> lines[a] < lines[b]
  }

  /** Increasing lines between lo and hi, the last of which is hi - 1. */
  ghost predicate UpTo(lines: seq<nat>, lo: nat, hi: nat) {
    && |lines| > 0 && lines[|lines| - 1] == hi - 1
    && Increasing(lines)
    && (forall i :: 0 <= i < |lines| ==> lo <= lines[i] < hi)
  }

  lemma UpToPrepend(line: nat, lines: seq<nat>, lo: nat, hi: nat)
    requires UpTo(lines, line + 1, hi) && lo <= line
    ensures UpTo([line] + lines, lo, hi)
  {
    var all := [line] + lines;
    assert forall i :: 1 <= i < |all| ==> all[i] == lines[i - 1];
  }

  lemma {:induction false} KeptUpTo(errors: seq<real>, p: nat, width: nat, kept: seq<nat>)
    requires p < width <= |errors| && kept == Kept(errors, p, width)
    ensures UpTo(kept, p, width)
    decreases width - p
  {
    if p + 1 == width {
      return;
    }
    var next := KeptNext(errors, p, width);
    if next + 1 == width {
      assert kept == [next];
      return;
    }
    KeptUpTo(errors, next + 1, width, Kept(errors, next + 1, width));
    UpToPrepend(next, Kept(errors, next + 1, width), p, width);
  }

  /** The first line kept: this one, or the one behind it if this one is marked. */
  lemma KeptNext(errors: seq<real>, p: nat, width: nat) returns (next: nat)
    requires p + 1 < width <= |errors|
    ensures next == if errors[p] != COLINEAR then p else p + 1
    ensures Kept(errors, p, width) == [next] + Kept(errors, next + 1, width)
  {
    next := if errors[p] != COLINEAR then p else p + 1;
  }

  /** Marks at odd lines only, as subdivision leaves them in a grid of odd width, are never neighbours. */
  lemma OddMarksCull(errors: seq<real>, width: nat)
    requires 2 <= width <= |errors| && OddMarks(errors)
    ensures KeptLines(errors, width) == UnmarkedLines(errors, width)
  {
    CullIsFilter(errors, width);
  }

  /**
   What culling leaves: both end lines, in order, and no marked line strictly inside.
   */
  lemma KeptLinesShape(errors: seq<real>, width: nat)
    requires 2 <= width <= |errors|
    ensures
      var kept := KeptLines(errors, width);
      && 2 <= |kept| <= width && Increasing(kept)
      && kept[0] == 0 && kept[|kept| - 1] == width - 1
      && (forall i :: 0 <= i < |kept| ==> kept[i] < width)
      && (OddMarks(errors) && width % 2 == 1 ==> forall i :: 0 <= i < |kept| ==> errors[kept[i]] != COLINEAR)
  {
    KeptUpTo(errors, 1, width, Kept(errors, 1, width));
    UpToPrepend(0, Kept(errors, 1, width), 0, width);
    var kept := KeptLines(errors, width);
    IncreasingLength(kept, width);
    if OddMarks(errors) && width % 2 == 1 {
      OddMarksCull(errors, width);
      UnmarkedAre(errors, 1, width);
    }
  }

  /** Just the lines that are not marked, and both ends. */
  lemma UnmarkedLinesAre(errors: seq<real>, width: nat, k: nat)
    requires 2 <= width <= |errors|
    ensures k in UnmarkedLines(errors, width) <==> k < width && (k == 0 || k == width - 1 || errors[k] != 999.0)
  {
    UnmarkedHolds(errors, 1, width, k);
  }

  lemma {:induction false} UnmarkedHolds(errors: seq<real>, p: nat, width: nat, k: nat)
    requires width <= |errors|
    ensures k in Unmarked(errors, p, width) <==> p <= k < width && (k == width - 1 || errors[k] != 999.0)
    decreases width - p
  {
    if p < width {
      UnmarkedHolds(errors, p + 1, width, k);
    }
  }

  lemma {:induction false} UnmarkedAre(errors: seq<real>, p: nat, width: nat)
    requires width <= |errors| && (width > 0 ==> errors[width - 1] != COLINEAR)
    ensures forall i :: 0 <= i < |Unmarked(errors, p, width)| ==>
              Unmarked(errors, p, width)[i] < width && errors[Unmarked(errors, p, width)[i]] != COLINEAR
    decreases width - p
  {
    if p < width {
      UnmarkedAre(errors, p + 1, width);
    }
  }

  lemma {:induction false} IncreasingLength(lines: seq<nat>, width: nat)
    requires Increasing(lines) && forall i :: 0 <= i < |lines| ==> lines[i] < width
    ensures |lines| <= width
  {
    if |lines| > 0 {
      var n := |lines| - 1;
      IncreasingLength(lines[..n], lines[n]);
    }
  }

  // ---------------------------------------------------------------- the loops

  /** Where the line in slot c comes from when line i is slid over. */
  function Skip(i: nat, c: nat): nat {
    if c < i then c else c + 1
  }

  /** Copies column j onto the one before it. */
  method MoveColumn(ctrl: array2<Vert>, j: nat, height: nat)
    requires 0 < j < ctrl.Length1 && height <= ctrl.Length0
    modifies ctrl
    ensures forall k :: 0 <= k < height ==> ctrl[k, j - 1] == old(ctrl[k, j])
    ensures forall c, k :: 0 <= c < ctrl.Length1 && 0 <= k < height && c != j - 1 ==> ctrl[k, c] == old(ctrl[k, c])
  {
    for k := 0 to height
      invariant forall l :: 0 <= l < k ==> ctrl[l, j - 1] == old(ctrl[l, j])
      invariant forall c, l :: 0 <= c < ctrl.Length1 && 0 <= l < height && c != j - 1 ==> ctrl[l, c] == old(ctrl[l, c])
    {
      ctrl[k, j - 1] := ctrl[k, j];
    }
  }

  /** Slides the columns after column i down by one, with their error entries. */
  method SlideColumns(ctrl: array2<Vert>, errors: array<real>, i: nat, width: nat, height: nat)
    requires i < width <= ctrl.Length1 == errors.Length && height <= ctrl.Length0
    modifies ctrl, errors
    ensures forall c :: 0 <= c < width - 1 ==> errors[c] == old(errors[Skip(i, c)])
    ensures forall c, k :: 0 <= c < width - 1 && 0 <= k < height ==> ctrl[k, c] == old(ctrl[k, Skip(i, c)])
  {
    for j := i + 1 to width
      invariant forall c :: 0 <= c < i || j - 1 <= c < width ==> errors[c] == old(errors[c])
      invariant forall c :: i <= c < j - 1 ==> errors[c] == old(errors[c + 1])
      invariant forall c, k :: (0 <= c < i || j - 1 <= c < width) && 0 <= k < height ==> ctrl[k, c] == old(ctrl[k, c])
      invariant forall c, k :: i <= c < j - 1 && 0 <= k < height ==> ctrl[k, c] == old(ctrl[k, c + 1])
    {
      MoveColumn(ctrl, j, height);
      errors[j - 1] := errors[j];
    }
  }

  /** Copies row j onto the one before it. */
  method MoveRow(ctrl: array2<Vert>, j: nat, width: nat)
    requires 0 < j < ctrl.Length0 && width <= ctrl.Length1
    modifies ctrl
    ensures forall k :: 0 <= k < width ==> ctrl[j - 1, k] == old(ctrl[j, k])
    ensures forall c, k :: 0 <= c < ctrl.Length0 && 0 <= k < width && c != j - 1 ==> ctrl[c, k] == old(ctrl[c, k])
  {
    for k := 0 to width
      invariant forall l :: 0 <= l < k ==> ctrl[j - 1, l] == old(ctrl[j, l])
      invariant forall c, l :: 0 <= c < ctrl.Length0 && 0 <= l < width && c != j - 1 ==> ctrl[c, l] == old(ctrl[c, l])
    {
      ctrl[j - 1, k] := ctrl[j, k];
    }
  }

  /** Slides the rows after row i down by one, with their error entries. */
  method SlideRows(ctrl: array2<Vert>, errors: array<real>, i: nat, height: nat, width: nat)
    requires i < height <= ctrl.Length0 == errors.Length && width <= ctrl.Length1
    modifies ctrl, errors
    ensures forall c :: 0 <= c < height - 1 ==> errors[c] == old(errors[Skip(i, c)])
    ensures forall c, k :: 0 <= c < height - 1 && 0 <= k < width ==> ctrl[c, k] == old(ctrl[Skip(i, c), k])
  {
    for j := i + 1 to height
      invariant forall c :: 0 <= c < i || j - 1 <= c < height ==> errors[c] == old(errors[c])
      invariant forall c :: i <= c < j - 1 ==> errors[c] == old(errors[c + 1])
      invariant forall c, k :: (0 <= c < i || j - 1 <= c < height) && 0 <= k < width ==> ctrl[c, k] == old(ctrl[c, k])
      invariant forall c, k :: i <= c < j - 1 && 0 <= k < width ==> ctrl[c, k] == old(ctrl[c + 1, k])
    {
      MoveRow(ctrl, j, width);
      errors[j - 1] := errors[j];
    }
  }

  function Drop(source: seq<nat>, i: nat): (r: seq<nat>)
    requires i < |source|
    ensures |r| == |source| - 1 && forall c :: 0 <= c < |r| ==> r[c] == source[Skip(i, c)]
  {
    source[..i] + source[i + 1..]
  }

  function Range(lo: nat, hi: nat): (r: seq<nat>)
    requires lo <= hi
    ensures |r| == hi - lo && forall c :: 0 <= c < hi - lo ==> r[c] == lo + c
  {
    seq(hi - lo, c requires 0 <= c => lo + c)
  }

  ghost predicate Lines(source: seq<nat>, width: nat, width0: nat) {
    |source| == width && forall c :: 0 <= c < width ==> source[c] < width0
  }

  /**
   Half way through the loop: the first i slots are settled, the others hold a run of lines up to
   the last one, and what the loop will keep of that run completes the result.
   */
  ghost predicate Remaining(source: seq<nat>, marks: seq<real>, i: nat, width0: nat)
    requires 2 <= width0 <= |marks|
  {
    && i <= |source| <= width0
    && (forall c :: i <= c < |source| ==> source[c] == width0 - |source| + c)
    && source[..i] + Kept(marks, width0 - |source| + i, width0) == KeptLines(marks, width0)
  }

  lemma RemainingStep(source: seq<nat>, marks: seq<real>, i: nat, width0: nat)
    requires 2 <= width0 <= |marks| && Remaining(source, marks, i, width0) && i < |source| - 1
    ensures marks[source[i]] != COLINEAR ==> Remaining(source, marks, i + 1, width0)
    ensures marks[source[i]] == COLINEAR ==> Remaining(Drop(source, i), marks, i + 1, width0)
  {
    if marks[source[i]] != COLINEAR {
      RemainingStay(source, marks, i, width0);
    } else {
      RemainingDrop(source, marks, i, width0);
    }
  }

  lemma RemainingStay(source: seq<nat>, marks: seq<real>, i: nat, width0: nat)
    requires 2 <= width0 <= |marks| && Remaining(source, marks, i, width0) && i < |source| - 1 && marks[source[i]] != COLINEAR
    ensures Remaining(source, marks, i + 1, width0)
  {
    var p := width0 - |source| + i;
    TakeNext(source, i);
    var rest := KeptBehind(marks, p, width0, source[..i], KeptLines(marks, width0), source[..i + 1]);
    assert width0 - |source| + (i + 1) == p + 1;
  }

  lemma RemainingDrop(source: seq<nat>, marks: seq<real>, i: nat, width0: nat)
    requires 2 <= width0 <= |marks| && Remaining(source, marks, i, width0) && i < |source| - 1 && marks[source[i]] == COLINEAR
    ensures Remaining(Drop(source, i), marks, i + 1, width0)
  {
    var p := width0 - |source| + i;
    DropTake(source, i);
    var rest := KeptBehind(marks, p, width0, source[..i], KeptLines(marks, width0), Drop(source, i)[..i + 1]);
    assert width0 - |Drop(source, i)| + (i + 1) == p + 2;
  }

  /** One more line settled leaves one less to be kept behind it. */
  lemma KeptBehind(marks: seq<real>, p: nat, width0: nat, done: seq<nat>, all: seq<nat>, done': seq<nat>) returns (rest: seq<nat>)
    requires p + 1 < width0 <= |marks| && done + Kept(marks, p, width0) == all
    requires done' == done + [if marks[p] != COLINEAR then p else p + 1]
    ensures rest == Kept(marks, if marks[p] != COLINEAR then p + 1 else p + 2, width0) && done' + rest == all
  {
    var line := KeptNext(marks, p, width0);
    rest := Kept(marks, line + 1, width0);
    MoveOver(done, line, Kept(marks, p, width0), rest, all, done');
  }

  lemma MoveOver(done: seq<nat>, line: nat, here: seq<nat>, rest: seq<nat>, all: seq<nat>, done': seq<nat>)
    requires done + here == all && here == [line] + rest && done' == done + [line]
    ensures done' + rest == all
  {
  }

  lemma TakeNext(source: seq<nat>, i: nat)
    requires i < |source|
    ensures source[..i + 1] == source[..i] + [source[i]]
  {
  }

  lemma DropTake(source: seq<nat>, i: nat)
    requires i + 1 < |source|
    ensures Drop(source, i)[..i + 1] == source[..i] + [source[i + 1]]
  {
  }

  lemma RemainingDone(source: seq<nat>, marks: seq<real>, i: nat, width0: nat)
    requires 2 <= width0 <= |marks| && Remaining(source, marks, i, width0) && i >= |source| - 1
    ensures source == KeptLines(marks, width0)
  {
    if i == |source| {
      assert source[..i] == source;
    } else {
      assert source == source[..i] + [width0 - 1];
    }
  }

  /** Removes the marked columns; slot c ends with the vertices and the error of column kept[c]. */
  method CullColumns(ctrl: array2<Vert>, errors: array<real>, width0: nat, height: nat) returns (width: nat, ghost kept: seq<nat>)
    requires 2 <= width0 <= ctrl.Length1 == errors.Length && height <= ctrl.Length0
    modifies ctrl, errors
    ensures kept == KeptLines(old(errors[..]), width0) && width == |kept| <= width0
    ensures forall c :: 0 <= c < width ==> kept[c] < width0 && errors[c] == old(errors[kept[c]])
    ensures forall c, k :: 0 <= c < width && 0 <= k < height ==> ctrl[k, c] == old(ctrl[k, kept[c]])
  {
    ghost var marks := errors[..];
    ghost var source := Range(0, width0);  // the column of the old grid that each slot now holds
    assert source[..1] == [0];
    width := width0;
    var i := 1;
    while i < width - 1
      invariant 1 <= i <= width <= width0 && Lines(source, width, width0)
      invariant Remaining(source, marks, i, width0)
      invariant forall c :: 0 <= c < width ==> errors[c] == marks[source[c]]
      invariant forall c, k :: 0 <= c < width && 0 <= k < height ==> ctrl[k, c] == old(ctrl[k, source[c]])
    {
      RemainingStep(source, marks, i, width0);
      if errors[i] != COLINEAR {
        i := i + 1;
        continue;
      }
      SlideColumns(ctrl, errors, i, width, height);
      width := width - 1;
      source := Drop(source, i);
      i := i + 1;
    }
    RemainingDone(source, marks, i, width0);
    kept := source;
  }

  /** Removes the marked rows; slot c ends with the vertices and the error of row kept[c]. */
  method CullRows(ctrl: array2<Vert>, errors: array<real>, height0: nat, width: nat) returns (height: nat, ghost kept: seq<nat>)
    requires 2 <= height0 <= ctrl.Length0 == errors.Length && width <= ctrl.Length1
    modifies ctrl, errors
    ensures kept == KeptLines(old(errors[..]), height0) && height == |kept| <= height0
    ensures forall c :: 0 <= c < height ==> kept[c] < height0 && errors[c] == old(errors[kept[c]])
    ensures forall c, k :: 0 <= c < height && 0 <= k < width ==> ctrl[c, k] == old(ctrl[kept[c], k])
  {
    ghost var marks := errors[..];
    ghost var source := Range(0, height0);  // the row of the old grid that each slot now holds
    assert source[..1] == [0];
    height := height0;
    var i := 1;
    while i < height - 1
      invariant 1 <= i <= height <= height0 && Lines(source, height, height0)
      invariant Remaining(source, marks, i, height0)
      invariant forall c :: 0 <= c < height ==> errors[c] == marks[source[c]]
      invariant forall c, k :: 0 <= c < height && 0 <= k < width ==> ctrl[c, k] == old(ctrl[source[c], k])
    {
      RemainingStep(source, marks, i, height0);
      if errors[i] != COLINEAR {
        i := i + 1;
        continue;
      }
      SlideRows(ctrl, errors, i, height, width);
      height := height - 1;
      source := Drop(source, i);
      i := i + 1;
    }
    RemainingDone(source, marks, i, height0);
    kept := source;
  }
}
