/**
 The horizontal subdivision loop of R_SubdividePatchToGrid: control columns are measured in cyclic
 order and split until every one of them has been seen, unchanged, since the last split.
 */
module Subdivision {
  import opened Vertex
  import opened Bezier
  import opened Runs
  import Arithmetic

  // ---------------------------------------------------------------- reference: spans of a curve

  /** The interval [lo, hi] of the quadratic segment number `piece` of an original curve. */
  datatype Span = Span(piece: nat, lo: real, hi: real) {
    ghost predicate Valid() {
      0.0 <= lo < hi <= 1.0
    }

    function Mid(): real {
      (lo + hi) / 2.0
    }
  }

  ghost predicate Follows(a: Span, b: Span) {
    || (b.piece == a.piece && b.lo == a.hi)
    || (b.piece == a.piece + 1 && a.hi == 1.0 && b.lo == 0.0)
  }

  /** The spans run through the whole curve, in order, without gap or overlap. */
  ghost predicate Tiles(spans: seq<Span>, pieces: nat) {
    && spans != []
    && (forall m :: 0 <= m < |spans| ==> spans[m].Valid())
    && spans[0].piece == 0 && spans[0].lo == 0.0
    && spans[|spans| - 1].piece + 1 == pieces && spans[|spans| - 1].hi == 1.0
    && (forall m, n :: 0 <= m && n == m + 1 < |spans| ==> Follows(spans[m], spans[n]))
  }

  function PieceBlossom(orig: seq<Vert>, piece: nat, u: real, v: real): Vert
    requires 2 * piece + 2 < |orig|
  {
    Blossom(orig[2 * piece], orig[2 * piece + 1], orig[2 * piece + 2], u, v)
  }

  /** p0, p1 and p2 are the control points of the original curve restricted to the span. */
  ghost predicate Covers(orig: seq<Vert>, span: Span, p0: Vert, p1: Vert, p2: Vert) {
    && 2 * span.piece + 2 < |orig|
    && p0 == PieceBlossom(orig, span.piece, span.lo, span.lo)
    && p1 == PieceBlossom(orig, span.piece, span.lo, span.hi)
    && p2 == PieceBlossom(orig, span.piece, span.hi, span.hi)
  }

  /** Segment by segment, the fine row is the original curve restricted to the spans. */
  ghost predicate Refines(orig: seq<Vert>, fine: seq<Vert>, spans: seq<Span>) {
    && |fine| == 2 * |spans| + 1
    && (forall m :: 0 <= m < |spans| ==> Covers(orig, spans[m], fine[2 * m], fine[2 * m + 1], fine[2 * m + 2]))
  }

  ghost function WholeSpans(pieces: nat): (spans: seq<Span>)
    ensures |spans| == pieces
    ensures forall m :: 0 <= m < pieces ==> spans[m] == Span(m, 0.0, 1.0)
  {
    seq(pieces, m requires 0 <= m < pieces => Span(m, 0.0, 1.0))
  }

  ghost function SplitSpan(spans: seq<Span>, m: nat): seq<Span>
    requires m < |spans|
  {
    var s := spans[m];
    spans[..m] + [Span(s.piece, s.lo, s.Mid()), Span(s.piece, s.Mid(), s.hi)] + spans[m + 1..]
  }

  lemma BlossomAtEnds(a: Vert, b: Vert, c: Vert)
    ensures Blossom(a, b, c, 0.0, 0.0) == a
    ensures Blossom(a, b, c, 0.0, 1.0) == b
    ensures Blossom(a, b, c, 1.0, 1.0) == c
  {
  }

  /** Before any split, every row refines itself. */
  lemma RefinesSelf(row: seq<Vert>, pieces: nat)
    requires |row| == 2 * pieces + 1 && pieces > 0
    ensures Refines(row, row, WholeSpans(pieces)) && Tiles(WholeSpans(pieces), pieces)
  {
    forall m | 0 <= m < pieces
      ensures Covers(row, WholeSpans(pieces)[m], row[2 * m], row[2 * m + 1], row[2 * m + 2])
    {
      BlossomAtEnds(row[2 * m], row[2 * m + 1], row[2 * m + 2]);
    }
  }

  lemma SplitSpanTiles(spans: seq<Span>, m: nat, pieces: nat)
    requires Tiles(spans, pieces) && m < |spans|
    ensures Tiles(SplitSpan(spans, m), pieces)
  {
    var s := spans[m];
    assert s.Valid();
    var split := SplitSpan(spans, m);
    forall k | 0 <= k < |split|
      ensures split[k] == if k < m then spans[k]
                          else if k == m then Span(s.piece, s.lo, s.Mid())
                          else if k == m + 1 then Span(s.piece, s.Mid(), s.hi)
                          else spans[k - 1]
    {
    }
    forall k, n | 0 <= k && n == k + 1 < |split|
      ensures Follows(split[k], split[n])
    {
      if n <= m {
        assert Follows(spans[k], spans[n]);
      } else if k > m {
        assert Follows(spans[k - 1], spans[n - 1]);
      }
    }
  }

  // ---------------------------------------------------------------- one split

  /** A row after the two columns around the peak j + 1 have been inserted and the peak replaced. */
  function SplitRow(row: seq<Vert>, j: nat): (r: seq<Vert>)
    requires j + 2 < |row|
    ensures |r| == |row| + 2
  {
    var prev := LerpDrawVert(row[j], row[j + 1]);
    var next := LerpDrawVert(row[j + 1], row[j + 2]);
    row[..j + 1] + [prev, LerpDrawVert(prev, next), next] + row[j + 2..]
  }

  /** Splitting a row at an even column splits exactly one span of the curve it represents. */
  lemma SplitRefines(orig: seq<Vert>, row: seq<Vert>, spans: seq<Span>, m: nat)
    requires Refines(orig, row, spans) && m < |spans|
    ensures Refines(orig, SplitRow(row, 2 * m), SplitSpan(spans, m))
  {
    var s := spans[m];
    var fine := SplitRow(row, 2 * m);
    var split := SplitSpan(spans, m);
    assert Covers(orig, s, row[2 * m], row[2 * m + 1], row[2 * m + 2]);
    Halve(orig[2 * s.piece], orig[2 * s.piece + 1], orig[2 * s.piece + 2], s.lo, s.hi);
    forall k | 0 <= k < |split|
      ensures Covers(orig, split[k], fine[2 * k], fine[2 * k + 1], fine[2 * k + 2])
    {
      if k < m {
        assert Covers(orig, spans[k], row[2 * k], row[2 * k + 1], row[2 * k + 2]);
      } else if k > m + 1 {
        var i := k - 1;
        assert Covers(orig, spans[i], row[2 * i], row[2 * i + 1], row[2 * i + 2]);
        assert fine[2 * k] == row[2 * i] && fine[2 * k + 1] == row[2 * i + 1] && fine[2 * k + 2] == row[2 * i + 2];
      }
    }
  }

  // ---------------------------------------------------------------- the distance test

  function Dot(p: Vec3, q: Vec3): real {
    p.x * q.x + p.y * q.y + p.z * q.z
  }

  function Sub(p: Vec3, q: Vec3): Vec3 {
    Vec3(p.x - q.x, p.y - q.y, p.z - q.z)
  }

  function Scale(p: Vec3, f: real): Vec3 {
    Vec3(p.x * f, p.y * f, p.z * f)
  }

  function Normalize(v: Vec3, sqrt: real -> real): Vec3 {
    var length := sqrt(Dot(v, v));
    if length != 0.0 then Scale(v, 1.0 / length) else v
  }

  /** Squared distance of the middle of the curve a, b, c from the line through a and c. */
  function LineDistanceSquared(a: Vec3, b: Vec3, c: Vec3, sqrt: real -> real): real {
    var mid := Vec3((a.x + b.x * 2.0 + c.x) * 0.25, (a.y + b.y * 2.0 + c.y) * 0.25, (a.z + b.z * 2.0 + c.z) * 0.25);
    var offset := Sub(mid, a);
    var dir := Normalize(Sub(c, a), sqrt);
    var rest := Sub(offset, Scale(dir, Dot(offset, dir)));
    Dot(rest, rest)
  }

  /**
   What the loop consults: the r_subdivisions setting, the square root, and the distance test. The
   results below hold for any square root and any distance test; LineDistanceSquared is the one
   the renderer uses.
   */
  datatype Tuning = Tuning(subdivisions: real, sqrt: real -> real, distanceSquared: (Vec3, Vec3, Vec3) -> real)

  function RendererTuning(subdivisions: real, sqrt: real -> real): Tuning {
    Tuning(subdivisions, sqrt, (a: Vec3, b: Vec3, c: Vec3) => LineDistanceSquared(a, b, c, sqrt))
  }

  /** The squared distance of one row of the column triple at j. */
  function RowDistance(row: seq<Vert>, j: nat, tuning: Tuning): real
    requires j + 2 < |row|
  {
    (tuning.distanceSquared)(row[j].Xyz(), row[j + 1].Xyz(), row[j + 2].Xyz())
  }

  /** The largest squared distance of the column triple at j over the given rows. */
  function MaxDistance(rows: seq<seq<Vert>>, j: nat, tuning: Tuning): real
    requires forall i :: 0 <= i < |rows| ==> j + 2 < |rows[i]|
  {
    if |rows| == 0 then 0.0
    else
      var n := |rows| - 1;
      var rest := MaxDistance(rows[..n], j, tuning);
      var len := RowDistance(rows[n], j, tuning);
      if len > rest then len else rest
  }

  lemma {:induction false} MaxDistanceIsMaximum(rows: seq<seq<Vert>>, j: nat, tuning: Tuning)
    requires forall i :: 0 <= i < |rows| ==> j + 2 < |rows[i]|
    ensures MaxDistance(rows, j, tuning) >= 0.0
    ensures forall i :: 0 <= i < |rows| ==> RowDistance(rows[i], j, tuning) <= MaxDistance(rows, j, tuning)
    ensures MaxDistance(rows, j, tuning) != 0.0 ==>
              exists i :: 0 <= i < |rows| && RowDistance(rows[i], j, tuning) == MaxDistance(rows, j, tuning)
  {
    if |rows| > 0 {
      var n := |rows| - 1;
      MaxDistanceIsMaximum(rows[..n], j, tuning);
      var d := MaxDistance(rows, j, tuning);
      if d != RowDistance(rows[n], j, tuning) && d != 0.0 {
        var i :| 0 <= i < n && RowDistance(rows[..n][i], j, tuning) == d;
        assert RowDistance(rows[i], j, tuning) == d;
      }
      forall i | 0 <= i < |rows|
        ensures RowDistance(rows[i], j, tuning) <= d
      {
        if i < n {
          assert rows[..n][i] == rows[i];
        }
      }
    }
  }

  function Deviation(rows: seq<seq<Vert>>, j: nat, tuning: Tuning): real
    requires forall i :: 0 <= i < |rows| ==> j + 2 < |rows[i]|
  {
    (tuning.sqrt)(MaxDistance(rows, j, tuning))
  }

  /** Marks a control column all of whose points lie on their lines. */
  const COLINEAR: real := 999.0

  /** The column triple at j needs no split, and the given error entry of its peak describes it. */
  ghost predicate Settled(rows: seq<seq<Vert>>, j: nat, error: real, tuning: Tuning)
    requires forall i :: 0 <= i < |rows| ==> j + 2 < |rows[i]|
  {
    var d := Deviation(rows, j, tuning);
    if d < 0.1 then error == COLINEAR
    else d <= tuning.subdivisions && error == 1.0 / d
  }

  // ---------------------------------------------------------------- which spans have to be split

  /** The squared distance of one curve's part over the span, by its three control points. */
  ghost function SpanDistance(orig: seq<Vert>, s: Span, tuning: Tuning): real
    requires 2 * s.piece + 2 < |orig|
  {
    var p0, p1, p2 := PieceBlossom(orig, s.piece, s.lo, s.lo), PieceBlossom(orig, s.piece, s.lo, s.hi), PieceBlossom(orig, s.piece, s.hi, s.hi);
    (tuning.distanceSquared)(Vec3(p0.x, p0.y, p0.z), Vec3(p1.x, p1.y, p1.z), Vec3(p2.x, p2.y, p2.z))
  }

  /** d is the largest of the squared distances of all the curves over the span; without any it is zero. */
  ghost predicate IsLargest(orig: seq<seq<Vert>>, s: Span, tuning: Tuning, d: real) {
    && d >= 0.0
    && (forall i :: 0 <= i < |orig| ==> 2 * s.piece + 2 < |orig[i]| && SpanDistance(orig[i], s, tuning) <= d)
    && (d == 0.0 || exists i :: 0 <= i < |orig| && SpanDistance(orig[i], s, tuning) == d)
  }

  /** Some curve bends too much over the span: its root distance is neither flat nor within r_subdivisions. */
  ghost predicate TooCurved(orig: seq<seq<Vert>>, s: Span, tuning: Tuning) {
    exists d :: IsLargest(orig, s, tuning, d) && (tuning.sqrt)(d) >= 0.1 && (tuning.sqrt)(d) > tuning.subdivisions
  }

  /** The span is cut finely enough, and the error entry is its reciprocal distance, or the mark of a flat one. */
  ghost predicate FineEnough(orig: seq<seq<Vert>>, s: Span, error: real, tuning: Tuning) {
    exists d :: IsLargest(orig, s, tuning, d)
      && if (tuning.sqrt)(d) < 0.1 then error == 999.0
         else (tuning.sqrt)(d) <= tuning.subdivisions && error == 1.0 / (tuning.sqrt)(d)
  }

  /** The span bends, and the error entry is its reciprocal distance. */
  ghost predicate Bends(orig: seq<seq<Vert>>, s: Span, error: real, tuning: Tuning) {
    exists d :: IsLargest(orig, s, tuning, d) && (tuning.sqrt)(d) >= 0.1 && error == 1.0 / (tuning.sqrt)(d)
  }

  ghost predicate AllFineEnough(orig: seq<seq<Vert>>, spans: seq<Span>, errors: seq<real>, tuning: Tuning) {
    2 * |spans| < |errors| && forall m: nat :: m < |spans| ==> FineEnough(orig, spans[m], errors[2 * m + 1], tuning)
  }

  ghost predicate StillBends(orig: seq<seq<Vert>>, spans: seq<Span>, errors: seq<real>, tuning: Tuning) {
    2 * |spans| < |errors| && exists m: nat :: m < |spans| && Bends(orig, spans[m], errors[2 * m + 1], tuning)
  }

  lemma OneLargest(orig: seq<seq<Vert>>, s: Span, tuning: Tuning, d: real, e: real)
    requires IsLargest(orig, s, tuning, d) && IsLargest(orig, s, tuning, e)
    ensures d == e
  {
  }

  /** What the loop measures at a column triple of the refined rows is the distance over its span. */
  lemma MeasuredIsLargest(orig: seq<seq<Vert>>, rows: seq<seq<Vert>>, spans: seq<Span>, m: nat, tuning: Tuning)
    requires AllRefine(orig, rows, spans) && m < |spans|
    ensures forall i :: 0 <= i < |rows| ==> 2 * m + 2 < |rows[i]|
    ensures IsLargest(orig, spans[m], tuning, MaxDistance(rows, 2 * m, tuning))
  {
    forall i | 0 <= i < |rows|
      ensures 2 * m + 2 < |rows[i]| && 2 * spans[m].piece + 2 < |orig[i]|
      ensures RowDistance(rows[i], 2 * m, tuning) == SpanDistance(orig[i], spans[m], tuning)
    {
      assert Refines(orig[i], rows[i], spans);
      assert Covers(orig[i], spans[m], rows[i][2 * m], rows[i][2 * m + 1], rows[i][2 * m + 2]);
    }
    MaxDistanceIsMaximum(rows, 2 * m, tuning);
  }

  /** The square root is one. */
  ghost predicate Lawful(sqrt: real -> real) {
    forall d :: d >= 0.0 ==> sqrt(d) >= 0.0 && sqrt(d) * sqrt(d) == d
  }

  /** In squares: some distance is at least a tenth, and more than r_subdivisions. */
  lemma TooCurvedIff(orig: seq<seq<Vert>>, s: Span, tuning: Tuning, d: real)
    requires IsLargest(orig, s, tuning, d) && Lawful(tuning.sqrt)
    ensures TooCurved(orig, s, tuning)
       <==> d >= 0.01 && (tuning.subdivisions < 0.0 || d > tuning.subdivisions * tuning.subdivisions)
  {
    var limit := tuning.subdivisions;
    var square := limit * limit;
    var e := RootOf(d, tuning.sqrt);
    TooCurvedByRoot(orig, s, tuning, d);
    RootExceeds(d, e, limit, square);
  }

  lemma RootOf(d: real, sqrt: real -> real) returns (e: real)
    requires Lawful(sqrt) && d >= 0.0
    ensures e == sqrt(d) && e >= 0.0 && e * e == d && (e == 0.0 ==> d == 0.0)
  {
    e := sqrt(d);
  }

  lemma TooCurvedByRoot(orig: seq<seq<Vert>>, s: Span, tuning: Tuning, d: real)
    requires IsLargest(orig, s, tuning, d)
    ensures TooCurved(orig, s, tuning) <==> (tuning.sqrt)(d) >= 0.1 && (tuning.sqrt)(d) > tuning.subdivisions
  {
    if TooCurved(orig, s, tuning) {
      var d' :| IsLargest(orig, s, tuning, d') && (tuning.sqrt)(d') >= 0.1 && (tuning.sqrt)(d') > tuning.subdivisions;
      OneLargest(orig, s, tuning, d, d');
    }
  }

  lemma RootExceeds(d: real, e: real, limit: real, square: real)
    requires d >= 0.0 && e >= 0.0 && e * e == d && square == limit * limit
    ensures e >= 0.1 && e > limit <==> d >= 0.01 && (limit < 0.0 || d > square)
  {
    SquaresOrdered(e, 0.1);
    if limit >= 0.0 {
      SquaresOrdered(e, limit);
    }
  }

  lemma SquaresOrdered(a: real, b: real)
    requires a >= 0.0 && b >= 0.0
    ensures (a >= b <==> a * a >= b * b) && (a > b <==> a * a > b * b)
  {
    if a > b {
      SquareGrows(b, a);
    } else if a < b {
      SquareGrows(a, b);
    }
  }

  lemma SquareGrows(a: real, b: real)
    requires 0.0 <= a < b
    ensures a * a < b * b
  {
    var d := b - a;
    assert d * d > 0.0;
    assert 2.0 * a * d >= 0.0;
    assert b * b == (a + d) * (a + d) == a * a + 2.0 * a * d + d * d;
  }

  /** A span that bends too much has been halved. */
  ghost predicate NeededSplit(orig: seq<seq<Vert>>, a: seq<Span>, b: seq<Span>, tuning: Tuning) {
    exists m: nat :: m < |a| && TooCurved(orig, a[m], tuning) && b == SplitSpan(a, m)
  }

  ghost function NeededSplits(orig: seq<seq<Vert>>, tuning: Tuning): (seq<Span>, seq<Span>) -> bool {
    (a, b) => NeededSplit(orig, a, b, tuning)
  }

  /** From whole segments to the spans, one needed split at a time. */
  ghost predicate SplitRun(orig: seq<seq<Vert>>, run: seq<seq<Span>>, pieces: nat, spans: seq<Span>, tuning: Tuning) {
    run != [] && Chain(NeededSplits(orig, tuning), run) && run[0] == WholeSpans(pieces) && Last(run) == spans
  }

  lemma SplitRunNext(orig: seq<seq<Vert>>, run: seq<seq<Span>>, pieces: nat, spans: seq<Span>, spans': seq<Span>, tuning: Tuning)
    requires SplitRun(orig, run, pieces, spans, tuning) && NeededSplit(orig, spans, spans', tuning)
    ensures SplitRun(orig, run + [spans'], pieces, spans', tuning)
  {
    ChainAppend(NeededSplits(orig, tuning), run, spans');
  }

  // ---------------------------------------------------------------- views of the working arrays

  ghost function RowOf(ctrl: array2<Vert>, i: nat, width: nat): (row: seq<Vert>)
    requires i < ctrl.Length0 && width <= ctrl.Length1
    reads ctrl
    ensures |row| == width
    ensures forall c :: 0 <= c < width ==> row[c] == ctrl[i, c]
  {
    seq(width, c requires 0 <= c < width reads ctrl => ctrl[i, c])
  }

  ghost function Rows(ctrl: array2<Vert>, height: nat, width: nat): (rows: seq<seq<Vert>>)
    requires height <= ctrl.Length0 && width <= ctrl.Length1
    reads ctrl
    ensures |rows| == height
    ensures forall i :: 0 <= i < height ==> rows[i] == RowOf(ctrl, i, width)
  {
    seq(height, i requires 0 <= i < height reads ctrl => RowOf(ctrl, i, width))
  }

  // ---------------------------------------------------------------- the loop

  method MeasureColumns(ctrl: array2<Vert>, j: nat, width: nat, height: nat, tuning: Tuning) returns (maxLen: real)
    requires height <= ctrl.Length0 && j + 2 < width <= ctrl.Length1
    ensures maxLen == MaxDistance(Rows(ctrl, height, width), j, tuning)
  {
    maxLen := 0.0;
    ghost var rows := Rows(ctrl, height, width);
    for i := 0 to height
      invariant maxLen == MaxDistance(rows[..i], j, tuning)
    {
      var len := (tuning.distanceSquared)(ctrl[i, j].Xyz(), ctrl[i, j + 1].Xyz(), ctrl[i, j + 2].Xyz());
      assert rows[..i + 1][..i] == rows[..i];
      if len > maxLen {
        maxLen := len;
      }
    }
    assert rows[..height] == rows;
  }

  /** Moves everything behind the triple at j up by two columns. */
  method ShiftRow(ctrl: array2<Vert>, i: nat, j: nat, width: nat)
    requires i < ctrl.Length0 && j + 2 < width && width + 2 <= ctrl.Length1
    modifies ctrl
    ensures forall c :: 0 <= c < j + 3 ==> ctrl[i, c] == old(ctrl[i, c])
    ensures forall c :: j + 3 < c < width + 2 ==> ctrl[i, c] == old(ctrl[i, c - 2])
    ensures forall r, c :: 0 <= r < ctrl.Length0 && 0 <= c < ctrl.Length1 && r != i ==> ctrl[r, c] == old(ctrl[r, c])
  {
    var k := width + 1;
    while k > j + 3
      invariant j + 3 <= k <= width + 1
      invariant forall c :: 0 <= c <= k && c < width ==> ctrl[i, c] == old(ctrl[i, c])
      invariant forall c :: k < c < width + 2 ==> ctrl[i, c] == old(ctrl[i, c - 2])
      invariant forall r, c :: 0 <= r < ctrl.Length0 && 0 <= c < ctrl.Length1 && r != i ==> ctrl[r, c] == old(ctrl[r, c])
    {
      ctrl[i, k] := ctrl[i, k - 2];
      k := k - 1;
    }
  }

  method SplitRowInPlace(ctrl: array2<Vert>, i: nat, j: nat, width: nat)
    requires i < ctrl.Length0 && j + 2 < width && width + 2 <= ctrl.Length1
    modifies ctrl
    ensures RowOf(ctrl, i, width + 2) == SplitRow(old(RowOf(ctrl, i, width)), j)
    ensures forall r, c :: 0 <= r < ctrl.Length0 && 0 <= c < ctrl.Length1 && r != i ==> ctrl[r, c] == old(ctrl[r, c])
  {
    ghost var was := RowOf(ctrl, i, width);
    var prev := LerpDrawVert(ctrl[i, j], ctrl[i, j + 1]);
    var next := LerpDrawVert(ctrl[i, j + 1], ctrl[i, j + 2]);
    var mid := LerpDrawVert(prev, next);
    ShiftRow(ctrl, i, j, width);
    ctrl[i, j + 1] := prev;
    ctrl[i, j + 2] := mid;
    ctrl[i, j + 3] := next;
    SplitRowAt(was, RowOf(ctrl, i, width + 2), j);
  }

  /** The split row, entry by entry. */
  lemma SplitRowAt(was: seq<Vert>, row: seq<Vert>, j: nat)
    requires j + 2 < |was| && |row| == |was| + 2
    requires forall c :: 0 <= c < j + 1 ==> row[c] == was[c]
    requires forall c :: j + 3 < c < |row| ==> row[c] == was[c - 2]
    requires row[j + 1] == LerpDrawVert(was[j], was[j + 1]) && row[j + 3] == LerpDrawVert(was[j + 1], was[j + 2])
    requires row[j + 2] == LerpDrawVert(row[j + 1], row[j + 3])
    ensures row == SplitRow(was, j)
  {
    assert row[..j + 1] == was[..j + 1];
    assert row[j + 4..] == was[j + 2..];
  }

  ghost function SplitRows(rows: seq<seq<Vert>>, j: nat): (r: seq<seq<Vert>>)
    requires forall i :: 0 <= i < |rows| ==> j + 2 < |rows[i]|
    ensures |r| == |rows|
    ensures forall i :: 0 <= i < |rows| ==> r[i] == SplitRow(rows[i], j)
  {
    seq(|rows|, i requires 0 <= i < |rows| => SplitRow(rows[i], j))
  }

  /** Inserts two columns around the peak of the triple at j and replaces the peak, row by row. */
  method SplitColumns(ctrl: array2<Vert>, j: nat, width: nat, height: nat, ghost was: seq<seq<Vert>>)
    requires height <= ctrl.Length0 && j + 2 < width && width + 2 <= ctrl.Length1
    requires was == Rows(ctrl, height, width)
    modifies ctrl
    ensures Rows(ctrl, height, width + 2) == SplitRows(was, j)
  {
    for i := 0 to height
      invariant forall r :: 0 <= r < i ==> RowOf(ctrl, r, width + 2) == SplitRow(was[r], j)
      invariant forall r :: i <= r < height ==> RowOf(ctrl, r, width) == was[r]
    {
      ghost var before := Rows(ctrl, height, width + 2);
      SplitRowInPlace(ctrl, i, j, width);
      forall r {:trigger RowOf(ctrl, r, width + 2)} | 0 <= r < i
        ensures RowOf(ctrl, r, width + 2) == before[r]
      {
      }
      forall r {:trigger RowOf(ctrl, r, width)} | i < r < height
        ensures RowOf(ctrl, r, width) == before[r][..width]
      {
      }
    }
  }

  // ---------------------------------------------------------------- what the loop knows

  ghost predicate Uniform(rows: seq<seq<Vert>>, width: nat) {
    forall i :: 0 <= i < |rows| ==> |rows[i]| == width
  }

  ghost predicate AllRefine(orig: seq<seq<Vert>>, fine: seq<seq<Vert>>, spans: seq<Span>) {
    && |orig| == |fine|
    && (forall i :: 0 <= i < |orig| ==> Refines(orig[i], fine[i], spans))
  }

  /** Colinear marks occur at odd columns only. */
  ghost predicate OddMarks(errors: seq<real>) {
    forall k :: 0 <= k < |errors| && errors[k] == COLINEAR ==> k % 2 == 1
  }

  /** Segment m is among the last `count` segments visited in cyclic order before `next`. */
  ghost predicate Visited(m: int, next: int, count: int, n: int) {
    || count >= n
    || (if count <= next then next - count <= m < next else m < next || n + next - count <= m)
  }

  ghost predicate VisitedSettled(rows: seq<seq<Vert>>, errors: seq<real>, width: nat, j: nat, count: nat, tuning: Tuning)
    requires Uniform(rows, width) && width <= |errors|
  {
    forall m :: 0 <= m < width / 2 && Visited(m, j / 2, count, width / 2) ==>
      2 * m + 2 < width && Settled(rows, 2 * m, errors[2 * m + 1], tuning)
  }

  /** Every column triple of the grid is within tolerance and its error entry describes it. */
  ghost predicate AllSettled(rows: seq<seq<Vert>>, errors: seq<real>, width: nat, tuning: Tuning)
    requires Uniform(rows, width) && width <= |errors|
  {
    forall m :: 0 <= m < width / 2 ==> 2 * m + 2 < width && Settled(rows, 2 * m, errors[2 * m + 1], tuning)
  }

  /** The column visited after j. */
  function NextColumn(j: nat, width: nat): nat {
    if j + 2 == width - 1 then 0 else j + 2
  }

  lemma CyclicStep(j: nat, width: nat)
    requires j + 2 < width
    ensures (j + 2) % (width - 1) == NextColumn(j, width)
  {
    if j + 2 == width - 1 {
      Arithmetic.DivModUnique(j + 2, width - 1, 1, 0);
    } else {
      Arithmetic.DivModUnique(j + 2, width - 1, 0, j + 2);
    }
  }

  lemma VisitedStep(m: nat, j: nat, count: nat, width: nat)
    requires width % 2 == 1 && j % 2 == 0 && j + 2 < width && m < width / 2
    requires Visited(m, NextColumn(j, width) / 2, count + 1, width / 2)
    ensures 2 * m == j || Visited(m, j / 2, count, width / 2)
  {
  }

  /** Recording a triple that needs no split extends the settled window by one. */
  lemma SettleStep(rows: seq<seq<Vert>>, errors: seq<real>, width: nat, j: nat, count: nat, error: real, tuning: Tuning)
    requires Uniform(rows, width) && width <= |errors| && width % 2 == 1
    requires j % 2 == 0 && j + 2 < width
    requires VisitedSettled(rows, errors, width, j, count, tuning)
    requires Settled(rows, j, error, tuning)
    ensures VisitedSettled(rows, errors[j + 1 := error], width, NextColumn(j, width), count + 1, tuning)
    ensures count + 1 >= width ==> AllSettled(rows, errors[j + 1 := error], width, tuning)
  {
    var n := width / 2;
    var errors' := errors[j + 1 := error];
    forall m | 0 <= m < n && Visited(m, NextColumn(j, width) / 2, count + 1, n)
      ensures Settled(rows, 2 * m, errors'[2 * m + 1], tuning)
    {
      VisitedStep(m, j, count, width);
    }
  }

  lemma KeepOddMarks(errors: seq<real>, k: nat, error: real)
    requires OddMarks(errors) && k < |errors| && (error == COLINEAR ==> k % 2 == 1)
    ensures OddMarks(errors[k := error])
  {
  }

  lemma ReciprocalIsNoMark(d: real)
    ensures d >= 0.1 ==> 1.0 / d != COLINEAR
  {
    if d >= 0.1 {
      assert d * (1.0 / d) == 1.0;
    }
  }

  lemma SplitRefinesAll(orig: seq<seq<Vert>>, rows: seq<seq<Vert>>, spans: seq<Span>, width: nat, j: nat)
    requires Uniform(rows, width) && AllRefine(orig, rows, spans)
    requires j % 2 == 0 && j / 2 < |spans| && j + 2 < width
    ensures AllRefine(orig, SplitRows(rows, j), SplitSpan(spans, j / 2))
  {
    var m := j / 2;
    assert j == 2 * m;
    forall i | 0 <= i < |rows|
      ensures Refines(orig[i], SplitRows(rows, j)[i], SplitSpan(spans, m))
    {
      SplitRefines(orig[i], rows[i], spans, m);
    }
  }

  // ---------------------------------------------------------------- the loop, on values

  datatype Outcome = Continue | Complete | Full

  /** The variables of the loop, with the contents of the working arrays. */
  datatype Loop = Loop(rows: seq<seq<Vert>>, errors: seq<real>, width: nat, j: nat, complete: nat, outcome: Outcome) {
    ghost predicate Shaped() {
      && width % 2 == 1 && j % 2 == 0 && j + 2 < width <= |errors| && complete < width
      && Uniform(rows, width)
    }
  }

  function RecordedError(maxLen: real): real {
    if maxLen < 0.1 then COLINEAR else 1.0 / maxLen
  }

  ghost function Record(s: Loop, maxLen: real): Loop
    requires s.Shaped()
  {
    Loop(s.rows, s.errors[s.j + 1 := RecordedError(maxLen)], s.width, NextColumn(s.j, s.width), s.complete + 1,
         if s.complete + 1 >= s.width then Complete else Continue)
  }

  ghost function Insert(s: Loop, maxLen: real): Loop
    requires s.Shaped() && s.width + 2 <= |s.errors| && maxLen != 0.0
  {
    Loop(SplitRows(s.rows, s.j), s.errors[s.j + 2 := 1.0 / maxLen], s.width + 2, NextColumn(s.j + 2, s.width + 2), 0, Continue)
  }

  /** One pass of the loop body, up to and including the step to the next column. */
  ghost function Visit(s: Loop, tuning: Tuning): Loop
    requires s.Shaped()
  {
    var maxLen := Deviation(s.rows, s.j, tuning);
    if maxLen < 0.1 then
      Record(s, maxLen)
    else if s.width + 2 > |s.errors| then
      s.(errors := s.errors[s.j + 1 := 1.0 / maxLen], outcome := Full)
    else if maxLen <= tuning.subdivisions then
      Record(s, maxLen)
    else
      Insert(s, maxLen)
  }

  /** What holds before and after every pass. */
  ghost predicate Invariant(s: Loop, orig: seq<seq<Vert>>, spans: seq<Span>, pieces: nat, tuning: Tuning) {
    && s.width % 2 == 1 && Uniform(s.rows, s.width) && s.width <= |s.errors|
    && Tiles(spans, pieces) && |spans| == s.width / 2
    && AllRefine(orig, s.rows, spans)
    && OddMarks(s.errors)
    && match s.outcome
       case Continue => s.Shaped() && VisitedSettled(s.rows, s.errors, s.width, s.j, s.complete, tuning)
       case Complete => AllSettled(s.rows, s.errors, s.width, tuning)
       case Full => s.width + 2 > |s.errors| && s.j / 2 < |spans| && Bends(orig, spans[s.j / 2], s.errors[2 * (s.j / 2) + 1], tuning)
  }

  /** A column triple found settled is cut finely enough. */
  lemma SettledIsFine(orig: seq<seq<Vert>>, rows: seq<seq<Vert>>, spans: seq<Span>, m: nat, error: real, tuning: Tuning)
    requires AllRefine(orig, rows, spans) && m < |spans|
    requires forall i :: 0 <= i < |rows| ==> 2 * m + 2 < |rows[i]|
    requires Settled(rows, 2 * m, error, tuning)
    ensures FineEnough(orig, spans[m], error, tuning)
  {
    MeasuredIsLargest(orig, rows, spans, m, tuning);
  }

  lemma StartState(orig: seq<seq<Vert>>, errors: seq<real>, width: nat, tuning: Tuning)
    requires width % 2 == 1 && 3 <= width <= |errors| && Uniform(orig, width)
    requires forall k :: 0 <= k < |errors| ==> errors[k] == 0.0
    ensures Invariant(Loop(orig, errors, width, 0, 0, Continue), orig, WholeSpans(width / 2), width / 2, tuning)
  {
    RefinesSelf(seq(width, _ => Vert(0.0, 0.0, 0.0, 0.0, 0.0)), width / 2);
    forall i | 0 <= i < |orig|
      ensures Refines(orig[i], orig[i], WholeSpans(width / 2))
    {
      RefinesSelf(orig[i], width / 2);
    }
  }

  lemma RecordKeepsInvariant(s: Loop, maxLen: real, orig: seq<seq<Vert>>, spans: seq<Span>, pieces: nat, tuning: Tuning)
    requires s.outcome == Continue && Invariant(s, orig, spans, pieces, tuning)
    requires maxLen == Deviation(s.rows, s.j, tuning) && (maxLen < 0.1 || maxLen <= tuning.subdivisions)
    ensures Invariant(Record(s, maxLen), orig, spans, pieces, tuning)
  {
    ReciprocalIsNoMark(maxLen);
    KeepOddMarks(s.errors, s.j + 1, RecordedError(maxLen));
    RecordSettles(s, maxLen, tuning);
  }

  lemma RecordSettles(s: Loop, maxLen: real, tuning: Tuning)
    requires s.Shaped() && VisitedSettled(s.rows, s.errors, s.width, s.j, s.complete, tuning)
    requires maxLen == Deviation(s.rows, s.j, tuning) && (maxLen < 0.1 || maxLen <= tuning.subdivisions)
    ensures
      var t := Record(s, maxLen);
      if t.outcome == Complete then AllSettled(t.rows, t.errors, t.width, tuning)
      else t.Shaped() && VisitedSettled(t.rows, t.errors, t.width, t.j, t.complete, tuning)
  {
    var error := RecordedError(maxLen);
    assert Settled(s.rows, s.j, error, tuning);
    SettleStep(s.rows, s.errors, s.width, s.j, s.complete, error, tuning);
  }

  lemma InsertKeepsInvariant(s: Loop, maxLen: real, orig: seq<seq<Vert>>, spans: seq<Span>, pieces: nat, tuning: Tuning)
    requires s.outcome == Continue && Invariant(s, orig, spans, pieces, tuning) && s.width + 2 <= |s.errors|
    requires maxLen >= 0.1
    ensures Invariant(Insert(s, maxLen), orig, SplitSpan(spans, s.j / 2), pieces, tuning)
  {
    ReciprocalIsNoMark(maxLen);
    KeepOddMarks(s.errors, s.j + 2, 1.0 / maxLen);
    SplitSpanTiles(spans, s.j / 2, pieces);
    SplitRefinesAll(orig, s.rows, spans, s.width, s.j);
  }

  /** Every pass keeps the invariant and moves the measure (room left, columns left to see) down. */
  lemma VisitKeepsInvariant(s: Loop, orig: seq<seq<Vert>>, spans: seq<Span>, pieces: nat, tuning: Tuning) returns (spans': seq<Span>)
    requires s.outcome == Continue && Invariant(s, orig, spans, pieces, tuning)
    ensures Invariant(Visit(s, tuning), orig, spans', pieces, tuning)
    ensures spans' == spans || NeededSplit(orig, spans, spans', tuning)
    ensures
      var t := Visit(s, tuning);
      && |t.errors| == |s.errors| && t.width >= s.width
      && (t.outcome == Continue ==> t.width > s.width || (t.width == s.width && t.complete > s.complete))
  {
    spans' := spans;
    var maxLen := Deviation(s.rows, s.j, tuning);
    if maxLen < 0.1 || (s.width + 2 <= |s.errors| && maxLen <= tuning.subdivisions) {
      RecordKeepsInvariant(s, maxLen, orig, spans, pieces, tuning);
    } else if s.width + 2 > |s.errors| {
      StopKeepsInvariant(s, maxLen, orig, spans, pieces, tuning);
    } else {
      spans' := SplitSpan(spans, s.j / 2);
      InsertIsNeeded(s, maxLen, orig, spans, pieces, tuning);
      InsertKeepsInvariant(s, maxLen, orig, spans, pieces, tuning);
    }
  }

  lemma StopKeepsInvariant(s: Loop, maxLen: real, orig: seq<seq<Vert>>, spans: seq<Span>, pieces: nat, tuning: Tuning)
    requires s.outcome == Continue && Invariant(s, orig, spans, pieces, tuning) && s.width + 2 > |s.errors|
    requires maxLen == Deviation(s.rows, s.j, tuning) && maxLen >= 0.1
    ensures Invariant(s.(errors := s.errors[s.j + 1 := 1.0 / maxLen], outcome := Full), orig, spans, pieces, tuning)
  {
    assert s.j == 2 * (s.j / 2);
    MeasuredIsLargest(orig, s.rows, spans, s.j / 2, tuning);
    ReciprocalIsNoMark(maxLen);
    KeepOddMarks(s.errors, s.j + 1, 1.0 / maxLen);
  }

  lemma InsertIsNeeded(s: Loop, maxLen: real, orig: seq<seq<Vert>>, spans: seq<Span>, pieces: nat, tuning: Tuning)
    requires s.outcome == Continue && Invariant(s, orig, spans, pieces, tuning)
    requires maxLen == Deviation(s.rows, s.j, tuning) && maxLen >= 0.1 && maxLen > tuning.subdivisions
    ensures NeededSplit(orig, spans, SplitSpan(spans, s.j / 2), tuning)
  {
    assert s.j == 2 * (s.j / 2);
    MeasuredIsLargest(orig, s.rows, spans, s.j / 2, tuning);
    assert TooCurved(orig, spans[s.j / 2], tuning);
  }

  lemma AllFine(orig: seq<seq<Vert>>, rows: seq<seq<Vert>>, spans: seq<Span>, errors: seq<real>, width: nat, tuning: Tuning)
    requires AllRefine(orig, rows, spans) && |spans| == width / 2 && Uniform(rows, width) && width % 2 == 1 && width <= |errors|
    requires AllSettled(rows, errors, width, tuning)
    ensures AllFineEnough(orig, spans, errors, tuning)
  {
    forall m: nat | m < |spans|
      ensures FineEnough(orig, spans[m], errors[2 * m + 1], tuning)
    {
      SettledIsFine(orig, rows, spans, m, errors[2 * m + 1], tuning);
    }
  }

  // ---------------------------------------------------------------- the loop, in place

  /** The working arrays hold the loop's rows and errors. */
  ghost predicate Holds(s: Loop, ctrl: array2<Vert>, errors: array<real>, height: nat)
    reads ctrl, errors
  {
    && s.width <= ctrl.Length1 == errors.Length && height <= ctrl.Length0
    && s.rows == Rows(ctrl, height, s.width)
    && s.errors == errors[..]
  }

  /** Records the deviation of a column triple that needs no split. */
  method RecordColumn(ctrl: array2<Vert>, errors: array<real>, height: nat, j: nat, maxLen: real, ghost s: Loop)
    requires Holds(s, ctrl, errors, height) && s.Shaped() && s.j == j
    modifies errors
    ensures Holds(Record(s, maxLen), ctrl, errors, height)
  {
    errors[j + 1] := if maxLen < 0.1 then COLINEAR else 1.0 / maxLen;
  }

  /** Inserts two columns around the peak of the triple at j and replaces the peak. */
  method InsertColumns(ctrl: array2<Vert>, errors: array<real>, width: nat, height: nat, j: nat, maxLen: real, ghost s: Loop)
    requires Holds(s, ctrl, errors, height) && s.Shaped() && s.j == j && s.width == width
    requires width + 2 <= ctrl.Length1 && maxLen != 0.0
    modifies ctrl, errors
    ensures Holds(Insert(s, maxLen), ctrl, errors, height)
  {
    errors[j + 2] := 1.0 / maxLen;
    ghost var errors' := errors[..];
    assert s.rows == Rows(ctrl, height, width);
    SplitColumns(ctrl, j, width, height, s.rows);
    assert errors[..] == errors';
  }

  method MeasureDeviation(ctrl: array2<Vert>, j: nat, width: nat, height: nat, tuning: Tuning) returns (maxLen: real)
    requires height <= ctrl.Length0 && j + 2 < width <= ctrl.Length1
    ensures maxLen == Deviation(Rows(ctrl, height, width), j, tuning)
  {
    maxLen := MeasureColumns(ctrl, j, width, height, tuning);
    maxLen := (tuning.sqrt)(maxLen);
  }

  /** The loop body, proved against Visit. */
  method VisitColumn(ctrl: array2<Vert>, errors: array<real>, width: nat, height: nat, j: nat, consecutiveComplete: nat,
                     tuning: Tuning, ghost s: Loop)
    returns (width': nat, j': nat, consecutiveComplete': nat, outcome: Outcome)
    requires Holds(s, ctrl, errors, height) && s.Shaped()
    requires s.width == width && s.j == j && s.complete == consecutiveComplete && s.outcome == Continue
    modifies ctrl, errors
    ensures Holds(Visit(s, tuning), ctrl, errors, height)
    ensures width' == Visit(s, tuning).width && j' == Visit(s, tuning).j
    ensures consecutiveComplete' == Visit(s, tuning).complete && outcome == Visit(s, tuning).outcome
  {
    var maxLen := MeasureDeviation(ctrl, j, width, height, tuning);
    CyclicStep(j, width);
    if maxLen < 0.1 {
      RecordColumn(ctrl, errors, height, j, maxLen, s);
      assert Visit(s, tuning) == Record(s, maxLen);
      return width, (j + 2) % (width - 1), consecutiveComplete + 1, if consecutiveComplete + 1 >= width then Complete else Continue;
    }
    if width + 2 > ctrl.Length1 {
      errors[j + 1] := 1.0 / maxLen;
      return width, j, consecutiveComplete, Full;
    }
    if maxLen <= tuning.subdivisions {
      RecordColumn(ctrl, errors, height, j, maxLen, s);
      assert Visit(s, tuning) == Record(s, maxLen);
      return width, (j + 2) % (width - 1), consecutiveComplete + 1, if consecutiveComplete + 1 >= width then Complete else Continue;
    }
    InsertColumns(ctrl, errors, width, height, j, maxLen, s);
    assert Visit(s, tuning) == Insert(s, maxLen);
    CyclicStep(j + 2, width + 2);
    return width + 2, (j + 4) % (width + 1), 0, Continue;
  }

  /**
   Subdivides in one direction; `errors` is the row of the error table for that direction.
   Whatever the geometry, the loop ends; every row of the result is the same curve as before, cut
   into the same spans for all rows, each cut through a span that bent too much; marks of colinear
   columns occur at odd columns only; and unless the grid is full, and some triple still bends, every
   column triple of the final grid is within the tolerance and described by its error entry.
   */
  method SubdivideDirection(ctrl: array2<Vert>, errors: array<real>, width0: nat, height: nat, tuning: Tuning)
    returns (width: nat, full: bool, ghost spans: seq<Span>, ghost run: seq<seq<Span>>)
    requires width0 % 2 == 1 && 3 <= width0 <= ctrl.Length1 && height <= ctrl.Length0
    requires errors.Length == ctrl.Length1
    modifies ctrl, errors
    ensures width % 2 == 1 && width0 <= width <= ctrl.Length1
    ensures Tiles(spans, width0 / 2) && |spans| == width / 2
    ensures AllRefine(old(Rows(ctrl, height, width0)), Rows(ctrl, height, width), spans)
    ensures OddMarks(errors[..])
    ensures SplitRun(old(Rows(ctrl, height, width0)), run, width0 / 2, spans, tuning)
    ensures full ==> width + 2 > ctrl.Length1
    ensures full ==> StillBends(old(Rows(ctrl, height, width0)), spans, errors[..], tuning)
    ensures !full ==> AllSettled(Rows(ctrl, height, width), errors[..], width, tuning)
    ensures !full ==> AllFineEnough(old(Rows(ctrl, height, width0)), spans, errors[..], tuning)
  {
    var maxGridSize := ctrl.Length1;
    for k := 0 to maxGridSize
      invariant forall c :: 0 <= c < k ==> errors[c] == 0.0
      invariant Rows(ctrl, height, width0) == old(Rows(ctrl, height, width0))
    {
      errors[k] := 0.0;
      assert Rows(ctrl, height, width0) == old(Rows(ctrl, height, width0));
    }

    width, spans := width0, WholeSpans(width0 / 2);
    run := [spans];
    var consecutiveComplete: nat, j: nat, outcome := 0, 0, Continue;
    ghost var orig := Rows(ctrl, height, width0);
    ghost var s := Loop(orig, errors[..], width0, 0, 0, Continue);
    StartState(orig, errors[..], width0, tuning);
    while outcome == Continue
      invariant width0 <= width == s.width <= maxGridSize && j == s.j && consecutiveComplete == s.complete && outcome == s.outcome
      invariant Holds(s, ctrl, errors, height)
      invariant Invariant(s, orig, spans, width0 / 2, tuning)
      invariant SplitRun(orig, run, width0 / 2, spans, tuning)
      decreases if outcome == Continue then 1 else 0, maxGridSize - width, width - consecutiveComplete
    {
      ghost var spans' := VisitKeepsInvariant(s, orig, spans, width0 / 2, tuning);
      if spans' != spans {
        SplitRunNext(orig, run, width0 / 2, spans, spans', tuning);
        run, spans := run + [spans'], spans';
      }
      width, j, consecutiveComplete, outcome := VisitColumn(ctrl, errors, width, height, j, consecutiveComplete, tuning, s);
      s := Visit(s, tuning);
    }
    full := outcome == Full;
    if !full {
      AllFine(orig, s.rows, spans, s.errors, width, tuning);
    }
  }
}
