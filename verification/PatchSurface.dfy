/**
 The tensor-product surface of a patch, and the pass that moves the refined control grid onto it.

 Positions on the patch are pairs of curve parameters, one down the rows and one along them.
 */
module PatchSurface {
  import opened Vertex
  import opened Bezier
  import opened Subdivision

  // ---------------------------------------------------------------- parameters of grid lines

  /** A parameter of a piecewise quadratic curve: a segment number and a parameter in [0, 1]. */
  datatype Param = Param(piece: nat, t: real)

  ghost predicate Before(p: Param, q: Param) {
    p.piece as real + p.t < q.piece as real + q.t
  }

  ghost predicate StrictlyIncreasing(params: seq<Param>) {
    forall a, b :: 0 <= a < b < |params| ==> Before(params[a], params[b])
  }

  /** The parameter of grid line k: span ends at even lines, span middles at odd ones. */
  ghost function LineParam(spans: seq<Span>, k: nat): Param
    requires k < 2 * |spans| + 1
  {
    if k == 2 * |spans| then
      if k == 0 then Param(0, 0.0) else Param(spans[|spans| - 1].piece, spans[|spans| - 1].hi)
    else
      var s := spans[k / 2];
      Param(s.piece, if k % 2 == 0 then s.lo else s.Mid())
  }

  ghost function LineParams(spans: seq<Span>): (params: seq<Param>)
    ensures |params| == 2 * |spans| + 1
    ensures forall k :: 0 <= k < |params| ==> params[k] == LineParam(spans, k)
  {
    seq(2 * |spans| + 1, k requires 0 <= k < 2 * |spans| + 1 => LineParam(spans, k))
  }

  lemma LineParamStep(spans: seq<Span>, pieces: nat, k: nat)
    requires Tiles(spans, pieces) && k + 1 < 2 * |spans| + 1
    ensures Before(LineParam(spans, k), LineParam(spans, k + 1))
  {
    var m := k / 2;
    assert spans[m].Valid();
    if k % 2 == 1 && m + 1 < |spans| {
      assert Follows(spans[m], spans[m + 1]);
    }
  }

  lemma {:induction false} LineParamOrder(spans: seq<Span>, pieces: nat, k: nat, l: nat)
    requires Tiles(spans, pieces) && k < l < 2 * |spans| + 1
    ensures Before(LineParam(spans, k), LineParam(spans, l))
  {
    LineParamStep(spans, pieces, l - 1);
    if k < l - 1 {
      LineParamOrder(spans, pieces, k, l - 1);
    }
  }

  /** The lines of a grid meet the curve from its start to its end, at strictly increasing parameters. */
  lemma LineParamsIncrease(spans: seq<Span>, pieces: nat)
    requires Tiles(spans, pieces)
    ensures StrictlyIncreasing(LineParams(spans))
    ensures LineParams(spans)[0] == Param(0, 0.0) && LineParams(spans)[2 * |spans|] == Param(pieces - 1, 1.0)
    ensures forall k :: 0 <= k < |LineParams(spans)| ==>
              LineParams(spans)[k].piece < pieces && 0.0 <= LineParams(spans)[k].t <= 1.0
  {
    forall k, l | 0 <= k < l < 2 * |spans| + 1
      ensures Before(LineParams(spans)[k], LineParams(spans)[l])
    {
      LineParamOrder(spans, pieces, k, l);
    }
    forall k | 0 <= k < 2 * |spans| + 1
      ensures LineParam(spans, k).piece < pieces && 0.0 <= LineParam(spans, k).t <= 1.0
    {
      var m := if k == 2 * |spans| then |spans| - 1 else k / 2;
      assert spans[m].Valid();
      SpanPiece(spans, pieces, m);
    }
  }

  lemma {:induction false} SpanPiece(spans: seq<Span>, pieces: nat, m: nat)
    requires Tiles(spans, pieces) && m < |spans|
    ensures spans[m].piece < pieces
    decreases |spans| - m
  {
    if m + 1 < |spans| {
      assert Follows(spans[m], spans[m + 1]);
      SpanPiece(spans, pieces, m + 1);
    }
  }

  // ---------------------------------------------------------------- points of curves and surfaces

  /** The point of a row's piecewise quadratic curve at a parameter. */
  ghost function CurveAt(row: seq<Vert>, u: Param): Vert
    requires 2 * u.piece + 2 < |row|
  {
    CurvePoint(row[2 * u.piece], row[2 * u.piece + 1], row[2 * u.piece + 2], u.t)
  }

  /** The point of the patch surface at parameter v down the rows and u along them. */
  ghost function SurfaceAt(points: seq<seq<Vert>>, v: Param, u: Param): Vert
    requires 2 * v.piece + 2 < |points|
    requires forall r :: 0 <= r < |points| ==> 2 * u.piece + 2 < |points[r]|
  {
    CurvePoint(CurveAt(points[2 * v.piece], u), CurveAt(points[2 * v.piece + 1], u), CurveAt(points[2 * v.piece + 2], u), v.t)
  }

  /** p is the point of the patch surface at the given parameters, which lie on the patch. */
  ghost predicate OnSurface(points: seq<seq<Vert>>, p: Vert, v: Param, u: Param) {
    && 2 * v.piece + 2 < |points|
    && (forall r :: 0 <= r < |points| ==> 2 * u.piece + 2 < |points[r]|)
    && p == SurfaceAt(points, v, u)
  }

  /** A row after its odd points have been moved onto the curve. */
  function SettledPoint(row: seq<Vert>, k: nat): Vert
    requires k < |row| && |row| % 2 == 1
  {
    if k % 2 == 1 then Settle(row[k - 1], row[k], row[k + 1]) else row[k]
  }

  /** A settled refined row passes through the original curve at the parameter of every line. */
  lemma SettledOnCurve(orig: seq<Vert>, fine: seq<Vert>, spans: seq<Span>, pieces: nat, k: nat)
    requires Refines(orig, fine, spans) && Tiles(spans, pieces) && k < |fine|
    ensures
      var u := LineParam(spans, k);
      2 * u.piece + 2 < |orig| && SettledPoint(fine, k) == CurveAt(orig, u)
  {
    var m := if k == 2 * |spans| then |spans| - 1 else k / 2;
    var s := spans[m];
    assert Covers(orig, s, fine[2 * m], fine[2 * m + 1], fine[2 * m + 2]);
    if k == 2 * |spans| {
      assert k == 2 * m + 2;
    } else if k % 2 == 0 {
      assert k == 2 * m;
    } else {
      assert k == 2 * m + 1;
      SettleIsMidCurve(orig[2 * s.piece], orig[2 * s.piece + 1], orig[2 * s.piece + 2], s.lo, s.hi);
    }
  }

  // ---------------------------------------------------------------- PutPointsOnCurve

  ghost function ColumnOf(ctrl: array2<Vert>, c: nat, height: nat): (column: seq<Vert>)
    requires height <= ctrl.Length0 && c < ctrl.Length1
    reads ctrl
    ensures |column| == height
    ensures forall r :: 0 <= r < height ==> column[r] == ctrl[r, c]
  {
    seq(height, r requires 0 <= r < height reads ctrl => ctrl[r, c])
  }

  method SettleColumn(ctrl: array2<Vert>, i: nat, height: nat)
    requires height % 2 == 1 && height <= ctrl.Length0 && i < ctrl.Length1
    modifies ctrl
    ensures forall r :: 0 <= r < height ==> ctrl[r, i] == SettledPoint(old(ColumnOf(ctrl, i, height)), r)
    ensures forall r, c :: 0 <= r < ctrl.Length0 && 0 <= c < ctrl.Length1 && c != i ==> ctrl[r, c] == old(ctrl[r, c])
  {
    ghost var column := ColumnOf(ctrl, i, height);
    var j := 1;
    while j < height
      invariant j % 2 == 1 && j <= height + 1
      invariant forall r :: 0 <= r < j && r < height ==> ctrl[r, i] == SettledPoint(column, r)
      invariant forall r :: j <= r < height ==> ctrl[r, i] == column[r]
      invariant forall r, c :: 0 <= r < ctrl.Length0 && 0 <= c < ctrl.Length1 && c != i ==> ctrl[r, c] == old(ctrl[r, c])
    {
      var prev := LerpDrawVert(ctrl[j, i], ctrl[j + 1, i]);
      var next := LerpDrawVert(ctrl[j, i], ctrl[j - 1, i]);
      assert ctrl[j - 1, i] == column[j - 1];
      ctrl[j, i] := LerpDrawVert(prev, next);
      assert ctrl[j, i] == SettledPoint(column, j) && ctrl[j + 1, i] == SettledPoint(column, j + 1);
      j := j + 2;
    }
  }

  method SettleRow(ctrl: array2<Vert>, j: nat, width: nat)
    requires width % 2 == 1 && j < ctrl.Length0 && width <= ctrl.Length1
    modifies ctrl
    ensures forall c :: 0 <= c < width ==> ctrl[j, c] == SettledPoint(old(RowOf(ctrl, j, width)), c)
    ensures forall r, c :: 0 <= r < ctrl.Length0 && 0 <= c < ctrl.Length1 && r != j ==> ctrl[r, c] == old(ctrl[r, c])
  {
    ghost var row := RowOf(ctrl, j, width);
    var i := 1;
    while i < width
      invariant i % 2 == 1 && i <= width + 1
      invariant forall c :: 0 <= c < i && c < width ==> ctrl[j, c] == SettledPoint(row, c)
      invariant forall c :: i <= c < width ==> ctrl[j, c] == row[c]
      invariant forall r, c :: 0 <= r < ctrl.Length0 && 0 <= c < ctrl.Length1 && r != j ==> ctrl[r, c] == old(ctrl[r, c])
    {
      SettleOne(ctrl, j, i, row);
      i := i + 2;
    }
  }

  /** Moves one odd point of a row onto the curve, from its two neighbours. */
  method SettleOne(ctrl: array2<Vert>, j: nat, i: nat, ghost row: seq<Vert>)
    requires j < ctrl.Length0 && 0 < i < |row| - 1 && |row| <= ctrl.Length1 && i % 2 == 1 && |row| % 2 == 1
    requires ctrl[j, i - 1] == row[i - 1] && ctrl[j, i] == row[i] && ctrl[j, i + 1] == row[i + 1]
    modifies ctrl
    ensures ctrl[j, i] == SettledPoint(row, i) && ctrl[j, i + 1] == SettledPoint(row, i + 1)
    ensures forall r, c :: 0 <= r < ctrl.Length0 && 0 <= c < ctrl.Length1 && (r != j || c != i) ==> ctrl[r, c] == old(ctrl[r, c])
  {
    var prev := LerpDrawVert(ctrl[j, i], ctrl[j, i + 1]);
    var next := LerpDrawVert(ctrl[j, i], ctrl[j, i - 1]);
    ctrl[j, i] := LerpDrawVert(prev, next);
  }

  /** Column by column first, then row by row; `down` is the grid between the two passes. */
  method PutPointsOnCurve(ctrl: array2<Vert>, width: nat, height: nat) returns (ghost down: seq<seq<Vert>>)
    requires width % 2 == 1 && height % 2 == 1 && height <= ctrl.Length0 && width <= ctrl.Length1
    modifies ctrl
    ensures |down| == height && Uniform(down, width)
    ensures forall r, c :: 0 <= r < height && 0 <= c < width ==> down[r][c] == SettledPoint(old(ColumnOf(ctrl, c, height)), r)
    ensures forall r, c :: 0 <= r < height && 0 <= c < width ==> ctrl[r, c] == SettledPoint(down[r], c)
  {
    for i := 0 to width
      invariant forall r, c :: 0 <= r < height && 0 <= c < i ==> ctrl[r, c] == SettledPoint(old(ColumnOf(ctrl, c, height)), r)
      invariant forall c :: i <= c < width ==> ColumnOf(ctrl, c, height) == old(ColumnOf(ctrl, c, height))
    {
      SettleColumn(ctrl, i, height);
    }
    down := Rows(ctrl, height, width);
    for j := 0 to height
      invariant forall r, c :: 0 <= r < j && 0 <= c < width ==> ctrl[r, c] == SettledPoint(down[r], c)
      invariant forall r :: j <= r < height ==> RowOf(ctrl, r, width) == down[r]
    {
      SettleRow(ctrl, j, width);
    }
  }

  // ---------------------------------------------------------------- the settled grid lies on the surface

  /** columns is the transpose of rows. */
  ghost predicate Transposed(rows: seq<seq<Vert>>, columns: seq<seq<Vert>>) {
    && Uniform(rows, |columns|) && Uniform(columns, |rows|)
    && (forall r, c :: 0 <= r < |rows| && 0 <= c < |columns| ==> columns[c][r] == rows[r][c])
  }

  /** A refined column, settled, follows the column of curves it came from. */
  lemma DownOnCurve(across: seq<seq<Vert>>, columns: seq<seq<Vert>>, fine: seq<seq<Vert>>, down: seq<Span>, pieces: nat, r: nat, c: nat)
    requires Transposed(across, columns) && AllRefine(columns, fine, down) && Tiles(down, pieces)
    requires c < |columns| && r < 2 * |down| + 1
    ensures
      var v := LineParam(down, r);
      && 2 * v.piece + 2 < |across| && r < |fine[c]| && |fine[c]| % 2 == 1
      && SettledPoint(fine[c], r) == CurvePoint(across[2 * v.piece][c], across[2 * v.piece + 1][c], across[2 * v.piece + 2][c], v.t)
  {
    assert Refines(columns[c], fine[c], down);
    SettledOnCurve(columns[c], fine[c], down, pieces, r);
  }

  /** Column c of the refined rows, settled, is where the original curves are at u. */
  ghost predicate Meets(points: seq<seq<Vert>>, across: seq<seq<Vert>>, c: nat, u: Param) {
    && |across| == |points|
    && (forall i :: 0 <= i < |points| ==> 2 * u.piece + 2 < |points[i]| && c < |across[i]| && |across[i]| % 2 == 1
                                          && SettledPoint(across[i], c) == CurveAt(points[i], u))
  }

  lemma AcrossOnCurve(points: seq<seq<Vert>>, across: seq<seq<Vert>>, along: seq<Span>, pieces: nat, c: nat)
    requires AllRefine(points, across, along) && Tiles(along, pieces) && c < 2 * |along| + 1
    ensures Meets(points, across, c, LineParam(along, c))
  {
    forall i | 0 <= i < |points|
      ensures 2 * LineParam(along, c).piece + 2 < |points[i]| && c < |across[i]| && |across[i]| % 2 == 1
      ensures SettledPoint(across[i], c) == CurveAt(points[i], LineParam(along, c))
    {
      AcrossPointOnCurve(points, across, along, pieces, c, i);
    }
  }

  lemma AcrossPointOnCurve(points: seq<seq<Vert>>, across: seq<seq<Vert>>, along: seq<Span>, pieces: nat, c: nat, i: nat)
    requires AllRefine(points, across, along) && Tiles(along, pieces) && c < 2 * |along| + 1 && i < |points|
    ensures 2 * LineParam(along, c).piece + 2 < |points[i]| && c < |across[i]| && |across[i]| % 2 == 1
    ensures SettledPoint(across[i], c) == CurveAt(points[i], LineParam(along, c))
  {
    assert Refines(points[i], across[i], along);
    SettledOnCurve(points[i], across[i], along, pieces, c);
  }

  /** The points of the row lie at v on the curves that run down the columns of the refined rows. */
  ghost predicate Crosses(across: seq<seq<Vert>>, row: seq<Vert>, v: Param) {
    && 2 * v.piece + 2 < |across| && Uniform(across, |row|)
    && (forall i :: 0 <= i < |row| ==>
          row[i] == CurvePoint(across[2 * v.piece][i], across[2 * v.piece + 1][i], across[2 * v.piece + 2][i], v.t))
  }

  lemma RowOfCurves(across: seq<seq<Vert>>, columns: seq<seq<Vert>>, fine: seq<seq<Vert>>, down: seq<Span>, pieces: nat,
                    row: seq<Vert>, r: nat)
    requires Transposed(across, columns) && AllRefine(columns, fine, down) && Tiles(down, pieces)
    requires |row| == |columns| > 0 && r < 2 * |down| + 1
    requires forall i :: 0 <= i < |row| ==> r < |fine[i]| && |fine[i]| % 2 == 1 && row[i] == SettledPoint(fine[i], r)
    ensures Crosses(across, row, LineParam(down, r))
  {
    forall i | 0 <= i < |row|
      ensures 2 * LineParam(down, r).piece + 2 < |across|
      ensures
        var v := LineParam(down, r);
        row[i] == CurvePoint(across[2 * v.piece][i], across[2 * v.piece + 1][i], across[2 * v.piece + 2][i], v.t)
    {
      DownOnCurve(across, columns, fine, down, pieces, r, i);
    }
    DownOnCurve(across, columns, fine, down, pieces, r, 0);
  }

  /** A row whose points lie on curves down three rows settles to a point on the curve of the settled rows. */
  lemma SettledRowOfCurves(a0: seq<Vert>, a1: seq<Vert>, a2: seq<Vert>, row: seq<Vert>, c: nat, t: real)
    requires |a0| == |a1| == |a2| == |row| && |row| % 2 == 1 && c < |row|
    requires forall i :: 0 <= i < |row| ==> row[i] == CurvePoint(a0[i], a1[i], a2[i], t)
    ensures SettledPoint(row, c) == CurvePoint(SettledPoint(a0, c), SettledPoint(a1, c), SettledPoint(a2, c), t)
  {
    if c % 2 == 1 {
      SettleCurves(a0[c - 1], a0[c], a0[c + 1], a1[c - 1], a1[c], a1[c + 1], a2[c - 1], a2[c], a2[c + 1], t);
    }
  }

  /**
   Refine every row of a patch, then every column of the result, then settle columns and rows:
   every vertex is the point of the patch surface at the parameters of its two grid lines.
   */
  lemma VertexOnSurface(points: seq<seq<Vert>>, across: seq<seq<Vert>>, along: seq<Span>, alongPieces: nat,
                        columns: seq<seq<Vert>>, fine: seq<seq<Vert>>, down: seq<Span>, downPieces: nat,
                        row: seq<Vert>, r: nat, c: nat)
    requires AllRefine(points, across, along) && Tiles(along, alongPieces)
    requires Transposed(across, columns) && |columns| == 2 * |along| + 1
    requires AllRefine(columns, fine, down) && Tiles(down, downPieces) && r < 2 * |down| + 1
    requires |row| == |columns| && c < |row|
    requires forall i :: 0 <= i < |row| ==> r < |fine[i]| && |fine[i]| % 2 == 1 && row[i] == SettledPoint(fine[i], r)
    ensures OnSurface(points, SettledPoint(row, c), LineParam(down, r), LineParam(along, c))
  {
    AcrossOnCurve(points, across, along, alongPieces, c);
    RowOfCurves(across, columns, fine, down, downPieces, row, r);
    Combine(points, across, LineParam(along, c), row, LineParam(down, r), c);
  }

  lemma Combine(points: seq<seq<Vert>>, across: seq<seq<Vert>>, u: Param, row: seq<Vert>, v: Param, c: nat)
    requires Meets(points, across, c, u) && Crosses(across, row, v) && c < |row| && |row| % 2 == 1
    ensures OnSurface(points, SettledPoint(row, c), v, u)
  {
    SettledRowOfCurves(across[2 * v.piece], across[2 * v.piece + 1], across[2 * v.piece + 2], row, c, v.t);
  }
}
