/** R_SubdividePatchToGrid: from the control points of a patch to a grid surface ready to draw. */
module PatchBuild {
  import opened Vertex
  import opened Subdivision
  import opened GridShape
  import opened Culling
  import opened PatchSurface
  import opened BspSurface
  import Arithmetic

  /** The control points of a patch, row by row. */
  ghost function PatchRows(patch: Mesh): (rows: seq<seq<Vert>>)
    requires patch.Valid()
    ensures |rows| == patch.height && Uniform(rows, patch.width)
    ensures forall r, c :: 0 <= r < patch.height && 0 <= c < patch.width ==> rows[r][c] == patch.At(r, c)
  {
    seq(patch.height, r requires 0 <= r < patch.height =>
      seq(patch.width, c requires 0 <= c < patch.width => patch.At(r, c)))
  }

  method LoadPoints(ctrl: array2<Vert>, patch: Mesh)
    requires patch.Valid() && patch.height <= ctrl.Length0 && patch.width <= ctrl.Length1
    modifies ctrl
    ensures Rows(ctrl, patch.height, patch.width) == PatchRows(patch)
  {
    for i := 0 to patch.width
      invariant forall r, c :: 0 <= r < patch.height && 0 <= c < i ==> ctrl[r, c] == patch.At(r, c)
    {
      for j := 0 to patch.height
        invariant forall r, c :: 0 <= r < patch.height && 0 <= c < i ==> ctrl[r, c] == patch.At(r, c)
        invariant forall r :: 0 <= r < j ==> ctrl[r, i] == patch.At(r, i)
      {
        SlotInRange(j, i, patch.width, patch.height);
        ctrl[j, i] := patch.verts[j * patch.width + i];
      }
    }
    assert forall r :: 0 <= r < patch.height ==> RowOf(ctrl, r, patch.width) == PatchRows(patch)[r];
  }

  // ---------------------------------------------------------------- subdivision in both directions

  /** What subdividing has made of some rows: the refined rows, their spans, the error table, whether the grid got full, and the splits. */
  datatype Axis = Axis(rows: seq<seq<Vert>>, spans: seq<Span>, errors: seq<real>, full: bool, run: seq<seq<Span>>) {
    function Lines(): nat {
      2 * |spans| + 1
    }

    /** The lines are those of the spans, and only odd ones are marked. */
    ghost predicate Lined(pieces: nat, maxGridSize: nat) {
      Tiles(spans, pieces) && |spans| > 0 && Lines() <= |errors| == maxGridSize && OddMarks(errors)
    }
  }

  /** The axis holds the original rows, cut into spans. */
  ghost predicate Refined(orig: seq<seq<Vert>>, a: Axis, pieces: nat, maxGridSize: nat) {
    a.Lined(pieces, maxGridSize) && AllRefine(orig, a.rows, a.spans) && Uniform(a.rows, a.Lines())
  }

  /**
   The axis holds the original rows, cut into spans, where they bent too much and nowhere else; unless
   the grid is full, and some triple still bends, every column triple is within the tolerance, and the
   error table describes it.
   */
  ghost predicate Subdivided(orig: seq<seq<Vert>>, a: Axis, pieces: nat, maxGridSize: nat, tuning: Tuning) {
    && Refined(orig, a, pieces, maxGridSize)
    && SplitRun(orig, a.run, pieces, a.spans, tuning)
    && if a.full then a.Lines() + 2 > maxGridSize && StillBends(orig, a.spans, a.errors, tuning)
       else AllFineEnough(orig, a.spans, a.errors, tuning)
  }

  /** A patch's rows are subdivided, and then the columns of the result. */
  datatype Build = Build(across: Axis, columns: seq<seq<Vert>>, down: Axis) {
    ghost predicate Sized() {
      && |across.spans| > 0 && across.Lines() <= |across.errors|
      && |down.spans| > 0 && down.Lines() <= |down.errors|
    }
  }

  ghost predicate BuiltFrom(points: seq<seq<Vert>>, b: Build, width0: nat, height0: nat, maxGridSize: nat, tuning: Tuning) {
    && Subdivided(points, b.across, width0 / 2, maxGridSize, tuning)
    && Transposed(b.across.rows, b.columns) && |b.columns| == b.across.Lines()
    && Subdivided(b.columns, b.down, height0 / 2, maxGridSize, tuning)
  }

  /** The same, as far as the shape of the result is concerned. */
  ghost predicate ShapedFrom(points: seq<seq<Vert>>, b: Build, width0: nat, height0: nat, maxGridSize: nat) {
    && Refined(points, b.across, width0 / 2, maxGridSize)
    && Transposed(b.across.rows, b.columns) && |b.columns| == b.across.Lines()
    && Refined(b.columns, b.down, height0 / 2, maxGridSize)
  }

  /**
   Subdivides along the rows, then down the columns, then moves the points onto the surface: the
   result is a grid of surface points, line by line at the parameters of the two axes.
   */
  method RefinePatch(ctrl: array2<Vert>, widthErrors: array<real>, heightErrors: array<real>, patch: Mesh, tuning: Tuning)
    returns (width: nat, height: nat, ghost b: Build)
    requires patch.Valid() && patch.width % 2 == 1 && patch.height % 2 == 1
    requires ctrl.Length0 == ctrl.Length1 == widthErrors.Length == heightErrors.Length && widthErrors != heightErrors
    requires patch.width <= ctrl.Length0 && patch.height <= ctrl.Length0
    modifies ctrl, widthErrors, heightErrors
    ensures BuiltFrom(PatchRows(patch), b, patch.width, patch.height, ctrl.Length0, tuning)
    ensures width == b.across.Lines() && height == b.down.Lines()
    ensures widthErrors[..] == b.across.errors && heightErrors[..] == b.down.errors
    ensures GridOnAxes(PatchRows(patch), ctrl, b)
  {
    LoadPoints(ctrl, patch);
    width, height, b := SubdivideBoth(ctrl, widthErrors, heightErrors, patch.width, patch.height, tuning);
    ghost var rows := SettleGrid(ctrl, width, height, b);
    AllOnSurface(PatchRows(patch), b, patch.width, patch.height, ctrl.Length0, rows);
    GridFromRows(PatchRows(patch), ctrl, b, rows);
  }

  /** Settles the refined grid; the rows returned are those between the two passes. */
  method SettleGrid(ctrl: array2<Vert>, width: nat, height: nat, ghost b: Build) returns (ghost rows: seq<seq<Vert>>)
    requires width == b.across.Lines() <= ctrl.Length1 && height == b.down.Lines() <= ctrl.Length0
    requires |b.down.rows| == width && Uniform(b.down.rows, height)
    requires forall c :: 0 <= c < width ==> ColumnOf(ctrl, c, height) == b.down.rows[c]
    modifies ctrl
    ensures SettledDown(b, rows) && SettledAcross(ctrl, b, rows)
  {
    rows := PutPointsOnCurve(ctrl, width, height);
  }

  /** The working grid holds the rows, settled. */
  ghost predicate SettledAcross(ctrl: array2<Vert>, b: Build, rows: seq<seq<Vert>>)
    reads ctrl
  {
    && |rows| == b.down.Lines() <= ctrl.Length0 && b.across.Lines() <= ctrl.Length1 && Uniform(rows, b.across.Lines())
    && forall r, c :: 0 <= r < |rows| && 0 <= c < b.across.Lines() ==> ctrl[r, c] == SettledPoint(rows[r], c)
  }

  ghost predicate RowsOnSurface(points: seq<seq<Vert>>, b: Build, rows: seq<seq<Vert>>) {
    && |rows| == b.down.Lines() && Uniform(rows, b.across.Lines())
    && forall r, c :: 0 <= r < |rows| && 0 <= c < b.across.Lines() ==>
         OnSurface(points, SettledPoint(rows[r], c), LineParam(b.down.spans, r), LineParam(b.across.spans, c))
  }

  lemma AllOnSurface(points: seq<seq<Vert>>, b: Build, width0: nat, height0: nat, maxGridSize: nat, rows: seq<seq<Vert>>)
    requires ShapedFrom(points, b, width0, height0, maxGridSize) && SettledDown(b, rows)
    ensures RowsOnSurface(points, b, rows)
  {
    forall r, c | 0 <= r < |rows| && 0 <= c < b.across.Lines()
      ensures OnSurface(points, SettledPoint(rows[r], c), LineParam(b.down.spans, r), LineParam(b.across.spans, c))
    {
      SettledOnSurface(points, b, width0, height0, maxGridSize, rows, r, c);
    }
  }

  lemma GridFromRows(points: seq<seq<Vert>>, ctrl: array2<Vert>, b: Build, rows: seq<seq<Vert>>)
    requires RowsOnSurface(points, b, rows) && SettledAcross(ctrl, b, rows)
    ensures GridOnAxes(points, ctrl, b)
  {
  }

  /** `rows` are the refined columns, settled and read across. */
  ghost predicate SettledDown(b: Build, rows: seq<seq<Vert>>) {
    && |rows| == b.down.Lines() && Uniform(rows, b.across.Lines())
    && |b.down.rows| == b.across.Lines() && Uniform(b.down.rows, b.down.Lines())
    && forall r, i :: 0 <= r < |rows| && 0 <= i < |b.down.rows| ==> rows[r][i] == SettledPoint(b.down.rows[i], r)
  }

  /** Refined, and settled down its columns: what settling its rows gives is the surface. */
  lemma SettledOnSurface(points: seq<seq<Vert>>, b: Build, width0: nat, height0: nat, maxGridSize: nat,
                         rows: seq<seq<Vert>>, r: nat, c: nat)
    requires ShapedFrom(points, b, width0, height0, maxGridSize) && SettledDown(b, rows)
    requires r < |rows| && c < |rows[r]|
    ensures OnSurface(points, SettledPoint(rows[r], c), LineParam(b.down.spans, r), LineParam(b.across.spans, c))
  {
    VertexOnSurface(points, b.across.rows, b.across.spans, width0 / 2, b.columns, b.down.rows, b.down.spans,
                    height0 / 2, rows[r], r, c);
  }

  /** Every vertex of the working grid is the surface point at the parameters of its two lines. */
  ghost predicate GridOnAxes(points: seq<seq<Vert>>, ctrl: array2<Vert>, b: Build)
    reads ctrl
  {
    && b.across.Lines() <= ctrl.Length1 && b.down.Lines() <= ctrl.Length0
    && forall r, c :: 0 <= r < b.down.Lines() && 0 <= c < b.across.Lines() ==>
         OnSurface(points, ctrl[r, c], LineParam(b.down.spans, r), LineParam(b.across.spans, c))
  }

  /** The loop over the two directions; the transposes put the second one where the first one was. */
  method SubdivideBoth(ctrl: array2<Vert>, widthErrors: array<real>, heightErrors: array<real>, width0: nat, height0: nat, tuning: Tuning)
    returns (width: nat, height: nat, ghost b: Build)
    requires width0 % 2 == 1 && height0 % 2 == 1 && width0 >= 3 && height0 >= 3
    requires ctrl.Length0 == ctrl.Length1 == widthErrors.Length == heightErrors.Length && widthErrors != heightErrors
    requires width0 <= ctrl.Length0 && height0 <= ctrl.Length0
    modifies ctrl, widthErrors, heightErrors
    ensures BuiltFrom(old(Rows(ctrl, height0, width0)), b, width0, height0, ctrl.Length0, tuning)
    ensures width == b.across.Lines() && height == b.down.Lines()
    ensures widthErrors[..] == b.across.errors && heightErrors[..] == b.down.errors
    ensures |b.down.rows| == width && Uniform(b.down.rows, height)
    ensures forall c :: 0 <= c < width ==> ColumnOf(ctrl, c, height) == b.down.rows[c]
  {
    ghost var across, down;
    width, across := SubdivideAxis(ctrl, widthErrors, width0, height0, tuning);
    ghost var columns := RowsToColumns(ctrl, width, height0);
    height, down := SubdivideAxis(ctrl, heightErrors, height0, width, tuning);
    ColumnsToRows(ctrl, width, height);
    b := Build(across, columns, down);
  }

  method RowsToColumns(ctrl: array2<Vert>, width: nat, height: nat) returns (ghost columns: seq<seq<Vert>>)
    requires ctrl.Length0 == ctrl.Length1 && width <= ctrl.Length0 && height <= ctrl.Length0
    modifies ctrl
    ensures columns == Rows(ctrl, width, height) && Transposed(old(Rows(ctrl, height, width)), columns)
  {
    Transpose(width, height, ctrl);
    columns := Rows(ctrl, width, height);
  }

  method ColumnsToRows(ctrl: array2<Vert>, width: nat, height: nat)
    requires ctrl.Length0 == ctrl.Length1 && width <= ctrl.Length0 && height <= ctrl.Length0
    modifies ctrl
    ensures forall c :: 0 <= c < width ==> ColumnOf(ctrl, c, height) == old(Rows(ctrl, width, height))[c]
  {
    Transpose(height, width, ctrl);
    forall c | 0 <= c < width
      ensures ColumnOf(ctrl, c, height) == old(Rows(ctrl, width, height))[c]
    {
    }
  }

  /** One direction. */
  method SubdivideAxis(ctrl: array2<Vert>, errors: array<real>, width0: nat, height: nat, tuning: Tuning)
    returns (width: nat, ghost a: Axis)
    requires width0 % 2 == 1 && 3 <= width0 <= ctrl.Length1 == errors.Length && height <= ctrl.Length0
    modifies ctrl, errors
    ensures width == a.Lines() && width0 <= width <= ctrl.Length1
    ensures a.rows == Rows(ctrl, height, width) && a.errors == errors[..]
    ensures Subdivided(old(Rows(ctrl, height, width0)), a, width0 / 2, ctrl.Length1, tuning)
  {
    var full;
    ghost var spans, run;
    width, full, spans, run := SubdivideDirection(ctrl, errors, width0, height, tuning);
    a := Axis(Rows(ctrl, height, width), spans, errors[..], full, run);
  }

  // ---------------------------------------------------------------- culling and the flip

  /** The lines of an axis that are kept: both ends, and those not marked. */
  ghost function KeptOf(a: Axis): seq<nat>
    requires |a.spans| > 0 && a.Lines() <= |a.errors|
  {
    UnmarkedLines(a.errors, a.Lines())
  }

  /** The parameters and the error entries of the kept lines. */
  ghost function KeptParams(a: Axis): (params: seq<Param>)
    requires |a.spans| > 0 && a.Lines() <= |a.errors|
    ensures |params| == |KeptOf(a)|
    ensures forall i :: 0 <= i < |params| && KeptOf(a)[i] < a.Lines() ==> params[i] == LineParam(a.spans, KeptOf(a)[i])
  {
    seq(|KeptOf(a)|, i requires 0 <= i < |KeptOf(a)| =>
      if KeptOf(a)[i] < a.Lines() then LineParam(a.spans, KeptOf(a)[i]) else Param(0, 0.0))
  }

  ghost function KeptErrors(a: Axis): (errors: seq<real>)
    requires |a.spans| > 0 && a.Lines() <= |a.errors|
    ensures |errors| == |KeptOf(a)|
    ensures forall i :: 0 <= i < |errors| && KeptOf(a)[i] < a.Lines() ==> errors[i] == a.errors[KeptOf(a)[i]]
  {
    seq(|KeptOf(a)|, i requires 0 <= i < |KeptOf(a)| => if KeptOf(a)[i] < a.Lines() then a.errors[KeptOf(a)[i]] else 0.0)
  }

  /** The parameters run over the whole curve, from its start to its end. */
  ghost predicate Spanning(params: seq<Param>, pieces: nat) {
    && |params| >= 2 && StrictlyIncreasing(params)
    && params[0] == Param(0, 0.0) && params[|params| - 1].piece + 1 == pieces && params[|params| - 1].t == 1.0
  }

  /** What is kept of an axis spans the curve, has no marks, and is what the culling loop keeps. */
  lemma KeptSpan(a: Axis, pieces: nat, maxGridSize: nat)
    requires a.Lined(pieces, maxGridSize)
    ensures KeptOf(a) == KeptLines(a.errors, a.Lines()) && |KeptOf(a)| <= a.Lines()
    ensures forall i :: 0 <= i < |KeptOf(a)| ==> KeptOf(a)[i] < a.Lines()
    ensures Spanning(KeptParams(a), pieces) && COLINEAR !in KeptErrors(a)
  {
    OddMarksCull(a.errors, a.Lines());
    KeptLinesShape(a.errors, a.Lines());
    var kept, params := KeptOf(a), KeptParams(a);
    forall i, j | 0 <= i < j < |params|
      ensures Before(params[i], params[j])
    {
      LineParamOrder(a.spans, pieces, kept[i], kept[j]);
    }
  }

  /** Refines the patch and culls the lines all of whose points lie on straight lines. */
  method BuildLines(ctrl: array2<Vert>, widthErrors: array<real>, heightErrors: array<real>, patch: Mesh, tuning: Tuning)
    returns (width: nat, height: nat, ghost b: Build)
    requires patch.Valid() && patch.width % 2 == 1 && patch.height % 2 == 1
    requires ctrl.Length0 == ctrl.Length1 == widthErrors.Length == heightErrors.Length && widthErrors != heightErrors
    requires patch.width <= ctrl.Length0 && patch.height <= ctrl.Length0
    modifies ctrl, widthErrors, heightErrors
    ensures BuiltFrom(PatchRows(patch), b, patch.width, patch.height, ctrl.Length0, tuning)
    ensures 2 <= width <= ctrl.Length0 && 2 <= height <= ctrl.Length0
    ensures LinesOnSurface(PatchRows(patch), ctrl, width, height, KeptParams(b.down), KeptParams(b.across), false)
    ensures widthErrors[..width] == KeptErrors(b.across) && heightErrors[..height] == KeptErrors(b.down)
  {
    width, height, b := RefinePatch(ctrl, widthErrors, heightErrors, patch, tuning);
    KeptSpan(b.across, patch.width / 2, ctrl.Length0);
    KeptSpan(b.down, patch.height / 2, ctrl.Length0);
    width := CullColumnsOnSurface(ctrl, widthErrors, width, height, patch, b);
    height := CullRowsOnSurface(ctrl, heightErrors, height, width, patch, b);
  }

  method CullColumnsOnSurface(ctrl: array2<Vert>, errors: array<real>, width0: nat, height: nat, ghost patch: Mesh, ghost b: Build)
    returns (width: nat)
    requires patch.Valid() && height == b.down.Lines() && width0 == b.across.Lines() && ctrl.Length1 == errors.Length
    requires b.across.Lined(patch.width / 2, ctrl.Length1) && errors[..] == b.across.errors
    requires GridOnAxes(PatchRows(patch), ctrl, b)
    modifies ctrl, errors
    ensures width == |KeptOf(b.across)| <= ctrl.Length1 && errors[..width] == KeptErrors(b.across)
    ensures forall r, c :: 0 <= r < height && 0 <= c < width ==>
              OnSurface(PatchRows(patch), ctrl[r, c], LineParam(b.down.spans, r), KeptParams(b.across)[c])
  {
    KeptSpan(b.across, patch.width / 2, ctrl.Length1);
    ghost var kept;
    width, kept := CullColumns(ctrl, errors, width0, height);
    forall r, c | 0 <= r < height && 0 <= c < width
      ensures OnSurface(PatchRows(patch), ctrl[r, c], LineParam(b.down.spans, r), KeptParams(b.across)[c])
    {
      assert OnSurface(PatchRows(patch), old(ctrl[r, kept[c]]), LineParam(b.down.spans, r), LineParam(b.across.spans, kept[c]));
    }
  }

  method CullRowsOnSurface(ctrl: array2<Vert>, errors: array<real>, height0: nat, width: nat, ghost patch: Mesh, ghost b: Build)
    returns (height: nat)
    requires patch.Valid() && width <= ctrl.Length1 && height0 == b.down.Lines() <= ctrl.Length0 == errors.Length
    requires |b.across.spans| > 0 && b.across.Lines() <= |b.across.errors| && width == |KeptOf(b.across)|
    requires b.down.Lined(patch.height / 2, ctrl.Length0) && errors[..] == b.down.errors
    requires forall r, c :: 0 <= r < height0 && 0 <= c < width ==>
               OnSurface(PatchRows(patch), ctrl[r, c], LineParam(b.down.spans, r), KeptParams(b.across)[c])
    modifies ctrl, errors
    ensures height == |KeptOf(b.down)| <= ctrl.Length0 && errors[..height] == KeptErrors(b.down)
    ensures LinesOnSurface(PatchRows(patch), ctrl, width, height, KeptParams(b.down), KeptParams(b.across), false)
  {
    KeptSpan(b.down, patch.height / 2, ctrl.Length0);
    ghost var kept;
    height, kept := CullRows(ctrl, errors, height0, width);
    forall r, c | 0 <= r < height && 0 <= c < width
      ensures OnSurface(PatchRows(patch), ctrl[r, c], KeptParams(b.down)[r], KeptParams(b.across)[c])
    {
      assert OnSurface(PatchRows(patch), old(ctrl[kept[r], c]), LineParam(b.down.spans, kept[r]), KeptParams(b.across)[c]);
    }
  }

  // ---------------------------------------------------------------- the whole function

  /**
   Where the vertices of a finished grid lie: u runs along its columns and v down its rows, or,
   after the flip of a tall grid, v runs backwards along its columns and u down its rows.
   */
  ghost predicate GridOnSurface(points: seq<seq<Vert>>, grid: Mesh, vs: seq<Param>, us: seq<Param>, flipped: bool)
    requires grid.Valid()
  {
    if flipped then
      && grid.width == |vs| && grid.height == |us|
      && (forall r, c :: 0 <= r < grid.height && 0 <= c < grid.width ==>
            OnSurface(points, grid.At(r, c), vs[grid.width - 1 - c], us[r]))
    else
      && grid.width == |us| && grid.height == |vs|
      && (forall r, c :: 0 <= r < grid.height && 0 <= c < grid.width ==> OnSurface(points, grid.At(r, c), vs[r], us[c]))
  }

  /** The same, for the working arrays the grid is filled from. */
  ghost predicate LinesOnSurface(points: seq<seq<Vert>>, ctrl: array2<Vert>, width: nat, height: nat,
                                 vs: seq<Param>, us: seq<Param>, flipped: bool)
    reads ctrl
  {
    && width <= ctrl.Length1 && height <= ctrl.Length0
    && if flipped then
         && width == |vs| && height == |us|
         && (forall r, c :: 0 <= r < height && 0 <= c < width ==> OnSurface(points, ctrl[r, c], vs[width - 1 - c], us[r]))
       else
         && width == |us| && height == |vs|
         && (forall r, c :: 0 <= r < height && 0 <= c < width ==> OnSurface(points, ctrl[r, c], vs[r], us[c]))
  }

  /** Makes the triangle list and fills the grid. */
  method FinishGrid(grid: Surface, width: nat, height: nat, ctrl: array2<Vert>, widthErrors: array<real>, heightErrors: array<real>,
                    ghost points: seq<seq<Vert>>, ghost vs: seq<Param>, ghost us: seq<Param>, ghost flipped: bool)
    requires 2 <= width <= ctrl.Length1 == widthErrors.Length && 2 <= height <= ctrl.Length0 == heightErrors.Length
    requires LinesOnSurface(points, ctrl, width, height, vs, us, flipped)
    modifies grid
    ensures grid.isGrid && grid.lodFixed == 0 && !grid.lodStitched
    ensures grid.Culled() && grid.lodOrigin == grid.cullOrigin && grid.lodRadius == grid.cullRadius
    ensures grid.width == width && grid.height == height && grid.Valid(ctrl.Length0 + ctrl.Length1)
    ensures grid.widthLodError == widthErrors[..width] && grid.heightLodError == heightErrors[..height]
    ensures GridOnSurface(points, grid.Shape(), vs, us, flipped)
    ensures grid.indexes == MeshTriangles(grid.height - 1, grid.width)
  {
    Arithmetic.MulNonNegative(width - 1, height - 1);
    var indexes := new nat[6 * ((width - 1) * (height - 1))];
    var numIndexes := MakeMeshIndexes(width, height, indexes);
    CreateSurfaceGridMesh(grid, width, height, ctrl, widthErrors, heightErrors, numIndexes, indexes);
  }

  function Reversed(errors: seq<real>): (r: seq<real>)
    ensures |r| == |errors| && forall i :: 0 <= i < |r| ==> r[i] == errors[|errors| - 1 - i]
  {
    seq(|errors|, i requires 0 <= i < |errors| => errors[|errors| - 1 - i])
  }

  /**
   The grid is made of just the unmarked lines of the two axes, each with its own error entry: those
   across are its columns and those down its rows, or the other way round after the flip.
   */
  ghost predicate Presents(points: seq<seq<Vert>>, grid: Mesh, widthErrors: seq<real>, heightErrors: seq<real>, b: Build, flipped: bool)
    requires grid.Valid() && b.Sized()
  {
    && GridOnSurface(points, grid, KeptParams(b.down), KeptParams(b.across), flipped)
    && widthErrors == WidthErrors(b, flipped) && heightErrors == HeightErrors(b, flipped)
  }

  ghost function WidthErrors(b: Build, flipped: bool): seq<real>
    requires b.Sized()
  {
    if flipped then Reversed(KeptErrors(b.down)) else KeptErrors(b.across)
  }

  ghost function HeightErrors(b: Build, flipped: bool): seq<real>
    requires b.Sized()
  {
    if flipped then KeptErrors(b.across) else KeptErrors(b.down)
  }

  lemma NoMarksKept(b: Build, flipped: bool, width0: nat, height0: nat, maxGridSize: nat)
    requires b.across.Lined(width0 / 2, maxGridSize) && b.down.Lined(height0 / 2, maxGridSize)
    ensures Spanning(KeptParams(b.across), width0 / 2) && Spanning(KeptParams(b.down), height0 / 2)
    ensures COLINEAR !in WidthErrors(b, flipped) && COLINEAR !in HeightErrors(b, flipped)
  {
    KeptSpan(b.across, width0 / 2, maxGridSize);
    KeptSpan(b.down, height0 / 2, maxGridSize);
    var errors := KeptErrors(b.down);
    assert forall i :: 0 <= i < |errors| ==> Reversed(errors)[i] in errors;
  }

  /**
   The finished grid samples the patch surface. It comes from subdividing the patch's rows and the
   columns of the result, each until every column triple is within the tolerance or the grid is full;
   it has just the lines not marked colinear, each with its own error; every vertex is the surface
   point at the parameters of its two lines, which increase strictly from border to border; it is at
   least as wide as tall, and its triangle list is that of its dimensions.
   */
  method SubdividePatchToGrid(grid: Surface, patch: Mesh, maxGridSize: nat, tuning: Tuning)
    returns (ghost b: Build, ghost flipped: bool)
    requires patch.Valid() && patch.width % 2 == 1 && patch.height % 2 == 1
    requires patch.width <= maxGridSize && patch.height <= maxGridSize
    modifies grid
    ensures grid.isGrid && grid.Valid(maxGridSize) && grid.width >= grid.height
    ensures BuiltFrom(PatchRows(patch), b, patch.width, patch.height, maxGridSize, tuning)
    ensures Presents(PatchRows(patch), grid.Shape(), grid.widthLodError, grid.heightLodError, b, flipped)
    ensures Spanning(KeptParams(b.across), patch.width / 2) && Spanning(KeptParams(b.down), patch.height / 2)
    ensures COLINEAR !in grid.widthLodError && COLINEAR !in grid.heightLodError
    ensures grid.indexes == MeshTriangles(grid.height - 1, grid.width)
    ensures grid.lodFixed == 0 && !grid.lodStitched
    ensures grid.Culled() && grid.lodOrigin == grid.cullOrigin && grid.lodRadius == grid.cullRadius
  {
    var ctrl := new Vert[maxGridSize, maxGridSize];
    var widthErrors, heightErrors := new real[maxGridSize], new real[maxGridSize];
    var width, height;
    width, height, b, flipped := BuildUnmarked(ctrl, widthErrors, heightErrors, patch, tuning);
    FinishGrid(grid, width, height, ctrl, widthErrors, heightErrors, PatchRows(patch), KeptParams(b.down), KeptParams(b.across), flipped);
  }

  /** Everything up to the filling of the grid; nothing that is kept is marked. */
  method BuildUnmarked(ctrl: array2<Vert>, widthErrors: array<real>, heightErrors: array<real>, patch: Mesh, tuning: Tuning)
    returns (width: nat, height: nat, ghost b: Build, ghost flipped: bool)
    requires patch.Valid() && patch.width % 2 == 1 && patch.height % 2 == 1
    requires ctrl.Length0 == ctrl.Length1 == widthErrors.Length == heightErrors.Length && widthErrors != heightErrors
    requires patch.width <= ctrl.Length0 && patch.height <= ctrl.Length0
    modifies ctrl, widthErrors, heightErrors
    ensures BuiltFrom(PatchRows(patch), b, patch.width, patch.height, ctrl.Length0, tuning)
    ensures 2 <= width <= ctrl.Length0 && 2 <= height <= width
    ensures LinesOnSurface(PatchRows(patch), ctrl, width, height, KeptParams(b.down), KeptParams(b.across), flipped)
    ensures widthErrors[..width] == WidthErrors(b, flipped) && heightErrors[..height] == HeightErrors(b, flipped)
    ensures Spanning(KeptParams(b.across), patch.width / 2) && Spanning(KeptParams(b.down), patch.height / 2)
    ensures COLINEAR !in widthErrors[..width] && COLINEAR !in heightErrors[..height]
  {
    width, height, b, flipped := BuildTurned(ctrl, widthErrors, heightErrors, patch, tuning);
    NoMarksKept(b, flipped, patch.width, patch.height, ctrl.Length0);
  }

  /** Subdivision, culling and the flip. */
  method BuildTurned(ctrl: array2<Vert>, widthErrors: array<real>, heightErrors: array<real>, patch: Mesh, tuning: Tuning)
    returns (width: nat, height: nat, ghost b: Build, ghost flipped: bool)
    requires patch.Valid() && patch.width % 2 == 1 && patch.height % 2 == 1
    requires ctrl.Length0 == ctrl.Length1 == widthErrors.Length == heightErrors.Length && widthErrors != heightErrors
    requires patch.width <= ctrl.Length0 && patch.height <= ctrl.Length0
    modifies ctrl, widthErrors, heightErrors
    ensures BuiltFrom(PatchRows(patch), b, patch.width, patch.height, ctrl.Length0, tuning)
    ensures 2 <= width <= ctrl.Length0 && 2 <= height <= width
    ensures LinesOnSurface(PatchRows(patch), ctrl, width, height, KeptParams(b.down), KeptParams(b.across), flipped)
    ensures widthErrors[..width] == WidthErrors(b, flipped) && heightErrors[..height] == HeightErrors(b, flipped)
  {
    width, height, b := BuildLines(ctrl, widthErrors, heightErrors, patch, tuning);
    width, height, flipped := TurnTall(ctrl, widthErrors, heightErrors, width, height, PatchRows(patch),
                                       KeptParams(b.across), KeptParams(b.down));
  }

  /** Flips a grid that is taller than wide. */
  method TurnTall(ctrl: array2<Vert>, widthErrors: array<real>, heightErrors: array<real>, width0: nat, height0: nat,
                  ghost points: seq<seq<Vert>>, ghost us: seq<Param>, ghost vs: seq<Param>)
    returns (width: nat, height: nat, ghost flipped: bool)
    requires ctrl.Length0 == ctrl.Length1 == widthErrors.Length == heightErrors.Length && widthErrors != heightErrors
    requires LinesOnSurface(points, ctrl, width0, height0, vs, us, false)
    modifies ctrl, widthErrors, heightErrors
    ensures flipped == (height0 > width0) && width <= ctrl.Length0 && height <= ctrl.Length0
    ensures width == (if flipped then height0 else width0) && height == if flipped then width0 else height0
    ensures LinesOnSurface(points, ctrl, width, height, vs, us, flipped)
    ensures widthErrors[..width] == if flipped then Reversed(old(heightErrors[..height0])) else old(widthErrors[..width0])
    ensures heightErrors[..height] == if flipped then old(widthErrors[..width0]) else old(heightErrors[..height0])
  {
    if height0 > width0 {
      FlipTall(ctrl, widthErrors, heightErrors, width0, height0, points, us, vs);
      return height0, width0, true;
    }
    return width0, height0, false;
  }

  method FlipTall(ctrl: array2<Vert>, widthErrors: array<real>, heightErrors: array<real>, width: nat, height: nat,
                  ghost points: seq<seq<Vert>>, ghost us: seq<Param>, ghost vs: seq<Param>)
    requires ctrl.Length0 == ctrl.Length1 == widthErrors.Length == heightErrors.Length && widthErrors != heightErrors
    requires LinesOnSurface(points, ctrl, width, height, vs, us, false)
    modifies ctrl, widthErrors, heightErrors
    ensures LinesOnSurface(points, ctrl, height, width, vs, us, true)
    ensures widthErrors[..height] == Reversed(old(heightErrors[..height])) && heightErrors[..width] == old(widthErrors[..width])
  {
    Flip(ctrl, widthErrors, heightErrors, width, height);
    forall r, c | 0 <= r < width && 0 <= c < height
      ensures OnSurface(points, ctrl[r, c], vs[height - 1 - c], us[r])
    {
      assert OnSurface(points, old(ctrl[height - 1 - c, r]), vs[height - 1 - c], us[r]);
    }
  }
}
