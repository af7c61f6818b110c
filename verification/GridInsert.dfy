/** Adding one column or one row to a finished grid. */
module GridInsert {
  import opened Vertex
  import opened GridShape
  import opened BspSurface
  import Arithmetic

  // ---------------------------------------------------------------- reference

  /**
   Vertex v stands halfway between its two neighbours in every coordinate; where it has been moved, its
   position is the given point.
   */
  ghost predicate IsBetween(v: Vert, a: Vert, b: Vert, moved: bool, point: Vec3) {
    && 2.0 * v.s == a.s + b.s && 2.0 * v.t == a.t + b.t
    && if moved then v.x == point.x && v.y == point.y && v.z == point.z
       else 2.0 * v.x == a.x + b.x && 2.0 * v.y == a.y + b.y && 2.0 * v.z == a.z + b.z
  }

  /** Mesh n is mesh o with a column added before its column `column`. */
  ghost predicate ColumnInserted(o: Mesh, n: Mesh, column: nat, row: nat, point: Vec3) {
    && o.Valid() && n.Valid() && n.width == o.width + 1 && n.height == o.height && 0 < column < o.width
    && (forall r, c :: 0 <= r < o.height && 0 <= c < column ==> n.At(r, c) == o.At(r, c))
    && (forall r, c :: 0 <= r < o.height && column < c < n.width ==> n.At(r, c) == o.At(r, c - 1))
    && (forall r :: 0 <= r < o.height ==>
          IsBetween(n.At(r, column), o.At(r, column - 1), o.At(r, column), r == row, point))
  }

  /** Mesh n is mesh o with a row added before its row `row`. */
  ghost predicate RowInserted(o: Mesh, n: Mesh, row: nat, column: nat, point: Vec3) {
    && o.Valid() && n.Valid() && n.width == o.width && n.height == o.height + 1 && 0 < row < o.height
    && (forall r, c :: 0 <= r < row && 0 <= c < o.width ==> n.At(r, c) == o.At(r, c))
    && (forall r, c :: row < r < n.height && 0 <= c < o.width ==> n.At(r, c) == o.At(r - 1, c))
    && (forall c :: 0 <= c < o.width ==>
          IsBetween(n.At(row, c), o.At(row - 1, c), o.At(row, c), c == column, point))
  }

  function InsertAt<T>(s: seq<T>, k: nat, x: T): seq<T>
    requires k <= |s|
  {
    s[..k] + [x] + s[k..]
  }

  // ---------------------------------------------------------------- R_GridInsertColumn

  method CopyErrors(from: seq<real>, to: array<real>)
    requires |from| <= to.Length
    modifies to
    ensures to[..|from|] == from
  {
    for j := 0 to |from|
      invariant to[..j] == from[..j]
    {
      to[j] := from[j];
    }
  }

  method FillColumn(ctrl: array2<Vert>, i: nat, mesh: Mesh, c: nat)
    requires mesh.Valid() && c < mesh.width && i < ctrl.Length1 && mesh.height <= ctrl.Length0
    modifies ctrl
    ensures forall r :: 0 <= r < mesh.height ==> ctrl[r, i] == mesh.At(r, c)
    ensures forall r, k :: 0 <= r < ctrl.Length0 && 0 <= k < ctrl.Length1 && k != i ==> ctrl[r, k] == old(ctrl[r, k])
  {
    for j := 0 to mesh.height
      invariant forall r :: 0 <= r < j ==> ctrl[r, i] == mesh.At(r, c)
      invariant forall r, k :: 0 <= r < ctrl.Length0 && 0 <= k < ctrl.Length1 && k != i ==> ctrl[r, k] == old(ctrl[r, k])
    {
      ctrl[j, i] := mesh.At(j, c);
    }
  }

  method FillNewColumn(ctrl: array2<Vert>, i: nat, mesh: Mesh, row: nat, point: Vec3)
    requires mesh.Valid() && 0 < i < mesh.width && i < ctrl.Length1 && mesh.height <= ctrl.Length0
    modifies ctrl
    ensures forall r :: 0 <= r < mesh.height ==> IsBetween(ctrl[r, i], mesh.At(r, i - 1), mesh.At(r, i), r == row, point)
    ensures forall r, k :: 0 <= r < ctrl.Length0 && 0 <= k < ctrl.Length1 && k != i ==> ctrl[r, k] == old(ctrl[r, k])
  {
    for j := 0 to mesh.height
      invariant forall r :: 0 <= r < j ==> IsBetween(ctrl[r, i], mesh.At(r, i - 1), mesh.At(r, i), r == row, point)
      invariant forall r, k :: 0 <= r < ctrl.Length0 && 0 <= k < ctrl.Length1 && k != i ==> ctrl[r, k] == old(ctrl[r, k])
    {
      ctrl[j, i] := LerpDrawVert(mesh.At(j, i - 1), mesh.At(j, i));
      if j == row {
        ctrl[j, i] := ctrl[j, i].WithXyz(point);
      }
    }
  }

  /** Copies the old columns around the new one, with their error entries. */
  method SpreadColumns(ctrl: array2<Vert>, errors: array<real>, mesh: Mesh, oldErrors: seq<real>,
                       column: nat, row: nat, point: Vec3, loderror: real)
    requires mesh.Valid() && |oldErrors| == mesh.width && 0 < column < mesh.width
    requires mesh.width < ctrl.Length1 == errors.Length && mesh.height <= ctrl.Length0
    modifies ctrl, errors
    ensures forall r, c :: 0 <= r < mesh.height && 0 <= c < column ==> ctrl[r, c] == mesh.At(r, c)
    ensures forall r, c :: 0 <= r < mesh.height && column < c <= mesh.width ==> ctrl[r, c] == mesh.At(r, c - 1)
    ensures forall r :: 0 <= r < mesh.height ==>
              IsBetween(ctrl[r, column], mesh.At(r, column - 1), mesh.At(r, column), r == row, point)
    ensures errors[..mesh.width + 1] == InsertAt(oldErrors, column, loderror)
  {
    var oldwidth := 0;
    for i := 0 to mesh.width + 1
      invariant oldwidth == if i <= column then i else i - 1
      invariant forall r, c :: 0 <= r < mesh.height && 0 <= c < i && c < column ==> ctrl[r, c] == mesh.At(r, c)
      invariant forall r, c :: 0 <= r < mesh.height && column < c < i ==> ctrl[r, c] == mesh.At(r, c - 1)
      invariant column < i ==> forall r :: 0 <= r < mesh.height ==>
                  IsBetween(ctrl[r, column], mesh.At(r, column - 1), mesh.At(r, column), r == row, point)
      invariant errors[..i] == InsertAt(oldErrors, column, loderror)[..i]
    {
      if i == column {
        FillNewColumn(ctrl, i, mesh, row, point);
        errors[i] := loderror;
        continue;
      }
      errors[i] := oldErrors[oldwidth];
      FillColumn(ctrl, i, mesh, oldwidth);
      oldwidth := oldwidth + 1;
    }
  }

  /**
   Adds a column before column `column`; its vertex in row `row` is moved to `point`. A grid that
   is already full is left alone. The LOD sphere, hence the LOD group, stays what it was.
   */
  method GridInsertColumn(grid: Surface, column: nat, row: nat, point: Vec3, loderror: real, maxGridSize: nat)
    requires grid.Valid(maxGridSize) && grid.isGrid && 0 < column < grid.width
    modifies grid
    ensures grid.Valid(maxGridSize) && grid.isGrid
    ensures grid.lodOrigin == old(grid.lodOrigin) && grid.lodRadius == old(grid.lodRadius)
    ensures old(grid.width) == maxGridSize ==> unchanged(grid)
    ensures old(grid.width) < maxGridSize ==>
              && ColumnInserted(old(grid.Shape()), grid.Shape(), column, row, point)
              && grid.widthLodError == InsertAt(old(grid.widthLodError), column, loderror)
              && grid.heightLodError == old(grid.heightLodError)
              && grid.indexes == MeshTriangles(grid.height - 1, grid.width)
              && grid.lodFixed == 0 && !grid.lodStitched
  {
    var width := grid.width + 1;
    if width > maxGridSize {
      return;
    }
    var mesh := Mesh(grid.width, grid.height, grid.verts);
    var ctrl := new Vert[maxGridSize, maxGridSize];
    var widthErrors, heightErrors := new real[maxGridSize], new real[maxGridSize];
    SpreadColumns(ctrl, widthErrors, mesh, grid.widthLodError, column, row, point, loderror);
    CopyErrors(grid.heightLodError, heightErrors);
    Rebuild(grid, width, grid.height, ctrl, widthErrors, heightErrors);
  }

  /** Makes the triangle list, replaces the grid's data and puts its LOD sphere back. */
  method Rebuild(grid: Surface, width: nat, height: nat, ctrl: array2<Vert>, widthErrors: array<real>, heightErrors: array<real>)
    requires 2 <= width <= ctrl.Length1 == widthErrors.Length && 2 <= height <= ctrl.Length0 == heightErrors.Length
    modifies grid
    ensures grid.isGrid && grid.width == width && grid.height == height && grid.lodFixed == 0 && !grid.lodStitched
    ensures grid.Shape().Valid()
    ensures forall r, c :: 0 <= r < height && 0 <= c < width ==> grid.Shape().At(r, c) == ctrl[r, c]
    ensures grid.widthLodError == widthErrors[..width] && grid.heightLodError == heightErrors[..height]
    ensures grid.indexes == MeshTriangles(height - 1, width)
    ensures grid.lodOrigin == old(grid.lodOrigin) && grid.lodRadius == old(grid.lodRadius)
  {
    Arithmetic.MulNonNegative(width - 1, height - 1);
    var indexes := new nat[6 * ((width - 1) * (height - 1))];
    var numIndexes := MakeMeshIndexes(width, height, indexes);
    var lodOrigin, lodRadius := grid.lodOrigin, grid.lodRadius;
    CreateSurfaceGridMesh(grid, width, height, ctrl, widthErrors, heightErrors, numIndexes, indexes);
    grid.lodRadius := lodRadius;
    grid.lodOrigin := lodOrigin;
  }

  // ---------------------------------------------------------------- R_GridInsertRow

  method FillRow(ctrl: array2<Vert>, i: nat, mesh: Mesh, r: nat)
    requires mesh.Valid() && r < mesh.height && i < ctrl.Length0 && mesh.width <= ctrl.Length1
    modifies ctrl
    ensures forall c :: 0 <= c < mesh.width ==> ctrl[i, c] == mesh.At(r, c)
    ensures forall k, c :: 0 <= k < ctrl.Length0 && 0 <= c < ctrl.Length1 && k != i ==> ctrl[k, c] == old(ctrl[k, c])
  {
    for j := 0 to mesh.width
      invariant forall c :: 0 <= c < j ==> ctrl[i, c] == mesh.At(r, c)
      invariant forall k, c :: 0 <= k < ctrl.Length0 && 0 <= c < ctrl.Length1 && k != i ==> ctrl[k, c] == old(ctrl[k, c])
    {
      ctrl[i, j] := mesh.At(r, j);
    }
  }

  method FillNewRow(ctrl: array2<Vert>, i: nat, mesh: Mesh, column: nat, point: Vec3)
    requires mesh.Valid() && 0 < i < mesh.height && i < ctrl.Length0 && mesh.width <= ctrl.Length1
    modifies ctrl
    ensures forall c :: 0 <= c < mesh.width ==> IsBetween(ctrl[i, c], mesh.At(i - 1, c), mesh.At(i, c), c == column, point)
    ensures forall k, c :: 0 <= k < ctrl.Length0 && 0 <= c < ctrl.Length1 && k != i ==> ctrl[k, c] == old(ctrl[k, c])
  {
    for j := 0 to mesh.width
      invariant forall c :: 0 <= c < j ==> IsBetween(ctrl[i, c], mesh.At(i - 1, c), mesh.At(i, c), c == column, point)
      invariant forall k, c :: 0 <= k < ctrl.Length0 && 0 <= c < ctrl.Length1 && k != i ==> ctrl[k, c] == old(ctrl[k, c])
    {
      ctrl[i, j] := LerpDrawVert(mesh.At(i - 1, j), mesh.At(i, j));
      if j == column {
        ctrl[i, j] := ctrl[i, j].WithXyz(point);
      }
    }
  }

  /** Copies the old rows around the new one, with their error entries. */
  method SpreadRows(ctrl: array2<Vert>, errors: array<real>, mesh: Mesh, oldErrors: seq<real>,
                    row: nat, column: nat, point: Vec3, loderror: real)
    requires mesh.Valid() && |oldErrors| == mesh.height && 0 < row < mesh.height
    requires mesh.height < ctrl.Length0 == errors.Length && mesh.width <= ctrl.Length1
    modifies ctrl, errors
    ensures forall r, c :: 0 <= r < row && 0 <= c < mesh.width ==> ctrl[r, c] == mesh.At(r, c)
    ensures forall r, c :: row < r <= mesh.height && 0 <= c < mesh.width ==> ctrl[r, c] == mesh.At(r - 1, c)
    ensures forall c :: 0 <= c < mesh.width ==>
              IsBetween(ctrl[row, c], mesh.At(row - 1, c), mesh.At(row, c), c == column, point)
    ensures errors[..mesh.height + 1] == InsertAt(oldErrors, row, loderror)
  {
    var oldheight := 0;
    for i := 0 to mesh.height + 1
      invariant oldheight == if i <= row then i else i - 1
      invariant forall r, c :: 0 <= r < i && r < row && 0 <= c < mesh.width ==> ctrl[r, c] == mesh.At(r, c)
      invariant forall r, c :: row < r < i && 0 <= c < mesh.width ==> ctrl[r, c] == mesh.At(r - 1, c)
      invariant row < i ==> forall c :: 0 <= c < mesh.width ==>
                  IsBetween(ctrl[row, c], mesh.At(row - 1, c), mesh.At(row, c), c == column, point)
      invariant errors[..i] == InsertAt(oldErrors, row, loderror)[..i]
    {
      if i == row {
        FillNewRow(ctrl, i, mesh, column, point);
        errors[i] := loderror;
        continue;
      }
      errors[i] := oldErrors[oldheight];
      FillRow(ctrl, i, mesh, oldheight);
      oldheight := oldheight + 1;
    }
  }

  /** Adds a row before row `row`; its vertex in column `column` is moved to `point`. */
  method GridInsertRow(grid: Surface, row: nat, column: nat, point: Vec3, loderror: real, maxGridSize: nat)
    requires grid.Valid(maxGridSize) && grid.isGrid && 0 < row < grid.height
    modifies grid
    ensures grid.Valid(maxGridSize) && grid.isGrid
    ensures grid.lodOrigin == old(grid.lodOrigin) && grid.lodRadius == old(grid.lodRadius)
    ensures old(grid.height) == maxGridSize ==> unchanged(grid)
    ensures old(grid.height) < maxGridSize ==>
              && RowInserted(old(grid.Shape()), grid.Shape(), row, column, point)
              && grid.widthLodError == old(grid.widthLodError)
              && grid.heightLodError == InsertAt(old(grid.heightLodError), row, loderror)
              && grid.indexes == MeshTriangles(grid.height - 1, grid.width)
              && grid.lodFixed == 0 && !grid.lodStitched
  {
    var height := grid.height + 1;
    if height > maxGridSize {
      return;
    }
    var mesh := Mesh(grid.width, grid.height, grid.verts);
    var ctrl := new Vert[maxGridSize, maxGridSize];
    var widthErrors, heightErrors := new real[maxGridSize], new real[maxGridSize];
    SpreadRows(ctrl, heightErrors, mesh, grid.heightLodError, row, column, point, loderror);
    CopyErrors(grid.widthLodError, widthErrors);
    Rebuild(grid, grid.width, height, ctrl, widthErrors, heightErrors);
  }
}
