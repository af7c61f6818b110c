/** In-place rearrangements of a working grid, and the triangle list of a finished one. */
module GridShape {
  import opened Vertex
  import Arithmetic

  // ---------------------------------------------------------------- transpose and mirror

  /** Turns the block of `height` rows and `width` columns into its transpose, in place. */
  method Transpose(width: nat, height: nat, ctrl: array2<Vert>)
    requires width <= ctrl.Length0 && width <= ctrl.Length1 && height <= ctrl.Length0 && height <= ctrl.Length1
    modifies ctrl
    ensures forall r, c :: 0 <= r < width && 0 <= c < height ==> ctrl[r, c] == old(ctrl[c, r])
  {
    if width > height {
      for i := 0 to height
        invariant forall r, c :: 0 <= r < width && 0 <= c < width ==>
                    ctrl[r, c] == if (c < i && c < r) || (r < i && r < c < height) then old(ctrl[c, r]) else old(ctrl[r, c])
      {
        for j := i + 1 to width
          invariant forall r, c :: 0 <= r < width && 0 <= c < width ==>
                      ctrl[r, c] == if (c < i && c < r) || (r < i && r < c < height)
                                       || (c == i && i < r < j) || (r == i && i < c < j && c < height)
                                    then old(ctrl[c, r]) else old(ctrl[r, c])
        {
          if j < height {
            ctrl[j, i], ctrl[i, j] := ctrl[i, j], ctrl[j, i];
          } else {
            ctrl[j, i] := ctrl[i, j];
          }
        }
      }
    } else {
      for i := 0 to width
        invariant forall r, c :: 0 <= r < height && 0 <= c < height ==>
                    ctrl[r, c] == if (r < i && r < c) || (c < i && c < r < width) then old(ctrl[c, r]) else old(ctrl[r, c])
      {
        for j := i + 1 to height
          invariant forall r, c :: 0 <= r < height && 0 <= c < height ==>
                      ctrl[r, c] == if (r < i && r < c) || (c < i && c < r < width)
                                       || (r == i && i < c < j) || (c == i && i < r < j && r < width)
                                    then old(ctrl[c, r]) else old(ctrl[r, c])
        {
          if j < width {
            ctrl[i, j], ctrl[j, i] := ctrl[j, i], ctrl[i, j];
          } else {
            ctrl[i, j] := ctrl[j, i];
          }
        }
      }
    }
  }

  /** Mirrors every row of the block; what lies outside the block stays. */
  method InvertCtrl(width: nat, height: nat, ctrl: array2<Vert>)
    requires height <= ctrl.Length0 && width <= ctrl.Length1
    modifies ctrl
    ensures forall r, c :: 0 <= r < height && 0 <= c < width ==> ctrl[r, c] == old(ctrl[r, width - 1 - c])
    ensures forall r, c :: 0 <= r < ctrl.Length0 && 0 <= c < ctrl.Length1 && (r >= height || c >= width) ==>
              ctrl[r, c] == old(ctrl[r, c])
  {
    for i := 0 to height
      invariant forall r, c :: 0 <= r < ctrl.Length0 && 0 <= c < ctrl.Length1 ==>
                  ctrl[r, c] == if r < i && c < width then old(ctrl[r, width - 1 - c]) else old(ctrl[r, c])
    {
      InvertRow(width, i, ctrl);
    }
  }

  method InvertRow(width: nat, i: nat, ctrl: array2<Vert>)
    requires i < ctrl.Length0 && width <= ctrl.Length1
    modifies ctrl
    ensures forall r, c :: 0 <= r < ctrl.Length0 && 0 <= c < ctrl.Length1 ==>
              ctrl[r, c] == if r == i && c < width then old(ctrl[r, width - 1 - c]) else old(ctrl[r, c])
  {
    for j := 0 to width / 2
      invariant forall r, c :: 0 <= r < ctrl.Length0 && 0 <= c < ctrl.Length1 ==>
                  ctrl[r, c] == if r == i && c < width && (c < j || width - 1 - c < j) then old(ctrl[r, width - 1 - c])
                                else old(ctrl[r, c])
    {
      ctrl[i, j], ctrl[i, width - 1 - j] := ctrl[i, width - 1 - j], ctrl[i, j];
    }
  }

  /** Exchanges the two rows of the error table, reversing the one that becomes the width row. */
  method InvertErrorTable(widthErrors: array<real>, heightErrors: array<real>, width: nat, height: nat)
    requires widthErrors != heightErrors
    requires width <= widthErrors.Length == heightErrors.Length && height <= widthErrors.Length
    modifies widthErrors, heightErrors
    ensures forall i :: 0 <= i < width ==> heightErrors[i] == old(widthErrors[i])
    ensures forall i :: 0 <= i < height ==> widthErrors[i] == old(heightErrors[height - 1 - i])
  {
    var copy0, copy1 := widthErrors[..], heightErrors[..];
    for i := 0 to width
      invariant forall k :: 0 <= k < i ==> heightErrors[k] == copy0[k]
    {
      heightErrors[i] := copy0[i];
    }
    for i := 0 to height
      invariant forall k :: 0 <= k < i ==> widthErrors[k] == copy1[height - 1 - k]
      invariant forall k :: 0 <= k < width ==> heightErrors[k] == copy0[k]
    {
      widthErrors[i] := copy1[height - 1 - i];
    }
  }

  /**
   The flip of a tall grid: a quarter turn. New row r is old column r and new column c is old row
   height - 1 - c, vertices and error entries alike, so every grid line keeps its own error.
   */
  method Flip(ctrl: array2<Vert>, widthErrors: array<real>, heightErrors: array<real>, width: nat, height: nat)
    requires widthErrors != heightErrors && widthErrors.Length == heightErrors.Length == ctrl.Length0 == ctrl.Length1
    requires width <= ctrl.Length0 && height <= ctrl.Length0
    modifies ctrl, widthErrors, heightErrors
    ensures forall r, c :: 0 <= r < width && 0 <= c < height ==> ctrl[r, c] == old(ctrl[height - 1 - c, r])
    ensures forall r :: 0 <= r < width ==> heightErrors[r] == old(widthErrors[r])
    ensures forall c :: 0 <= c < height ==> widthErrors[c] == old(heightErrors[height - 1 - c])
  {
    Transpose(width, height, ctrl);
    InvertErrorTable(widthErrors, heightErrors, width, height);
    InvertCtrl(height, width, ctrl);
  }

  // ---------------------------------------------------------------- triangles

  /** The six indexes of the two triangles of the cell in row i, column j. */
  function CellTriangles(i: nat, j: nat, width: nat): seq<nat>
    requires j + 1 < width
  {
    var v1 := i * width + j + 1;
    [v1 - 1, v1 - 1 + width, v1, v1, v1 - 1 + width, v1 + width]
  }

  function RowTriangles(i: nat, n: nat, width: nat): (s: seq<nat>)
    requires n < width
  {
    if n == 0 then [] else RowTriangles(i, n - 1, width) + CellTriangles(i, n - 1, width)
  }

  function MeshTriangles(rows: nat, width: nat): (s: seq<nat>)
    requires width > 0
  {
    if rows == 0 then [] else MeshTriangles(rows - 1, width) + RowTriangles(rows - 1, width - 1, width)
  }

  lemma {:induction false} RowTrianglesLength(i: nat, n: nat, width: nat)
    requires n < width
    ensures |RowTriangles(i, n, width)| == 6 * n
  {
    if n > 0 {
      RowTrianglesLength(i, n - 1, width);
    }
  }

  /** Two triangles, hence six indexes, for each of the (width - 1) * rows cells. */
  lemma {:induction false} MeshTrianglesLength(rows: nat, width: nat)
    requires width > 0
    ensures |MeshTriangles(rows, width)| == 6 * ((width - 1) * rows)
  {
    if rows > 0 {
      MeshTrianglesLength(rows - 1, width);
      RowTrianglesLength(rows - 1, width - 1, width);
      Arithmetic.MulSucc(width - 1, rows - 1);
    }
  }

  /** The first i rows of cells fill i * 6 * (width - 1) indexes, which leaves room for the next row. */
  lemma RowFits(i: nat, rows: nat, width: nat)
    requires width > 0 && i < rows
    ensures 6 * ((width - 1) * (i + 1)) == 6 * ((width - 1) * i) + 6 * (width - 1)
    ensures (width - 1) * (i + 1) <= (width - 1) * rows
  {
    Arithmetic.MulSucc(width - 1, i);
    Arithmetic.MulMonotone(width - 1, i + 1, rows);
  }

  method WriteCell(i: nat, j: nat, width: nat, indexes: array<nat>, numIndexes: nat)
    requires j + 1 < width && numIndexes + 6 <= indexes.Length
    modifies indexes
    ensures indexes[..numIndexes + 6] == old(indexes[..numIndexes]) + CellTriangles(i, j, width)
  {
    var v1 := i * width + j + 1;
    var v2 := v1 - 1;
    var v3 := v2 + width;
    var v4 := v3 + 1;
    indexes[numIndexes], indexes[numIndexes + 1], indexes[numIndexes + 2] := v2, v3, v1;
    indexes[numIndexes + 3], indexes[numIndexes + 4], indexes[numIndexes + 5] := v1, v3, v4;
  }

  method MakeMeshIndexes(width: nat, height: nat, indexes: array<nat>) returns (numIndexes: nat)
    requires width > 0 && height > 0 && 6 * ((width - 1) * (height - 1)) <= indexes.Length
    modifies indexes
    ensures numIndexes == 6 * ((width - 1) * (height - 1)) && numIndexes <= indexes.Length
    ensures indexes[..numIndexes] == MeshTriangles(height - 1, width)
  {
    numIndexes := 0;
    for i := 0 to height - 1
      invariant numIndexes == 6 * ((width - 1) * i) && numIndexes <= indexes.Length
      invariant indexes[..numIndexes] == MeshTriangles(i, width)
    {
      ghost var start, mesh := numIndexes, MeshTriangles(i, width);
      RowFits(i, height - 1, width);
      for j := 0 to width - 1
        invariant numIndexes == start + 6 * j && numIndexes <= indexes.Length
        invariant indexes[..numIndexes] == mesh + RowTriangles(i, j, width)
      {
        WriteCell(i, j, width, indexes, numIndexes);
        assert mesh + (RowTriangles(i, j, width) + CellTriangles(i, j, width))
            == mesh + RowTriangles(i, j, width) + CellTriangles(i, j, width);
        numIndexes := numIndexes + 6;
      }
    }
  }

  lemma {:induction false} RowCell(i: nat, j: nat, n: nat, width: nat)
    requires j < n < width
    ensures |RowTriangles(i, n, width)| == 6 * n
    ensures RowTriangles(i, n, width)[6 * j..6 * j + 6] == CellTriangles(i, j, width)
  {
    RowTrianglesLength(i, n, width);
    RowTrianglesLength(i, n - 1, width);
    if j < n - 1 {
      RowCell(i, j, n - 1, width);
      var s := RowTriangles(i, n - 1, width);
      assert (s + CellTriangles(i, n - 1, width))[6 * j..6 * j + 6] == s[6 * j..6 * j + 6];
    }
  }

  lemma {:induction false} MeshPrefix(i: nat, rows: nat, width: nat)
    requires i <= rows && width > 0
    ensures MeshTriangles(i, width) <= MeshTriangles(rows, width)
  {
    if i < rows {
      MeshPrefix(i, rows - 1, width);
    }
  }

  /**
   The triangles of cell (i, j) stand right after the i earlier rows of cells and the j earlier
   cells of its own row: every cell is covered, each at its own place.
   */
  lemma MeshCell(i: nat, j: nat, rows: nat, width: nat)
    requires i < rows && j + 1 < width
    ensures
      var k := |MeshTriangles(i, width)| + 6 * j;
      && k + 6 <= |MeshTriangles(rows, width)|
      && MeshTriangles(rows, width)[k..k + 6] == CellTriangles(i, j, width)
  {
    var k := |MeshTriangles(i, width)| + 6 * j;
    var row := RowTriangles(i, width - 1, width);
    RowCell(i, j, width - 1, width);
    MeshPrefix(i + 1, rows, width);
    RowInMesh(i, j, width);
    var before := MeshTriangles(i + 1, width);
    assert MeshTriangles(rows, width)[k..k + 6] == MeshTriangles(rows, width)[..|before|][k..k + 6];
  }

  lemma RowInMesh(i: nat, j: nat, width: nat)
    requires width > 0 && 6 * j + 6 <= |RowTriangles(i, width - 1, width)|
    ensures
      var k := |MeshTriangles(i, width)| + 6 * j;
      && k + 6 <= |MeshTriangles(i + 1, width)|
      && MeshTriangles(i + 1, width)[k..k + 6] == RowTriangles(i, width - 1, width)[6 * j..6 * j + 6]
  {
  }

  /** A grid position: its column and its row. */
  datatype Spot = Spot(x: int, y: int)

  function SpotOf(v: nat, width: nat): Spot
    requires width > 0
  {
    Spot(v % width, v / width)
  }

  /** Twice the signed area of a triangle of grid positions. */
  function Winding(a: Spot, b: Spot, c: Spot): int {
    (b.x - a.x) * (c.y - a.y) - (c.x - a.x) * (b.y - a.y)
  }

  /** Where the quarter turn of Flip takes the position of an old grid `height` rows tall. */
  function Turned(p: Spot, height: nat): Spot {
    Spot(height - 1 - p.y, p.x)
  }

  lemma TurnKeepsWinding(a: Spot, b: Spot, c: Spot, height: nat)
    ensures Winding(Turned(a, height), Turned(b, height), Turned(c, height)) == Winding(a, b, c)
  {
    assert (b.x - a.x) * (c.y - a.y) == (c.y - a.y) * (b.x - a.x);
    assert (c.x - a.x) * (b.y - a.y) == (b.y - a.y) * (c.x - a.x);
  }

  lemma SpotOfIndex(i: nat, j: nat, width: nat)
    requires j < width
    ensures SpotOf(i * width + j, width) == Spot(j, i)
  {
    Arithmetic.DivModUnique(i * width + j, width, i, j);
  }

  /**
   The two triangles of a cell use its four corners, lie in range, are wound the same way and have
   half the cell's area each, with the other diagonal's corners on opposite sides of the shared edge.
   */
  lemma CellIsTwoTriangles(i: nat, j: nat, width: nat, height: nat)
    requires j + 1 < width && i + 1 < height
    ensures
      var t := CellTriangles(i, j, width);
      && (forall k :: 0 <= k < 6 ==> t[k] < width * height)
      && SpotOf(t[0], width) == Spot(j, i) && SpotOf(t[1], width) == Spot(j, i + 1) && SpotOf(t[2], width) == Spot(j + 1, i)
      && SpotOf(t[3], width) == Spot(j + 1, i) && SpotOf(t[4], width) == Spot(j, i + 1) && SpotOf(t[5], width) == Spot(j + 1, i + 1)
      && Winding(SpotOf(t[0], width), SpotOf(t[1], width), SpotOf(t[2], width)) == -1
      && Winding(SpotOf(t[3], width), SpotOf(t[4], width), SpotOf(t[5], width)) == -1
  {
    SpotOfIndex(i, j, width);
    SpotOfIndex(i, j + 1, width);
    SpotOfIndex(i + 1, j, width);
    SpotOfIndex(i + 1, j + 1, width);
    assert i * width == width * i && (i + 1) * width == width * (i + 1);
    Arithmetic.MulSucc(width, i);
    Arithmetic.MulSucc(width, i + 1);
    Arithmetic.MulMonotone(width, i + 2, height);
  }
}
