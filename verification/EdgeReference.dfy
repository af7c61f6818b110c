/**
 What the comparisons of stitching and of level-of-detail fixing mean on the vertex lists themselves: the
 border lines of a grid are its first and last row and its first and last column.
 */
module EdgeReference {
  import opened Vertex
  import opened BspSurface
  import opened GridInsert
  import opened Stitching
  import opened LodErrors

  // ---------------------------------------------------------------- border lines

  /** Where vertex k of a border line is stored: the first or the last, of the rows or of the columns. */
  function Index(m: Mesh, row: bool, last: bool, k: nat): int {
    if row then k + (if last then (m.height - 1) * m.width else 0)
    else m.width * k + (if last then m.width - 1 else 0)
  }

  function Count(m: Mesh, row: bool): nat {
    if row then m.width else m.height
  }

  function SideOf(row: bool, last: bool): Side {
    if row then (if last then Bottom else Top) else if last then Right else Left
  }

  function IsRow(side: Side): bool {
    side == Top || side == Bottom
  }

  function IsLast(side: Side): bool {
    side == Bottom || side == Right
  }

  /** No coordinate differs by more than a tenth. */
  ghost predicate Close(v: Vert, w: Vert) {
    -0.1 <= v.x - w.x <= 0.1 && -0.1 <= v.y - w.y <= 0.1 && -0.1 <= v.z - w.z <= 0.1
  }

  /** Every coordinate differs by less than a hundredth. */
  ghost predicate VeryClose(v: Vert, w: Vert) {
    -0.01 < v.x - w.x < 0.01 && -0.01 < v.y - w.y < 0.01 && -0.01 < v.z - w.z < 0.01
  }

  /** Vertex k of a line of m1 is close to vertex l of a line of m2. */
  ghost predicate CloseAt(m1: Mesh, row1: bool, last1: bool, k: nat, m2: Mesh, row2: bool, last2: bool, l: nat) {
    && k < Count(m1, row1) && l < Count(m2, row2)
    && 0 <= Index(m1, row1, last1, k) < |m1.verts| && 0 <= Index(m2, row2, last2, l) < |m2.verts|
    && Close(m1.verts[Index(m1, row1, last1, k)], m2.verts[Index(m2, row2, last2, l)])
  }

  /** Two inner vertices of the line are close. */
  ghost predicate HasClose(m: Mesh, row: bool, last: bool) {
    exists i: nat, j: nat :: 0 < i < j < Count(m, row) - 1 && CloseAt(m, row, last, i, m, row, last, j)
  }

  /** Inner vertices of two lines are close, and neither line has two close inner vertices. */
  ghost predicate Meets(m1: Mesh, row1: bool, last1: bool, k: nat, m2: Mesh, row2: bool, last2: bool, l: nat) {
    && 0 < k < Count(m1, row1) - 1 && 0 < l < Count(m2, row2) - 1
    && !HasClose(m1, row1, last1) && !HasClose(m2, row2, last2)
    && CloseAt(m1, row1, last1, k, m2, row2, last2, l)
  }

  lemma VertexOf(m: Mesh, side: Side, k: nat)
    requires m.Valid() && k < EdgeLength(m, side)
    ensures EdgeLength(m, side) == Count(m, IsRow(side)) && 0 <= Index(m, IsRow(side), IsLast(side), k) < |m.verts|
    ensures EdgeAt(m, side, k) == m.verts[Index(m, IsRow(side), IsLast(side), k)].Xyz()
  {
    EdgeSlotIs(m, side, k);
  }

  lemma NearIff(v: Vert, w: Vert)
    ensures Near(v.Xyz(), w.Xyz()) <==> Close(v, w)
    ensures Coincident(v.Xyz(), w.Xyz()) <==> VeryClose(v, w)
  {
  }

  lemma NearIsClose(m1: Mesh, side1: Side, k: nat, m2: Mesh, side2: Side, l: nat)
    requires m1.Valid() && m2.Valid() && k < EdgeLength(m1, side1) && l < EdgeLength(m2, side2)
    ensures Near(EdgeAt(m1, side1, k), EdgeAt(m2, side2, l))
       <==> CloseAt(m1, IsRow(side1), IsLast(side1), k, m2, IsRow(side2), IsLast(side2), l)
  {
    VertexOf(m1, side1, k);
    VertexOf(m2, side2, l);
    NearIff(m1.verts[Index(m1, IsRow(side1), IsLast(side1), k)], m2.verts[Index(m2, IsRow(side2), IsLast(side2), l)]);
  }

  lemma MergedIff(m: Mesh, side: Side)
    requires m.Valid()
    ensures Merged(m, side) <==> HasClose(m, IsRow(side), IsLast(side))
  {
    VertexOf(m, side, 0);
    forall i: nat, j: nat | 0 < i < j < EdgeLength(m, side) - 1
      ensures Near(EdgeAt(m, side, i), EdgeAt(m, side, j)) <==> CloseAt(m, IsRow(side), IsLast(side), i, m, IsRow(side), IsLast(side), j)
    {
      NearIsClose(m, side, i, m, side, j);
    }
    if HasClose(m, IsRow(side), IsLast(side)) {
      var i: nat, j: nat :| 0 < i < j < Count(m, IsRow(side)) - 1 && CloseAt(m, IsRow(side), IsLast(side), i, m, IsRow(side), IsLast(side), j);
      assert Near(EdgeAt(m, side, i), EdgeAt(m, side, j));
    }
  }

  /** Grids of one LOD group have the same radius and origin. */
  lemma SameGroupIff(g: Look, o: Look)
    ensures g.SameGroup(o) <==> g.radius == o.radius && g.origin.x == o.origin.x && g.origin.y == o.origin.y && g.origin.z == o.origin.z
  {
  }

  // ---------------------------------------------------------------- touching grids

  /** The comparisons of the nested loops are those of the four border lines of each grid. */
  lemma MatchIff(m1: Mesh, m2: Mesh, row1: bool, last1: bool, k: nat, row2: bool, last2: bool, l: nat)
    requires m1.Valid() && m2.Valid()
    ensures Match(m1, m2, Cursor(Turn(row1, last1), k, Turn(row2, last2)), l) <==> Meets(m1, row1, last1, k, m2, row2, last2, l)
  {
    var a, b := SideOf(row1, last1), SideOf(row2, last2);
    assert SIDES[Turn(row1, last1)] == a && SIDES[Turn(row2, last2)] == b;
    VertexOf(m1, a, 0);
    VertexOf(m2, b, 0);
    MergedIff(m1, a);
    MergedIff(m2, b);
    if k < EdgeLength(m1, a) && l < EdgeLength(m2, b) {
      NearIsClose(m1, a, k, m2, b, l);
    }
  }

  /** The turn of a line in the loops: rows before columns, and the first before the last. */
  function Turn(row: bool, last: bool): nat {
    (if row then 0 else 2) + if last then 1 else 0
  }

  lemma PlaceIs(s: nat) returns (row: bool, last: bool)
    requires s < 4
    ensures s == Turn(row, last)
  {
    return s < 2, s == 1 || s == 3;
  }

  /** Grids touch exactly if some inner border vertices of theirs are close, on lines without close vertices. */
  lemma TouchingIff(m1: Mesh, m2: Mesh)
    requires m1.Valid() && m2.Valid()
    ensures Touching(m1, m2)
       <==> exists row1, last1, k, row2, last2, l :: Meets(m1, row1, last1, k, m2, row2, last2, l)
  {
    if Touching(m1, m2) {
      var c, l :| Match(m1, m2, c, l);
      var row1, last1 := PlaceIs(c.s1);
      var row2, last2 := PlaceIs(c.s2);
      MatchIff(m1, m2, row1, last1, c.k, row2, last2, l);
      assert Meets(m1, row1, last1, c.k, m2, row2, last2, l);
    }
    if row1, last1, k, row2, last2, l :| Meets(m1, row1, last1, k, m2, row2, last2, l) {
      MatchIff(m1, m2, row1, last1, k, row2, last2, l);
    }
  }

  // ---------------------------------------------------------------- shared errors

  /** Vertex k of a line of m1 meets vertex l of a row, or of a column, on the border of m2. */
  ghost predicate MeetsEntry(m1: Mesh, row1: bool, last1: bool, k: nat, m2: Mesh, row2: bool, l: nat) {
    exists last2 :: Meets(m1, row1, last1, k, m2, row2, last2, l)
  }

  /** The order in which the vertices of the first grid are compared. */
  predicate ComparedBefore(row: bool, last: bool, k: nat, row': bool, last': bool, k': nat) {
    || (row && !row')
    || (row == row' && ((!last && last') || (last == last' && k < k')))
  }

  /** The entry is that of the vertex of the first grid which is compared last among those that meet it. */
  ghost predicate LastWins(g1: Look, m2: Mesh, row2: bool, l: nat, error: real, row1: bool, last1: bool, k: nat) {
    && MeetsEntry(g1.mesh, row1, last1, k, m2, row2, l)
    && k < |if row1 then g1.widthErrors else g1.heightErrors| && error == (if row1 then g1.widthErrors else g1.heightErrors)[k]
    && forall row, last, i :: MeetsEntry(g1.mesh, row, last, i, m2, row2, l) ==>
         (row == row1 && last == last1 && i == k) || ComparedBefore(row, last, i, row1, last1, k)
  }

  lemma MeetsEntryFinds(m1: Mesh, m2: Mesh, row1: bool, last1: bool, k: nat, row2: bool, l: nat)
    requires m1.Valid() && m2.Valid() && MeetsEntry(m1, row1, last1, k, m2, row2, l)
    ensures exists s2 :: Finds(m1, m2, row2, l, END, Cursor(Turn(row1, last1), k, s2))
  {
    var last2 :| Meets(m1, row1, last1, k, m2, row2, last2, l);
    MatchIff(m1, m2, row1, last1, k, row2, last2, l);
    assert Finds(m1, m2, row2, l, END, Cursor(Turn(row1, last1), k, Turn(row2, last2)));
  }

  lemma FindsMeetsEntry(m1: Mesh, m2: Mesh, row2: bool, l: nat, c: Cursor) returns (row1: bool, last1: bool)
    requires m1.Valid() && m2.Valid() && Finds(m1, m2, row2, l, END, c)
    ensures c.s1 == Turn(row1, last1) && MeetsEntry(m1, row1, last1, c.k, m2, row2, l)
  {
    row1, last1 := PlaceIs(c.s1);
    var row, last2 := PlaceIs(c.s2);
    assert SIDES[c.s2] == SideOf(row, last2);
    MatchIff(m1, m2, row1, last1, c.k, row, last2, l);
  }

  /** Every entry at which a vertex of the first grid meets the second has its last such vertex's error; the others stay. */
  lemma SharedErrors(g1: Look, o2: Look, n2: Look, row: bool, l: nat)
    requires g1.mesh.Valid() && o2.mesh.Valid() && Inherits(g1, o2, n2)
    requires l < |if row then o2.widthErrors else o2.heightErrors|
    ensures |if row then n2.widthErrors else n2.heightErrors| == |if row then o2.widthErrors else o2.heightErrors|
    ensures
      var was, now := (if row then o2.widthErrors else o2.heightErrors)[l], (if row then n2.widthErrors else n2.heightErrors)[l];
      || (now == was && forall row1, last1, k :: !MeetsEntry(g1.mesh, row1, last1, k, o2.mesh, row, l))
      || exists row1, last1, k :: LastWins(g1, o2.mesh, row, l, now, row1, last1, k)
  {
    var now := Errors(n2, row)[l];
    var own, c := EntryOrigin(g1, o2, n2, row, l);
    if own {
      forall row1, last1, k
        ensures !MeetsEntry(g1.mesh, row1, last1, k, o2.mesh, row, l)
      {
        if MeetsEntry(g1.mesh, row1, last1, k, o2.mesh, row, l) {
          MeetsEntryFinds(g1.mesh, o2.mesh, row1, last1, k, row, l);
        }
      }
    } else {
      var row1, last1 := FindsMeetsEntry(g1.mesh, o2.mesh, row, l, c);
      SourceWins(g1, o2.mesh, row, l, c, now, row1, last1);
    }
  }

  lemma SourceWins(g1: Look, m2: Mesh, row: bool, l: nat, c: Cursor, now: real, row1: bool, last1: bool)
    requires g1.mesh.Valid() && m2.Valid() && Source(g1, m2, row, l, END, c, now)
    requires c.s1 == Turn(row1, last1) && MeetsEntry(g1.mesh, row1, last1, c.k, m2, row, l)
    ensures LastWins(g1, m2, row, l, now, row1, last1, c.k)
  {
    assert SIDES[c.s1] == SideOf(row1, last1);
    forall row', last', i | MeetsEntry(g1.mesh, row', last', i, m2, row, l)
      ensures (row' == row1 && last' == last1 && i == c.k) || ComparedBefore(row', last', i, row1, last1, c.k)
    {
      MeetsEntryFinds(g1.mesh, m2, row', last', i, row, l);
      var s2 :| Finds(g1.mesh, m2, row, l, END, Cursor(Turn(row', last'), i, s2));
    }
  }

  // ---------------------------------------------------------------- cracks, and the lines that mend them

  /**
   Vertices k and k2 of a line of m1, two apart, are close to neighbours of a line of m2, which are
   apart from each other: the vertex between k and k2 is missing there, and there is room for it.
   */
  ghost predicate Crack(m1: Mesh, row1: bool, last1: bool, k: nat, k2: nat, m2: Mesh, row2: bool, last2: bool, l: nat, maxGridSize: nat) {
    && !HasClose(m1, row1, last1) && Count(m2, row2) < maxGridSize
    && ((k2 == k + 2 && k % 2 == 0) || (k == k2 + 2 && (Count(m1, row1) - 1 - k) % 2 == 0))
    && CloseAt(m1, row1, last1, k, m2, row2, last2, l) && CloseAt(m1, row1, last1, k2, m2, row2, last2, l + 1)
    && !VeryClose(m2.verts[Index(m2, row2, last2, l)], m2.verts[Index(m2, row2, last2, l + 1)])
  }

  lemma CrackIff(m1: Mesh, m2: Mesh, at: Stitching.Place, maxGridSize: nat)
    requires m1.Valid() && m2.Valid()
    ensures CrackAt(m1, m2, at, maxGridSize)
       <==> at.backward == (at.k2 < at.k)
            && Crack(m1, IsRow(at.side1), IsLast(at.side1), at.k, at.k2, m2, IsRow(at.side2), IsLast(at.side2), at.l, maxGridSize)
  {
    var n := EdgeLength(m1, at.side1);
    assert n == Count(m1, IsRow(at.side1)) && EdgeLength(m2, at.side2) == Count(m2, IsRow(at.side2));
    if at.k < n && at.k2 < n && at.l + 1 < EdgeLength(m2, at.side2) {
      CrackIffInside(m1, m2, at, maxGridSize);
    }
  }

  lemma CrackIffInside(m1: Mesh, m2: Mesh, at: Stitching.Place, maxGridSize: nat)
    requires m1.Valid() && m2.Valid()
    requires at.k < EdgeLength(m1, at.side1) && at.k2 < EdgeLength(m1, at.side1) && at.l + 1 < EdgeLength(m2, at.side2)
    ensures CrackAt(m1, m2, at, maxGridSize)
       <==> at.backward == (at.k2 < at.k)
            && Crack(m1, IsRow(at.side1), IsLast(at.side1), at.k, at.k2, m2, IsRow(at.side2), IsLast(at.side2), at.l, maxGridSize)
  {
    MergedIff(m1, at.side1);
    PassedIff(EdgeLength(m1, at.side1), at.k, at.k2, at.backward);
    GapIff(m1, m2, at);
  }

  lemma PassedIff(n: nat, k: nat, k2: nat, backward: bool)
    requires k < n && k2 < n
    ensures Passed(n, k, k2, backward)
       <==> backward == (k2 < k) && ((k2 == k + 2 && k % 2 == 0) || (k == k2 + 2 && (n - 1 - k) % 2 == 0))
  {
  }

  lemma GapIff(m1: Mesh, m2: Mesh, at: Stitching.Place)
    requires m1.Valid() && m2.Valid()
    requires at.k < EdgeLength(m1, at.side1) && at.k2 < EdgeLength(m1, at.side1) && at.l + 1 < EdgeLength(m2, at.side2)
    ensures
      var row1, last1, row2, last2 := IsRow(at.side1), IsLast(at.side1), IsRow(at.side2), IsLast(at.side2);
      var i, j := Index(m2, row2, last2, at.l), Index(m2, row2, last2, at.l + 1);
      && 0 <= i < |m2.verts| && 0 <= j < |m2.verts|
      && (Gap(m1, at.side1, at.k, at.k2, m2, at.side2, at.l)
          <==> CloseAt(m1, row1, last1, at.k, m2, row2, last2, at.l) && CloseAt(m1, row1, last1, at.k2, m2, row2, last2, at.l + 1)
               && !VeryClose(m2.verts[i], m2.verts[j]))
  {
    NearIsClose(m1, at.side1, at.k, m2, at.side2, at.l);
    NearIsClose(m1, at.side1, at.k2, m2, at.side2, at.l + 1);
    VertexOf(m2, at.side2, at.l);
    VertexOf(m2, at.side2, at.l + 1);
    NearIff(m2.verts[Index(m2, IsRow(at.side2), IsLast(at.side2), at.l)], m2.verts[Index(m2, IsRow(at.side2), IsLast(at.side2), at.l + 1)]);
  }

  /** One grid can mend another exactly if there is such a place on their border lines. */
  lemma MendableIff(g: Look, o: Look, maxGridSize: nat)
    requires g.mesh.Valid() && o.mesh.Valid()
    ensures Mendable(g, o, maxGridSize)
       <==> exists row1, last1, k, k2, row2, last2, l :: Crack(g.mesh, row1, last1, k, k2, o.mesh, row2, last2, l, maxGridSize)
  {
    if Mendable(g, o, maxGridSize) {
      var at :| CrackAt(g.mesh, o.mesh, at, maxGridSize);
      CrackIff(g.mesh, o.mesh, at, maxGridSize);
    }
    if row1, last1, k, k2, row2, last2, l :| Crack(g.mesh, row1, last1, k, k2, o.mesh, row2, last2, l, maxGridSize) {
      CrackIff(g.mesh, o.mesh, Place(SideOf(row1, last1), k, k2, k2 < k, SideOf(row2, last2), l), maxGridSize);
    }
  }

  /** Vertex i of the line put in before line c, across the border line: row 0 or column 0 is its first. */
  function NewIndex(m: Mesh, column: bool, c: nat, i: nat): int {
    if column then i * m.width + c else c * m.width + i
  }

  /**
   The line that mends a crack: every vertex of it is halfway between the old ones on either side, but
   for the one on the border line, which stands where the other grid has its vertex.
   */
  lemma MendingLine(g: Look, o: Look, n: Look, at: Stitching.Place, maxGridSize: nat, i: nat)
    requires Stitched(g, o, n, at, maxGridSize) && i < Count(o.mesh, !IsRow(at.side2))
    ensures
      var column, c := IsRow(at.side2), at.l + 1;
      var v, a, b := NewIndex(n.mesh, column, c, i), NewIndex(o.mesh, column, c - 1, i), NewIndex(o.mesh, column, c, i);
      var p := Index(g.mesh, IsRow(at.side1), IsLast(at.side1), (at.k + at.k2) / 2);
      && 0 <= v < |n.mesh.verts| && 0 <= a < |o.mesh.verts| && 0 <= b < |o.mesh.verts| && 0 <= p < |g.mesh.verts|
      && IsBetween(n.mesh.verts[v], o.mesh.verts[a], o.mesh.verts[b],
                   i == (if IsLast(at.side2) then Count(o.mesh, !column) - 1 else 0),
                   Vec3(g.mesh.verts[p].x, g.mesh.verts[p].y, g.mesh.verts[p].z))
  {
    var c := at.l + 1;
    VertexOf(g.mesh, at.side1, (at.k + at.k2) / 2);
    MendingVertex(o.mesh, n.mesh, at.side2, c, EdgeAt(g.mesh, at.side1, (at.k + at.k2) / 2), i);
  }

  lemma MendingVertex(o: Mesh, n: Mesh, side: Side, c: nat, point: Vec3, i: nat)
    requires o.Valid() && VertexAdded(o, n, side, c, point) && i < Count(o, !IsRow(side))
    ensures
      var v, a, b := NewIndex(n, IsRow(side), c, i), NewIndex(o, IsRow(side), c - 1, i), NewIndex(o, IsRow(side), c, i);
      && 0 <= v < |n.verts| && 0 <= a < |o.verts| && 0 <= b < |o.verts|
      && IsBetween(n.verts[v], o.verts[a], o.verts[b], i == (if IsLast(side) then Count(o, !IsRow(side)) - 1 else 0), point)
  {
    if IsRow(side) {
      ColumnVertex(o, n, c, EdgeRow(o, side, c), point, i);
    } else {
      RowVertex(o, n, c, EdgeColumn(o, side, c), point, i);
    }
  }

  lemma ColumnVertex(o: Mesh, n: Mesh, c: nat, row: nat, point: Vec3, i: nat)
    requires ColumnInserted(o, n, c, row, point) && i < o.height
    ensures
      var v, a, b := NewIndex(n, true, c, i), NewIndex(o, true, c - 1, i), NewIndex(o, true, c, i);
      && 0 <= v < |n.verts| && 0 <= a < |o.verts| && 0 <= b < |o.verts|
      && IsBetween(n.verts[v], o.verts[a], o.verts[b], i == row, point)
  {
    AtIs(n, i, c);
    AtIs(o, i, c - 1);
    AtIs(o, i, c);
  }

  lemma RowVertex(o: Mesh, n: Mesh, c: nat, column: nat, point: Vec3, i: nat)
    requires RowInserted(o, n, c, column, point) && i < o.width
    ensures
      var v, a, b := NewIndex(n, false, c, i), NewIndex(o, false, c - 1, i), NewIndex(o, false, c, i);
      && 0 <= v < |n.verts| && 0 <= a < |o.verts| && 0 <= b < |o.verts|
      && IsBetween(n.verts[v], o.verts[a], o.verts[b], i == column, point)
  {
    AtIs(n, c, i);
    AtIs(o, c - 1, i);
    AtIs(o, c, i);
  }

  lemma AtIs(m: Mesh, r: nat, c: nat)
    requires m.Valid() && r < m.height && c < m.width
    ensures 0 <= r * m.width + c < |m.verts| && m.At(r, c) == m.verts[r * m.width + c]
  {
    SlotInRange(r, c, m.width, m.height);
  }
}
