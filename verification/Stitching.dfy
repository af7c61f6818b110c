/**
 Stitching: a grid of a LOD group gains a row or column wherever an edge of another grid of the
 group has a vertex that its own edge lacks. Every insertion may uncover work on a grid that had
 been finished, so the outer loop keeps going until a whole pass finds nothing to do.
 */
module Stitching {
  import opened Vertex
  import opened GridShape
  import opened BspSurface
  import opened GridInsert

  // ---------------------------------------------------------------- edges of a grid

  datatype Side = Top | Bottom | Left | Right

  /** Top and bottom edges run along the width, left and right edges along the height. */
  predicate AlongWidth(side: Side) {
    side.Top? || side.Bottom?
  }

  function EdgeLength(m: Mesh, side: Side): nat {
    if AlongWidth(side) then m.width else m.height
  }

  /** Where vertex k of an edge is stored. */
  function EdgeSlot(m: Mesh, side: Side, k: nat): int {
    match side
    case Top => k
    case Bottom => k + (m.height - 1) * m.width
    case Left => m.width * k
    case Right => m.width * k + (m.width - 1)
  }

  function EdgeRow(m: Mesh, side: Side, k: nat): nat
    requires m.Valid()
  {
    match side
    case Top => 0
    case Bottom => m.height - 1
    case _ => k
  }

  function EdgeColumn(m: Mesh, side: Side, k: nat): nat
    requires m.Valid()
  {
    match side
    case Left => 0
    case Right => m.width - 1
    case _ => k
  }

  lemma EdgeSlotIs(m: Mesh, side: Side, k: nat)
    requires m.Valid() && k < EdgeLength(m, side)
    ensures EdgeSlot(m, side, k) == Slot(EdgeRow(m, side, k), EdgeColumn(m, side, k), m.width)
    ensures 0 <= EdgeSlot(m, side, k) < |m.verts|
  {
    SlotInRange(EdgeRow(m, side, k), EdgeColumn(m, side, k), m.width, m.height);
    assert k * m.width == m.width * k;
  }

  /** Position of vertex k of an edge. */
  function EdgeAt(m: Mesh, side: Side, k: nat): (p: Vec3)
    requires m.Valid() && k < EdgeLength(m, side)
    ensures p == m.At(EdgeRow(m, side, k), EdgeColumn(m, side, k)).Xyz()
  {
    EdgeSlotIs(m, side, k);
    m.verts[EdgeSlot(m, side, k)].Xyz()
  }

  /** Two interior vertices of the edge coincide. */
  ghost predicate Merged(m: Mesh, side: Side)
    requires m.Valid()
  {
    exists i, j :: 0 < i < j < EdgeLength(m, side) - 1 && Near(EdgeAt(m, side, i), EdgeAt(m, side, j))
  }

  /** R_MergedWidthPoints and R_MergedHeightPoints. */
  method MergedPoints(m: Mesh, side: Side) returns (merged: bool)
    requires m.Valid()
    ensures merged <==> Merged(m, side)
  {
    var n := EdgeLength(m, side) - 1;
    var i := 1;
    while i < n
      invariant 1 <= i <= n
      invariant forall a, b :: 0 < a < b < n && a < i ==> !Near(EdgeAt(m, side, a), EdgeAt(m, side, b))
    {
      var j := i + 1;
      while j < n
        invariant i < j <= n
        invariant forall b :: i < b < j ==> !Near(EdgeAt(m, side, i), EdgeAt(m, side, b))
      {
        if Near(EdgeAt(m, side, i), EdgeAt(m, side, j)) {
          return true;
        }
        j := j + 1;
      }
      i := i + 1;
    }
    return false;
  }

  // ---------------------------------------------------------------- cracks

  /** Edge vertices l and l + 1 of m2 meet vertices k and k2 of an edge of m1, and are themselves apart. */
  ghost predicate Gap(m1: Mesh, side1: Side, k: nat, k2: nat, m2: Mesh, side2: Side, l: nat)
    requires m1.Valid() && m2.Valid()
  {
    && k < EdgeLength(m1, side1) && k2 < EdgeLength(m1, side1) && l + 1 < EdgeLength(m2, side2)
    && Near(EdgeAt(m1, side1, k), EdgeAt(m2, side2, l))
    && Near(EdgeAt(m1, side1, k2), EdgeAt(m2, side2, l + 1))
    && !Coincident(EdgeAt(m2, side2, l), EdgeAt(m2, side2, l + 1))
  }

  /** There is room for another vertex along this edge. */
  predicate Room(m: Mesh, side: Side, maxGridSize: nat) {
    EdgeLength(m, side) < maxGridSize
  }

  /** k and k2 are two apart, on positions that the forward or the backward pass visits. */
  predicate Passed(n: nat, k: nat, k2: nat, backward: bool) {
    if backward then 1 < k < n && (n - 1 - k) % 2 == 0 && k2 == k - 2
    else k % 2 == 0 && k2 == k + 2 && k2 < n
  }

  /** Where a crack is: between vertices k and k2 of an edge of one grid, l and l + 1 of the other. */
  datatype Place = Place(side1: Side, k: nat, k2: nat, backward: bool, side2: Side, l: nat)

  /** The vertex between k and k2 of an unmerged edge of m1 is missing from an edge of m2 that has room for it. */
  ghost predicate CrackAt(m1: Mesh, m2: Mesh, at: Place, maxGridSize: nat)
    requires m1.Valid() && m2.Valid()
  {
    && !Merged(m1, at.side1) && Passed(EdgeLength(m1, at.side1), at.k, at.k2, at.backward)
    && Room(m2, at.side2, maxGridSize)
    && Gap(m1, at.side1, at.k, at.k2, m2, at.side2, at.l)
  }

  function Rank(side: Side): nat {
    match side
    case Top => 0
    case Bottom => 1
    case Left => 2
    case Right => 3
  }

  /** The order of the eight searches: forwards before backwards, then by the edges, and along each of them. */
  predicate Sooner(p: Place, q: Place) {
    || (!p.backward && q.backward)
    || (p.backward == q.backward &&
         (Rank(p.side1) < Rank(q.side1) || (p.side1 == q.side1 && SoonerAlong(p, q))))
  }

  predicate SoonerAlong(p: Place, q: Place) {
    || (if p.backward then p.k > q.k else p.k < q.k)
    || (p.k == q.k && (Rank(p.side2) < Rank(q.side2) || (p.side2 == q.side2 && p.l < q.l)))
  }

  /** The place is a crack, and none comes before it. */
  ghost predicate FirstCrack(m1: Mesh, m2: Mesh, at: Place, maxGridSize: nat)
    requires m1.Valid() && m2.Valid()
  {
    CrackAt(m1, m2, at, maxGridSize) && forall p: Place :: Sooner(p, at) ==> !CrackAt(m1, m2, p, maxGridSize)
  }

  // ---------------------------------------------------------------- adding the missing vertex

  /** Mesh n is mesh o with a vertex at `point` as number k of an edge, and the line it needs. */
  ghost predicate VertexAdded(o: Mesh, n: Mesh, side: Side, k: nat, point: Vec3)
    requires o.Valid()
  {
    if AlongWidth(side) then ColumnInserted(o, n, k, EdgeRow(o, side, k), point)
    else RowInserted(o, n, k, EdgeColumn(o, side, k), point)
  }

  /** The new vertex stands strictly between the two that were neighbours, and those have not moved. */
  lemma VertexAddedBetween(o: Mesh, n: Mesh, side: Side, k: nat, point: Vec3)
    requires o.Valid() && VertexAdded(o, n, side, k, point)
    ensures 0 < k < EdgeLength(o, side) && n.Valid() && EdgeLength(n, side) == EdgeLength(o, side) + 1
    ensures EdgeAt(n, side, k) == point
    ensures EdgeAt(n, side, k - 1) == EdgeAt(o, side, k - 1) && EdgeAt(n, side, k + 1) == EdgeAt(o, side, k)
  {
  }

  /** The data of a grid that stitching reads and writes. */
  datatype Look = Look(mesh: Mesh, widthErrors: seq<real>, heightErrors: seq<real>, origin: Vec3, radius: real) {
    ghost predicate Valid(maxGridSize: nat) {
      && mesh.Valid() && mesh.width <= maxGridSize && mesh.height <= maxGridSize
      && |widthErrors| == mesh.width && |heightErrors| == mesh.height
    }

    ghost function EdgeErrors(side: Side): seq<real> {
      if AlongWidth(side) then widthErrors else heightErrors
    }

    ghost function CrossErrors(side: Side): seq<real> {
      if AlongWidth(side) then heightErrors else widthErrors
    }

    /** Grids that change their level of detail together. */
    ghost predicate SameGroup(other: Look) {
      radius == other.radius && origin == other.origin
    }
  }

  ghost function LookOf(grid: Surface): Look
    reads grid
  {
    Look(grid.Shape(), grid.widthLodError, grid.heightLodError, grid.lodOrigin, grid.lodRadius)
  }

  /** Grid n is grid o with vertex k of an edge added, the new line carrying the given error. */
  ghost predicate Extended(o: Look, n: Look, side: Side, k: nat, point: Vec3, loderror: real) {
    && o.mesh.Valid() && VertexAdded(o.mesh, n.mesh, side, k, point)
    && k <= |o.EdgeErrors(side)| && n.EdgeErrors(side) == InsertAt(o.EdgeErrors(side), k, loderror)
    && n.CrossErrors(side) == o.CrossErrors(side)
    && n.SameGroup(o)
  }

  method AddVertex(grid: Surface, side: Side, l: nat, point: Vec3, loderror: real, maxGridSize: nat)
    requires grid.Valid(maxGridSize) && grid.isGrid && Room(grid.Shape(), side, maxGridSize)
    requires l + 1 < EdgeLength(grid.Shape(), side)
    modifies grid
    ensures grid.Valid(maxGridSize) && grid.isGrid && !grid.lodStitched
    ensures Extended(old(LookOf(grid)), LookOf(grid), side, l + 1, point, loderror)
    ensures grid.indexes == MeshTriangles(grid.height - 1, grid.width)
  {
    if AlongWidth(side) {
      AddColumn(grid, side, l + 1, point, loderror, maxGridSize);
    } else {
      AddRow(grid, side, l + 1, point, loderror, maxGridSize);
    }
    grid.lodStitched := false;
  }

  method AddColumn(grid: Surface, side: Side, column: nat, point: Vec3, loderror: real, maxGridSize: nat)
    requires grid.Valid(maxGridSize) && grid.isGrid && AlongWidth(side) && 0 < column < grid.width < maxGridSize
    modifies grid
    ensures grid.Valid(maxGridSize) && grid.isGrid
    ensures Extended(old(LookOf(grid)), LookOf(grid), side, column, point, loderror)
    ensures grid.indexes == MeshTriangles(grid.height - 1, grid.width)
  {
    var row := if side == Top then 0 else grid.height - 1;
    assert row == EdgeRow(grid.Shape(), side, column);
    GridInsertColumn(grid, column, row, point, loderror, maxGridSize);
  }

  method AddRow(grid: Surface, side: Side, row: nat, point: Vec3, loderror: real, maxGridSize: nat)
    requires grid.Valid(maxGridSize) && grid.isGrid && !AlongWidth(side) && 0 < row < grid.height < maxGridSize
    modifies grid
    ensures grid.Valid(maxGridSize) && grid.isGrid
    ensures Extended(old(LookOf(grid)), LookOf(grid), side, row, point, loderror)
    ensures grid.indexes == MeshTriangles(grid.height - 1, grid.width)
  {
    var column := if side == Left then 0 else grid.width - 1;
    assert column == EdgeColumn(grid.Shape(), side, row);
    GridInsertRow(grid, row, column, point, loderror, maxGridSize);
  }

  // ---------------------------------------------------------------- R_StitchPatches

  method FindGap(m1: Mesh, side1: Side, k: nat, k2: nat, m2: Mesh, side2: Side) returns (found: bool, l: nat)
    requires m1.Valid() && m2.Valid() && k < EdgeLength(m1, side1) && k2 < EdgeLength(m1, side1)
    ensures found ==> Gap(m1, side1, k, k2, m2, side2, l) && forall i :: 0 <= i < l ==> !Gap(m1, side1, k, k2, m2, side2, i)
    ensures !found ==> forall i :: !Gap(m1, side1, k, k2, m2, side2, i)
  {
    l := 0;
    while l < EdgeLength(m2, side2) - 1
      invariant forall i :: 0 <= i < l ==> !Gap(m1, side1, k, k2, m2, side2, i)
    {
      if Near(EdgeAt(m1, side1, k), EdgeAt(m2, side2, l)) {
        if Near(EdgeAt(m1, side1, k2), EdgeAt(m2, side2, l + 1)) {
          if !Coincident(EdgeAt(m2, side2, l), EdgeAt(m2, side2, l + 1)) {
            return true, l;
          }
        }
      }
      l := l + 1;
    }
    found := false;
  }

  /**
   One successful stitch: grid o had a crack against grid g, and grid n has the missing vertex. The
   new line's error is entry k + 1 of g's edge; for its first vertex the backward pass reads one
   past the end, and nothing is known of what it finds there.
   */
  ghost predicate Stitched(g: Look, o: Look, n: Look, at: Place, maxGridSize: nat) {
    && g.mesh.Valid() && o.mesh.Valid() && CrackAt(g.mesh, o.mesh, at, maxGridSize)
    && at.l + 1 < |n.EdgeErrors(at.side2)|
    && var loderror := n.EdgeErrors(at.side2)[at.l + 1];
       && Extended(o, n, at.side2, at.l + 1, EdgeAt(g.mesh, at.side1, (at.k + at.k2) / 2), loderror)
       && (at.k + 1 < |g.EdgeErrors(at.side1)| ==> loderror == g.EdgeErrors(at.side1)[at.k + 1])
  }

  /** The place is a crack, and the first at its vertex of m1. */
  ghost predicate FirstAt(m1: Mesh, m2: Mesh, at: Place, maxGridSize: nat)
    requires m1.Valid() && m2.Valid()
  {
    && CrackAt(m1, m2, at, maxGridSize)
    && forall p: Place :: p.side1 == at.side1 && p.k == at.k && p.backward == at.backward && Sooner(p, at) ==>
         !CrackAt(m1, m2, p, maxGridSize)
  }

  lemma IsFirstAt(m1: Mesh, m2: Mesh, at: Place, maxGridSize: nat, sides: seq<Side>, i: nat)
    requires m1.Valid() && m2.Valid() && CrackAt(m1, m2, at, maxGridSize)
    requires sides == [Top, Bottom, Left, Right] && i < 4 && at.side2 == sides[i]
    requires forall s, l :: 0 <= s < i && Room(m2, sides[s], maxGridSize) ==> !Gap(m1, at.side1, at.k, at.k2, m2, sides[s], l)
    requires forall l :: 0 <= l < at.l ==> !Gap(m1, at.side1, at.k, at.k2, m2, at.side2, l)
    ensures FirstAt(m1, m2, at, maxGridSize)
  {
    forall p: Place | p.side1 == at.side1 && p.k == at.k && p.backward == at.backward && Sooner(p, at)
      ensures !CrackAt(m1, m2, p, maxGridSize)
    {
      assert p.side2 == sides[Rank(p.side2)];
    }
  }

  /** The place is a crack, and the first along its edge of m1, in its direction. */
  ghost predicate FirstAlong(m1: Mesh, m2: Mesh, at: Place, maxGridSize: nat)
    requires m1.Valid() && m2.Valid()
  {
    && CrackAt(m1, m2, at, maxGridSize)
    && forall p: Place :: p.side1 == at.side1 && p.backward == at.backward && Sooner(p, at) ==> !CrackAt(m1, m2, p, maxGridSize)
  }

  /** There is no crack at vertex k of an edge of m1. */
  ghost predicate NoCrackAt(m1: Mesh, m2: Mesh, side1: Side, k: nat, backward: bool, maxGridSize: nat)
    requires m1.Valid() && m2.Valid()
  {
    forall p: Place :: p.side1 == side1 && p.k == k && p.backward == backward ==> !CrackAt(m1, m2, p, maxGridSize)
  }

  /** There is no crack at all along an edge of m1. */
  ghost predicate NoCrackAlong(m1: Mesh, m2: Mesh, side1: Side, backward: bool, maxGridSize: nat)
    requires m1.Valid() && m2.Valid()
  {
    forall p: Place :: p.side1 == side1 && p.backward == backward ==> !CrackAt(m1, m2, p, maxGridSize)
  }

  /** The loops step over a vertex, and there is no crack at those they do not get to. */
  lemma NotPassed(m1: Mesh, m2: Mesh, side1: Side, k: nat, backward: bool, maxGridSize: nat)
    requires m1.Valid() && m2.Valid()
    requires var n := EdgeLength(m1, side1); if backward then k <= 1 || k >= n || (n - 1 - k) % 2 == 1 else k % 2 == 1 || k + 2 >= n
    ensures NoCrackAt(m1, m2, side1, k, backward, maxGridSize)
  {
  }

  /** Looks along the four edges of m2 for a gap where m1 has the vertex between k and k2. */
  method FindAt(m1: Mesh, m2: Mesh, side1: Side, k: nat, k2: nat, backward: bool, maxGridSize: nat) returns (found: bool, at: Place)
    requires m1.Valid() && m2.Valid() && !Merged(m1, side1) && Passed(EdgeLength(m1, side1), k, k2, backward)
    ensures found ==> at.side1 == side1 && at.k == k && at.backward == backward && FirstAt(m1, m2, at, maxGridSize)
    ensures !found ==> NoCrackAt(m1, m2, side1, k, backward, maxGridSize)
  {
    var sides := [Top, Bottom, Left, Right];
    for i := 0 to 4
      invariant forall s, l :: 0 <= s < i && Room(m2, sides[s], maxGridSize) ==> !Gap(m1, side1, k, k2, m2, sides[s], l)
    {
      at := Place(side1, k, k2, backward, sides[i], 0);
      if Room(m2, at.side2, maxGridSize) {
        var l;
        found, l := FindGap(m1, side1, k, k2, m2, at.side2);
        if found {
          at := at.(l := l);
          IsFirstAt(m1, m2, at, maxGridSize, sides, i);
          return;
        }
      }
    }
    found := false;
    forall p: Place | p.side1 == side1 && p.k == k && p.backward == backward
      ensures !CrackAt(m1, m2, p, maxGridSize)
    {
      var s := match p.side2 case Top => 0 case Bottom => 1 case Left => 2 case Right => 3;
      assert p.side2 == sides[s];
    }
    at := Place(side1, k, k2, backward, Top, 0);
  }

  /** One edge of m1, forwards or backwards. */
  method FindAlong(m1: Mesh, m2: Mesh, side1: Side, backward: bool, maxGridSize: nat) returns (found: bool, at: Place)
    requires m1.Valid() && m2.Valid()
    ensures found ==> at.side1 == side1 && at.backward == backward && FirstAlong(m1, m2, at, maxGridSize)
    ensures !found ==> NoCrackAlong(m1, m2, side1, backward, maxGridSize)
  {
    at := Place(side1, 0, 0, backward, Top, 0);
    var merged := MergedPoints(m1, side1);
    if merged {
      return false, at;
    }
    if backward {
      found, at := FindBackward(m1, m2, side1, maxGridSize);
      return;
    }
    found, at := FindForward(m1, m2, side1, maxGridSize);
  }

  /** Without a crack at the vertices visited before, the first at a vertex is the first along the edge. */
  lemma NoneBefore(m1: Mesh, m2: Mesh, at: Place, maxGridSize: nat)
    requires m1.Valid() && m2.Valid() && FirstAt(m1, m2, at, maxGridSize)
    requires forall i: nat :: (if at.backward then at.k < i < EdgeLength(m1, at.side1) else i < at.k) ==>
               NoCrackAt(m1, m2, at.side1, i, at.backward, maxGridSize)
    ensures FirstAlong(m1, m2, at, maxGridSize)
  {
    forall p: Place | p.side1 == at.side1 && p.backward == at.backward && Sooner(p, at)
      ensures !CrackAt(m1, m2, p, maxGridSize)
    {
      if p.k != at.k {
        if p.k >= EdgeLength(m1, at.side1) {
          NotPassed(m1, m2, at.side1, p.k, at.backward, maxGridSize);
        }
        assert NoCrackAt(m1, m2, at.side1, p.k, at.backward, maxGridSize);
      }
    }
  }

  method FindForward(m1: Mesh, m2: Mesh, side1: Side, maxGridSize: nat) returns (found: bool, at: Place)
    requires m1.Valid() && m2.Valid() && !Merged(m1, side1)
    ensures found ==> at.side1 == side1 && !at.backward && FirstAlong(m1, m2, at, maxGridSize)
    ensures !found ==> NoCrackAlong(m1, m2, side1, false, maxGridSize)
  {
    at := Place(side1, 0, 0, false, Top, 0);
    var n := EdgeLength(m1, side1);
    var k := 0;
    while k + 2 < n
      invariant k % 2 == 0
      invariant forall i: nat :: i < k ==> NoCrackAt(m1, m2, side1, i, false, maxGridSize)
    {
      found, at := FindAt(m1, m2, side1, k, k + 2, false, maxGridSize);
      if found {
        NoneBefore(m1, m2, at, maxGridSize);
        return;
      }
      NotPassed(m1, m2, side1, k + 1, false, maxGridSize);
      k := k + 2;
    }
    found := false;
    forall p: Place | p.side1 == side1 && !p.backward
      ensures !CrackAt(m1, m2, p, maxGridSize)
    {
      if p.k >= k {
        NotPassed(m1, m2, side1, p.k, false, maxGridSize);
      }
      assert NoCrackAt(m1, m2, side1, p.k, false, maxGridSize);
    }
  }

  method FindBackward(m1: Mesh, m2: Mesh, side1: Side, maxGridSize: nat) returns (found: bool, at: Place)
    requires m1.Valid() && m2.Valid() && !Merged(m1, side1)
    ensures found ==> at.side1 == side1 && at.backward && FirstAlong(m1, m2, at, maxGridSize)
    ensures !found ==> NoCrackAlong(m1, m2, side1, true, maxGridSize)
  {
    at := Place(side1, 0, 0, true, Top, 0);
    var n := EdgeLength(m1, side1);
    var k := n - 1;
    while k > 1
      invariant 0 <= k < n && (n - 1 - k) % 2 == 0
      invariant forall i: nat :: k < i < n ==> NoCrackAt(m1, m2, side1, i, true, maxGridSize)
    {
      found, at := FindAt(m1, m2, side1, k, k - 2, true, maxGridSize);
      if found {
        NoneBefore(m1, m2, at, maxGridSize);
        return;
      }
      NotPassed(m1, m2, side1, k - 1, true, maxGridSize);
      k := k - 2;
    }
    found := false;
    forall p: Place | p.side1 == side1 && p.backward
      ensures !CrackAt(m1, m2, p, maxGridSize)
    {
      if p.k <= k || p.k >= n {
        NotPassed(m1, m2, side1, p.k, true, maxGridSize);
      }
      assert NoCrackAt(m1, m2, side1, p.k, true, maxGridSize);
    }
  }

  ghost predicate AllPasses(passes: seq<(Side, bool)>) {
    |passes| == 8 && forall p: Place :: passes[PassOf(p)] == (p.side1, p.backward)
  }

  lemma PassesAre(passes: seq<(Side, bool)>)
    requires passes == [(Top, false), (Bottom, false), (Left, false), (Right, false), (Top, true), (Bottom, true), (Left, true), (Right, true)]
    ensures AllPasses(passes)
  {
  }

  /** The number of the search that would find the place. */
  function PassOf(p: Place): nat {
    Rank(p.side1) + if p.backward then 4 else 0
  }

  lemma IsFirstCrack(m1: Mesh, m2: Mesh, at: Place, maxGridSize: nat, passes: seq<(Side, bool)>, i: nat)
    requires m1.Valid() && m2.Valid() && FirstAlong(m1, m2, at, maxGridSize)
    requires AllPasses(passes) && i < 8
    requires PassOf(at) == i && forall s :: 0 <= s < i ==> NoCrackAlong(m1, m2, passes[s].0, passes[s].1, maxGridSize)
    ensures FirstCrack(m1, m2, at, maxGridSize)
  {
    forall p: Place | Sooner(p, at)
      ensures !CrackAt(m1, m2, p, maxGridSize)
    {
      if p.side1 != at.side1 || p.backward != at.backward {
        assert PassOf(p) < i;
        assert passes[PassOf(p)] == (p.side1, p.backward);
        assert NoCrackAlong(m1, m2, p.side1, p.backward, maxGridSize);
      }
    }
  }

  /** The order of the search: width edges, then height edges, forwards; then both again backwards. */
  method FindCrack(m1: Mesh, m2: Mesh, maxGridSize: nat) returns (found: bool, at: Place)
    requires m1.Valid() && m2.Valid()
    ensures found ==> FirstCrack(m1, m2, at, maxGridSize)
    ensures !found ==> forall p: Place :: !CrackAt(m1, m2, p, maxGridSize)
  {
    var passes := [(Top, false), (Bottom, false), (Left, false), (Right, false), (Top, true), (Bottom, true), (Left, true), (Right, true)];
    at := Place(Top, 0, 0, false, Top, 0);
    for i := 0 to 8
      invariant forall s :: 0 <= s < i ==> NoCrackAlong(m1, m2, passes[s].0, passes[s].1, maxGridSize)
    {
      found, at := FindAlong(m1, m2, passes[i].0, passes[i].1, maxGridSize);
      if found {
        PassesAre(passes);
        IsFirstCrack(m1, m2, at, maxGridSize, passes, i);
        return;
      }
    }
    found := false;
    forall p: Place
      ensures !CrackAt(m1, m2, p, maxGridSize)
    {
      PassesAre(passes);
      var s := PassOf(p);
      assert NoCrackAlong(m1, m2, passes[s].0, passes[s].1, maxGridSize);
    }
  }

  lemma ExtendedIsStitched(g: Look, o: Look, n: Look, at: Place, loderror: real, maxGridSize: nat)
    requires g.Valid(maxGridSize) && o.Valid(maxGridSize) && CrackAt(g.mesh, o.mesh, at, maxGridSize)
    requires Extended(o, n, at.side2, at.l + 1, EdgeAt(g.mesh, at.side1, (at.k + at.k2) / 2), loderror)
    requires at.k + 1 < |g.EdgeErrors(at.side1)| ==> loderror == g.EdgeErrors(at.side1)[at.k + 1]
    ensures Stitched(g, o, n, at, maxGridSize)
  {
    assert n.EdgeErrors(at.side2)[at.l + 1] == loderror;
  }

  /** What g can mend in o. */
  ghost predicate Mendable(g: Look, o: Look, maxGridSize: nat)
    requires g.mesh.Valid() && o.mesh.Valid()
  {
    exists p: Place :: CrackAt(g.mesh, o.mesh, p, maxGridSize)
  }

  /**
   Tries to stitch grid2 to grid1. It succeeds exactly when there is a crack it can mend, and then
   grid2 has grown by the one line that mends the first of them; otherwise nothing has changed. The
   two may be the same grid.
   */
  method StitchPatches(grid1: Surface, grid2: Surface, maxGridSize: nat) returns (stitched: bool, ghost at: Place)
    requires grid1.Valid(maxGridSize) && grid1.isGrid && grid2.Valid(maxGridSize) && grid2.isGrid
    modifies grid2
    ensures stitched <==> old(Mendable(LookOf(grid1), LookOf(grid2), maxGridSize))
    ensures !stitched ==> unchanged(grid2)
    ensures grid2.Valid(maxGridSize) && grid2.isGrid
    ensures stitched ==> !grid2.lodStitched
    ensures stitched ==> Stitched(old(LookOf(grid1)), old(LookOf(grid2)), LookOf(grid2), at, maxGridSize)
    ensures stitched ==> FirstCrack(old(grid1.Shape()), old(grid2.Shape()), at, maxGridSize)
  {
    ghost var g, o := LookOf(grid1), LookOf(grid2);
    var m1, m2 := Mesh(grid1.width, grid1.height, grid1.verts), Mesh(grid2.width, grid2.height, grid2.verts);
    var crack: Place;
    stitched, crack := FindCrack(m1, m2, maxGridSize);
    at := crack;
    if stitched {
      var errors := if AlongWidth(crack.side1) then grid1.widthLodError else grid1.heightLodError;
      var loderror: real := *;
      if crack.k + 1 < |errors| {
        loderror := errors[crack.k + 1];
      }
      assert errors == g.EdgeErrors(crack.side1);
      AddVertex(grid2, crack.side2, crack.l, EdgeAt(m1, crack.side1, (crack.k + crack.k2) / 2), loderror, maxGridSize);
      ExtendedIsStitched(g, o, LookOf(grid2), crack, loderror, maxGridSize);
    }
  }
}
