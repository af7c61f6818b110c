/**
 Copying LOD errors between two grids of a LOD group: wherever an interior vertex of an unmerged
 edge of one coincides with one of the other, the second grid takes over the first one's error.
 */
module LodErrors {
  import opened Vertex
  import opened BspSurface
  import opened Stitching

  const SIDES: seq<Side> := [Top, Bottom, Left, Right]

  /** Which vertex of which edge of the first grid is compared with which edge of the second. */
  datatype Cursor = Cursor(s1: nat, k: nat, s2: nat)

  /** The order in which the loops visit them. */
  predicate Earlier(a: Cursor, b: Cursor) {
    a.s1 < b.s1 || (a.s1 == b.s1 && (a.k < b.k || (a.k == b.k && a.s2 < b.s2)))
  }

  /** Interior vertices c.k of one edge and l of another coincide, and neither edge has merged points. */
  ghost predicate Match(m1: Mesh, m2: Mesh, c: Cursor, l: nat)
    requires m1.Valid() && m2.Valid()
  {
    && c.s1 < 4 && c.s2 < 4
    && 0 < c.k < EdgeLength(m1, SIDES[c.s1]) - 1 && 0 < l < EdgeLength(m2, SIDES[c.s2]) - 1
    && !Merged(m1, SIDES[c.s1]) && !Merged(m2, SIDES[c.s2])
    && Near(EdgeAt(m1, SIDES[c.s1], c.k), EdgeAt(m2, SIDES[c.s2], l))
  }

  /** The two grids share an interior point of unmerged edges. */
  ghost predicate Touching(m1: Mesh, m2: Mesh)
    requires m1.Valid() && m2.Valid()
  {
    exists c, l :: Match(m1, m2, c, l)
  }

  lemma TouchingSymmetric(m1: Mesh, m2: Mesh)
    requires m1.Valid() && m2.Valid() && Touching(m1, m2)
    ensures Touching(m2, m1)
  {
    var c, l :| Match(m1, m2, c, l);
    assert Match(m2, m1, Cursor(c.s2, l, c.s1), c.k);
  }

  /** The error lists of a grid: of its width, or of its height. */
  ghost function Errors(g: Look, along: bool): seq<real> {
    if along then g.widthErrors else g.heightErrors
  }

  /** Cursor c finds a match for entry l of the second grid's list, before the given cursor. */
  ghost predicate Finds(m1: Mesh, m2: Mesh, along: bool, l: nat, cursor: Cursor, c: Cursor)
    requires m1.Valid() && m2.Valid()
  {
    Earlier(c, cursor) && Match(m1, m2, c, l) && AlongWidth(SIDES[c.s2]) == along
  }

  ghost predicate MatchedBefore(m1: Mesh, m2: Mesh, along: bool, l: nat, cursor: Cursor)
    requires m1.Valid() && m2.Valid()
  {
    exists c :: Finds(m1, m2, along, l, cursor, c)
  }

  /** Entry l has the error of the vertex of the first grid that matched there last before the cursor. */
  ghost predicate Source(g1: Look, m2: Mesh, along: bool, l: nat, cursor: Cursor, c: Cursor, error: real)
    requires g1.mesh.Valid() && m2.Valid()
  {
    && Finds(g1.mesh, m2, along, l, cursor, c)
    && (forall d :: Finds(g1.mesh, m2, along, l, cursor, d) ==> d == c || Earlier(d, c))
    && c.k < |g1.EdgeErrors(SIDES[c.s1])| && error == g1.EdgeErrors(SIDES[c.s1])[c.k]
  }

  /** What an entry is once everything before the cursor has been visited. */
  ghost predicate EntryOk(g1: Look, m2: Mesh, along: bool, l: nat, cursor: Cursor, was: real, now: real)
    requires g1.mesh.Valid() && m2.Valid()
  {
    if MatchedBefore(g1.mesh, m2, along, l, cursor) then exists c :: Source(g1, m2, along, l, cursor, c, now)
    else now == was
  }

  ghost predicate InheritsUpTo(g1: Look, o2: Look, n2: Look, cursor: Cursor)
    requires g1.mesh.Valid() && o2.mesh.Valid()
  {
    && n2.mesh == o2.mesh && n2.SameGroup(o2)
    && |n2.widthErrors| == |o2.widthErrors| && |n2.heightErrors| == |o2.heightErrors|
    && (forall along, l :: 0 <= l < |Errors(o2, along)| ==>
          EntryOk(g1, o2.mesh, along, l, cursor, Errors(o2, along)[l], Errors(n2, along)[l]))
  }

  const END: Cursor := Cursor(4, 0, 0)

  /**
   The second grid has taken over the first one's errors: every entry at which some vertex of the
   first matches holds the error of the last one visited, and every other entry is what it was.
   */
  ghost predicate Inherits(g1: Look, o2: Look, n2: Look)
    requires g1.mesh.Valid() && o2.mesh.Valid()
  {
    InheritsUpTo(g1, o2, n2, END)
  }

  /** What Inherits says of one entry: it is what it was and nothing matches it, or it was copied from cursor c. */
  lemma EntryOrigin(g1: Look, o2: Look, n2: Look, along: bool, l: nat) returns (own: bool, c: Cursor)
    requires g1.mesh.Valid() && o2.mesh.Valid() && Inherits(g1, o2, n2) && l < |Errors(o2, along)|
    ensures |Errors(n2, along)| == |Errors(o2, along)| && c.s1 < 4
    ensures own ==> !MatchedBefore(g1.mesh, o2.mesh, along, l, END) && Errors(n2, along)[l] == Errors(o2, along)[l]
    ensures !own ==> Source(g1, o2.mesh, along, l, END, c, Errors(n2, along)[l])
  {
    assert EntryOk(g1, o2.mesh, along, l, END, Errors(o2, along)[l], Errors(n2, along)[l]);
    own, c := true, Cursor(0, 0, 0);
    if MatchedBefore(g1.mesh, o2.mesh, along, l, END) {
      own := false;
      c :| Source(g1, o2.mesh, along, l, END, c, Errors(n2, along)[l]);
    }
  }

  // ---------------------------------------------------------------- one vertex against one edge

  /** The error list after vertex position p, with its error, has been compared with an edge. */
  ghost function Stamp(errors: seq<real>, m2: Mesh, side: Side, p: Vec3, error: real): (r: seq<real>)
    requires m2.Valid() && |errors| == EdgeLength(m2, side)
    ensures |r| == |errors|
    ensures forall l :: 0 <= l < |errors| ==>
              r[l] == if 0 < l < |errors| - 1 && Near(p, EdgeAt(m2, side, l)) then error else errors[l]
  {
    seq(|errors|, l requires 0 <= l < |errors| =>
      if 0 < l < |errors| - 1 && Near(p, EdgeAt(m2, side, l)) then error else errors[l])
  }

  ghost predicate Hits(m2: Mesh, side: Side, p: Vec3)
    requires m2.Valid()
  {
    exists l :: 0 < l < EdgeLength(m2, side) - 1 && Near(p, EdgeAt(m2, side, l))
  }

  ghost function Stamped(g: Look, side: Side, p: Vec3, error: real): Look
    requires g.mesh.Valid() && |g.EdgeErrors(side)| == EdgeLength(g.mesh, side)
  {
    if AlongWidth(side) then g.(widthErrors := Stamp(g.widthErrors, g.mesh, side, p, error))
    else g.(heightErrors := Stamp(g.heightErrors, g.mesh, side, p, error))
  }

  /** The loop over the vertices of one edge. */
  method StampErrors(was: seq<real>, m2: Mesh, side: Side, p: Vec3, error: real) returns (errors: seq<real>, touch: bool)
    requires m2.Valid() && |was| == EdgeLength(m2, side)
    ensures errors == Stamp(was, m2, side, p, error)
    ensures touch <==> Hits(m2, side, p)
  {
    errors, touch := was, false;
    var l := 1;
    while l < EdgeLength(m2, side) - 1
      invariant 1 <= l && |errors| == |was|
      invariant forall i :: 0 <= i < |was| && i < l ==> errors[i] == Stamp(was, m2, side, p, error)[i]
      invariant forall i :: l <= i < |was| ==> errors[i] == was[i]
      invariant touch <==> exists i :: 0 < i < l && i < EdgeLength(m2, side) - 1 && Near(p, EdgeAt(m2, side, i))
    {
      if Near(p, EdgeAt(m2, side, l)) {
        errors := errors[l := error];
        touch := true;
      }
      l := l + 1;
    }
  }

  method StampEdge(grid2: Surface, side: Side, p: Vec3, error: real, ghost maxGridSize: nat) returns (touch: bool)
    requires grid2.Valid(maxGridSize)
    modifies grid2`widthLodError, grid2`heightLodError
    ensures grid2.Valid(maxGridSize)
    ensures LookOf(grid2) == Stamped(old(LookOf(grid2)), side, p, error)
    ensures touch <==> Hits(old(grid2.Shape()), side, p)
  {
    var m2 := Mesh(grid2.width, grid2.height, grid2.verts);
    var errors;
    if AlongWidth(side) {
      errors, touch := StampErrors(grid2.widthLodError, m2, side, p, error);
      grid2.widthLodError := errors;
    } else {
      errors, touch := StampErrors(grid2.heightLodError, m2, side, p, error);
      grid2.heightLodError := errors;
    }
  }

  // ---------------------------------------------------------------- the loops, step by step

  ghost predicate TouchedBefore(m1: Mesh, m2: Mesh, cursor: Cursor)
    requires m1.Valid() && m2.Valid()
  {
    exists c, l :: Earlier(c, cursor) && Match(m1, m2, c, l)
  }

  /** Everything before the cursor has been visited. */
  ghost predicate Visited(g1: Look, o2: Look, n2: Look, cursor: Cursor, touch: bool)
    requires g1.mesh.Valid() && o2.mesh.Valid()
  {
    InheritsUpTo(g1, o2, n2, cursor) && (touch <==> TouchedBefore(g1.mesh, o2.mesh, cursor))
  }

  /** An entry for which the two cursors find the same stays as it should be. */
  lemma EntrySame(g1: Look, m2: Mesh, along: bool, l: nat, a: Cursor, b: Cursor, was: real, now: real)
    requires g1.mesh.Valid() && m2.Valid() && EntryOk(g1, m2, along, l, a, was, now)
    requires forall c :: Finds(g1.mesh, m2, along, l, a, c) <==> Finds(g1.mesh, m2, along, l, b, c)
    ensures EntryOk(g1, m2, along, l, b, was, now)
  {
    if MatchedBefore(g1.mesh, m2, along, l, a) {
      var c :| Source(g1, m2, along, l, a, c, now);
      assert Source(g1, m2, along, l, b, c, now);
    }
  }

  /** Moving the cursor over positions that match nothing. */
  lemma Skip(g1: Look, o2: Look, n2: Look, a: Cursor, b: Cursor, touch: bool)
    requires g1.mesh.Valid() && o2.mesh.Valid() && Visited(g1, o2, n2, a, touch)
    requires forall c, l :: Match(g1.mesh, o2.mesh, c, l) ==> (Earlier(c, a) <==> Earlier(c, b))
    ensures Visited(g1, o2, n2, b, touch)
  {
    forall along, l | 0 <= l < |Errors(o2, along)|
      ensures EntryOk(g1, o2.mesh, along, l, b, Errors(o2, along)[l], Errors(n2, along)[l])
    {
      EntrySame(g1, o2.mesh, along, l, a, b, Errors(o2, along)[l], Errors(n2, along)[l]);
    }
  }

  /** Comparing one vertex with one edge moves the cursor by one. */
  lemma Step(g1: Look, o2: Look, n2: Look, s1: nat, k: nat, s2: nat, touch: bool, maxGridSize: nat)
    requires g1.Valid(maxGridSize) && o2.Valid(maxGridSize) && n2.Valid(maxGridSize)
    requires Visited(g1, o2, n2, Cursor(s1, k, s2), touch)
    requires s1 < 4 && s2 < 4 && 0 < k < EdgeLength(g1.mesh, SIDES[s1]) - 1
    requires !Merged(g1.mesh, SIDES[s1]) && !Merged(o2.mesh, SIDES[s2])
    ensures
      var p, error := EdgeAt(g1.mesh, SIDES[s1], k), g1.EdgeErrors(SIDES[s1])[k];
      && Stamped(n2, SIDES[s2], p, error).Valid(maxGridSize)
      && Visited(g1, o2, Stamped(n2, SIDES[s2], p, error), Cursor(s1, k, s2 + 1), touch || Hits(n2.mesh, SIDES[s2], p))
  {
    var here, next := Cursor(s1, k, s2), Cursor(s1, k, s2 + 1);
    var p, error := EdgeAt(g1.mesh, SIDES[s1], k), g1.EdgeErrors(SIDES[s1])[k];
    var t2 := Stamped(n2, SIDES[s2], p, error);
    var m2 := o2.mesh;
    forall along, l | 0 <= l < |Errors(o2, along)|
      ensures EntryOk(g1, m2, along, l, next, Errors(o2, along)[l], Errors(t2, along)[l])
    {
      assert EntryOk(g1, m2, along, l, here, Errors(o2, along)[l], Errors(n2, along)[l]);
      if along == AlongWidth(SIDES[s2]) && 0 < l < EdgeLength(m2, SIDES[s2]) - 1 && Near(p, EdgeAt(m2, SIDES[s2], l)) {
        EntryStamped(g1, m2, along, l, here, next, error, Errors(o2, along)[l]);
      } else {
        EntryUntouched(g1.mesh, m2, along, l, here, next);
        EntrySame(g1, m2, along, l, here, next, Errors(o2, along)[l], Errors(n2, along)[l]);
      }
    }
    if Hits(m2, SIDES[s2], p) {
      var l :| 0 < l < EdgeLength(m2, SIDES[s2]) - 1 && Near(p, EdgeAt(m2, SIDES[s2], l));
      assert Earlier(here, next) && Match(g1.mesh, m2, here, l);
    }
    TouchedStep(g1.mesh, m2, here, next);
  }

  lemma EntryStamped(g1: Look, m2: Mesh, along: bool, l: nat, here: Cursor, next: Cursor, error: real, was: real)
    requires g1.mesh.Valid() && m2.Valid() && next == Cursor(here.s1, here.k, here.s2 + 1)
    requires Match(g1.mesh, m2, here, l) && AlongWidth(SIDES[here.s2]) == along
    requires here.k < |g1.EdgeErrors(SIDES[here.s1])| && error == g1.EdgeErrors(SIDES[here.s1])[here.k]
    ensures EntryOk(g1, m2, along, l, next, was, error)
  {
    assert Finds(g1.mesh, m2, along, l, next, here);
    assert Source(g1, m2, along, l, next, here, error);
  }

  lemma EntryUntouched(m1: Mesh, m2: Mesh, along: bool, l: nat, here: Cursor, next: Cursor)
    requires m1.Valid() && m2.Valid() && next == Cursor(here.s1, here.k, here.s2 + 1)
    requires !(Match(m1, m2, here, l) && AlongWidth(SIDES[here.s2]) == along)
    ensures forall c :: Finds(m1, m2, along, l, here, c) <==> Finds(m1, m2, along, l, next, c)
  {
    forall c
      ensures Finds(m1, m2, along, l, here, c) <==> Finds(m1, m2, along, l, next, c)
    {
      assert Earlier(c, next) <==> c == here || Earlier(c, here);
    }
  }

  lemma TouchedStep(m1: Mesh, m2: Mesh, here: Cursor, next: Cursor)
    requires m1.Valid() && m2.Valid() && next == Cursor(here.s1, here.k, here.s2 + 1)
    ensures TouchedBefore(m1, m2, next) <==> TouchedBefore(m1, m2, here) || exists l :: Match(m1, m2, here, l)
  {
    if TouchedBefore(m1, m2, next) {
      var c, l :| Earlier(c, next) && Match(m1, m2, c, l);
      assert c == here || Earlier(c, here);
    }
    if TouchedBefore(m1, m2, here) {
      var c, l :| Earlier(c, here) && Match(m1, m2, c, l);
      assert Earlier(c, next);
    }
    if l :| Match(m1, m2, here, l) {
      assert Earlier(here, next);
    }
  }

  /** One vertex of grid1 against one edge of grid2. */
  method StampVertexOnEdge(grid1: Surface, grid2: Surface, s1: nat, k: nat, s2: nat, touch0: bool, ghost o2: Look, ghost maxGridSize: nat)
    returns (touch: bool)
    requires grid1 != grid2 && grid1.Valid(maxGridSize) && grid2.Valid(maxGridSize) && o2.Valid(maxGridSize) && s2 < 4
    requires s1 < 4 && 0 < k < EdgeLength(grid1.Shape(), SIDES[s1]) - 1 && !Merged(grid1.Shape(), SIDES[s1])
    requires Visited(LookOf(grid1), o2, LookOf(grid2), Cursor(s1, k, s2), touch0)
    modifies grid2`widthLodError, grid2`heightLodError
    ensures grid2.Valid(maxGridSize)
    ensures Visited(LookOf(grid1), o2, LookOf(grid2), Cursor(s1, k, s2 + 1), touch)
  {
    var m1, m2 := Mesh(grid1.width, grid1.height, grid1.verts), Mesh(grid2.width, grid2.height, grid2.verts);
    ghost var g1, n2 := LookOf(grid1), LookOf(grid2);
    var merged := MergedPoints(m2, SIDES[s2]);
    if merged {
      Skip(g1, o2, n2, Cursor(s1, k, s2), Cursor(s1, k, s2 + 1), touch0);
      touch := touch0;
      return;
    }
    var error := (if AlongWidth(SIDES[s1]) then grid1.widthLodError else grid1.heightLodError)[k];
    Step(g1, o2, n2, s1, k, s2, touch0, maxGridSize);
    var hit := StampEdge(grid2, SIDES[s2], EdgeAt(m1, SIDES[s1], k), error, maxGridSize);
    touch := touch0 || hit;
  }

  /** One vertex of grid1 against the four edges of grid2. */
  method StampVertex(grid1: Surface, grid2: Surface, s1: nat, k: nat, touch0: bool, ghost o2: Look, ghost maxGridSize: nat)
    returns (touch: bool)
    requires grid1 != grid2 && grid1.Valid(maxGridSize) && grid2.Valid(maxGridSize) && o2.Valid(maxGridSize)
    requires s1 < 4 && 0 < k < EdgeLength(grid1.Shape(), SIDES[s1]) - 1 && !Merged(grid1.Shape(), SIDES[s1])
    requires Visited(LookOf(grid1), o2, LookOf(grid2), Cursor(s1, k, 0), touch0)
    modifies grid2`widthLodError, grid2`heightLodError
    ensures grid2.Valid(maxGridSize)
    ensures Visited(LookOf(grid1), o2, LookOf(grid2), Cursor(s1, k, 4), touch)
  {
    touch := touch0;
    ghost var g1 := LookOf(grid1);
    for s2 := 0 to 4
      invariant grid2.Valid(maxGridSize) && LookOf(grid1) == g1
      invariant Visited(g1, o2, LookOf(grid2), Cursor(s1, k, s2), touch)
    {
      touch := StampVertexOnEdge(grid1, grid2, s1, k, s2, touch, o2, maxGridSize);
    }
  }

  /** One edge of grid1. */
  method StampSide(grid1: Surface, grid2: Surface, s1: nat, touch0: bool, ghost o2: Look, ghost maxGridSize: nat)
    returns (touch: bool)
    requires grid1 != grid2 && grid1.Valid(maxGridSize) && grid2.Valid(maxGridSize) && o2.Valid(maxGridSize) && s1 < 4
    requires Visited(LookOf(grid1), o2, LookOf(grid2), Cursor(s1, 0, 0), touch0)
    modifies grid2`widthLodError, grid2`heightLodError
    ensures grid2.Valid(maxGridSize)
    ensures Visited(LookOf(grid1), o2, LookOf(grid2), Cursor(s1 + 1, 0, 0), touch)
  {
    touch := touch0;
    ghost var g1 := LookOf(grid1);
    var m1 := Mesh(grid1.width, grid1.height, grid1.verts);
    var merged := MergedPoints(m1, SIDES[s1]);
    if merged {
      Skip(g1, o2, LookOf(grid2), Cursor(s1, 0, 0), Cursor(s1 + 1, 0, 0), touch);
      return;
    }
    var k := 1;
    Skip(g1, o2, LookOf(grid2), Cursor(s1, 0, 0), Cursor(s1, 1, 0), touch);
    while k < EdgeLength(m1, SIDES[s1]) - 1
      invariant 1 <= k && grid2.Valid(maxGridSize) && LookOf(grid1) == g1
      invariant Visited(g1, o2, LookOf(grid2), Cursor(s1, k, 0), touch)
    {
      touch := StampVertex(grid1, grid2, s1, k, touch, o2, maxGridSize);
      Skip(g1, o2, LookOf(grid2), Cursor(s1, k, 4), Cursor(s1, k + 1, 0), touch);
      k := k + 1;
    }
    Skip(g1, o2, LookOf(grid2), Cursor(s1, k, 0), Cursor(s1 + 1, 0, 0), touch);
  }

  /**
   The nested loops of R_FixSharedVertexLodError_r for one pair of grids: grid2 takes over grid1's
   errors, and the result says whether the two touch.
   */
  method ShareErrors(grid1: Surface, grid2: Surface, ghost maxGridSize: nat) returns (touch: bool)
    requires grid1 != grid2 && grid1.Valid(maxGridSize) && grid2.Valid(maxGridSize)
    modifies grid2`widthLodError, grid2`heightLodError
    ensures grid2.Valid(maxGridSize) && grid2.Shape() == old(grid2.Shape())
    ensures touch <==> Touching(grid1.Shape(), grid2.Shape())
    ensures Inherits(LookOf(grid1), old(LookOf(grid2)), LookOf(grid2))
    ensures !touch ==> LookOf(grid2) == old(LookOf(grid2))
  {
    touch := false;
    ghost var g1, o2 := LookOf(grid1), LookOf(grid2);
    for s1 := 0 to 4
      invariant grid2.Valid(maxGridSize) && LookOf(grid1) == g1
      invariant Visited(g1, o2, LookOf(grid2), Cursor(s1, 0, 0), touch)
    {
      touch := StampSide(grid1, grid2, s1, touch, o2, maxGridSize);
    }
    if !touch {
      Untouched(g1, o2, LookOf(grid2));
    } else {
      ghost var c, l :| Earlier(c, END) && Match(g1.mesh, o2.mesh, c, l);
    }
  }

  lemma Untouched(g1: Look, o2: Look, n2: Look)
    requires g1.mesh.Valid() && o2.mesh.Valid() && Visited(g1, o2, n2, END, false)
    ensures n2 == o2 && !Touching(g1.mesh, o2.mesh)
  {
    forall along, l | 0 <= l < |Errors(o2, along)|
      ensures Errors(n2, along)[l] == Errors(o2, along)[l]
    {
      assert EntryOk(g1, o2.mesh, along, l, END, Errors(o2, along)[l], Errors(n2, along)[l]);
    }
    assert Errors(n2, true) == Errors(o2, true) && Errors(n2, false) == Errors(o2, false);
    forall c, l
      ensures !Match(g1.mesh, o2.mesh, c, l)
    {
      if Match(g1.mesh, o2.mesh, c, l) {
        assert Earlier(c, END);
      }
    }
  }
}
