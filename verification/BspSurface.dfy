/** Grid surfaces of the world: how a patch becomes one, and how a row or column is added to one. */
module BspSurface {
  import opened Vertex
  import Arithmetic

  // ---------------------------------------------------------------- row-major vertex lists

  /** Where the vertex at row r and column c is stored. */
  function Slot(r: nat, c: nat, width: nat): nat {
    r * width + c
  }

  lemma SlotInRange(r: nat, c: nat, width: nat, height: nat)
    requires r < height && c < width
    ensures Slot(r, c, width) < width * height
    ensures Slot(r, c, width) / width == r && Slot(r, c, width) % width == c
  {
    Arithmetic.DivModUnique(r * width + c, width, r, c);
    Arithmetic.MulMonotone(width, r + 1, height);
    Arithmetic.MulSucc(width, r);
    assert r * width == width * r;
  }

  lemma IndexOf(k: nat, width: nat, height: nat)
    requires k < width * height && width > 0
    ensures k / width < height && k % width < width && Slot(k / width, k % width, width) == k
  {
    if k / width >= height {
      Arithmetic.MulMonotone(width, height, k / width);
    }
  }

  /** The dimensions and vertices of a grid; vertices are stored row by row. */
  datatype Mesh = Mesh(width: nat, height: nat, verts: seq<Vert>) {
    predicate Valid() {
      width >= 2 && height >= 2 && |verts| == width * height
    }

    /** The vertex stored for row r and column c is v. */
    ghost predicate Holds(r: nat, c: nat, v: Vert) {
      r < height && c < width && Slot(r, c, width) < |verts| && verts[Slot(r, c, width)] == v
    }

    function At(r: nat, c: nat): Vert
      requires Valid() && r < height && c < width
    {
      SlotInRange(r, c, width, height);
      verts[Slot(r, c, width)]
    }
  }

  // ---------------------------------------------------------------- the surface

  /** Where ClearBounds starts from: the box that contains nothing. */
  const FAR := 99999.0

  /** lo and hi bound the given coordinate of all the vertices, and are reached unless none lies that side of the start. */
  ghost predicate Bounds(xs: seq<real>, lo: real, hi: real) {
    && (forall i :: 0 <= i < |xs| ==> lo <= xs[i] <= hi)
    && lo <= FAR && (lo == FAR || lo in xs)
    && -FAR <= hi && (hi == -FAR || hi in xs)
  }

  ghost function Coordinates(verts: seq<Vert>, f: Vert -> real): (xs: seq<real>)
    ensures |xs| == |verts| && forall i :: 0 <= i < |xs| ==> xs[i] == f(verts[i])
  {
    seq(|verts|, i requires 0 <= i < |verts| => f(verts[i]))
  }

  /** The box around the vertices. */
  ghost predicate Boxed(verts: seq<Vert>, lo: Vec3, hi: Vec3) {
    && Bounds(Coordinates(verts, (v: Vert) => v.x), lo.x, hi.x)
    && Bounds(Coordinates(verts, (v: Vert) => v.y), lo.y, hi.y)
    && Bounds(Coordinates(verts, (v: Vert) => v.z), lo.z, hi.z)
  }

  /** One coordinate of ClearBounds and AddPointToBounds. */
  method BoundsOf(xs: seq<real>) returns (lo: real, hi: real)
    ensures Bounds(xs, lo, hi)
  {
    lo, hi := FAR, -FAR;
    for i := 0 to |xs|
      invariant lo <= FAR && (lo == FAR || lo in xs) && -FAR <= hi && (hi == -FAR || hi in xs)
      invariant forall k :: 0 <= k < i ==> lo <= xs[k] <= hi
    {
      if xs[i] < lo {
        lo := xs[i];
      }
      if xs[i] > hi {
        hi := xs[i];
      }
    }
  }

  method BoxOf(verts: seq<Vert>) returns (lo: Vec3, hi: Vec3)
    ensures Boxed(verts, lo, hi)
  {
    var xs := seq(|verts|, i requires 0 <= i < |verts| => verts[i].x);
    var ys := seq(|verts|, i requires 0 <= i < |verts| => verts[i].y);
    var zs := seq(|verts|, i requires 0 <= i < |verts| => verts[i].z);
    assert xs == Coordinates(verts, (v: Vert) => v.x);
    assert ys == Coordinates(verts, (v: Vert) => v.y);
    assert zs == Coordinates(verts, (v: Vert) => v.z);
    var x0, x1 := BoundsOf(xs);
    var y0, y1 := BoundsOf(ys);
    var z0, z1 := BoundsOf(zs);
    lo, hi := Vec3(x0, y0, z0), Vec3(x1, y1, z1);
  }

  function Middle(p: Vec3, q: Vec3): Vec3 {
    Vec3(0.5 * (p.x + q.x), 0.5 * (p.y + q.y), 0.5 * (p.z + q.z))
  }

  function DistanceSquared(p: Vec3, q: Vec3): real {
    (p.x - q.x) * (p.x - q.x) + (p.y - q.y) * (p.y - q.y) + (p.z - q.z) * (p.z - q.z)
  }

  /** The box holds every vertex. */
  lemma BoxHoldsVertices(verts: seq<Vert>, lo: Vec3, hi: Vec3, i: nat)
    requires Boxed(verts, lo, hi) && i < |verts|
    ensures lo.x <= verts[i].x <= hi.x && lo.y <= verts[i].y <= hi.y && lo.z <= verts[i].z <= hi.z
  {
    assert Coordinates(verts, (v: Vert) => v.x)[i] == verts[i].x && Coordinates(verts, (v: Vert) => v.y)[i] == verts[i].y;
    assert Coordinates(verts, (v: Vert) => v.z)[i] == verts[i].z;
  }

  lemma MiddleIs(lo: Vec3, hi: Vec3)
    ensures
      var m := Middle(lo, hi);
      2.0 * m.x == lo.x + hi.x && 2.0 * m.y == lo.y + hi.y && 2.0 * m.z == lo.z + hi.z
  {
  }

  /** No point of a box is farther from its middle than the corner, whose squared distance gives the sphere's radius. */
  lemma SphereHoldsBox(lo: Vec3, hi: Vec3, m: Vec3, p: Vec3)
    requires 2.0 * m.x == lo.x + hi.x && 2.0 * m.y == lo.y + hi.y && 2.0 * m.z == lo.z + hi.z
    requires lo.x <= p.x <= hi.x && lo.y <= p.y <= hi.y && lo.z <= p.z <= hi.z
    ensures (p.x - m.x) * (p.x - m.x) + (p.y - m.y) * (p.y - m.y) + (p.z - m.z) * (p.z - m.z) <= DistanceSquared(lo, m)
  {
    NoFartherThanEnd(lo.x, hi.x, m.x, p.x);
    NoFartherThanEnd(lo.y, hi.y, m.y, p.y);
    NoFartherThanEnd(lo.z, hi.z, m.z, p.z);
  }

  lemma NoFartherThanEnd(lo: real, hi: real, m: real, x: real)
    requires lo <= x <= hi && 2.0 * m == lo + hi
    ensures (x - m) * (x - m) <= (lo - m) * (lo - m)
  {
    var a, b := x - lo, hi - x;
    assert a * b >= 0.0;
    assert (lo - m) * (lo - m) - (x - m) * (x - m) == a * b;
  }

  /** The corner itself is as far as that. */
  lemma CornerDistance(lo: Vec3, m: Vec3)
    ensures DistanceSquared(lo, m) == (lo.x - m.x) * (lo.x - m.x) + (lo.y - m.y) * (lo.y - m.y) + (lo.z - m.z) * (lo.z - m.z)
  {
  }

  class Surface {
    /** The square root the renderer is built with. */
    const sqrt: real -> real
    var isGrid: bool
    var width: nat
    var height: nat
    var verts: seq<Vert>
    var widthLodError: seq<real>
    var heightLodError: seq<real>
    var indexes: seq<nat>
    var cullMin: Vec3
    var cullMax: Vec3
    var cullOrigin: Vec3
    var cullRadius: real
    var lodOrigin: Vec3
    var lodRadius: real
    var lodFixed: int
    var lodStitched: bool

    constructor (sqrt: real -> real)
    {
      this.sqrt := sqrt;
      cullMin, cullMax, cullOrigin, cullRadius := Vec3(0.0, 0.0, 0.0), Vec3(0.0, 0.0, 0.0), Vec3(0.0, 0.0, 0.0), 0.0;
      isGrid, width, height, verts, indexes := false, 0, 0, [], [];
      widthLodError, heightLodError, lodOrigin, lodRadius := [], [], Vec3(0.0, 0.0, 0.0), 0.0;
      lodFixed, lodStitched := 0, false;
    }

    ghost function Shape(): Mesh
      reads this
    {
      Mesh(width, height, verts)
    }

    /** A well-formed grid: its vertex list and its error lists have the sizes its dimensions say. */
    ghost predicate Valid(maxGridSize: nat)
      reads this
    {
      && Shape().Valid() && width <= maxGridSize && height <= maxGridSize
      && |widthLodError| == width && |heightLodError| == height
    }

    /** The cull sphere is around the box of the vertices, from its middle to its corner. */
    ghost predicate Culled()
      reads this
    {
      && Boxed(verts, cullMin, cullMax) && cullOrigin == Middle(cullMin, cullMax)
      && cullRadius == sqrt(DistanceSquared(cullMin, cullOrigin))
    }

    function At(r: nat, c: nat): Vert
      requires width >= 2 && height >= 2 && |verts| == width * height && r < height && c < width
      reads this
    {
      Mesh(width, height, verts).At(r, c)
    }
  }

  /** Grids are well formed and no two surfaces share one; surfaces that are no grids may be shared. */
  ghost predicate World(surfaces: seq<Surface>, maxGridSize: nat)
    reads surfaces
  {
    && (forall i :: 0 <= i < |surfaces| && surfaces[i].isGrid ==> surfaces[i].Valid(maxGridSize))
    && (forall i, j :: 0 <= i < j < |surfaces| && surfaces[i].isGrid && surfaces[j].isGrid ==> surfaces[i] != surfaces[j])
  }

  /** Overwrites one vertex of a row-major list. */
  method Store(verts: array<Vert>, r: nat, c: nat, width: nat, height: nat, v: Vert)
    requires r < height && c < width && verts.Length == width * height
    modifies verts
    ensures Mesh(width, height, verts[..]).Holds(r, c, v)
    ensures forall r', c', v' :: (r' != r || c' != c) && old(Mesh(width, height, verts[..]).Holds(r', c', v')) ==>
              Mesh(width, height, verts[..]).Holds(r', c', v')
  {
    SlotInRange(r, c, width, height);
    verts[Slot(r, c, width)] := v;
    forall r', c', v' | (r' != r || c' != c) && old(Mesh(width, height, verts[..]).Holds(r', c', v'))
      ensures Mesh(width, height, verts[..]).Holds(r', c', v')
    {
      SlotInRange(r', c', width, height);
    }
  }

  /** Copies the working grid into a row-major vertex list, column by column. */
  method CopyVertices(ctrl: array2<Vert>, width: nat, height: nat) returns (mesh: Mesh)
    requires 2 <= width <= ctrl.Length1 && 2 <= height <= ctrl.Length0
    ensures mesh.Valid() && mesh.width == width && mesh.height == height
    ensures forall r, c :: 0 <= r < height && 0 <= c < width ==> mesh.At(r, c) == ctrl[r, c]
  {
    var verts := new Vert[width * height];
    for i := 0 to width
      invariant forall r, c :: 0 <= r < height && 0 <= c < i ==> Mesh(width, height, verts[..]).Holds(r, c, ctrl[r, c])
    {
      for j := 0 to height
        invariant forall r, c :: 0 <= r < height && 0 <= c < width && (c < i || (c == i && r < j)) ==>
                    Mesh(width, height, verts[..]).Holds(r, c, ctrl[r, c])
      {
        Store(verts, j, i, width, height, ctrl[j, i]);
      }
    }
    mesh := Mesh(width, height, verts[..]);
    forall r, c | 0 <= r < height && 0 <= c < width
      ensures mesh.At(r, c) == ctrl[r, c]
    {
      assert mesh.Holds(r, c, ctrl[r, c]);
    }
  }

  /** Works out the cull sphere of a grid, and makes it the LOD sphere. */
  method SetCullSphere(grid: Surface)
    modifies grid`cullMin, grid`cullMax, grid`cullOrigin, grid`cullRadius, grid`lodOrigin, grid`lodRadius
    ensures grid.Culled() && grid.lodOrigin == grid.cullOrigin && grid.lodRadius == grid.cullRadius
  {
    grid.cullMin, grid.cullMax := BoxOf(grid.verts);
    grid.cullOrigin := Middle(grid.cullMin, grid.cullMax);
    grid.cullRadius := (grid.sqrt)(DistanceSquared(grid.cullMin, grid.cullOrigin));
    grid.lodOrigin := grid.cullOrigin;
    grid.lodRadius := grid.cullRadius;
  }

  /** Fills a grid from the working arrays. Everything else in the surface is cleared, and the LOD sphere becomes the cull sphere. */
  method CreateSurfaceGridMesh(grid: Surface, width: nat, height: nat, ctrl: array2<Vert>, widthErrors: array<real>,
                               heightErrors: array<real>, numIndexes: nat, indexes: array<nat>)
    requires 2 <= width <= ctrl.Length1 == widthErrors.Length && 2 <= height <= ctrl.Length0 == heightErrors.Length
    requires numIndexes <= indexes.Length
    modifies grid
    ensures grid.isGrid && grid.width == width && grid.height == height && grid.lodFixed == 0 && !grid.lodStitched
    ensures grid.Shape().Valid()
    ensures forall r, c :: 0 <= r < height && 0 <= c < width ==> grid.Shape().At(r, c) == ctrl[r, c]
    ensures grid.widthLodError == widthErrors[..width] && grid.heightLodError == heightErrors[..height]
    ensures grid.indexes == indexes[..numIndexes]
    ensures grid.Culled() && grid.lodOrigin == grid.cullOrigin && grid.lodRadius == grid.cullRadius
  {
    grid.lodFixed, grid.lodStitched := 0, false;
    grid.widthLodError := widthErrors[..width];
    grid.heightLodError := heightErrors[..height];
    grid.indexes := indexes[..numIndexes];
    grid.width, grid.height, grid.isGrid := width, height, true;
    var mesh := CopyVertices(ctrl, width, height);
    grid.verts := mesh.verts;
    SetCullSphere(grid);
  }
}
