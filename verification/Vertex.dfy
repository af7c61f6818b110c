/** The vertices of a patch grid, with the two arithmetic operations the curve code builds on. */
module Vertex {

  datatype Vec3 = Vec3(x: real, y: real, z: real)

  /** A grid vertex: its position and its texture coordinates. */
  datatype Vert = Vert(x: real, y: real, z: real, s: real, t: real) {
    function Xyz(): Vec3 {
      Vec3(x, y, z)
    }

    /** Overwrites the position only, as VectorCopy onto the xyz field does. */
    function WithXyz(p: Vec3): Vert {
      this.(x := p.x, y := p.y, z := p.z)
    }
  }

  /** The midpoint of two vertices. */
  function LerpDrawVert(a: Vert, b: Vert): Vert {
    Vert(0.5 * (a.x + b.x), 0.5 * (a.y + b.y), 0.5 * (a.z + b.z), 0.5 * (a.s + b.s), 0.5 * (a.t + b.t))
  }

  function Abs(r: real): real {
    if r < 0.0 then -r else r
  }

  /** No coordinate differs by more than a tenth: the test the stitching code uses for "same point". */
  predicate Near(p: Vec3, q: Vec3) {
    Abs(p.x - q.x) <= 0.1 && Abs(p.y - q.y) <= 0.1 && Abs(p.z - q.z) <= 0.1
  }

  /** Every coordinate differs by less than a hundredth: a degenerate grid edge. */
  predicate Coincident(p: Vec3, q: Vec3) {
    Abs(p.x - q.x) < 0.01 && Abs(p.y - q.y) < 0.01 && Abs(p.z - q.z) < 0.01
  }
}
