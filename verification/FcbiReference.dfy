/** What the two interpolators do, byte by byte: which pair of neighbours each pixel is the average of. */
module FcbiReference {
  import opened Raster
  import opened Fcbi
  import Quick = FcbiQuick

  /** A pixel's sample is its component's byte: rows follow one another, four bytes to a pixel. */
  lemma AtIsByte(img: seq<Byte>, f: Frame, x: nat, y: nat)
    requires f.Valid() && x < f.width && y < f.height && |img| == f.height * f.width * 4
    ensures 0 <= (y * f.width + x) * 4 + f.component < |img|
    ensures At(img, f, x, y) == img[(y * f.width + x) * 4 + f.component]
  {
    PixInside(f, x, y);
  }

  /** v is the average of a and b, rounded down. */
  ghost predicate IsAverage(v: int, a: int, b: int) {
    2 * v <= a + b <= 2 * v + 1
  }

  /** a and b differ by more than c and d do, or by as much, up or down. */
  ghost predicate DiffersAtLeast(a: int, b: int, c: int, d: int) {
    (a - b >= c - d && a - b >= d - c) || (b - a >= c - d && b - a >= d - c)
  }

  ghost predicate DiffersByMore(a: int, b: int, n: int) {
    a - b > n || b - a > n
  }

  /** Of the pairs a, b and c, d the one that differs less is averaged; the second if they differ alike. */
  ghost predicate AcrossSmallerDifference(v: int, a: int, b: int, c: int, d: int) {
    if DiffersAtLeast(a, b, c, d) then IsAverage(v, c, d) else IsAverage(v, a, b)
  }

  /**
   At an edge, where the two of a pair differ by more than 100 or the pairs' sums by more than 200, the
   pair that differs less is averaged. Elsewhere it is the pair along which the brightness bends more:
   the four samples beyond it and the sum of the other pair differ more from three times its own sum.
   */
  ghost predicate Interpolates(v: int, a: int, b: int, c: int, d: int, beyondAB: int, beyondCD: int) {
    if DiffersByMore(a, b, 100) || DiffersByMore(c, d, 100) || DiffersByMore(a + b, c + d, 200) then
      AcrossSmallerDifference(v, a, b, c, d)
    else if DiffersAtLeast(beyondCD + a + b, 3 * (c + d), beyondAB + c + d, 3 * (a + b)) then IsAverage(v, c, d)
    else IsAverage(v, a, b)
  }

  lemma PickInterpolates(u: Byte, v: Byte, s: Byte, t: Byte, outerUV: int, outerST: int)
    ensures Interpolates(Pick(u, v, s, t, outerUV, outerST) as int, u as int, v as int, s as int, t as int, outerUV, outerST)
  {
  }

  lemma QuickPickAverages(u: Byte, v: Byte, s: Byte, t: Byte)
    ensures AcrossSmallerDifference(Quick.QuickPick(u, v, s, t) as int, u as int, v as int, s as int, t as int)
  {
  }

  // ---------------------------------------------------------------- which pixels

  lemma LatticesAre(f: Frame, x: nat, y: nat)
    ensures OnLattice(f, KNOWN, x, y) <==> 2 <= x < f.width - 2 && 2 <= y < f.height - 2 && x % 2 == 0 && y % 2 == 0
    ensures OnLattice(f, DIAGONALS, x, y) <==> 3 <= x < f.width - 3 && 3 <= y < f.height - 3 && x % 2 == 1 && y % 2 == 1
    ensures OnLattice(f, Quick.INNER, x, y) <==> 3 <= x < f.width - 4 && 3 <= y < f.height - 4 && x % 2 == 1 && y % 2 == 1
    ensures OnCross(f, x, y) <==> 2 <= x < f.width - 3 && 2 <= y < f.height - 3 && (x + y) % 2 == 1
  {
  }

  lemma CrossIs(f: Frame, x: nat, y: nat)
    requires 2 <= x < f.width - 3 && 2 <= y < f.height - 3 && (x + y) % 2 == 1
    ensures f.Inside(x, y) && OnCross(f, x, y)
    ensures !OnLattice(f, KNOWN, x, y) && !OnLattice(f, DIAGONALS, x, y) && !OnLattice(f, Quick.INNER, x, y)
  {
    LatticesApart(f, x, y);
    Quick.InnerIsDiagonal(f, x, y);
  }

  lemma PixelIs(out: seq<Byte>, in0: seq<Byte>, in1: seq<Byte>, out0: seq<Byte>, f: Frame, x: nat, y: nat)
    requires Interpolated(out, in0, in1, out0, f) && f.Inside(x, y)
    ensures At(out, f, x, y) == Expected(in0, in1, out0, f, x, y)
  {
  }

  lemma QuickPixelIs(out: seq<Byte>, in0: seq<Byte>, in1: seq<Byte>, out0: seq<Byte>, f: Frame, x: nat, y: nat)
    requires Quick.Interpolated(out, in0, in1, out0, f) && f.Inside(x, y)
    ensures At(out, f, x, y) == Quick.Expected(in0, in1, out0, f, x, y)
  {
  }

  // ---------------------------------------------------------------- the pixels of DoFCBI

  /**
   The input afterwards: pixels in odd rows and columns, three from the border, have been copied back
   from the output, and the others are as they were.
   */
  lemma InputPixel(f: Frame, in0: seq<Byte>, in1: seq<Byte>, out0: seq<Byte>, out1: seq<Byte>, x: nat, y: nat)
    requires AllPainted(in1, in0, f, Wanted(f, DIAGONALS), Diagonals(in0, f)) && Interpolated(out1, in0, in1, out0, f)
    requires x < f.width && y < f.height
    ensures At(in1, f, x, y)
         == At(if 3 <= x < f.width - 3 && 3 <= y < f.height - 3 && x % 2 == 1 && y % 2 == 1 then out1 else in0, f, x, y)
  {
    LatticesAre(f, x, y);
    PixelIs(out1, in0, in1, out0, f, x, y);
    assert Wanted(f, DIAGONALS)(x, y) == OnLattice(f, DIAGONALS, x, y);
  }

  /** The known pixels, in even rows and columns, two from the border, are the input's. */
  lemma KnownPixel(f: Frame, in0: seq<Byte>, in1: seq<Byte>, out0: seq<Byte>, out1: seq<Byte>, x: nat, y: nat)
    requires Interpolated(out1, in0, in1, out0, f)
    requires 2 <= x < f.width - 2 && 2 <= y < f.height - 2 && x % 2 == 0 && y % 2 == 0
    ensures At(out1, f, x, y) == At(in0, f, x, y)
  {
    LatticesAre(f, x, y);
    PixelIs(out1, in0, in1, out0, f, x, y);
  }

  /** The pixels between four known ones on their diagonals: odd rows and columns, three from the border. */
  lemma DiagonalPixel(f: Frame, in0: seq<Byte>, in1: seq<Byte>, out0: seq<Byte>, out1: seq<Byte>, x: nat, y: nat)
    requires Interpolated(out1, in0, in1, out0, f)
    requires 3 <= x < f.width - 3 && 3 <= y < f.height - 3 && x % 2 == 1 && y % 2 == 1
    ensures DiagonalOf(in0, f, x, y, At(out1, f, x, y) as int)
  {
    LatticesAre(f, x, y);
    PixelIs(out1, in0, in1, out0, f, x, y);
    DiagonalInterpolates(in0, f, x, y, At(out1, f, x, y) as int);
  }

  ghost predicate DiagonalOf(img: seq<Byte>, f: Frame, x: int, y: int, v: int) {
    Interpolates(v, At(img, f, x - 1, y - 1) as int, At(img, f, x + 1, y + 1) as int,
                 At(img, f, x + 1, y - 1) as int, At(img, f, x - 1, y + 1) as int,
                 At(img, f, x - 1, y - 3) as int + At(img, f, x + 3, y + 1) as int
                 + At(img, f, x - 3, y - 1) as int + At(img, f, x + 1, y + 3) as int,
                 At(img, f, x - 3, y + 1) as int + At(img, f, x + 1, y - 3) as int
                 + At(img, f, x - 1, y + 3) as int + At(img, f, x + 3, y - 1) as int)
  }

  lemma DiagonalInterpolates(img: seq<Byte>, f: Frame, x: int, y: int, v: int)
    requires v == Diagonal(img, f, x, y) as int
    ensures DiagonalOf(img, f, x, y, v)
  {
    PickInterpolates(At(img, f, x - 1, y - 1), At(img, f, x + 1, y + 1), At(img, f, x + 1, y - 1), At(img, f, x - 1, y + 1),
                     At(img, f, x - 1, y - 3) as int + At(img, f, x + 3, y + 1) as int
                     + At(img, f, x - 3, y - 1) as int + At(img, f, x + 1, y + 3) as int,
                     At(img, f, x - 3, y + 1) as int + At(img, f, x + 1, y - 3) as int
                     + At(img, f, x - 1, y + 3) as int + At(img, f, x + 3, y - 1) as int);
  }

  /** The pixels between those, from the input completed by them. */
  lemma CrossPixel(f: Frame, in0: seq<Byte>, in1: seq<Byte>, out0: seq<Byte>, out1: seq<Byte>, x: nat, y: nat)
    requires Interpolated(out1, in0, in1, out0, f)
    requires 2 <= x < f.width - 3 && 2 <= y < f.height - 3 && (x + y) % 2 == 1
    ensures CrossOf(in1, f, x, y, At(out1, f, x, y) as int)
  {
    CrossIs(f, x, y);
    PixelIs(out1, in0, in1, out0, f, x, y);
    CrossInterpolates(in1, f, x, y, At(out1, f, x, y) as int);
  }

  ghost predicate CrossOf(img: seq<Byte>, f: Frame, x: int, y: int, v: int) {
    Interpolates(v, At(img, f, x - 1, y) as int, At(img, f, x + 1, y) as int, At(img, f, x, y - 1) as int, At(img, f, x, y + 1) as int,
                 At(img, f, x - 2, y - 1) as int + At(img, f, x + 2, y - 1) as int
                 + At(img, f, x - 2, y + 1) as int + At(img, f, x + 2, y + 1) as int,
                 At(img, f, x - 1, y - 2) as int + At(img, f, x - 1, y + 2) as int
                 + At(img, f, x + 1, y - 2) as int + At(img, f, x + 1, y + 2) as int)
  }

  lemma CrossInterpolates(img: seq<Byte>, f: Frame, x: int, y: int, v: int)
    requires v == Cross(img, f, x, y) as int
    ensures CrossOf(img, f, x, y, v)
  {
    PickInterpolates(At(img, f, x - 1, y), At(img, f, x + 1, y), At(img, f, x, y - 1), At(img, f, x, y + 1),
                     At(img, f, x - 2, y - 1) as int + At(img, f, x + 2, y - 1) as int
                     + At(img, f, x - 2, y + 1) as int + At(img, f, x + 2, y + 1) as int,
                     At(img, f, x - 1, y - 2) as int + At(img, f, x - 1, y + 2) as int
                     + At(img, f, x + 1, y - 2) as int + At(img, f, x + 1, y + 2) as int);
  }

  /** All other pixels of the output are as they were. */
  lemma OtherPixel(f: Frame, in0: seq<Byte>, in1: seq<Byte>, out0: seq<Byte>, out1: seq<Byte>, x: nat, y: nat)
    requires Interpolated(out1, in0, in1, out0, f) && x < f.width && y < f.height
    requires !(2 <= x < f.width - 2 && 2 <= y < f.height - 2 && x % 2 == 0 && y % 2 == 0)
    requires !(3 <= x < f.width - 3 && 3 <= y < f.height - 3 && x % 2 == 1 && y % 2 == 1)
    requires !(2 <= x < f.width - 3 && 2 <= y < f.height - 3 && (x + y) % 2 == 1)
    ensures At(out1, f, x, y) == At(out0, f, x, y)
  {
    LatticesAre(f, x, y);
    PixelIs(out1, in0, in1, out0, f, x, y);
  }

  // ---------------------------------------------------------------- the pixels of DoFCBIQuick

  /** The pixels the first pass works out are the averages of the diagonal pair that differs less. */
  lemma QuickDiagonalPixel(f: Frame, in0: seq<Byte>, in1: seq<Byte>, out0: seq<Byte>, out1: seq<Byte>, x: nat, y: nat)
    requires Quick.Interpolated(out1, in0, in1, out0, f)
    requires 3 <= x < f.width - 4 && 3 <= y < f.height - 4 && x % 2 == 1 && y % 2 == 1
    ensures AcrossSmallerDifference(At(out1, f, x, y) as int, At(in0, f, x - 1, y - 1) as int, At(in0, f, x + 1, y + 1) as int,
                                    At(in0, f, x + 1, y - 1) as int, At(in0, f, x - 1, y + 1) as int)
  {
    LatticesAre(f, x, y);
    QuickPixelIs(out1, in0, in1, out0, f, x, y);
    QuickPickAverages(At(in0, f, x - 1, y - 1), At(in0, f, x + 1, y + 1), At(in0, f, x + 1, y - 1), At(in0, f, x - 1, y + 1));
  }

  lemma QuickCrossPixel(f: Frame, in0: seq<Byte>, in1: seq<Byte>, out0: seq<Byte>, out1: seq<Byte>, x: nat, y: nat)
    requires Quick.Interpolated(out1, in0, in1, out0, f)
    requires 2 <= x < f.width - 3 && 2 <= y < f.height - 3 && (x + y) % 2 == 1
    ensures AcrossSmallerDifference(At(out1, f, x, y) as int, At(in1, f, x - 1, y) as int, At(in1, f, x + 1, y) as int,
                                    At(in1, f, x, y - 1) as int, At(in1, f, x, y + 1) as int)
  {
    CrossIs(f, x, y);
    QuickPixelIs(out1, in0, in1, out0, f, x, y);
    QuickPickAverages(At(in1, f, x - 1, y), At(in1, f, x + 1, y), At(in1, f, x, y - 1), At(in1, f, x, y + 1));
  }

  /** The known pixels are the input's, and those that are neither known nor worked out are what the output held. */
  lemma QuickOtherPixel(f: Frame, in0: seq<Byte>, in1: seq<Byte>, out0: seq<Byte>, out1: seq<Byte>, x: nat, y: nat)
    requires Quick.Interpolated(out1, in0, in1, out0, f) && x < f.width && y < f.height
    requires !(3 <= x < f.width - 4 && 3 <= y < f.height - 4 && x % 2 == 1 && y % 2 == 1)
    requires !(2 <= x < f.width - 3 && 2 <= y < f.height - 3 && (x + y) % 2 == 1)
    ensures At(out1, f, x, y)
         == At(if 2 <= x < f.width - 2 && 2 <= y < f.height - 2 && x % 2 == 0 && y % 2 == 0 then in0 else out0, f, x, y)
  {
    LatticesAre(f, x, y);
    QuickPixelIs(out1, in0, in1, out0, f, x, y);
  }

  /**
   The input afterwards: pixels in odd rows and columns, three from the border, have been copied back
   from the output, worked out or not, and the others are as they were.
   */
  lemma QuickInputPixel(f: Frame, in0: seq<Byte>, in1: seq<Byte>, out0: seq<Byte>, out1: seq<Byte>, x: nat, y: nat)
    requires AllPainted(in1, in0, f, Wanted(f, DIAGONALS), Quick.CopiedBackValues(in0, out0, f))
    requires Quick.Interpolated(out1, in0, in1, out0, f) && x < f.width && y < f.height
    ensures At(in1, f, x, y)
         == At(if 3 <= x < f.width - 3 && 3 <= y < f.height - 3 && x % 2 == 1 && y % 2 == 1 then out1 else in0, f, x, y)
  {
    LatticesAre(f, x, y);
    LatticesApart(f, x, y);
    QuickPixelIs(out1, in0, in1, out0, f, x, y);
    assert Wanted(f, DIAGONALS)(x, y) == OnLattice(f, DIAGONALS, x, y);
  }
}
