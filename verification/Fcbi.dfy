/**
 Fast curve based interpolation of one component of an image. The loops keep the samples around the
 current pixel in registers and slide them along; what they write is what sampling each pixel's
 neighbours directly gives.
 */
module Fcbi {
  import opened Raster
  import Arithmetic

  // ---------------------------------------------------------------- the values, by direct sampling

  function Abs(a: int): nat {
    if a < 0 then -a else a
  }

  /**
   The average of u and v or that of s and t, the two pairs that face each other across the pixel:
   of the pair that differs less where there is an edge, else of the pair along which the brightness
   bends more. The outer sums are those of the four samples beyond each pair.
   */
  function Pick(u: Byte, v: Byte, s: Byte, t: Byte, outerUV: int, outerST: int): (r: Byte)
    ensures r == (u as int + v as int) / 2 || r == (s as int + t as int) / 2
  {
    var p: int, q: int := u as int + v as int, s as int + t as int;
    var du, ds := Abs(u as int - v as int), Abs(s as int - t as int);
    if du > 100 || ds > 100 || Abs(p - q) > 200 then
      if du < ds then p / 2 else q / 2
    else
      if Abs(outerUV - 3 * p + q) > Abs(outerST - 3 * q + p) then p / 2 else q / 2
  }

  /** A pixel between four known ones on its diagonals. */
  function Diagonal(img: seq<Byte>, f: Frame, x: int, y: int): Byte {
    Pick(At(img, f, x - 1, y - 1), At(img, f, x + 1, y + 1), At(img, f, x + 1, y - 1), At(img, f, x - 1, y + 1),
         At(img, f, x - 1, y - 3) as int + At(img, f, x + 3, y + 1) as int
         + At(img, f, x - 3, y - 1) as int + At(img, f, x + 1, y + 3) as int,
         At(img, f, x - 3, y + 1) as int + At(img, f, x + 1, y - 3) as int
         + At(img, f, x - 1, y + 3) as int + At(img, f, x + 3, y - 1) as int)
  }

  /** A pixel between four known ones in its row and column. */
  function Cross(img: seq<Byte>, f: Frame, x: int, y: int): Byte {
    Pick(At(img, f, x - 1, y), At(img, f, x + 1, y), At(img, f, x, y - 1), At(img, f, x, y + 1),
         At(img, f, x - 2, y - 1) as int + At(img, f, x + 2, y - 1) as int
         + At(img, f, x - 2, y + 1) as int + At(img, f, x + 2, y + 1) as int,
         At(img, f, x - 1, y - 2) as int + At(img, f, x - 1, y + 2) as int
         + At(img, f, x + 1, y - 2) as int + At(img, f, x + 1, y + 2) as int)
  }

  // ---------------------------------------------------------------- which pixels

  /** Every second pixel of every second row, from `from` on and `margin` pixels short of the far sides. */
  datatype Lattice = Lattice(from: nat, margin: nat)

  /** The pixels that are known, and those between them. */
  const KNOWN := Lattice(2, 2)
  const DIAGONALS := Lattice(3, 3)

  predicate OnLattice(f: Frame, g: Lattice, x: int, y: int) {
    && g.from <= x < f.width - g.margin && (x - g.from) % 2 == 0
    && g.from <= y < f.height - g.margin && (y - g.from) % 2 == 0
  }

  /** The pixels that are neither on the one lattice nor on the other. */
  predicate OnCross(f: Frame, x: int, y: int) {
    2 <= x < f.width - 3 && 2 <= y < f.height - 3 && (x + y) % 2 == 1
  }

  /** An image with the border of two pixels the interpolation counts on. */
  ghost predicate HasBorder(f: Frame) {
    f.Valid() && f.width >= 5 && f.height >= 5
  }

  // ---------------------------------------------------------------- the loops

  /** Reads through a pointer. */
  method Sample(img: array<Byte>, f: Frame, line: int, ghost x: int, ghost y: int) returns (s: Byte)
    requires f.Valid() && f.Inside(x, y) && line == Pix(f, x, y) && img.Length == f.Size()
    ensures s == At(img[..], f, x, y)
  {
    PixInside(f, x, y);
    s := img[line];
  }

  /** Writes through a pointer the next pixel that is wanted in the row. */
  method Paint(img: array<Byte>, f: Frame, outbyte: int, s: Byte, ghost was: seq<Byte>,
               ghost want: (int, int) -> bool, ghost value: (int, int) -> Byte, ghost x: nat, ghost y: nat, ghost x2: int)
    requires f.Valid() && f.Inside(x, y) && outbyte == Pix(f, x, y) && s == value(x, y)
    requires Painted(img[..], was, f, want, value, x, y)
    requires want(x, y) && x < x2 && forall x0 :: x < x0 < x2 ==> !want(x0, y)
    modifies img
    ensures Painted(img[..], was, f, want, value, x2, y)
  {
    ghost var now := img[..];
    PaintPixel(now, was, f, want, value, x, y, x2);
    img[outbyte] := s;
    assert img[..] == now[outbyte := s];
  }

  ghost function Wanted(f: Frame, g: Lattice): (int, int) -> bool {
    (x, y) => OnLattice(f, g, x, y)
  }

  ghost function Samples(img: seq<Byte>, f: Frame): (int, int) -> Byte {
    (x, y) => At(img, f, x, y)
  }

  /** The row or column of the lattice with number i. */
  function Line(g: Lattice, i: nat): nat {
    g.from + 2 * i
  }

  lemma LatticeLine(f: Frame, g: Lattice, i: nat, j: nat)
    ensures Line(g, i) < f.width - g.margin && Line(g, j) < f.height - g.margin ==> OnLattice(f, g, Line(g, i), Line(g, j))
    ensures !OnLattice(f, g, Line(g, i) + 1, Line(g, j))
    ensures forall x0, y0 :: y0 == Line(g, j) + 1 ==> !OnLattice(f, g, x0, y0)
  {
    Arithmetic.DivModUnique(2 * i, 2, i, 0);
    Arithmetic.DivModUnique(2 * j, 2, j, 0);
    Arithmetic.DivModUnique(2 * i + 1, 2, i, 1);
    Arithmetic.DivModUnique(2 * j + 1, 2, j, 1);
  }

  /** Paints one pixel of the lattice; the next one wanted is two further on. */
  method PaintLattice(img: array<Byte>, f: Frame, g: Lattice, outbyte: int, s: Byte, ghost was: seq<Byte>,
                      ghost value: (int, int) -> Byte, ghost i: nat, ghost j: nat)
    requires f.Valid() && Line(g, i) < f.width - g.margin && Line(g, j) < f.height - g.margin
    requires outbyte == Pix(f, Line(g, i), Line(g, j)) && s == value(Line(g, i), Line(g, j))
    requires Painted(img[..], was, f, Wanted(f, g), value, Line(g, i), Line(g, j))
    modifies img
    ensures Painted(img[..], was, f, Wanted(f, g), value, Line(g, i + 1), Line(g, j))
  {
    LatticeLine(f, g, i, j);
    Paint(img, f, outbyte, s, was, Wanted(f, g), value, Line(g, i), Line(g, j), Line(g, i + 1));
  }

  /** At the end of a row the next pixel wanted is the first one two rows down. */
  lemma LatticeRowEnd(now: seq<Byte>, was: seq<Byte>, f: Frame, g: Lattice, value: (int, int) -> Byte, i: nat, j: nat)
    requires f.Valid() && Painted(now, was, f, Wanted(f, g), value, Line(g, i), Line(g, j))
    requires Line(g, i) >= f.width - g.margin
    ensures Painted(now, was, f, Wanted(f, g), value, g.from, Line(g, j + 1))
  {
    var x, y, y2 := Line(g, i), Line(g, j), Line(g, j + 1);
    LatticeLine(f, g, i, j);
    PaintSkip(now, was, f, Wanted(f, g), value, x, y, g.from, y2);
  }

  method CopyRow(src: array<Byte>, dst: array<Byte>, f: Frame, g: Lattice, y: nat, ghost was: seq<Byte>, ghost j: nat)
    requires f.Valid() && src != dst && src.Length == f.Size() && y == Line(g, j) < f.height - g.margin
    requires Painted(dst[..], was, f, Wanted(f, g), Samples(src[..], f), g.from, y)
    modifies dst
    ensures Painted(dst[..], was, f, Wanted(f, g), Samples(src[..], f), g.from, Line(g, j + 1))
  {
    ghost var img := src[..];
    var p := Pix(f, g.from, y);
    var x := g.from;
    ghost var i := 0;
    while x < f.width - g.margin
      invariant x == Line(g, i) && p == Pix(f, x, y) && src[..] == img
      invariant Painted(dst[..], was, f, Wanted(f, g), Samples(img, f), x, y)
    {
      var s := Sample(src, f, p, x, y);
      PaintLattice(dst, f, g, p, s, was, Samples(img, f), i, j);
      p := p + 8;
      x := x + 2;
      i := i + 1;
    }
    LatticeRowEnd(dst[..], was, f, g, Samples(img, f), i, j);
  }

  /** Copies every second pixel of every second row. */
  method CopyLattice(src: array<Byte>, dst: array<Byte>, f: Frame, g: Lattice)
    requires f.Valid() && src != dst && src.Length == dst.Length == f.Size()
    modifies dst
    ensures AllPainted(dst[..], old(dst[..]), f, Wanted(f, g), Samples(src[..], f))
  {
    ghost var was := dst[..];
    PaintNothing(was, f, Wanted(f, g), Samples(src[..], f), g.from, g.from);
    var y := g.from;
    ghost var j := 0;
    while y < f.height - g.margin
      invariant y == Line(g, j)
      invariant Painted(dst[..], was, f, Wanted(f, g), Samples(src[..], f), g.from, y)
    {
      CopyRow(src, dst, f, g, y, was, j);
      y := y + 2;
      j := j + 1;
    }
    PaintedAll(dst[..], was, f, Wanted(f, g), Samples(src[..], f), g.from, y);
  }

  // ---------------------------------------------------------------- DoFCBI

  ghost function Diagonals(img: seq<Byte>, f: Frame): (int, int) -> Byte {
    (x, y) => Diagonal(img, f, x, y)
  }

  /** The value from the twelve registers. */
  method DiagonalOf(sa: Byte, sb: Byte, sc: Byte, sd: Byte, se: Byte, sf: Byte, sg: Byte, sh: Byte, si: Byte, sj: Byte,
                    sk: Byte, sl: Byte, ghost img: seq<Byte>, ghost f: Frame, ghost x: int, ghost y: int) returns (s: Byte)
    requires sa == At(img, f, x - 1, y - 3) && sb == At(img, f, x + 1, y - 3)
    requires sc == At(img, f, x - 3, y - 1) && sd == At(img, f, x - 1, y - 1)
    requires se == At(img, f, x + 1, y - 1) && sf == At(img, f, x + 3, y - 1)
    requires sg == At(img, f, x - 3, y + 1) && sh == At(img, f, x - 1, y + 1)
    requires si == At(img, f, x + 1, y + 1) && sj == At(img, f, x + 3, y + 1)
    requires sk == At(img, f, x - 1, y + 3) && sl == At(img, f, x + 1, y + 3)
    ensures s == Diagonal(img, f, x, y)
  {
    s := Pick(sd, si, se, sh, sa as int + sj as int + sc as int + sl as int, sg as int + sb as int + sk as int + sf as int);
  }

  /** The registers that slide along, and the four pointers. */
  datatype DiagonalWindow = DiagonalWindow(sa: Byte, sc: Byte, sd: Byte, se: Byte, sg: Byte, sh: Byte, si: Byte, sk: Byte,
                                           line1: int, line2: int, line3: int, line4: int)
  {
    /** The window stands before pixel (x, y): all but the samples on the right have been read. */
    ghost predicate Before(img: seq<Byte>, f: Frame, x: int, y: int) {
      && sa == At(img, f, x - 1, y - 3) && sk == At(img, f, x - 1, y + 3)
      && sc == At(img, f, x - 3, y - 1) && sd == At(img, f, x - 1, y - 1) && se == At(img, f, x + 1, y - 1)
      && sg == At(img, f, x - 3, y + 1) && sh == At(img, f, x - 1, y + 1) && si == At(img, f, x + 1, y + 1)
      && line1 == Pix(f, x + 1, y - 3) && line2 == Pix(f, x + 3, y - 1)
      && line3 == Pix(f, x + 3, y + 1) && line4 == Pix(f, x + 1, y + 3)
    }
  }

  /** Fills the window at the start of a row. */
  method DiagonalStart(inp: array<Byte>, f: Frame, y: nat) returns (w: DiagonalWindow)
    requires HasBorder(f) && inp.Length == f.Size() && 3 <= y < f.height - 3
    ensures w.Before(inp[..], f, 3, y)
  {
    var x := 3;
    var line1, line2, line3, line4 := Pix(f, x - 1, y - 3), Pix(f, x - 3, y - 1), Pix(f, x - 3, y + 1), Pix(f, x - 1, y + 3);
    var sa := Sample(inp, f, line1, x - 1, y - 3);
    var sc := Sample(inp, f, line2, x - 3, y - 1);
    var sd := Sample(inp, f, line2 + 8, x - 1, y - 1);
    var se := Sample(inp, f, line2 + 16, x + 1, y - 1);
    var sg := Sample(inp, f, line3, x - 3, y + 1);
    var sh := Sample(inp, f, line3 + 8, x - 1, y + 1);
    var si := Sample(inp, f, line3 + 16, x + 1, y + 1);
    var sk := Sample(inp, f, line4, x - 1, y + 3);
    w := DiagonalWindow(sa, sc, sd, se, sg, sh, si, sk, line1 + 8, line2 + 24, line3 + 24, line4 + 8);
  }

  /** Reads the samples on the right, works out the pixel's value, and slides the window to the next pixel. */
  method DiagonalSlide(inp: array<Byte>, f: Frame, w: DiagonalWindow, ghost x: nat, ghost y: nat)
    returns (s: Byte, next: DiagonalWindow)
    requires HasBorder(f) && inp.Length == f.Size() && 3 <= x < f.width - 3 && 3 <= y < f.height - 3
    requires w.Before(inp[..], f, x, y)
    ensures s == Diagonal(inp[..], f, x, y) && next.Before(inp[..], f, x + 2, y)
  {
    var sb := Sample(inp, f, w.line1, x + 1, y - 3);
    var sf := Sample(inp, f, w.line2, x + 3, y - 1);
    var sj := Sample(inp, f, w.line3, x + 3, y + 1);
    var sl := Sample(inp, f, w.line4, x + 1, y + 3);
    s := DiagonalOf(w.sa, sb, w.sc, w.sd, w.se, sf, w.sg, w.sh, w.si, sj, w.sk, sl, inp[..], f, x, y);
    next := DiagonalWindow(sb, w.sd, w.se, sf, w.sh, w.si, sj, sl, w.line1 + 8, w.line2 + 8, w.line3 + 8, w.line4 + 8);
  }

  method DiagonalRow(inp: array<Byte>, out: array<Byte>, f: Frame, y: nat, ghost was: seq<Byte>, ghost j: nat)
    requires HasBorder(f) && inp != out && inp.Length == f.Size() && y == Line(DIAGONALS, j) < f.height - 3
    requires Painted(out[..], was, f, Wanted(f, DIAGONALS), Diagonals(inp[..], f), 3, y)
    modifies out
    ensures Painted(out[..], was, f, Wanted(f, DIAGONALS), Diagonals(inp[..], f), 3, Line(DIAGONALS, j + 1))
  {
    ghost var img := inp[..];
    var x: nat := 3;
    ghost var i := 0;
    var w := DiagonalStart(inp, f, y);
    var outbyte := Pix(f, x, y);
    while x < f.width - 3
      invariant x == Line(DIAGONALS, i) && outbyte == Pix(f, x, y) && inp[..] == img
      invariant w.Before(img, f, x, y)
      invariant Painted(out[..], was, f, Wanted(f, DIAGONALS), Diagonals(img, f), x, y)
    {
      var s;
      s, w := DiagonalSlide(inp, f, w, x, y);
      PaintLattice(out, f, DIAGONALS, outbyte, s, was, Diagonals(img, f), i, j);
      outbyte := outbyte + 8;
      x := x + 2;
      i := i + 1;
    }
    LatticeRowEnd(out[..], was, f, DIAGONALS, Diagonals(img, f), i, j);
  }

  method DiagonalPass(inp: array<Byte>, out: array<Byte>, f: Frame)
    requires HasBorder(f) && inp != out && inp.Length == out.Length == f.Size()
    modifies out
    ensures AllPainted(out[..], old(out[..]), f, Wanted(f, DIAGONALS), Diagonals(inp[..], f))
  {
    ghost var was := out[..];
    PaintNothing(was, f, Wanted(f, DIAGONALS), Diagonals(inp[..], f), 3, 3);
    var y := 3;
    ghost var j := 0;
    while y < f.height - 3
      invariant y == Line(DIAGONALS, j)
      invariant Painted(out[..], was, f, Wanted(f, DIAGONALS), Diagonals(inp[..], f), 3, y)
    {
      DiagonalRow(inp, out, f, y, was, j);
      y := y + 2;
      j := j + 1;
    }
    PaintedAll(out[..], was, f, Wanted(f, DIAGONALS), Diagonals(inp[..], f), 3, y);
  }

  // ---------------------------------------------------------------- the second pass

  ghost function OffLattice(f: Frame): (int, int) -> bool {
    (x, y) => OnCross(f, x, y)
  }

  ghost function Crosses(img: seq<Byte>, f: Frame): (int, int) -> Byte {
    (x, y) => Cross(img, f, x, y)
  }

  /** Where the wanted pixels of a row start. */
  function CrossStart(y: nat): (x: nat)
    ensures 2 <= x <= 3
  {
    if y % 2 == 0 then 3 else 2
  }

  /** Finds the start of a row, and whether the row is an even one. */
  method StartOf(y: nat) returns (x: nat, ghost even: bool)
    ensures x == CrossStart(y) == CrossColumn(even, 0) && even == IsEven(y)
  {
    x := (y + 1) % 2 + 2;
    even := y % 2 == 0;
  }

  predicate IsEven(y: int) {
    y % 2 == 0
  }

  /** The wanted column with number i of an even or an odd row. */
  function CrossColumn(even: bool, i: nat): nat {
    (if even then 3 else 2) + 2 * i
  }

  lemma CrossPlace(f: Frame, y: nat, even: bool, i: nat)
    requires 2 <= y < f.height - 3 && even == IsEven(y)
    ensures CrossColumn(even, i) < f.width - 3 ==> OnCross(f, CrossColumn(even, i), y)
    ensures !OnCross(f, CrossColumn(even, i) + 1, y)
  {
    var x, h := CrossColumn(even, i), CrossColumn(even, 0);
    assert (h + y) % 2 == 1;
    Arithmetic.DivModUnique(x + y, 2, (h + y - 1) / 2 + i, 1);
    Arithmetic.DivModUnique(x + 1 + y, 2, (h + y + 1) / 2 + i, 0);
  }

  /** Paints one pixel of the second pass. */
  method PaintCross(img: array<Byte>, f: Frame, outbyte: int, s: Byte, ghost was: seq<Byte>,
                    ghost value: (int, int) -> Byte, ghost even: bool, ghost i: nat, ghost y: nat)
    requires f.Valid() && even == IsEven(y) && CrossColumn(even, i) < f.width - 3 && 2 <= y < f.height - 3
    requires outbyte == Pix(f, CrossColumn(even, i), y) && s == value(CrossColumn(even, i), y)
    requires Painted(img[..], was, f, OffLattice(f), value, CrossColumn(even, i), y)
    modifies img
    ensures Painted(img[..], was, f, OffLattice(f), value, CrossColumn(even, i + 1), y)
  {
    CrossPlace(f, y, even, i);
    Paint(img, f, outbyte, s, was, OffLattice(f), value, CrossColumn(even, i), y, CrossColumn(even, i + 1));
  }

  lemma CrossRowEnd(now: seq<Byte>, was: seq<Byte>, f: Frame, value: (int, int) -> Byte, even: bool, i: nat, y: nat)
    requires f.Valid() && Painted(now, was, f, OffLattice(f), value, CrossColumn(even, i), y)
    requires CrossColumn(even, i) >= f.width - 3 && y >= 2
    ensures Painted(now, was, f, OffLattice(f), value, CrossStart(y + 1), y + 1)
  {
    var x, x2 := CrossColumn(even, i), CrossStart(y + 1);
    assert x2 == 3 ==> !OnCross(f, 2, y + 1);
    PaintSkip(now, was, f, OffLattice(f), value, x, y, x2, y + 1);
  }

  datatype CrossWindow = CrossWindow(sa: Byte, sc: Byte, sd: Byte, sf: Byte, sh: Byte, si: Byte, sk: Byte,
                                     line1: int, line2: int, line3: int, line4: int, line5: int)
  {
    ghost predicate Before(img: seq<Byte>, f: Frame, x: int, y: int) {
      && sa == At(img, f, x - 1, y - 2) && sc == At(img, f, x - 2, y - 1) && sd == At(img, f, x, y - 1)
      && sf == At(img, f, x - 1, y) && sh == At(img, f, x - 2, y + 1) && si == At(img, f, x, y + 1)
      && sk == At(img, f, x - 1, y + 2)
      && line1 == Pix(f, x + 1, y - 2) && line2 == Pix(f, x + 2, y - 1) && line3 == Pix(f, x + 1, y)
      && line4 == Pix(f, x + 2, y + 1) && line5 == Pix(f, x + 1, y + 2)
    }
  }

  method CrossStartWindow(inp: array<Byte>, f: Frame, x: nat, y: nat) returns (w: CrossWindow)
    requires HasBorder(f) && inp.Length == f.Size() && 2 <= x <= 3 && 2 <= y < f.height - 3
    ensures w.Before(inp[..], f, x, y)
  {
    var line1, line2, line3 := Pix(f, x - 1, y - 2), Pix(f, x - 2, y - 1), Pix(f, x - 1, y);
    var line4, line5 := Pix(f, x - 2, y + 1), Pix(f, x - 1, y + 2);
    var sa := Sample(inp, f, line1, x - 1, y - 2);
    var sc := Sample(inp, f, line2, x - 2, y - 1);
    var sd := Sample(inp, f, line2 + 8, x, y - 1);
    var sf := Sample(inp, f, line3, x - 1, y);
    var sh := Sample(inp, f, line4, x - 2, y + 1);
    var si := Sample(inp, f, line4 + 8, x, y + 1);
    var sk := Sample(inp, f, line5, x - 1, y + 2);
    w := CrossWindow(sa, sc, sd, sf, sh, si, sk, line1 + 8, line2 + 16, line3 + 8, line4 + 16, line5 + 8);
  }

  method CrossOf(sa: Byte, sb: Byte, sc: Byte, sd: Byte, se: Byte, sf: Byte, sg: Byte, sh: Byte, si: Byte, sj: Byte,
                 sk: Byte, sl: Byte, ghost img: seq<Byte>, ghost f: Frame, ghost x: int, ghost y: int) returns (s: Byte)
    requires sa == At(img, f, x - 1, y - 2) && sb == At(img, f, x + 1, y - 2)
    requires sc == At(img, f, x - 2, y - 1) && sd == At(img, f, x, y - 1) && se == At(img, f, x + 2, y - 1)
    requires sf == At(img, f, x - 1, y) && sg == At(img, f, x + 1, y)
    requires sh == At(img, f, x - 2, y + 1) && si == At(img, f, x, y + 1) && sj == At(img, f, x + 2, y + 1)
    requires sk == At(img, f, x - 1, y + 2) && sl == At(img, f, x + 1, y + 2)
    ensures s == Cross(img, f, x, y)
  {
    s := Pick(sf, sg, sd, si, sc as int + se as int + sh as int + sj as int, sa as int + sk as int + sb as int + sl as int);
  }

  method CrossSlide(inp: array<Byte>, f: Frame, w: CrossWindow, ghost x: nat, ghost y: nat)
    returns (s: Byte, next: CrossWindow)
    requires HasBorder(f) && inp.Length == f.Size() && 2 <= x < f.width - 3 && 2 <= y < f.height - 3
    requires w.Before(inp[..], f, x, y)
    ensures s == Cross(inp[..], f, x, y) && next.Before(inp[..], f, x + 2, y)
  {
    var sb := Sample(inp, f, w.line1, x + 1, y - 2);
    var se := Sample(inp, f, w.line2, x + 2, y - 1);
    var sg := Sample(inp, f, w.line3, x + 1, y);
    var sj := Sample(inp, f, w.line4, x + 2, y + 1);
    var sl := Sample(inp, f, w.line5, x + 1, y + 2);
    s := CrossOf(w.sa, sb, w.sc, w.sd, se, w.sf, sg, w.sh, w.si, sj, w.sk, sl, inp[..], f, x, y);
    next := CrossWindow(sb, w.sd, se, sg, w.si, sj, sl,
                        w.line1 + 8, w.line2 + 8, w.line3 + 8, w.line4 + 8, w.line5 + 8);
  }

  /** The loop over a row, from its first wanted column on. */
  method CrossColumns(inp: array<Byte>, out: array<Byte>, f: Frame, first: nat, y: nat, ghost was: seq<Byte>, ghost even: bool)
    returns (ghost i: nat)
    requires HasBorder(f) && inp != out && inp.Length == f.Size() && 2 <= y < f.height - 3 && even == IsEven(y)
    requires first == CrossColumn(even, 0)
    requires Painted(out[..], was, f, OffLattice(f), Crosses(inp[..], f), first, y)
    modifies out
    ensures CrossColumn(even, i) >= f.width - 3
    ensures Painted(out[..], was, f, OffLattice(f), Crosses(inp[..], f), CrossColumn(even, i), y)
  {
    ghost var img := inp[..];
    var x := first;
    i := 0;
    var w := CrossStartWindow(inp, f, x, y);
    var outbyte := Pix(f, x, y);
    while x < f.width - 3
      invariant x == CrossColumn(even, i) && outbyte == Pix(f, x, y) && inp[..] == img
      invariant w.Before(img, f, x, y)
      invariant Painted(out[..], was, f, OffLattice(f), Crosses(img, f), x, y)
    {
      var s;
      s, w := CrossSlide(inp, f, w, x, y);
      PaintCross(out, f, outbyte, s, was, Crosses(img, f), even, i, y);
      outbyte := outbyte + 8;
      x := x + 2;
      i := i + 1;
    }
  }

  method CrossRow(inp: array<Byte>, out: array<Byte>, f: Frame, y: nat, ghost was: seq<Byte>)
    requires HasBorder(f) && inp != out && inp.Length == f.Size() && 2 <= y < f.height - 3
    requires Painted(out[..], was, f, OffLattice(f), Crosses(inp[..], f), CrossStart(y), y)
    modifies out
    ensures Painted(out[..], was, f, OffLattice(f), Crosses(inp[..], f), CrossStart(y + 1), y + 1)
  {
    var x: nat;
    ghost var even;
    x, even := StartOf(y);
    ghost var i := CrossColumns(inp, out, f, x, y, was, even);
    CrossRowEnd(out[..], was, f, Crosses(inp[..], f), even, i, y);
  }

  lemma CrossNothing(was: seq<Byte>, f: Frame, value: (int, int) -> Byte)
    requires f.Valid() && |was| == f.Size()
    ensures Painted(was, was, f, OffLattice(f), value, CrossStart(2), 2)
  {
    assert !OnCross(f, 2, 2);
    PaintNothing(was, f, OffLattice(f), value, CrossStart(2), 2);
  }

  lemma CrossAll(now: seq<Byte>, was: seq<Byte>, f: Frame, value: (int, int) -> Byte, y: nat)
    requires f.Valid() && y >= f.height - 3 && Painted(now, was, f, OffLattice(f), value, CrossStart(y), y)
    ensures AllPainted(now, was, f, OffLattice(f), value)
  {
    PaintedAll(now, was, f, OffLattice(f), value, CrossStart(y), y);
  }

  method CrossPass(inp: array<Byte>, out: array<Byte>, f: Frame)
    requires HasBorder(f) && inp != out && inp.Length == out.Length == f.Size()
    modifies out
    ensures AllPainted(out[..], old(out[..]), f, OffLattice(f), Crosses(inp[..], f))
  {
    ghost var was := out[..];
    CrossNothing(was, f, Crosses(inp[..], f));
    var y := 2;
    while y < f.height - 3
      invariant 2 <= y
      invariant Painted(out[..], was, f, OffLattice(f), Crosses(inp[..], f), CrossStart(y), y)
    {
      CrossRow(inp, out, f, y, was);
      y := y + 1;
    }
    CrossAll(out[..], was, f, Crosses(inp[..], f), y);
  }

  // ---------------------------------------------------------------- the whole

  /** Copying back what is wanted anyway from an image that has the values gives them their place. */
  lemma CopiedBack(now: seq<Byte>, was: seq<Byte>, from: seq<Byte>, fromWas: seq<Byte>, f: Frame, value: (int, int) -> Byte)
    requires AllPainted(now, was, f, Wanted(f, DIAGONALS), Samples(from, f))
    requires AllPainted(from, fromWas, f, Wanted(f, DIAGONALS), value)
    ensures AllPainted(now, was, f, Wanted(f, DIAGONALS), value)
  {
  }

  /** What the interpolation leaves at (x, y). */
  function Expected(in0: seq<Byte>, in1: seq<Byte>, out0: seq<Byte>, f: Frame, x: int, y: int): Byte {
    if OnLattice(f, KNOWN, x, y) then At(in0, f, x, y)
    else if OnLattice(f, DIAGONALS, x, y) then Diagonal(in0, f, x, y)
    else if OnCross(f, x, y) then Cross(in1, f, x, y)
    else At(out0, f, x, y)
  }

  /** Every pixel has its value, and the other components are as they were. */
  ghost predicate Interpolated(out: seq<Byte>, in0: seq<Byte>, in1: seq<Byte>, out0: seq<Byte>, f: Frame) {
    && |out| == |out0| == f.Size()
    && (forall x: nat, y: nat :: f.Inside(x, y) ==> At(out, f, x, y) == Expected(in0, in1, out0, f, x, y))
    && (forall k: nat :: k < |out| && k % 4 != f.component ==> out[k] == out0[k])
  }

  lemma LatticesApart(f: Frame, x: int, y: int)
    ensures OnLattice(f, KNOWN, x, y) ==> !OnLattice(f, DIAGONALS, x, y) && !OnCross(f, x, y)
    ensures OnLattice(f, DIAGONALS, x, y) ==> !OnCross(f, x, y)
  {
  }

  lemma Composed(out: seq<Byte>, out2: seq<Byte>, out1: seq<Byte>, out0: seq<Byte>, in0: seq<Byte>, in1: seq<Byte>, f: Frame)
    requires AllPainted(out1, out0, f, Wanted(f, KNOWN), Samples(in0, f))
    requires AllPainted(out2, out1, f, Wanted(f, DIAGONALS), Diagonals(in0, f))
    requires AllPainted(out, out2, f, OffLattice(f), Crosses(in1, f))
    ensures Interpolated(out, in0, in1, out0, f)
  {
    forall x: nat, y: nat | f.Inside(x, y)
      ensures At(out, f, x, y) == Expected(in0, in1, out0, f, x, y)
    {
      LatticesApart(f, x, y);
      assert OffLattice(f)(x, y) == OnCross(f, x, y);
      assert Wanted(f, KNOWN)(x, y) == OnLattice(f, KNOWN, x, y);
      assert Wanted(f, DIAGONALS)(x, y) == OnLattice(f, DIAGONALS, x, y);
    }
  }

  /**
   DoFCBI: the first pass's pixels have their values in both images, and the second pass's are worked
   out from the first image as it is then. Nothing else changes.
   */
  method DoFCBI(inp: array<Byte>, out: array<Byte>, f: Frame)
    requires HasBorder(f) && inp != out && inp.Length == out.Length == f.Size()
    modifies inp, out
    ensures AllPainted(inp[..], old(inp[..]), f, Wanted(f, DIAGONALS), Diagonals(old(inp[..]), f))
    ensures Interpolated(out[..], old(inp[..]), inp[..], old(out[..]), f)
  {
    ghost var in0, out0 := inp[..], out[..];
    CopyLattice(inp, out, f, KNOWN);
    ghost var out1 := out[..];
    DiagonalPass(inp, out, f);
    ghost var out2 := out[..];
    CopyLattice(out, inp, f, DIAGONALS);
    CopiedBack(inp[..], in0, out2, out1, f, Diagonals(in0, f));
    CrossPass(inp, out, f);
    Composed(out[..], out2, out1, out0, in0, inp[..], f);
  }
}
