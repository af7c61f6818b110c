/**
 The quick variant of the interpolation, which looks at four neighbours only. Its first pass stops one
 pixel earlier than the copying back of that pass's pixels.
 */
module FcbiQuick {
  import opened Raster
  import opened Fcbi

  /** The average of the pair that differs less; of the second pair if they differ alike. */
  function QuickPick(u: Byte, v: Byte, s: Byte, t: Byte): Byte {
    var p: int, q: int := u as int + v as int, s as int + t as int;
    if Abs(u as int - v as int) < Abs(s as int - t as int) then p / 2 else q / 2
  }

  function QuickDiagonal(img: seq<Byte>, f: Frame, x: int, y: int): Byte {
    QuickPick(At(img, f, x - 1, y - 1), At(img, f, x + 1, y + 1), At(img, f, x + 1, y - 1), At(img, f, x - 1, y + 1))
  }

  function QuickCross(img: seq<Byte>, f: Frame, x: int, y: int): Byte {
    QuickPick(At(img, f, x - 1, y), At(img, f, x + 1, y), At(img, f, x, y - 1), At(img, f, x, y + 1))
  }

  ghost function QuickDiagonals(img: seq<Byte>, f: Frame): (int, int) -> Byte {
    (x, y) => QuickDiagonal(img, f, x, y)
  }

  ghost function QuickCrosses(img: seq<Byte>, f: Frame): (int, int) -> Byte {
    (x, y) => QuickCross(img, f, x, y)
  }

  /** The pixels the first pass works out. */
  const INNER := Lattice(3, 4)

  // ---------------------------------------------------------------- the first pass

  datatype QuickDiagonalWindow = QuickDiagonalWindow(sd: Byte, sh: Byte, line2: int, line3: int) {
    ghost predicate Before(img: seq<Byte>, f: Frame, x: int, y: int) {
      && sd == At(img, f, x - 1, y - 1) && sh == At(img, f, x - 1, y + 1)
      && line2 == Pix(f, x + 1, y - 1) && line3 == Pix(f, x + 1, y + 1)
    }
  }

  method QuickDiagonalSlide(inp: array<Byte>, f: Frame, w: QuickDiagonalWindow, ghost x: nat, ghost y: nat)
    returns (s: Byte, next: QuickDiagonalWindow)
    requires HasBorder(f) && inp.Length == f.Size() && 3 <= x < f.width - 4 && 3 <= y < f.height - 4
    requires w.Before(inp[..], f, x, y)
    ensures s == QuickDiagonal(inp[..], f, x, y) && next.Before(inp[..], f, x + 2, y)
  {
    var se := Sample(inp, f, w.line2, x + 1, y - 1);
    var si := Sample(inp, f, w.line3, x + 1, y + 1);
    s := QuickPick(w.sd, si, se, w.sh);
    next := QuickDiagonalWindow(se, si, w.line2 + 8, w.line3 + 8);
  }

  method QuickDiagonalRow(inp: array<Byte>, out: array<Byte>, f: Frame, y: nat, ghost was: seq<Byte>, ghost j: nat)
    requires HasBorder(f) && inp != out && inp.Length == f.Size() && y == Line(INNER, j) < f.height - 4
    requires Painted(out[..], was, f, Wanted(f, INNER), QuickDiagonals(inp[..], f), 3, y)
    modifies out
    ensures Painted(out[..], was, f, Wanted(f, INNER), QuickDiagonals(inp[..], f), 3, Line(INNER, j + 1))
  {
    ghost var img := inp[..];
    var x: nat := 3;
    ghost var i := 0;
    var line2, line3 := Pix(f, x - 1, y - 1), Pix(f, x - 1, y + 1);
    var sd := Sample(inp, f, line2, x - 1, y - 1);
    var sh := Sample(inp, f, line3, x - 1, y + 1);
    var w := QuickDiagonalWindow(sd, sh, line2 + 8, line3 + 8);
    var outbyte := Pix(f, x, y);
    while x < f.width - 4
      invariant x == Line(INNER, i) && outbyte == Pix(f, x, y) && inp[..] == img
      invariant w.Before(img, f, x, y)
      invariant Painted(out[..], was, f, Wanted(f, INNER), QuickDiagonals(img, f), x, y)
    {
      var s;
      s, w := QuickDiagonalSlide(inp, f, w, x, y);
      PaintLattice(out, f, INNER, outbyte, s, was, QuickDiagonals(img, f), i, j);
      outbyte := outbyte + 8;
      x := x + 2;
      i := i + 1;
    }
    LatticeRowEnd(out[..], was, f, INNER, QuickDiagonals(img, f), i, j);
  }

  method QuickDiagonalPass(inp: array<Byte>, out: array<Byte>, f: Frame)
    requires HasBorder(f) && inp != out && inp.Length == out.Length == f.Size()
    modifies out
    ensures AllPainted(out[..], old(out[..]), f, Wanted(f, INNER), QuickDiagonals(inp[..], f))
  {
    ghost var was := out[..];
    PaintNothing(was, f, Wanted(f, INNER), QuickDiagonals(inp[..], f), 3, 3);
    var y := 3;
    ghost var j := 0;
    while y < f.height - 4
      invariant y == Line(INNER, j)
      invariant Painted(out[..], was, f, Wanted(f, INNER), QuickDiagonals(inp[..], f), 3, y)
    {
      QuickDiagonalRow(inp, out, f, y, was, j);
      y := y + 2;
      j := j + 1;
    }
    PaintedAll(out[..], was, f, Wanted(f, INNER), QuickDiagonals(inp[..], f), 3, y);
  }

  // ---------------------------------------------------------------- the second pass

  datatype QuickCrossWindow = QuickCrossWindow(sf: Byte, line2: int, line3: int, line4: int) {
    ghost predicate Before(img: seq<Byte>, f: Frame, x: int, y: int) {
      && sf == At(img, f, x - 1, y)
      && line2 == Pix(f, x, y - 1) && line3 == Pix(f, x + 1, y) && line4 == Pix(f, x, y + 1)
    }
  }

  method QuickCrossSlide(inp: array<Byte>, f: Frame, w: QuickCrossWindow, ghost x: nat, ghost y: nat)
    returns (s: Byte, next: QuickCrossWindow)
    requires HasBorder(f) && inp.Length == f.Size() && 2 <= x < f.width - 3 && 2 <= y < f.height - 3
    requires w.Before(inp[..], f, x, y)
    ensures s == QuickCross(inp[..], f, x, y) && next.Before(inp[..], f, x + 2, y)
  {
    var sd := Sample(inp, f, w.line2, x, y - 1);
    var sg := Sample(inp, f, w.line3, x + 1, y);
    var si := Sample(inp, f, w.line4, x, y + 1);
    s := QuickPick(w.sf, sg, sd, si);
    next := QuickCrossWindow(sg, w.line2 + 8, w.line3 + 8, w.line4 + 8);
  }

  method QuickCrossColumns(inp: array<Byte>, out: array<Byte>, f: Frame, first: nat, y: nat, ghost was: seq<Byte>, ghost even: bool)
    returns (ghost i: nat)
    requires HasBorder(f) && inp != out && inp.Length == f.Size() && 2 <= y < f.height - 3 && even == IsEven(y)
    requires first == CrossColumn(even, 0)
    requires Painted(out[..], was, f, OffLattice(f), QuickCrosses(inp[..], f), first, y)
    modifies out
    ensures CrossColumn(even, i) >= f.width - 3
    ensures Painted(out[..], was, f, OffLattice(f), QuickCrosses(inp[..], f), CrossColumn(even, i), y)
  {
    ghost var img := inp[..];
    var x := first;
    i := 0;
    var sf := Sample(inp, f, Pix(f, x - 1, y), x - 1, y);
    var w := QuickCrossWindow(sf, Pix(f, x, y - 1), Pix(f, x + 1, y), Pix(f, x, y + 1));
    var outbyte := Pix(f, x, y);
    while x < f.width - 3
      invariant x == CrossColumn(even, i) && outbyte == Pix(f, x, y) && inp[..] == img
      invariant w.Before(img, f, x, y)
      invariant Painted(out[..], was, f, OffLattice(f), QuickCrosses(img, f), x, y)
    {
      var s;
      s, w := QuickCrossSlide(inp, f, w, x, y);
      PaintCross(out, f, outbyte, s, was, QuickCrosses(img, f), even, i, y);
      outbyte := outbyte + 8;
      x := x + 2;
      i := i + 1;
    }
  }

  method QuickCrossRow(inp: array<Byte>, out: array<Byte>, f: Frame, y: nat, ghost was: seq<Byte>)
    requires HasBorder(f) && inp != out && inp.Length == f.Size() && 2 <= y < f.height - 3
    requires Painted(out[..], was, f, OffLattice(f), QuickCrosses(inp[..], f), CrossStart(y), y)
    modifies out
    ensures Painted(out[..], was, f, OffLattice(f), QuickCrosses(inp[..], f), CrossStart(y + 1), y + 1)
  {
    var x: nat;
    ghost var even;
    x, even := StartOf(y);
    ghost var i := QuickCrossColumns(inp, out, f, x, y, was, even);
    CrossRowEnd(out[..], was, f, QuickCrosses(inp[..], f), even, i, y);
  }

  method QuickCrossPass(inp: array<Byte>, out: array<Byte>, f: Frame)
    requires HasBorder(f) && inp != out && inp.Length == out.Length == f.Size()
    modifies out
    ensures AllPainted(out[..], old(out[..]), f, OffLattice(f), QuickCrosses(inp[..], f))
  {
    ghost var was := out[..];
    CrossNothing(was, f, QuickCrosses(inp[..], f));
    var y := 2;
    while y < f.height - 3
      invariant 2 <= y
      invariant Painted(out[..], was, f, OffLattice(f), QuickCrosses(inp[..], f), CrossStart(y), y)
    {
      QuickCrossRow(inp, out, f, y, was);
      y := y + 1;
    }
    CrossAll(out[..], was, f, QuickCrosses(inp[..], f), y);
  }

  // ---------------------------------------------------------------- the whole

  /** What is copied back: the values worked out, and, where there are none, what the output held. */
  ghost function CopiedBackValues(in0: seq<Byte>, out0: seq<Byte>, f: Frame): (int, int) -> Byte {
    (x, y) => if OnLattice(f, INNER, x, y) then QuickDiagonal(in0, f, x, y) else At(out0, f, x, y)
  }

  function Expected(in0: seq<Byte>, in1: seq<Byte>, out0: seq<Byte>, f: Frame, x: int, y: int): Byte {
    if OnLattice(f, KNOWN, x, y) then At(in0, f, x, y)
    else if OnLattice(f, INNER, x, y) then QuickDiagonal(in0, f, x, y)
    else if OnCross(f, x, y) then QuickCross(in1, f, x, y)
    else At(out0, f, x, y)
  }

  ghost predicate Interpolated(out: seq<Byte>, in0: seq<Byte>, in1: seq<Byte>, out0: seq<Byte>, f: Frame) {
    && |out| == |out0| == f.Size()
    && (forall x: nat, y: nat :: f.Inside(x, y) ==> At(out, f, x, y) == Expected(in0, in1, out0, f, x, y))
    && (forall k: nat :: k < |out| && k % 4 != f.component ==> out[k] == out0[k])
  }

  lemma InnerIsDiagonal(f: Frame, x: int, y: int)
    ensures OnLattice(f, INNER, x, y) ==> OnLattice(f, DIAGONALS, x, y)
  {
  }

  lemma Copied(in1: seq<Byte>, in0: seq<Byte>, out2: seq<Byte>, out1: seq<Byte>, out0: seq<Byte>, f: Frame)
    requires AllPainted(out1, out0, f, Wanted(f, KNOWN), Samples(in0, f))
    requires AllPainted(out2, out1, f, Wanted(f, INNER), QuickDiagonals(in0, f))
    requires AllPainted(in1, in0, f, Wanted(f, DIAGONALS), Samples(out2, f))
    ensures AllPainted(in1, in0, f, Wanted(f, DIAGONALS), CopiedBackValues(in0, out0, f))
  {
    forall x: nat, y: nat | f.Inside(x, y) && OnLattice(f, DIAGONALS, x, y)
      ensures At(in1, f, x, y) == CopiedBackValues(in0, out0, f)(x, y)
    {
      LatticesApart(f, x, y);
      assert Wanted(f, DIAGONALS)(x, y) && !Wanted(f, KNOWN)(x, y);
      assert Wanted(f, INNER)(x, y) == OnLattice(f, INNER, x, y);
    }
  }

  lemma Composed(out: seq<Byte>, out2: seq<Byte>, out1: seq<Byte>, out0: seq<Byte>, in0: seq<Byte>, in1: seq<Byte>, f: Frame)
    requires AllPainted(out1, out0, f, Wanted(f, KNOWN), Samples(in0, f))
    requires AllPainted(out2, out1, f, Wanted(f, INNER), QuickDiagonals(in0, f))
    requires AllPainted(out, out2, f, OffLattice(f), QuickCrosses(in1, f))
    ensures Interpolated(out, in0, in1, out0, f)
  {
    forall x: nat, y: nat | f.Inside(x, y)
      ensures At(out, f, x, y) == Expected(in0, in1, out0, f, x, y)
    {
      LatticesApart(f, x, y);
      InnerIsDiagonal(f, x, y);
      assert OffLattice(f)(x, y) == OnCross(f, x, y);
      assert Wanted(f, KNOWN)(x, y) == OnLattice(f, KNOWN, x, y);
      assert Wanted(f, INNER)(x, y) == OnLattice(f, INNER, x, y);
    }
  }

  /** DoFCBIQuick: as DoFCBI, but pixels copied back beyond the first pass are what the output held before. */
  method DoFCBIQuick(inp: array<Byte>, out: array<Byte>, f: Frame)
    requires HasBorder(f) && inp != out && inp.Length == out.Length == f.Size()
    modifies inp, out
    ensures AllPainted(inp[..], old(inp[..]), f, Wanted(f, DIAGONALS), CopiedBackValues(old(inp[..]), old(out[..]), f))
    ensures Interpolated(out[..], old(inp[..]), inp[..], old(out[..]), f)
  {
    ghost var in0, out0 := inp[..], out[..];
    CopyLattice(inp, out, f, KNOWN);
    ghost var out1 := out[..];
    QuickDiagonalPass(inp, out, f);
    ghost var out2 := out[..];
    CopyLattice(out, inp, f, DIAGONALS);
    Copied(inp[..], in0, out2, out1, out0, f);
    QuickCrossPass(inp, out, f);
    Composed(out[..], out2, out1, out0, in0, inp[..], f);
  }

  /** The two passes cover the same pixels exactly if the image's sides are even, or it is too small to matter. */
  lemma RangesAgreeIff(f: Frame)
    ensures (forall x: int, y: int :: OnLattice(f, DIAGONALS, x, y) ==> OnLattice(f, INNER, x, y)) <==> RangesAgree(f)
  {
    if !RangesAgree(f) {
      var x, y := Missed(f);
      assert OnLattice(f, DIAGONALS, x, y) && !OnLattice(f, INNER, x, y);
    }
  }

  predicate RangesAgree(f: Frame) {
    f.width < 7 || f.height < 7 || (f.width % 2 == 0 && f.height % 2 == 0)
  }

  /** A pixel that is copied back, but not worked out. */
  lemma Missed(f: Frame) returns (x: nat, y: nat)
    requires !RangesAgree(f)
    ensures OnLattice(f, DIAGONALS, x, y) && !OnLattice(f, INNER, x, y) && f.Inside(x, y)
  {
    if f.width % 2 == 1 {
      return f.width - 4, 3;
    }
    return 3, f.height - 4;
  }

  /** The pixels between the known ones have the values that direct sampling of the input gives. */
  ghost predicate DirectDiagonals(f: Frame, in0: seq<Byte>, out: seq<Byte>) {
    forall x: nat, y: nat :: f.Inside(x, y) && OnLattice(f, DIAGONALS, x, y) ==>
      At(out, f, x, y) == QuickDiagonal(in0, f, x, y)
  }

  /**
   Where the ranges agree, every result is that of direct sampling: the pixels between the known ones
   sample the input, and the others sample the input completed by those.
   */
  lemma DirectIfRangesAgree(f: Frame, out: seq<Byte>, in0: seq<Byte>, in1: seq<Byte>, out0: seq<Byte>)
    requires AllPainted(in1, in0, f, Wanted(f, DIAGONALS), CopiedBackValues(in0, out0, f))
    requires RangesAgree(f) && Interpolated(out, in0, in1, out0, f)
    ensures DirectDiagonals(f, in0, out)
    ensures AllPainted(in1, in0, f, Wanted(f, DIAGONALS), QuickDiagonals(in0, f))
    ensures forall x: nat, y: nat :: f.Inside(x, y) && OnCross(f, x, y) ==> At(out, f, x, y) == QuickCross(in1, f, x, y)
  {
    RangesAgreeIff(f);
    forall x: nat, y: nat | f.Inside(x, y) && OnLattice(f, DIAGONALS, x, y)
      ensures At(out, f, x, y) == QuickDiagonal(in0, f, x, y)
      ensures CopiedBackValues(in0, out0, f)(x, y) == QuickDiagonals(in0, f)(x, y)
    {
      LatticesApart(f, x, y);
    }
    forall x: nat, y: nat | f.Inside(x, y) && OnCross(f, x, y)
      ensures At(out, f, x, y) == QuickCross(in1, f, x, y)
    {
      LatticesApart(f, x, y);
      InnerIsDiagonal(f, x, y);
    }
  }

  /** Where they do not, a black image over an output that was white before shows it. */
  method StaleOtherwise(f: Frame) returns (inp: array<Byte>, out: array<Byte>)
    requires HasBorder(f) && !RangesAgree(f)
    ensures !DirectDiagonals(f, seq(f.Size(), _ => 0), out[..])
  {
    inp, out := new Byte[f.Size()](_ => 0), new Byte[f.Size()](_ => 255);
    ghost var black, white := seq<Byte>(f.Size(), _ => 0), seq<Byte>(f.Size(), _ => 255);
    assert inp[..] == black && out[..] == white;
    DoFCBIQuick(inp, out, f);
    ghost var x, y := Missed(f);
    LatticesApart(f, x, y);
    PixInside(f, x, y);
    assert At(white, f, x, y) == 255;
    assert QuickDiagonal(black, f, x, y) == 0;
  }
}
