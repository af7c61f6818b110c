/**
 A byte image of four components per pixel, of which one is worked on, and what it means to have
 painted some of its pixels in the order of the rows.
 */
module Raster {
  import Arithmetic

  type Byte = Arithmetic.Byte

  datatype Frame = Frame(width: nat, height: nat, component: nat) {
    ghost predicate Valid() {
      width > 0 && component < 4
    }

    function Size(): nat {
      Arithmetic.MulNonNegative(height, width);
      height * width * 4
    }

    predicate Inside(x: int, y: int) {
      0 <= x < width && 0 <= y < height
    }
  }

  /** Where the component of pixel (x, y) lies. */
  function Pix(f: Frame, x: int, y: int): int {
    (y * f.width + x) * 4 + f.component
  }

  function X(f: Frame, k: nat): (x: nat)
    requires f.width > 0
    ensures x < f.width
  {
    (k / 4) % f.width
  }

  function Y(f: Frame, k: nat): nat
    requires f.width > 0
  {
    (k / 4) / f.width
  }

  lemma PixInside(f: Frame, x: int, y: int)
    requires f.Valid() && f.Inside(x, y)
    ensures 0 <= Pix(f, x, y) < f.Size()
  {
    Arithmetic.MulNonNegative(y, f.width);
    Arithmetic.MulMonotone(f.width, y + 1, f.height);
    Arithmetic.MulSucc(f.width, y);
    Arithmetic.Commute(y, f.width);
    Arithmetic.Commute(f.height, f.width);
  }

  lemma CoordinatesOfPix(f: Frame, x: nat, y: nat)
    requires f.Valid() && x < f.width
    ensures Pix(f, x, y) >= 0 && Pix(f, x, y) % 4 == f.component
    ensures X(f, Pix(f, x, y)) == x && Y(f, Pix(f, x, y)) == y
  {
    Arithmetic.MulNonNegative(y, f.width);
    Arithmetic.DivModUnique(Pix(f, x, y), 4, y * f.width + x, f.component);
    Arithmetic.DivModUnique(y * f.width + x, f.width, y, x);
  }

  lemma PixOfCoordinates(f: Frame, k: nat)
    requires f.Valid() && k % 4 == f.component
    ensures Pix(f, X(f, k), Y(f, k)) == k
  {
    Arithmetic.Commute((k / 4) / f.width, f.width);
  }

  /** The value at (x, y); pixels outside read as zero. */
  function At(img: seq<Byte>, f: Frame, x: int, y: int): Byte {
    if f.Inside(x, y) && 0 <= Pix(f, x, y) < |img| then img[Pix(f, x, y)] else 0
  }

  /** (x, y) comes before (x2, y2) in the order of the rows. */
  predicate Before(x: int, y: int, x2: int, y2: int) {
    y < y2 || (y == y2 && x < x2)
  }

  /** Byte k is one of those that want their pixel's value, and comes before (x, y). */
  ghost predicate IsPainted(f: Frame, want: (int, int) -> bool, k: nat, x: int, y: int)
    requires f.width > 0
  {
    k % 4 == f.component && want(X(f, k), Y(f, k)) && Before(X(f, k), Y(f, k), x, y)
  }

  /** The wanted pixels before (x, y) have their values; everything else is as it was. */
  ghost predicate Painted(now: seq<Byte>, was: seq<Byte>, f: Frame, want: (int, int) -> bool, value: (int, int) -> Byte, x: int, y: int)
    requires f.width > 0
  {
    |now| == |was| == f.Size()
    && forall k: nat :: k < |now| ==>
         now[k] == if IsPainted(f, want, k, x, y) then value(X(f, k), Y(f, k)) else was[k]
  }

  lemma PaintNothing(was: seq<Byte>, f: Frame, want: (int, int) -> bool, value: (int, int) -> Byte, x: int, y: int)
    requires f.Valid() && |was| == f.Size()
    requires forall x0: nat, y0: nat :: want(x0, y0) ==> !Before(x0, y0, x, y)
    ensures Painted(was, was, f, want, value, x, y)
  {
  }

  /** One pixel is painted, and those up to the next are not wanted. */
  lemma PaintPixel(now: seq<Byte>, was: seq<Byte>, f: Frame, want: (int, int) -> bool, value: (int, int) -> Byte,
                   x: nat, y: nat, x2: int)
    requires f.Valid() && f.Inside(x, y) && Painted(now, was, f, want, value, x, y)
    requires want(x, y) && x < x2 && forall x0 :: x < x0 < x2 ==> !want(x0, y)
    ensures 0 <= Pix(f, x, y) < |now| && Painted(now[Pix(f, x, y) := value(x, y)], was, f, want, value, x2, y)
  {
    PixInside(f, x, y);
    CoordinatesOfPix(f, x, y);
    var p := Pix(f, x, y);
    var next := now[p := value(x, y)];
    forall k: nat | k < |now|
      ensures next[k] == if IsPainted(f, want, k, x2, y) then value(X(f, k), Y(f, k)) else was[k]
    {
      if k % 4 == f.component && k != p {
        PixOfCoordinates(f, k);
        assert IsPainted(f, want, k, x2, y) <==> IsPainted(f, want, k, x, y);
      }
    }
  }

  /** Nothing is wanted between two places. */
  lemma PaintSkip(now: seq<Byte>, was: seq<Byte>, f: Frame, want: (int, int) -> bool, value: (int, int) -> Byte,
                  x: int, y: int, x2: int, y2: int)
    requires f.Valid() && Painted(now, was, f, want, value, x, y)
    requires forall x0: nat, y0: nat :: want(x0, y0) ==> (Before(x0, y0, x, y) <==> Before(x0, y0, x2, y2))
    ensures Painted(now, was, f, want, value, x2, y2)
  {
  }

  /** Every wanted pixel has been painted. */
  ghost predicate AllPainted(now: seq<Byte>, was: seq<Byte>, f: Frame, want: (int, int) -> bool, value: (int, int) -> Byte) {
    && |now| == |was| == f.Size()
    && (forall x: nat, y: nat :: f.Inside(x, y) && want(x, y) ==> At(now, f, x, y) == value(x, y))
    && (forall x: nat, y: nat :: f.Inside(x, y) && !want(x, y) ==> At(now, f, x, y) == At(was, f, x, y))
    && (forall k: nat :: k < |now| && k % 4 != f.component ==> now[k] == was[k])
  }

  lemma PaintedAll(now: seq<Byte>, was: seq<Byte>, f: Frame, want: (int, int) -> bool, value: (int, int) -> Byte, x: int, y: int)
    requires f.Valid() && Painted(now, was, f, want, value, x, y)
    requires forall x0: nat, y0: nat :: f.Inside(x0, y0) && want(x0, y0) ==> Before(x0, y0, x, y)
    ensures AllPainted(now, was, f, want, value)
  {
    forall x0: nat, y0: nat | f.Inside(x0, y0)
      ensures At(now, f, x0, y0) == if want(x0, y0) then value(x0, y0) else At(was, f, x0, y0)
    {
      PixInside(f, x0, y0);
      CoordinatesOfPix(f, x0, y0);
      var k: nat := Pix(f, x0, y0);
      assert IsPainted(f, want, k, x, y) <==> want(x0, y0);
    }
  }
}
