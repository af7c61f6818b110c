/**
 Spreading a half-size texture, packed at the front of a buffer, over every second pixel of every
 second row of the full-size one, in place and from the back. A pixel is one element.
 */
module ExpandTexture {
  import Arithmetic

  /**
   Where packed pixel n goes: the packed rows are half as wide as the full ones, rounded down; column
   and row are both doubled, and an odd width shifts every pixel one to the right.
   */
  function Spread(width: nat, n: nat): nat
    requires width >= 2
  {
    Arithmetic.MulNonNegative(n / (width / 2), width);
    2 * ((n / (width / 2)) * width) + 2 * (n % (width / 2)) + width % 2
  }

  /** The same, from the packed pixel's row and column. */
  lemma SpreadOf(width: nat, q: nat, r: nat)
    requires width >= 2 && r < width / 2
    ensures 0 <= q * (width / 2) + r && Spread(width, q * (width / 2) + r) == 2 * (q * width) + 2 * r + width % 2
  {
    Arithmetic.MulNonNegative(q, width / 2);
    Arithmetic.DivModUnique(q * (width / 2) + r, width / 2, q, r);
  }

  lemma LaterRow(width: nat, q: nat, q': nat)
    requires q < q'
    ensures 2 * (q * width) + 2 * width <= 2 * (q' * width)
  {
    Arithmetic.MulMonotone(width, q + 1, q');
    Arithmetic.MulSucc(width, q);
    Arithmetic.Commute(width, q);
    Arithmetic.Commute(width, q');
  }

  lemma NotLaterRow(half: nat, m: nat, n: nat)
    requires half > 0 && m < n
    ensures m / half <= n / half && (m / half == n / half ==> m % half < n % half)
  {
    Arithmetic.DivMod(m, half);
    Arithmetic.DivMod(n, half);
    if m / half > n / half {
      Arithmetic.MulMonotone(half, n / half + 1, m / half);
      Arithmetic.MulSucc(half, n / half);
      Arithmetic.Commute(n / half, half);
      Arithmetic.Commute(m / half, half);
      assert false;
    }
  }

  /** Spreading keeps the order, and never moves a pixel down. */
  lemma SpreadIncreases(width: nat, m: nat, n: nat)
    requires width >= 2 && m < n
    ensures Spread(width, m) < Spread(width, n)
  {
    NotLaterRow(width / 2, m, n);
    if m / (width / 2) < n / (width / 2) {
      LaterRow(width, m / (width / 2), n / (width / 2));
    }
  }

  lemma NeverDown(width: nat, m: nat)
    requires width >= 2
    ensures m <= Spread(width, m)
  {
    var half := width / 2;
    Arithmetic.DivMod(m, half);
    Arithmetic.MulMonotone(m / half, half, width);
    Arithmetic.MulNonNegative(m / half, width);
  }

  lemma SpreadFits(width: nat, height: nat, q: nat, r: nat)
    requires width >= 2 && q < height / 2 && r < width / 2
    ensures 2 * (q * width) + 2 * r + width % 2 < height * width
  {
    LaterRow(width, q, height / 2);
    Arithmetic.MulMonotone(width, 2 * (height / 2), height);
    Arithmetic.Commute(width, 2 * (height / 2));
    Arithmetic.Commute(width, height);
    Twice(height / 2, width);
  }

  lemma Twice(h: int, width: int)
    ensures 2 * h * width == 2 * (h * width)
  {
  }

  /** Place k is where one of the packed pixels from n up to total goes. */
  ghost predicate Target(width: nat, n: nat, total: nat, k: int)
    requires width >= 2
  {
    exists m: nat :: n <= m < total && k == Spread(width, m)
  }

  /** The packed pixels from n on are in their places; all other places are as they were. */
  ghost predicate Expanded<T>(now: seq<T>, was: seq<T>, width: nat, n: nat, total: nat)
    requires width >= 2
  {
    && total <= |was| == |now|
    && (forall m: nat :: n <= m < total ==> Spread(width, m) < |now| && now[Spread(width, m)] == was[m])
    && (forall k :: 0 <= k < |now| && !Target(width, n, total, k) ==> now[k] == was[k])
  }

  lemma NothingExpanded<T>(was: seq<T>, width: nat, total: nat)
    requires width >= 2 && total <= |was|
    ensures Expanded(was, was, width, total, total)
  {
  }

  /** In coordinates, once all is done; pixel (x, y) is at (2x, 2y) exactly if the width is even. */
  lemma ExpandedAt<T>(now: seq<T>, was: seq<T>, width: nat, height: nat, x: nat, y: nat)
    requires width >= 2 && x < width / 2 && y < height / 2 && Expanded(now, was, width, 0, (height / 2) * (width / 2))
    ensures 0 <= y * (width / 2) + x < |was| && 0 <= 2 * (y * width) + 2 * x + width % 2 < |now|
    ensures now[2 * (y * width) + 2 * x + width % 2] == was[y * (width / 2) + x]
    ensures 2 * (y * width) + 2 * x + width % 2 == 2 * (y * width) + 2 * x <==> width % 2 == 0
  {
    InTotal(width / 2, y, x, height);
    SpreadOf(width, y, x);
    assert Spread(width, y * (width / 2) + x) < |now|;
  }

  /** A pixel still to be moved has not been overwritten. */
  lemma NotYetTouched<T>(now: seq<T>, was: seq<T>, width: nat, n: nat, total: nat, k: nat)
    requires width >= 2 && Expanded(now, was, width, n, total) && k < n <= total
    ensures now[k] == was[k]
  {
    forall m: nat | n <= m < total
      ensures Spread(width, m) != k
    {
      NeverDown(width, m);
    }
  }

  lemma ExpandStep<T>(now: seq<T>, was: seq<T>, width: nat, n: nat, total: nat)
    requires width >= 2 && n < total && Expanded(now, was, width, n + 1, total) && Spread(width, n) < |now|
    ensures Expanded(now[Spread(width, n) := now[n]], was, width, n, total)
  {
    NotYetTouched(now, was, width, n + 1, total, n);
    var next := now[Spread(width, n) := now[n]];
    forall m: nat | n <= m < total
      ensures Spread(width, m) < |next| && next[Spread(width, m)] == was[m]
    {
      if m > n {
        SpreadIncreases(width, n, m);
      }
    }
    forall k | 0 <= k < |next| && !Target(width, n, total, k)
      ensures next[k] == was[k]
    {
      assert !Target(width, n + 1, total, k);
    }
  }

  /**
   ExpandHalfTextureToGrid: every packed pixel ends in its place, because what is written lies at or
   above everything still to be read.
   */
  method ExpandHalfTextureToGrid<T>(data: array<T>, width: nat, height: nat)
    requires data.Length == height * width
    modifies data
    ensures width >= 2 ==> Expanded(data[..], old(data[..]), width, 0, (height / 2) * (width / 2))
    ensures width < 2 ==> data[..] == old(data[..])
  {
    ghost var was := data[..];
    var half := width / 2;
    if half == 0 {
      return;
    }
    ghost var total := (height / 2) * half;
    TotalFits(width, height);
    NothingExpanded(was, width, total);
    for y := height / 2 downto 0
      invariant Expanded(data[..], was, width, Start(half, y), total)
    {
      ExpandRow(data, width, y + 1, height, was, total);
    }
    assert Start(half, 0) == 0;
  }

  function Start(half: nat, y: nat): nat {
    Arithmetic.MulNonNegative(y, half);
    y * half
  }

  lemma TotalFits(width: nat, height: nat)
    ensures 0 <= (height / 2) * (width / 2) <= height * width
  {
    Arithmetic.MulNonNegative(height / 2, width / 2);
    Arithmetic.MulMonotone(height / 2, width / 2, width);
    Arithmetic.MulMonotone(width, height / 2, height);
    Arithmetic.Commute(width, height / 2);
    Arithmetic.Commute(width, height);
  }

  /** Spreads row y, counted from 1. */
  method ExpandRow<T>(data: array<T>, width: nat, y: nat, height: nat, ghost was: seq<T>, ghost total: nat)
    requires width >= 2 && data.Length == height * width && 0 < y <= height / 2 && total == (height / 2) * (width / 2)
    requires Expanded(data[..], was, width, Start(width / 2, y), total)
    modifies data
    ensures Expanded(data[..], was, width, Start(width / 2, y - 1), total)
  {
    var half := width / 2;
    var outbyte, inbyte := (y * 2 - 1) * width - 2, y * half - 1;
    RowStart(width, y);
    for x := half downto 0
      invariant outbyte == 2 * ((y - 1) * width) + 2 * (x - 1) + width % 2 && inbyte == (y - 1) * half + x - 1
      invariant Expanded(data[..], was, width, Start(half, y - 1) + x, total)
    {
      ghost var n := Start(half, y - 1) + x;
      RowPixel(width, y, x, height);
      MovePixel(data, outbyte, inbyte, width, was, n, total);
      outbyte := outbyte - 2;
      inbyte := inbyte - 1;
    }
  }

  /** Where the pixel with number x of row y, counted from 1, lies packed, and where it goes. */
  lemma RowPixel(width: nat, y: nat, x: nat, height: nat)
    requires width >= 2 && 0 < y <= height / 2 && x < width / 2
    ensures
      var n := Start(width / 2, y - 1) + x;
      && n == (y - 1) * (width / 2) + x && n < (height / 2) * (width / 2)
      && Spread(width, n) == 2 * ((y - 1) * width) + 2 * x + width % 2 < height * width
  {
    InTotal(width / 2, y - 1, x, height);
    SpreadOf(width, y - 1, x);
    SpreadFits(width, height, y - 1, x);
  }

  method MovePixel<T>(data: array<T>, outbyte: int, inbyte: int, ghost width: nat, ghost was: seq<T>, ghost n: nat, ghost total: nat)
    requires width >= 2 && n < total && outbyte == Spread(width, n) < data.Length && inbyte == n
    requires Expanded(data[..], was, width, n + 1, total)
    modifies data
    ensures Expanded(data[..], was, width, n, total)
  {
    ghost var now := data[..];
    ExpandStep(now, was, width, n, total);
    data[outbyte] := data[inbyte];
    assert data[..] == now[outbyte := now[inbyte]];
  }

  lemma RowStart(width: nat, y: nat)
    requires y > 0
    ensures (y * 2 - 1) * width - 2 == 2 * ((y - 1) * width) + 2 * (width / 2 - 1) + width % 2
    ensures Start(width / 2, y) == Start(width / 2, y - 1) + width / 2
  {
    assert (y * 2 - 1) * width == 2 * ((y - 1) * width) + width;
  }

  lemma InTotal(half: nat, y: nat, x: nat, height: nat)
    requires y < height / 2 && x < half
    ensures 0 <= y * half + x < (height / 2) * half && Start(half, y) == y * half
  {
    Arithmetic.MulNonNegative(y, half);
    Arithmetic.MulMonotone(half, y + 1, height / 2);
    Arithmetic.MulSucc(half, y);
    Arithmetic.Commute(half, y);
    Arithmetic.Commute(half, height / 2);
  }
}
