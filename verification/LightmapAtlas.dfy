/**
 Merging the world's lightmaps onto few large pages: sizing the pages, uploading the lightmaps, and
 turning a surface's lightmap coordinates into coordinates on its page.
 */
module LightmapAtlas {
  import Arithmetic

  /** One lightmap put into a page, its corner at (x, y); `source` is its number in the file. */
  datatype Upload = Upload(page: nat, x: nat, y: nat, source: nat)

  /** How the lightmaps are laid out. No columns means that they are not merged. */
  datatype Atlas = Atlas(cols: nat, rows: nat, size: nat, deluxe: bool) {
    ghost predicate Valid() {
      size > 0 && (cols > 0 ==> rows > 0)
    }

    function PerPage(): (n: nat)
      ensures cols > 0 && rows > 0 ==> n > 0
    {
      Arithmetic.MulNonNegative(cols, rows);
      if cols > 0 && rows > 0 then
        Arithmetic.MulMonotone(cols, 1, rows);
        cols * rows
      else cols * rows
    }

    /** The number a surface's lightmap has among those uploaded. */
    function TileNumber(lightmapNum: nat): nat {
      if deluxe then lightmapNum / 2 else lightmapNum
    }

    /** The number in the file of the lightmap uploaded as number i; with deluxe mapping every second one is a deluxe map. */
    function SourceOf(i: nat): nat {
      if deluxe then i * 2 else i
    }

    function PageOf(i: nat): nat
      requires cols > 0 && rows > 0
    {
      i / PerPage()
    }

    function ColumnOf(i: nat): (c: nat)
      requires cols > 0 && rows > 0
      ensures c < cols
    {
      i % PerPage() % cols
    }

    function RowOf(i: nat): nat
      requires cols > 0 && rows > 0
    {
      i % PerPage() / cols
    }

    /** FatLightmap: the page to draw a surface with. */
    function FatLightmap(lightmapNum: int): int
      requires Valid()
    {
      if lightmapNum < 0 then lightmapNum
      else if cols > 0 then TileNumber(lightmapNum) / PerPage()
      else TileNumber(lightmapNum)
    }

    function FatPackU(input: real, lightmapNum: int): real
      requires Valid()
    {
      if lightmapNum < 0 || cols == 0 then input
      else (input + (TileNumber(lightmapNum) % PerPage() % cols) as real) / cols as real
    }

    function FatPackV(input: real, lightmapNum: int): real
      requires Valid()
    {
      if lightmapNum < 0 || cols == 0 then input
      else (input + (TileNumber(lightmapNum) % PerPage() / cols) as real) / rows as real
    }
  }

  // ---------------------------------------------------------------- the size of a page

  /** One axis of a page, doubled as long as the page is too small, but not beyond the limit. */
  function Grown(axis: nat, other: nat, numLightmaps: nat, limit: nat): (r: nat)
    requires axis > 0 && other > 0
    ensures r >= axis
    ensures r * other >= numLightmaps || r == limit
    decreases numLightmaps - axis * other
  {
    Arithmetic.MulMonotone(other, axis + 1, axis * 2);
    Arithmetic.MulSucc(other, axis);
    Arithmetic.Commute(other, axis);
    Arithmetic.Commute(other, axis * 2);
    if axis * other < numLightmaps && axis != limit then Grown(axis * 2, other, numLightmaps, limit) else axis
  }

  function Cols(numLightmaps: nat, limit: nat): nat {
    Grown(4, 4, numLightmaps, limit)
  }

  function Rows(numLightmaps: nat, limit: nat): nat {
    Grown(4, Cols(numLightmaps, limit), numLightmaps, limit)
  }

  /** The sizing loops; both end. */
  method PageSize(numLightmaps: nat, limit: nat) returns (cols: nat, rows: nat)
    ensures cols == Cols(numLightmaps, limit) && rows == Rows(numLightmaps, limit)
  {
    cols, rows := 4, 4;
    while cols * rows < numLightmaps && cols != limit
      invariant rows == 4 && cols > 0 && Grown(cols, 4, numLightmaps, limit) == Cols(numLightmaps, limit)
      decreases numLightmaps - cols * rows
    {
      cols := cols * 2;
    }
    while cols * rows < numLightmaps && rows != limit
      invariant rows > 0 && cols == Cols(numLightmaps, limit)
      invariant Grown(rows, cols, numLightmaps, limit) == Rows(numLightmaps, limit)
      decreases numLightmaps - cols * rows
    {
      Arithmetic.MulMonotone(cols, rows + 1, rows * 2);
      Arithmetic.MulSucc(cols, rows);
      Arithmetic.Commute(cols, rows);
      rows := rows * 2;
    }
  }

  function Pow2(k: nat): (r: nat)
    ensures r > 0
  {
    if k == 0 then 1 else 2 * Pow2(k - 1)
  }

  /** The limit can be reached by doubling from 4. */
  ghost predicate Reachable(limit: nat) {
    exists k: nat :: limit == 4 * Pow2(k)
  }

  lemma {:induction false} Pow2Increases(j: nat, k: nat)
    requires j < k
    ensures 2 * Pow2(j) <= Pow2(k)
  {
    if j + 1 < k {
      Pow2Increases(j, k - 1);
    }
  }

  lemma {:induction false} GrownStays(j: nat, k: nat, other: nat, numLightmaps: nat)
    requires j <= k && other > 0
    ensures Grown(4 * Pow2(j), other, numLightmaps, 4 * Pow2(k)) <= 4 * Pow2(k)
    decreases k - j
  {
    if j < k {
      Pow2Increases(j, k);
      GrownStays(j + 1, k, other, numLightmaps);
    }
  }

  /** A limit that is never met does not stop the growth. */
  lemma {:induction false} GrownPasses(j: nat, other: nat, numLightmaps: nat, limit: nat)
    requires other > 0 && !Reachable(limit)
    ensures Grown(4 * Pow2(j), other, numLightmaps, limit) * other >= numLightmaps
    decreases numLightmaps - 4 * Pow2(j) * other
  {
    var axis := 4 * Pow2(j);
    assert axis != limit;
    Arithmetic.MulMonotone(other, axis + 1, axis * 2);
    Arithmetic.MulSucc(other, axis);
    Arithmetic.Commute(other, axis);
    Arithmetic.Commute(other, axis * 2);
    if axis * other < numLightmaps {
      assert axis * 2 == 4 * Pow2(j + 1);
      GrownPasses(j + 1, other, numLightmaps, limit);
    }
  }

  /** However the growth ends, the side is 4 doubled a number of times. */
  lemma {:induction false} GrownIsDoubled(j: nat, other: nat, numLightmaps: nat, limit: nat) returns (k: nat)
    requires other > 0
    ensures Grown(4 * Pow2(j), other, numLightmaps, limit) == 4 * Pow2(k)
    decreases numLightmaps - 4 * Pow2(j) * other
  {
    k := j;
    var axis := 4 * Pow2(j);
    Arithmetic.MulMonotone(other, axis + 1, axis * 2);
    Arithmetic.MulSucc(other, axis);
    Arithmetic.Commute(other, axis);
    Arithmetic.Commute(other, axis * 2);
    if axis * other < numLightmaps && axis != limit {
      assert axis * 2 == 4 * Pow2(j + 1);
      k := GrownIsDoubled(j + 1, other, numLightmaps, limit);
    }
  }

  /** A side long enough stops the growth. */
  lemma {:induction false} GrownStops(j: nat, k: nat, numLightmaps: nat, limit: nat)
    requires j <= k && numLightmaps <= 4 * Pow2(k) * 4
    ensures Grown(4 * Pow2(j), 4, numLightmaps, limit) <= 4 * Pow2(k)
    decreases k - j
  {
    if j < k {
      Pow2Increases(j, k);
      GrownStops(j + 1, k, numLightmaps, limit);
    }
  }

  /** The least number of rows is enough for a width within the limit that doubling reaches. */
  ghost predicate FourRowsDo(numLightmaps: nat, limit: nat) {
    exists k: nat :: 4 * Pow2(k) <= limit && numLightmaps <= 4 * Pow2(k) * 4
  }

  /** A page keeps within the limit exactly if doubling from 4 can meet the limit, or four rows within it are enough. */
  lemma PageWithinLimitIff(n: nat, limit: nat)
    ensures Cols(n, limit) <= limit && Rows(n, limit) <= limit <==> Reachable(limit) || FourRowsDo(n, limit)
  {
    assert Pow2(0) == 1;
    if Reachable(limit) {
      var k: nat :| limit == 4 * Pow2(k);
      GrownStays(0, k, 4, n);
      GrownStays(0, k, Cols(n, limit), n);
      return;
    }
    GrownPasses(0, 4, n, limit);
    if Cols(n, limit) <= limit {
      var k := GrownIsDoubled(0, 4, n, limit);
      assert 4 * Pow2(k) <= limit && n <= 4 * Pow2(k) * 4;
    }
    if FourRowsDo(n, limit) {
      var k: nat :| 4 * Pow2(k) <= limit && n <= 4 * Pow2(k) * 4;
      GrownStops(0, k, n, limit);
      assert Rows(n, limit) == 4;
    }
  }

  /** Pages keep within the limit, whatever the number of lightmaps, exactly if doubling from 4 can meet the limit. */
  lemma PagesWithinLimitIff(limit: nat)
    ensures (forall n: nat :: Cols(n, limit) <= limit && Rows(n, limit) <= limit) <==> Reachable(limit)
  {
    forall n: nat
      ensures Cols(n, limit) <= limit && Rows(n, limit) <= limit <==> Reachable(limit) || FourRowsDo(n, limit)
    {
      PageWithinLimitIff(n, limit);
    }
    if !Reachable(limit) {
      assert !FourRowsDo(4 * limit + 1, limit);
      assert Cols(4 * limit + 1, limit) > limit || Rows(4 * limit + 1, limit) > limit;
    }
  }

  /** A limit of 6 is jumped over: 17 lightmaps make the page 8 wide. */
  lemma SixIsPassed()
    ensures Cols(17, 6) == 8
  {
    assert Grown(8, 4, 17, 6) == 8;
  }

  // ---------------------------------------------------------------- the tiles

  /** Different lightmaps lie in different places. */
  lemma TilesDiffer(a: Atlas, i: nat, j: nat)
    requires a.cols > 0 && a.rows > 0 && a.PageOf(i) == a.PageOf(j)
    requires a.ColumnOf(i) == a.ColumnOf(j) && a.RowOf(i) == a.RowOf(j)
    ensures i == j
  {
    Arithmetic.DivMod(i, a.PerPage());
    Arithmetic.DivMod(j, a.PerPage());
    Arithmetic.DivMod(i % a.PerPage(), a.cols);
    Arithmetic.DivMod(j % a.PerPage(), a.cols);
  }

  lemma RowInPage(a: Atlas, i: nat)
    requires a.cols > 0 && a.rows > 0
    ensures a.RowOf(i) < a.rows
  {
    var onPage, r := i % a.PerPage(), a.RowOf(i);
    Arithmetic.DivMod(onPage, a.cols);
    if r >= a.rows {
      Arithmetic.MulMonotone(a.cols, a.rows, r);
      Arithmetic.Commute(a.cols, r);
      assert false;
    }
  }

  /** The square of the lightmap at column c and row r. */
  ghost predicate InSquare(a: Atlas, c: nat, r: nat, x: int, y: int) {
    c * a.size <= x < (c + 1) * a.size && r * a.size <= y < (r + 1) * a.size
  }

  /** Squares of different columns or rows share no texel, and all lie in the page. */
  lemma SquaresDisjoint(a: Atlas, i: nat, j: nat, x: int, y: int)
    requires a.Valid() && a.cols > 0 && i != j && a.PageOf(i) == a.PageOf(j)
    ensures !(InSquare(a, a.ColumnOf(i), a.RowOf(i), x, y) && InSquare(a, a.ColumnOf(j), a.RowOf(j), x, y))
  {
    if a.ColumnOf(i) != a.ColumnOf(j) {
      Apart(a.size, a.ColumnOf(i), a.ColumnOf(j), x);
    } else {
      if a.RowOf(i) == a.RowOf(j) {
        TilesDiffer(a, i, j);
        assert false;
      }
      Apart(a.size, a.RowOf(i), a.RowOf(j), y);
    }
  }

  lemma Apart(size: nat, c: nat, d: nat, x: int)
    requires c != d
    ensures !(c * size <= x < (c + 1) * size && d * size <= x < (d + 1) * size)
  {
    Arithmetic.Commute(size, c);
    Arithmetic.Commute(size, d);
    Arithmetic.Commute(size, c + 1);
    Arithmetic.Commute(size, d + 1);
    if c < d {
      Arithmetic.MulMonotone(size, c + 1, d);
    } else {
      Arithmetic.MulMonotone(size, d + 1, c);
    }
  }

  lemma SquareInPage(a: Atlas, i: nat, x: int, y: int)
    requires a.Valid() && a.cols > 0 && InSquare(a, a.ColumnOf(i), a.RowOf(i), x, y)
    ensures 0 <= x < a.cols * a.size && 0 <= y < a.rows * a.size
  {
    RowInPage(a, i);
    Arithmetic.MulNonNegative(a.ColumnOf(i), a.size);
    Arithmetic.MulNonNegative(a.RowOf(i), a.size);
    Arithmetic.MulMonotone(a.size, a.ColumnOf(i) + 1, a.cols);
    Arithmetic.MulMonotone(a.size, a.RowOf(i) + 1, a.rows);
    Arithmetic.Commute(a.size, a.ColumnOf(i) + 1);
    Arithmetic.Commute(a.size, a.RowOf(i) + 1);
    Arithmetic.Commute(a.size, a.cols);
    Arithmetic.Commute(a.size, a.rows);
  }

  // ---------------------------------------------------------------- loading

  /** Deluxe mapping is on if there are two lightmaps or more, and no surface asks for an odd one. */
  method DeluxeMapping(numLightmaps: nat, surfaces: seq<int>) returns (deluxe: bool)
    ensures deluxe <==> numLightmaps > 1 && forall k :: 0 <= k < |surfaces| && surfaces[k] >= 0 ==> surfaces[k] % 2 == 0
  {
    if numLightmaps <= 1 {
      return false;
    }
    for i := 0 to |surfaces|
      invariant forall k :: 0 <= k < i && surfaces[k] >= 0 ==> surfaces[k] % 2 == 0
    {
      if surfaces[i] >= 0 && surfaces[i] % 2 != 0 {
        return false;
      }
    }
    return true;
  }

  ghost predicate UploadedAt(a: Atlas, u: Upload, i: nat)
    requires a.Valid() && a.cols > 0
  {
    && u.page == a.PageOf(i) && u.source == a.SourceOf(i)
    && u.x == a.ColumnOf(i) * a.size && u.y == a.RowOf(i) * a.size
  }

  /** Lightmaps fill a page row by row, and one page after the other; with deluxe mapping every second one is taken. */
  lemma UploadsInOrder(a: Atlas, u: Upload, i: nat) returns (column: nat, row: nat)
    requires a.Valid() && a.cols > 0 && UploadedAt(a, u, i)
    ensures column < a.cols && row < a.rows && u.x == column * a.size && u.y == row * a.size
    ensures i == u.page * (a.cols * a.rows) + row * a.cols + column
    ensures u.source == if a.deluxe then 2 * i else i
  {
    column, row := a.ColumnOf(i), a.RowOf(i);
    RowInPage(a, i);
    Arithmetic.DivMod(i, a.PerPage());
    Arithmetic.DivMod(i % a.PerPage(), a.cols);
    Arithmetic.Commute(a.cols, row);
    Arithmetic.Commute(a.PerPage(), u.page);
  }

  /** There are just as many pages as the lightmaps need. */
  lemma PagesNeeded(a: Atlas, n: nat)
    requires a.Valid() && a.cols > 0
    ensures n <= PageCount(a, n) * (a.cols * a.rows) < n + a.cols * a.rows
  {
    var per := a.PerPage();
    Arithmetic.DivMod(n + (per - 1), per);
    Arithmetic.Commute(per, PageCount(a, n));
  }

  /** R_LoadLightmaps, as far as the layout goes, with merging on. */
  method LoadLightmaps(numInFile: nat, surfaces: seq<int>, size: nat, maxTextureSize: nat)
    returns (a: Atlas, numPages: nat, uploads: seq<Upload>)
    requires size > 0
    ensures a.Valid() && a.cols > 0 && a.size == size
    ensures a.deluxe <==> numInFile > 1 && forall k :: 0 <= k < |surfaces| && surfaces[k] >= 0 ==> surfaces[k] % 2 == 0
    ensures |uploads| == if a.deluxe then numInFile / 2 else numInFile
    ensures a.cols == Cols(|uploads|, maxTextureSize / size) && a.rows == Rows(|uploads|, maxTextureSize / size)
    ensures numPages == PageCount(a, |uploads|)
    ensures forall k :: 0 <= k < |surfaces| && 0 <= surfaces[k] < numInFile ==>
              (Loaded(a, uploads, surfaces[k]) <==> !LeftOver(a, numInFile, surfaces[k]))
    ensures forall i :: 0 <= i < |uploads| ==> UploadedAt(a, uploads[i], i) && uploads[i].page < numPages
  {
    var deluxe := DeluxeMapping(numInFile, surfaces);
    var numLightmaps := if deluxe then numInFile / 2 else numInFile;
    var cols, rows := PageSize(numLightmaps, maxTextureSize / size);
    a := Atlas(cols, rows, size, deluxe);
    numPages := PageCount(a, numLightmaps);
    uploads := [];
    for i := 0 to numLightmaps
      invariant |uploads| == i
      invariant forall k :: 0 <= k < i ==> UploadedAt(a, uploads[k], k) && uploads[k].page < numPages
    {
      var u := UploadOne(a, i, numLightmaps);
      uploads := uploads + [u];
    }
    forall k | 0 <= k < |surfaces| && 0 <= surfaces[k] < numInFile
      ensures Loaded(a, uploads, surfaces[k]) <==> !LeftOver(a, numInFile, surfaces[k])
    {
      LoadedIff(a, uploads, numInFile, surfaces[k]);
    }
  }

  /** The lightmap with the surface's number was uploaded where the surface looks for it. */
  ghost predicate Loaded(a: Atlas, uploads: seq<Upload>, lightmapNum: nat)
    requires a.Valid() && a.cols > 0
  {
    var i := a.TileNumber(lightmapNum);
    i < |uploads| && UploadedAt(a, uploads[i], i) && uploads[i].source == lightmapNum
  }

  /** The last of an odd number of lightmaps, with deluxe mapping: it has no deluxe map, and is not uploaded. */
  predicate LeftOver(a: Atlas, numInFile: nat, lightmapNum: nat) {
    a.deluxe && numInFile % 2 == 1 && lightmapNum == numInFile - 1
  }

  lemma LoadedIff(a: Atlas, uploads: seq<Upload>, numInFile: nat, lightmapNum: nat)
    requires a.Valid() && a.cols > 0 && lightmapNum < numInFile && (a.deluxe ==> lightmapNum % 2 == 0)
    requires |uploads| == if a.deluxe then numInFile / 2 else numInFile
    requires forall i :: 0 <= i < |uploads| ==> UploadedAt(a, uploads[i], i)
    ensures Loaded(a, uploads, lightmapNum) <==> !LeftOver(a, numInFile, lightmapNum)
  {
  }

  /** Three lightmaps of which surfaces use numbers 0 and 2: only one is uploaded, and number 2 is not found. */
  method ThirdOfThree() returns (a: Atlas, uploads: seq<Upload>)
    ensures a.Valid() && a.cols > 0 && a.deluxe && |uploads| == 1 && a.TileNumber(2) == 1
    ensures Loaded(a, uploads, 0) && !Loaded(a, uploads, 2)
  {
    var surfaces := [0, 2];
    var numPages;
    a, numPages, uploads := LoadLightmaps(3, surfaces, 128, 4096);
    assert surfaces[0] == 0 && surfaces[1] == 2;
  }

  function PageCount(a: Atlas, numLightmaps: nat): nat
    requires a.Valid() && a.cols > 0
  {
    (numLightmaps + (a.PerPage() - 1)) / a.PerPage()
  }

  method UploadOne(a: Atlas, i: nat, ghost numLightmaps: nat) returns (u: Upload)
    requires a.Valid() && a.cols > 0 && i < numLightmaps
    ensures UploadedAt(a, u, i) && u.page < PageCount(a, numLightmaps)
  {
    var perPage := a.PerPage();
    var onPage := i % perPage;
    var xoff, yoff := onPage % a.cols * a.size, onPage / a.cols * a.size;
    Arithmetic.MulNonNegative(onPage % a.cols, a.size);
    Arithmetic.MulNonNegative(onPage / a.cols, a.size);
    PageExists(i, numLightmaps, perPage);
    u := Upload(i / perPage, xoff, yoff, a.SourceOf(i));
  }

  lemma PageExists(i: nat, n: nat, perPage: nat)
    requires i < n && perPage > 0
    ensures i / perPage < (n + (perPage - 1)) / perPage
  {
    var q, p := i / perPage, (n + (perPage - 1)) / perPage;
    Arithmetic.DivMod(i, perPage);
    Arithmetic.DivMod(n + (perPage - 1), perPage);
    if p <= q {
      Arithmetic.MulMonotone(perPage, p, q);
      Arithmetic.Commute(perPage, p);
      Arithmetic.Commute(perPage, q);
      assert false;
    }
  }

  // ---------------------------------------------------------------- surfaces

  lemma ScaledBack(input: real, c: int, n: int, size: int)
    requires n > 0
    ensures (input + c as real) / n as real * (n * size) as real == (c * size) as real + input * size as real
  {
    var q := (input + c as real) / n as real;
    assert q * n as real == input + c as real;
    assert (n * size) as real == n as real * size as real;
    assert (c * size) as real == c as real * size as real;
    assert q * (n as real * size as real) == q * n as real * size as real;
  }

  /**
   Where a surface's lightmap was loaded, the surface is drawn with the page it was uploaded to, and its
   coordinates, in texels of the page, are the upload's corner plus those within the lightmap.
   */
  lemma SurfaceFindsItsLightmap(a: Atlas, uploads: seq<Upload>, lightmapNum: nat, s: real, t: real)
    requires a.Valid() && a.cols > 0 && Loaded(a, uploads, lightmapNum)
    ensures
      var u := uploads[a.TileNumber(lightmapNum)];
      && u.source == lightmapNum && a.FatLightmap(lightmapNum) == u.page
      && a.FatPackU(s, lightmapNum) * (a.cols * a.size) as real == u.x as real + s * a.size as real
      && a.FatPackV(t, lightmapNum) * (a.rows * a.size) as real == u.y as real + t * a.size as real
  {
    PacksU(a, lightmapNum, s);
    PacksV(a, lightmapNum, t);
  }

  /** Surfaces without a lightmap keep their negative number and coordinates, and so do all coordinates without merging. */
  lemma NothingPacked(a: Atlas, lightmapNum: int, s: real)
    requires a.Valid()
    ensures lightmapNum < 0 ==> a.FatLightmap(lightmapNum) == lightmapNum
    ensures lightmapNum < 0 || a.cols == 0 ==> a.FatPackU(s, lightmapNum) == s && a.FatPackV(s, lightmapNum) == s
    ensures lightmapNum >= 0 && a.cols == 0 ==> a.FatLightmap(lightmapNum) == if a.deluxe then lightmapNum / 2 else lightmapNum
  {
  }

  lemma PacksU(a: Atlas, lightmapNum: nat, s: real)
    requires a.Valid() && a.cols > 0
    ensures a.FatPackU(s, lightmapNum) * (a.cols * a.size) as real
         == (a.ColumnOf(a.TileNumber(lightmapNum)) * a.size) as real + s * a.size as real
  {
    ScaledBack(s, a.ColumnOf(a.TileNumber(lightmapNum)), a.cols, a.size);
  }

  lemma PacksV(a: Atlas, lightmapNum: nat, t: real)
    requires a.Valid() && a.cols > 0
    ensures a.FatPackV(t, lightmapNum) * (a.rows * a.size) as real
         == (a.RowOf(a.TileNumber(lightmapNum)) * a.size) as real + t * a.size as real
  {
    ScaledBack(t, a.RowOf(a.TileNumber(lightmapNum)), a.rows, a.size);
  }

  /** A point of a page, in texels. */
  datatype Point = Point(x: real, y: real)

  /** The point of the page that a point of the surface's lightmap is drawn from. */
  function TexelAt(a: Atlas, lightmapNum: nat, s: real, t: real): Point
    requires a.Valid()
  {
    Point(a.FatPackU(s, lightmapNum) * (a.cols * a.size) as real, a.FatPackV(t, lightmapNum) * (a.rows * a.size) as real)
  }

  ghost predicate OnSquare(a: Atlas, u: Upload, p: Point) {
    && u.x as real <= p.x <= (u.x + a.size) as real
    && u.y as real <= p.y <= (u.y + a.size) as real
  }

  /** Some point of the surface's lightmap is drawn from p. */
  ghost predicate DrawnFrom(a: Atlas, lightmapNum: nat, p: Point)
    requires a.Valid()
  {
    exists s: real, t: real :: 0.0 <= s <= 1.0 && 0.0 <= t <= 1.0 && TexelAt(a, lightmapNum, s, t) == p
  }

  /** The points the lightmap is drawn from are just those of the upload's square. */
  lemma JustTheSquare(a: Atlas, uploads: seq<Upload>, lightmapNum: nat, p: Point)
    requires a.Valid() && a.cols > 0 && Loaded(a, uploads, lightmapNum)
    ensures DrawnFrom(a, lightmapNum, p) <==> OnSquare(a, uploads[a.TileNumber(lightmapNum)], p)
  {
    var u := uploads[a.TileNumber(lightmapNum)];
    if DrawnFrom(a, lightmapNum, p) {
      var s: real, t: real :| 0.0 <= s <= 1.0 && 0.0 <= t <= 1.0 && TexelAt(a, lightmapNum, s, t) == p;
      TexelIs(a, u, lightmapNum, s, t);
      InTheSquare(a, u, s, t);
    }
    if OnSquare(a, u, p) {
      var s, t := OntoTheSquare(a, u, p);
      TexelIs(a, u, lightmapNum, s, t);
      assert TexelAt(a, lightmapNum, s, t) == p;
    }
  }

  /** A point of the page, from the corner of an upload. */
  function PointOf(a: Atlas, u: Upload, s: real, t: real): Point {
    Point(u.x as real + s * a.size as real, u.y as real + t * a.size as real)
  }

  lemma TexelIs(a: Atlas, u: Upload, lightmapNum: nat, s: real, t: real)
    requires a.Valid() && a.cols > 0 && UploadedAt(a, u, a.TileNumber(lightmapNum))
    ensures TexelAt(a, lightmapNum, s, t) == PointOf(a, u, s, t)
  {
    TexelX(a, u, lightmapNum, s, t);
    TexelY(a, u, lightmapNum, s, t);
  }

  lemma TexelX(a: Atlas, u: Upload, lightmapNum: nat, s: real, t: real)
    requires a.Valid() && a.cols > 0 && UploadedAt(a, u, a.TileNumber(lightmapNum))
    ensures TexelAt(a, lightmapNum, s, t).x == PointOf(a, u, s, t).x
  {
    PacksU(a, lightmapNum, s);
  }

  lemma TexelY(a: Atlas, u: Upload, lightmapNum: nat, s: real, t: real)
    requires a.Valid() && a.cols > 0 && UploadedAt(a, u, a.TileNumber(lightmapNum))
    ensures TexelAt(a, lightmapNum, s, t).y == PointOf(a, u, s, t).y
  {
    PacksV(a, lightmapNum, t);
  }

  lemma InTheSquare(a: Atlas, u: Upload, s: real, t: real)
    requires a.Valid() && 0.0 <= s <= 1.0 && 0.0 <= t <= 1.0
    ensures OnSquare(a, u, PointOf(a, u, s, t))
  {
    ScaledUnit(s, a.size as real);
    ScaledUnit(t, a.size as real);
  }

  lemma OntoTheSquare(a: Atlas, u: Upload, p: Point) returns (s: real, t: real)
    requires a.Valid() && OnSquare(a, u, p)
    ensures 0.0 <= s <= 1.0 && 0.0 <= t <= 1.0 && PointOf(a, u, s, t) == p
  {
    s := SolveFor(p.x, u.x as real, a.size as real);
    t := SolveFor(p.y, u.y as real, a.size as real);
  }

  lemma ScaledUnit(s: real, k: real)
    requires k > 0.0 && 0.0 <= s <= 1.0
    ensures 0.0 <= s * k <= k
  {
  }

  lemma SolveFor(x: real, corner: real, k: real) returns (s: real)
    requires k > 0.0 && corner <= x <= corner + k
    ensures 0.0 <= s <= 1.0 && corner + s * k == x
  {
    s := (x - corner) / k;
    WithinUnit(s, k);
  }

  lemma WithinUnit(s: real, k: real)
    requires k > 0.0 && 0.0 <= s * k <= k
    ensures 0.0 <= s <= 1.0
  {
  }
}
