/** Compressing a whole image to RGTC2: two blocks, red then green, for every tile of 4 by 4 texels. */
module RgtcImage {
  import opened Rgtc
  import Arithmetic

  /** An image of four bytes per texel, row by row. */
  datatype Image = Image(width: nat, height: nat, data: seq<Byte>) {
    ghost predicate Valid() {
      |data| == width * height * 4
    }
  }

  lemma TexelInRange(img: Image, x: nat, y: nat, component: nat)
    requires img.Valid() && x < img.width && y < img.height && component < 4
    ensures (y * img.width + x) * 4 + component < |img.data|
  {
    Arithmetic.MulMonotone(img.width, y + 1, img.height);
    Arithmetic.MulSucc(img.width, y);
    assert y * img.width == img.width * y;
  }

  function TexelOf(img: Image, x: nat, y: nat, component: nat): Byte
    requires img.Valid() && x < img.width && y < img.height && component < 4
  {
    TexelInRange(img, x, y, component);
    img.data[(y * img.width + x) * 4 + component]
  }

  function Min(a: int, b: int): int {
    if a < b then a else b
  }

  function BlocksAcross(size: nat): nat {
    (size + 3) / 4
  }

  /** k % n, for the sizes a tile can have inside the image. */
  function Wrap(k: nat, n: nat): (r: nat)
    requires 0 < n <= 4
    ensures r < n && (k < n ==> r == k)
  {
    if n == 1 then 0 else if n == 2 then k % 2 else if n == 3 then k % 3 else k % 4
  }

  lemma WrapIsRemainder(k: nat, n: nat)
    requires 0 < n <= 4
    ensures Wrap(k, n) == k % n
  {
    if n == 1 {} else if n == 2 {} else if n == 3 {} else {}
  }

  /** Where slot k of a tile takes its texel from, of the ow by oh that lie in the image. */
  function SourceSlot(k: nat, ow: nat, oh: nat): (r: nat)
    requires k < 16 && 0 < ow <= 4 && 0 < oh <= 4
    ensures r < 16 && r / 4 == Wrap(k / 4, oh) && r % 4 == Wrap(k % 4, ow)
    ensures k / 4 < oh && k % 4 < ow ==> r == k
  {
    Wrap(k / 4, oh) * 4 + Wrap(k % 4, ow)
  }

  /** The texel in slot r of the tile at (ix, iy). */
  function SlotTexel(img: Image, ix: nat, iy: nat, component: nat, r: nat): Byte
    requires img.Valid() && r < 16 && ix + r % 4 < img.width && iy + r / 4 < img.height && component < 4
  {
    TexelOf(img, ix + r % 4, iy + r / 4, component)
  }

  /** One component of the tile at (ix, iy); past the image's border its texels are repeated. */
  function Tile(img: Image, ix: nat, iy: nat, component: nat): (tile: seq<Byte>)
    requires img.Valid() && ix < img.width && iy < img.height && component < 4
    ensures |tile| == 16
    ensures
      var ow, oh := Min(4, img.width - ix), Min(4, img.height - iy);
      forall k :: 0 <= k < 16 ==> tile[k] == SlotTexel(img, ix, iy, component, SourceSlot(k, ow, oh))
  {
    var ow, oh := Min(4, img.width - ix), Min(4, img.height - iy);
    seq(16, k requires 0 <= k < 16 => SlotTexel(img, ix, iy, component, SourceSlot(k, ow, oh)))
  }

  lemma TileHolds(img: Image, ix: nat, iy: nat, component: nat, k: nat)
    requires img.Valid() && k < 16 && ix + k % 4 < img.width && iy + k / 4 < img.height && component < 4
    ensures Tile(img, ix, iy, component)[k] == SlotTexel(img, ix, iy, component, k)
  {
    var ow, oh := Min(4, img.width - ix), Min(4, img.height - iy);
    assert SourceSlot(k, ow, oh) == k;
  }

  lemma SlotTexelIs(img: Image, ix: nat, iy: nat, component: nat, k: nat, x: nat, y: nat)
    requires img.Valid() && k < 16 && x == ix + k % 4 < img.width && y == iy + k / 4 < img.height && component < 4
    ensures SlotTexel(img, ix, iy, component, k) == TexelOf(img, x, y, component)
  {
  }

  lemma SlotPlace(dx: nat, dy: nat)
    requires dx < 4 && dy < 4
    ensures (4 * dy + dx) % 4 == dx && (4 * dy + dx) / 4 == dy
  {
  }

  // ---------------------------------------------------------------- all tiles, in the order they are written

  /** The blocks of the first n tiles of row ty of tiles, two for each. */
  function TileRow<T>(tile: (nat, nat, nat) -> T, ty: nat, n: nat): seq<T> {
    if n == 0 then [] else TileRow(tile, ty, n - 1) + [tile(n - 1, ty, 0)] + [tile(n - 1, ty, 1)]
  }

  function TileRows<T>(tile: (nat, nat, nat) -> T, across: nat, m: nat): seq<T> {
    if m == 0 then [] else TileRows(tile, across, m - 1) + TileRow(tile, m - 1, across)
  }

  lemma {:induction false} TileRowLength<T>(tile: (nat, nat, nat) -> T, ty: nat, n: nat)
    ensures |TileRow(tile, ty, n)| == 2 * n
  {
    if n > 0 {
      TileRowLength(tile, ty, n - 1);
    }
  }

  lemma {:induction false} TileRowAt<T>(tile: (nat, nat, nat) -> T, ty: nat, n: nat, tx: nat, component: nat)
    requires tx < n && component < 2
    ensures |TileRow(tile, ty, n)| == 2 * n
    ensures TileRow(tile, ty, n)[2 * tx + component] == tile(tx, ty, component)
  {
    TileRowLength(tile, ty, n - 1);
    if tx < n - 1 {
      TileRowAt(tile, ty, n - 1, tx, component);
    }
  }

  lemma {:induction false} TileRowsLength<T>(tile: (nat, nat, nat) -> T, across: nat, m: nat)
    ensures |TileRows(tile, across, m)| == 2 * (across * m)
  {
    if m > 0 {
      TileRowsLength(tile, across, m - 1);
      TileRowLength(tile, m - 1, across);
      Arithmetic.MulSucc(across, m - 1);
    }
  }

  /** Which block of the output holds a component of a tile. */
  function BlockNumber(across: nat, tx: nat, ty: nat, component: nat): int {
    2 * (across * ty) + 2 * tx + component
  }

  lemma {:induction false} TileRowsAt<T>(tile: (nat, nat, nat) -> T, across: nat, m: nat, tx: nat, ty: nat, component: nat)
    requires ty < m && tx < across && component < 2
    ensures 0 <= BlockNumber(across, tx, ty, component) < |TileRows(tile, across, m)|
    ensures TileRows(tile, across, m)[BlockNumber(across, tx, ty, component)] == tile(tx, ty, component)
  {
    TileRowsLength(tile, across, m - 1);
    TileRowAt(tile, m - 1, across, tx, component);
    if ty < m - 1 {
      TileRowsAt(tile, across, m - 1, tx, ty, component);
    }
  }

  /** The tile in column tx and row ty of tiles. */
  function TileAt(img: Image, tx: nat, ty: nat, component: nat): seq<Byte>
    requires img.Valid()
  {
    if 4 * tx < img.width && 4 * ty < img.height && component < 4 then Tile(img, 4 * tx, 4 * ty, component) else []
  }

  function Tiles(img: Image): (nat, nat, nat) -> seq<Byte>
    requires img.Valid()
  {
    (tx, ty, component) => TileAt(img, tx, ty, component)
  }

  // ---------------------------------------------------------------- RawImage_UploadToRgtc2Texture

  /** Copies the texels of a tile that lie in the image. */
  method CopyTile(img: Image, ix: nat, iy: nat, component: nat, working: array<Byte>)
    requires img.Valid() && ix < img.width && iy < img.height && component < 4 && working.Length == 16
    modifies working
    ensures forall k :: 0 <= k < 16 && ix + k % 4 < img.width && iy + k / 4 < img.height ==>
              working[k] == SlotTexel(img, ix, iy, component, k)
  {
    var ow, oh := Min(4, img.width - ix), Min(4, img.height - iy);
    for oy := 0 to oh
      invariant forall k :: 0 <= k < 16 && k / 4 < oy && k % 4 < ow ==> working[k] == SlotTexel(img, ix, iy, component, k)
    {
      for ox := 0 to ow
        invariant forall k :: 0 <= k < 16 && k % 4 < ow && (k / 4 < oy || (k / 4 == oy && k % 4 < ox)) ==>
                    working[k] == SlotTexel(img, ix, iy, component, k)
      {
        working[oy * 4 + ox] := TexelOf(img, ix + ox, iy + oy, component);
      }
    }
  }

  /** The first n slots hold what they shall repeat; the others are as they were. */
  ghost predicate Duped(now: seq<Byte>, was: seq<Byte>, ow: nat, oh: nat, n: nat)
    requires |now| == |was| == 16 && 0 < ow <= 4 && 0 < oh <= 4
  {
    forall k :: 0 <= k < 16 ==> now[k] == was[if k < n then SourceSlot(k, ow, oh) else k]
  }

  lemma DupeStep(now: seq<Byte>, was: seq<Byte>, ow: nat, oh: nat, slot: nat)
    requires |now| == |was| == 16 && 0 < ow <= 4 && 0 < oh <= 4 && slot < 16
    requires Duped(now, was, ow, oh, slot)
    ensures Duped(now[slot := now[SourceSlot(slot, ow, oh)]], was, ow, oh, slot + 1)
  {
    var from := SourceSlot(slot, ow, oh);
    assert from / 4 < oh && from % 4 < ow;
    assert SourceSlot(from, ow, oh) == from;
    assert now[from] == was[from];
  }

  /** The slots of a row that lie in the image repeat themselves. */
  lemma DupeSkip(now: seq<Byte>, was: seq<Byte>, ow: nat, oh: nat, row: nat)
    requires |now| == |was| == 16 && 0 < ow <= 4 && row < oh <= 4
    requires Duped(now, was, ow, oh, row * 4)
    ensures Duped(now, was, ow, oh, row * 4 + ow)
  {
    forall k | row * 4 <= k < row * 4 + ow
      ensures SourceSlot(k, ow, oh) == k
    {
      assert k / 4 == row && k % 4 == k - row * 4;
    }
  }

  /** One write of the loops below. */
  method DupeTexel(ow: nat, oh: nat, working: array<Byte>, ox: nat, oy: nat, ghost was: seq<Byte>)
    requires 0 < ow <= 4 && 0 < oh <= 4 && working.Length == |was| == 16 && ox < 4 && oy < 4
    requires Duped(working[..], was, ow, oh, oy * 4 + ox)
    modifies working
    ensures Duped(working[..], was, ow, oh, oy * 4 + ox + 1)
  {
    ghost var now := working[..];
    ghost var slot := oy * 4 + ox;
    assert slot / 4 == oy && slot % 4 == ox;
    ghost var from := SourceSlot(slot, ow, oh);
    assert from == Wrap(oy, oh) * 4 + Wrap(ox, ow);
    DupeStep(now, was, ow, oh, slot);
    WrapIsRemainder(oy, oh);
    WrapIsRemainder(ox, ow);
    working[oy * 4 + ox] := working[(oy % oh) * 4 + ox % ow];
    assert working[..] == now[slot := now[from]];
  }

  /** Repeats what is there over the rest of the tile. */
  method DupeTile(ow: nat, oh: nat, working: array<Byte>)
    requires 0 < ow <= 4 && 0 < oh <= 4 && working.Length == 16
    modifies working
    ensures forall k :: 0 <= k < 16 ==> working[k] == old(working[SourceSlot(k, ow, oh)])
  {
    ghost var was := working[..];
    for oy := 0 to 4
      invariant Duped(working[..], was, ow, oh, oy * 4)
    {
      if oy < oh {
        DupeSkip(working[..], was, ow, oh, oy);
      }
      for ox := (if oy < oh then ow else 0) to 4
        invariant Duped(working[..], was, ow, oh, oy * 4 + ox)
      {
        DupeTexel(ow, oh, working, ox, oy, was);
      }
    }
    forall k | 0 <= k < 16
      ensures working[k] == was[SourceSlot(k, ow, oh)]
    {
      assert working[..][k] == was[SourceSlot(k, ow, oh)];
    }
  }

  method LoadTile(img: Image, ix: nat, iy: nat, component: nat, working: array<Byte>)
    requires img.Valid() && ix < img.width && iy < img.height && component < 4 && working.Length == 16
    modifies working
    ensures working[..] == Tile(img, ix, iy, component)
  {
    var ow, oh := Min(4, img.width - ix), Min(4, img.height - iy);
    CopyTile(img, ix, iy, component, working);
    DupeTile(ow, oh, working);
    ghost var tile := Tile(img, ix, iy, component);
    forall k | 0 <= k < 16
      ensures working[k] == tile[k]
    {
      var r := SourceSlot(k, ow, oh);
      assert tile[k] == SlotTexel(img, ix, iy, component, r);
    }
  }

  /** The block decodes to the sixteen values, to within a fourteenth of their range. */
  ghost predicate EncodesTile(block: seq<Byte>, tile: seq<Byte>) {
    exists hi, lo :: Encodes(block, tile, hi, lo)
  }

  ghost predicate EncodesAll(out: seq<Byte>, tiles: seq<seq<Byte>>) {
    8 * |tiles| <= |out| && forall k :: 0 <= k < |tiles| ==> EncodesTile(out[8 * k..8 * k + 8], tiles[k])
  }

  /** Compresses one more block behind those already written. */
  method AppendBlock(out: array<Byte>, p: nat, working: array<Byte>, ghost tiles: seq<seq<Byte>>)
    requires working.Length == 16 && out != working && p == 8 * |tiles| && p + 8 <= out.Length
    requires EncodesAll(out[..], tiles)
    modifies out
    ensures EncodesAll(out[..], tiles + [working[..]])
  {
    ghost var was := out[..];
    var hi, lo := CompressMonoBlock(out, p, working);
    ghost var all := tiles + [working[..]];
    forall k | 0 <= k < |all|
      ensures EncodesTile(out[..][8 * k..8 * k + 8], all[k])
    {
      if k < |tiles| {
        assert out[..][8 * k..8 * k + 8] == out[..p][8 * k..8 * k + 8] == was[..p][8 * k..8 * k + 8] == was[8 * k..8 * k + 8];
      } else {
        assert out[..][p..p + 8] == out[p..p + 8];
        assert Encodes(out[p..p + 8], working[..], hi, lo);
      }
    }
  }

  /** Both components of one tile. */
  method AppendTile(img: Image, out: array<Byte>, p: nat, working: array<Byte>, tx: nat, ty: nat, ghost tiles: seq<seq<Byte>>)
    requires img.Valid() && tx < BlocksAcross(img.width) && ty < BlocksAcross(img.height)
    requires working.Length == 16 && out != working && p == 8 * |tiles| && p + 16 <= out.Length
    requires EncodesAll(out[..], tiles)
    modifies out, working
    ensures EncodesAll(out[..], tiles + [TileAt(img, tx, ty, 0)] + [TileAt(img, tx, ty, 1)])
  {
    LoadTile(img, 4 * tx, 4 * ty, 0, working);
    AppendBlock(out, p, working, tiles);
    LoadTile(img, 4 * tx, 4 * ty, 1, working);
    AppendBlock(out, p + 8, working, tiles + [TileAt(img, tx, ty, 0)]);
  }

  /** The compressed image has exactly the announced size, and holds the tiles in order. */
  method CompressImage(img: Image) returns (out: array<Byte>)
    requires img.Valid()
    ensures fresh(out) && out.Length == BlocksAcross(img.width) * BlocksAcross(img.height) * 16
    ensures EncodesAll(out[..], TileRows(Tiles(img), BlocksAcross(img.width), BlocksAcross(img.height)))
    ensures 8 * |TileRows(Tiles(img), BlocksAcross(img.width), BlocksAcross(img.height))| == out.Length
  {
    var wBlocks, hBlocks := BlocksAcross(img.width), BlocksAcross(img.height);
    ghost var f := Tiles(img);
    Arithmetic.MulNonNegative(wBlocks, hBlocks);
    out := new Byte[wBlocks * hBlocks * 16];
    var working := new Byte[16];
    TileRowsLength(f, wBlocks, hBlocks);
    var p := 0;
    ghost var tiles: seq<seq<Byte>> := [];
    for ty := 0 to hBlocks
      invariant tiles == TileRows(f, wBlocks, ty) && p == 8 * |tiles| <= out.Length
      invariant EncodesAll(out[..], tiles)
    {
      RowsFit(f, wBlocks, hBlocks, ty);
      p, tiles := CompressRow(img, out, p, working, ty, tiles);
    }
  }

  /** One row of tiles. */
  method CompressRow(img: Image, out: array<Byte>, p0: nat, working: array<Byte>, ty: nat, ghost rows: seq<seq<Byte>>)
    returns (p: nat, ghost tiles: seq<seq<Byte>>)
    requires img.Valid() && ty < BlocksAcross(img.height) && working.Length == 16 && out != working
    requires p0 == 8 * |rows| && p0 + 16 * BlocksAcross(img.width) <= out.Length && EncodesAll(out[..], rows)
    modifies out, working
    ensures tiles == rows + TileRow(Tiles(img), ty, BlocksAcross(img.width))
    ensures p == 8 * |tiles| <= out.Length && EncodesAll(out[..], tiles)
  {
    p, tiles := p0, rows;
    for tx := 0 to BlocksAcross(img.width)
      invariant tiles == rows + TileRow(Tiles(img), ty, tx) && p == 8 * |tiles| && p == p0 + 16 * tx
      invariant EncodesAll(out[..], tiles)
    {
      AppendTile(img, out, p, working, tx, ty, tiles);
      tiles := ExtendRow(Tiles(img), rows, tiles, tx, ty);
      p := p + 16;
    }
  }

  ghost function ExtendRow(f: (nat, nat, nat) -> seq<Byte>, rows: seq<seq<Byte>>, tiles: seq<seq<Byte>>, tx: nat, ty: nat)
    : (r: seq<seq<Byte>>)
    requires tiles == rows + TileRow(f, ty, tx)
    ensures r == rows + TileRow(f, ty, tx + 1) && |r| == |tiles| + 2
  {
    tiles + [f(tx, ty, 0)] + [f(tx, ty, 1)]
  }

  lemma RowsFit<T>(tile: (nat, nat, nat) -> T, across: nat, down: nat, ty: nat)
    requires ty < down
    ensures |TileRows(tile, across, ty)| + 2 * across <= 2 * (across * down)
  {
    TileRowsLength(tile, across, ty);
    Arithmetic.MulSucc(across, ty);
    Arithmetic.MulMonotone(across, ty + 1, down);
  }

  // ---------------------------------------------------------------- the round trip, on the image's bytes

  /** The byte of a texel's component; rows follow one another, four bytes to a texel. */
  ghost predicate ByteIs(img: Image, x: int, y: int, component: nat, value: int) {
    var k := (y * img.width + x) * 4 + component;
    0 <= x < img.width && 0 <= y < img.height && 0 <= k < |img.data| && img.data[k] as int == value
  }

  lemma TexelIs(img: Image, x: nat, y: nat, component: nat)
    requires img.Valid() && x < img.width && y < img.height && component < 4
    ensures ByteIs(img, x, y, component, TexelOf(img, x, y, component))
  {
    TexelInRange(img, x, y, component);
  }

  /** Slot k of a tile holds the image's byte k % 4 to the right and k / 4 down, taken modulo what lies in the image. */
  lemma TileSlot(img: Image, ix: nat, iy: nat, component: nat, k: nat, ow: nat, oh: nat, x: nat, y: nat)
    requires img.Valid() && ix < img.width && iy < img.height && component < 4 && k < 16
    requires ow == (if img.width - ix < 4 then img.width - ix else 4) && oh == if img.height - iy < 4 then img.height - iy else 4
    requires x == ix + (k % 4) % ow && y == iy + (k / 4) % oh
    ensures ByteIs(img, x, y, component, Tile(img, ix, iy, component)[k])
  {
    WrapIsRemainder(k % 4, ow);
    WrapIsRemainder(k / 4, oh);
    var r := SourceSlot(k, ow, oh);
    assert Tile(img, ix, iy, component)[k] == SlotTexel(img, ix, iy, component, r);
    SlotTexelIs(img, ix, iy, component, r, x, y);
    TexelIs(img, x, y, component);
  }

  /** hi and lo are the largest and the smallest byte of the part of the image that a tile covers. */
  ghost predicate IsRange(img: Image, ix: nat, iy: nat, component: nat, hi: nat, lo: nat) {
    && (exists x, y :: ix <= x < ix + 4 && iy <= y < iy + 4 && ByteIs(img, x, y, component, hi))
    && (exists x, y :: ix <= x < ix + 4 && iy <= y < iy + 4 && ByteIs(img, x, y, component, lo))
    && (forall x, y, value :: ix <= x < ix + 4 && iy <= y < iy + 4 && ByteIs(img, x, y, component, value) ==> lo <= value <= hi)
  }

  lemma TileRange(img: Image, ix: nat, iy: nat, component: nat, tile: seq<Byte>, hi: nat, lo: nat)
    requires img.Valid() && ix < img.width && iy < img.height && component < 4 && tile == Tile(img, ix, iy, component)
    requires hi in tile && lo in tile && forall i :: 0 <= i < 16 ==> lo <= tile[i] <= hi
    ensures IsRange(img, ix, iy, component, hi, lo)
  {
    InTile(img, ix, iy, component, hi);
    InTile(img, ix, iy, component, lo);
    forall x, y, value | ix <= x < ix + 4 && iy <= y < iy + 4 && ByteIs(img, x, y, component, value)
      ensures lo <= value <= hi
    {
      InRange(img, ix, iy, component, tile, hi, lo, x, y, value);
    }
  }

  lemma InRange(img: Image, ix: nat, iy: nat, component: nat, tile: seq<Byte>, hi: nat, lo: nat, x: nat, y: nat, value: int)
    requires img.Valid() && ix < img.width && iy < img.height && component < 4 && tile == Tile(img, ix, iy, component)
    requires forall i :: 0 <= i < 16 ==> lo <= tile[i] <= hi
    requires ix <= x < ix + 4 && iy <= y < iy + 4 && ByteIs(img, x, y, component, value)
    ensures lo <= value <= hi
  {
    var k := 4 * (y - iy) + (x - ix);
    SlotPlace(x - ix, y - iy);
    TileCovers(img, ix, iy, component, k, x, y, tile[k]);
    OneByte(img, x, y, component, value, tile[k]);
  }

  lemma OneByte(img: Image, x: int, y: int, component: nat, value: int, value': int)
    requires ByteIs(img, x, y, component, value) && ByteIs(img, x, y, component, value')
    ensures value == value'
  {
  }

  /** Every texel of the image stands in its own place in the tile that covers it. */
  lemma TileCovers(img: Image, ix: nat, iy: nat, component: nat, k: nat, x: nat, y: nat, value: int)
    requires img.Valid() && k < 16 && x == ix + k % 4 < img.width && y == iy + k / 4 < img.height && component < 4
    requires value == Tile(img, ix, iy, component)[k] as int
    ensures ByteIs(img, x, y, component, value)
  {
    TileHolds(img, ix, iy, component, k);
    SlotTexelIs(img, ix, iy, component, k, x, y);
    TexelIs(img, x, y, component);
  }

  lemma InTile(img: Image, ix: nat, iy: nat, component: nat, value: nat)
    requires img.Valid() && ix < img.width && iy < img.height && component < 4 && value in Tile(img, ix, iy, component)
    ensures exists x, y :: ix <= x < ix + 4 && iy <= y < iy + 4 && ByteIs(img, x, y, component, value)
  {
    var k :| 0 <= k < 16 && Tile(img, ix, iy, component)[k] == value;
    var ow, oh := Min(4, img.width - ix), Min(4, img.height - iy);
    var x, y := ix + (k % 4) % ow, iy + (k / 4) % oh;
    TileSlot(img, ix, iy, component, k, ow, oh, x, y);
    assert ix <= x < ix + 4 && iy <= y < iy + 4 && ByteIs(img, x, y, component, value);
  }

  /** Block number n of the output. */
  ghost predicate IsBlock(out: seq<Byte>, n: int, block: seq<Byte>) {
    0 <= 8 * n && 8 * n + 8 <= |out| && block == out[8 * n..8 * n + 8]
  }

  /** The block decodes, at slot i, to the given value, to within a fourteenth of the range. */
  ghost predicate Decodes(block: seq<Byte>, i: nat, value: int, range: int)
    requires |block| == 8
  {
    -(range as real) <= 14.0 * (Texel(block, i) - value as real) <= range as real
  }

  /**
   The round trip: decoding the block that covers a texel, at the texel's place, gives the texel's byte
   back to within a fourteenth of the range of the bytes of its tile. Texel (x, y) is the one in slot k
   of the tile in column tx and row ty.
   */
  lemma RoundTrip(img: Image, out: seq<Byte>, tx: nat, ty: nat, k: nat, x: nat, y: nat, component: nat)
    returns (block: seq<Byte>, value: Byte, hi: nat, lo: nat)
    requires img.Valid() && x == 4 * tx + k % 4 < img.width && y == 4 * ty + k / 4 < img.height && k < 16 && component < 2
    requires EncodesAll(out, TileRows(Tiles(img), BlocksAcross(img.width), BlocksAcross(img.height)))
    ensures IsBlock(out, 2 * ((img.width + 3) / 4 * ty + tx) + component, block)
    ensures ByteIs(img, x, y, component, value) && IsRange(img, 4 * tx, 4 * ty, component, hi, lo)
    ensures |block| == 8 && Decodes(block, k, value, hi - lo)
  {
    block := TileBlock(img, out, tx, ty, component);
    value, hi, lo := TileDecodes(img, 4 * tx, 4 * ty, k, x, y, component, block);
  }

  lemma TileDecodes(img: Image, ix: nat, iy: nat, k: nat, x: nat, y: nat, component: nat, block: seq<Byte>)
    returns (value: Byte, hi: nat, lo: nat)
    requires img.Valid() && x == ix + k % 4 < img.width && y == iy + k / 4 < img.height && k < 16 && component < 4
    requires EncodesTile(block, Tile(img, ix, iy, component))
    ensures ByteIs(img, x, y, component, value) && IsRange(img, ix, iy, component, hi, lo)
    ensures |block| == 8 && Decodes(block, k, value, hi - lo)
  {
    var tile := Tile(img, ix, iy, component);
    hi, lo := DecodedSlot(block, tile, k);
    value := tile[k];
    TileCovers(img, ix, iy, component, k, x, y, value);
    TileRange(img, ix, iy, component, tile, hi, lo);
  }

  lemma DecodedSlot(block: seq<Byte>, tile: seq<Byte>, k: nat) returns (hi: nat, lo: nat)
    requires EncodesTile(block, tile) && k < 16
    ensures |block| == 8 && |tile| == 16 && Decodes(block, k, tile[k], hi - lo)
    ensures hi in tile && lo in tile && forall i :: 0 <= i < 16 ==> lo <= tile[i] <= hi
  {
    hi, lo :| Encodes(block, tile, hi, lo);
  }

  lemma TileBlock(img: Image, out: seq<Byte>, tx: nat, ty: nat, component: nat) returns (block: seq<Byte>)
    requires img.Valid() && 4 * tx < img.width && 4 * ty < img.height && component < 2
    requires EncodesAll(out, TileRows(Tiles(img), BlocksAcross(img.width), BlocksAcross(img.height)))
    ensures IsBlock(out, 2 * ((img.width + 3) / 4 * ty + tx) + component, block)
    ensures EncodesTile(block, Tile(img, 4 * tx, 4 * ty, component))
  {
    block := BlockOf(Tiles(img), out, BlocksAcross(img.width), BlocksAcross(img.height), tx, ty, component);
  }

  lemma BlockOf(f: (nat, nat, nat) -> seq<Byte>, out: seq<Byte>, across: nat, down: nat, tx: nat, ty: nat, component: nat)
    returns (block: seq<Byte>)
    requires EncodesAll(out, TileRows(f, across, down)) && tx < across && ty < down && component < 2
    ensures IsBlock(out, 2 * (across * ty + tx) + component, block) && EncodesTile(block, f(tx, ty, component))
  {
    var n := BlockNumber(across, tx, ty, component);
    TileRowsAt(f, across, down, tx, ty, component);
    assert n == 2 * (across * ty + tx) + component;
    block := out[8 * n..8 * n + 8];
    assert EncodesTile(block, TileRows(f, across, down)[n]);
  }
}
