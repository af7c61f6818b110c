/**
 Packing the glyphs of a font onto pages of 256 by 256 pixels, in shelves as high as the highest
 glyph. When a glyph finds no room, the page is uploaded and the glyph starts a new one.
 */
module GlyphPages {
  import opened Wrappers

  const PAGE_SIZE := 256
  const LIMIT := 255

  /** What the font library renders for a character: a bitmap, or nothing. */
  datatype Glyph = Blank | Bitmap(pitch: nat, height: nat)

  /** Where a bitmap lies on its page. */
  datatype Rect = Rect(x: nat, y: nat, width: nat, height: nat)

  /** Where the next glyph may go; no room at all is the original's pair of minus ones. */
  datatype Cursor = Full | At(x: nat, y: nat)

  ghost predicate Disjoint(a: Rect, b: Rect) {
    a.x + a.width <= b.x || b.x + b.width <= a.x || a.y + a.height <= b.y || b.y + b.height <= a.y
  }

  ghost predicate InPage(r: Rect) {
    r.x + r.width <= PAGE_SIZE && r.y + r.height <= PAGE_SIZE
  }

  function HeightOf(g: Glyph): nat {
    if g.Bitmap? then g.height else 0
  }

  /** The cursor where a bitmap is really put, after a wrap to the next shelf if it needs one. */
  function Wrapped(x: nat, y: nat, pitch: nat, maxHeight: nat): (nat, nat) {
    if x + pitch + 1 >= LIMIT then (0, y + maxHeight + 1) else (x, y)
  }

  /** There is no room for the bitmap from the cursor on. */
  predicate Refused(g: Glyph, x: nat, y: nat, maxHeight: nat) {
    g.Bitmap? && Wrapped(x, y, g.pitch, maxHeight).1 + maxHeight + 1 >= LIMIT
  }

  /** Where the bitmap is put. */
  function Placed(g: Glyph, x: nat, y: nat, maxHeight: nat): Rect
    requires g.Bitmap?
  {
    var place := Wrapped(x, y, g.pitch, maxHeight);
    Rect(place.0, place.1, g.pitch, g.height)
  }

  /** The cursor afterwards. */
  function CursorAfter(g: Glyph, x: nat, y: nat, maxHeight: nat): Cursor {
    if g.Blank? then At(x, y)
    else if Refused(g, x, y, maxHeight) then Full
    else At(Placed(g, x, y, maxHeight).x + g.pitch + 1, Placed(g, x, y, maxHeight).y)
  }

  /** The placement logic of RE_ConstructGlyphInfo: the rectangle of a bitmap, if any, and the new cursor. */
  method ConstructGlyphInfo(g: Glyph, x: nat, y: nat, maxHeight: nat) returns (rect: Option<Rect>, next: Cursor)
    requires HeightOf(g) <= maxHeight
    ensures rect == if g.Blank? || Refused(g, x, y, maxHeight) then None else Some(Placed(g, x, y, maxHeight))
    ensures next == CursorAfter(g, x, y, maxHeight)
  {
    rect := None;
    if g.Blank? {
      return None, At(x, y);
    }
    var xOut, yOut := x, y;
    if xOut + g.pitch + 1 >= LIMIT {
      xOut := 0;
      yOut := yOut + (maxHeight + 1);
    }
    if yOut + maxHeight + 1 >= LIMIT {
      return None, Full;
    }
    return Some(Rect(xOut, yOut, g.pitch, g.height)), At(xOut + g.pitch + 1, yOut);
  }

  /**
   In pixels: a bitmap that would reach column 255 goes to the start of the next shelf, one that would
   then reach row 255 is refused, and the next bitmap goes one pixel to the right of it.
   */
  lemma PlaceInPixels(g: Glyph, x: nat, y: nat, maxHeight: nat)
    requires g.Bitmap?
    ensures
      var wraps := x + g.pitch + 1 >= 255;
      var x', y' := if wraps then 0 else x, if wraps then y + maxHeight + 1 else y;
      && (Refused(g, x, y, maxHeight) <==> y' + maxHeight + 1 >= 255)
      && Placed(g, x, y, maxHeight) == Rect(x', y', g.pitch, g.height)
      && CursorAfter(g, x, y, maxHeight) == if y' + maxHeight + 1 >= 255 then Full else At(x' + g.pitch + 1, y')
  {
  }

  /** A character without a bitmap leaves the cursor where it is; only bitmaps count for the height of the shelves. */
  lemma BlanksTakeNoRoom(x: nat, y: nat, maxHeight: nat, glyphs: seq<Glyph>, m: nat)
    ensures CursorAfter(Blank, x, y, maxHeight) == At(x, y) && !Refused(Blank, x, y, maxHeight)
    ensures IsMaxHeight(glyphs, m)
       <==> && (forall i :: 0 <= i < |glyphs| && glyphs[i].Bitmap? ==> glyphs[i].height <= m)
            && (m == 0 || exists i :: 0 <= i < |glyphs| && glyphs[i].Bitmap? && glyphs[i].height == m)
  {
  }

  /** Wherever a bitmap is put, it lies inside the page exactly if it is no wider than the page. */
  lemma PlacedInPageIff(g: Glyph, x: nat, y: nat, maxHeight: nat)
    requires g.Bitmap? && g.height <= maxHeight && !Refused(g, x, y, maxHeight)
    ensures InPage(Placed(g, x, y, maxHeight)) <==> g.pitch <= PAGE_SIZE
  {
  }

  /** A glyph that an empty page refuses is refused everywhere. */
  lemma RefusedEverywhere(g: Glyph, x: nat, y: nat, maxHeight: nat)
    requires Refused(g, 0, 0, maxHeight)
    ensures Refused(g, x, y, maxHeight)
  {
  }

  /** The bitmaps that an empty page refuses: too high a shelf, or too wide and too high a shelf for two of them. */
  lemma RefusedByEmptyPageIff(g: Glyph, maxHeight: nat)
    requires g.Bitmap?
    ensures Refused(g, 0, 0, maxHeight)
       <==> maxHeight + 1 >= LIMIT || (g.pitch + 1 >= LIMIT && 2 * (maxHeight + 1) >= LIMIT)
  {
  }

  ghost predicate IsMaxHeight(glyphs: seq<Glyph>, m: nat) {
    && (forall i :: 0 <= i < |glyphs| ==> HeightOf(glyphs[i]) <= m)
    && (m == 0 || exists i :: 0 <= i < |glyphs| && HeightOf(glyphs[i]) == m)
  }

  /** The highest of the glyphs. */
  method MaxHeight(glyphs: seq<Glyph>) returns (maxHeight: nat)
    ensures IsMaxHeight(glyphs, maxHeight)
  {
    maxHeight := 0;
    for i := 0 to |glyphs|
      invariant forall k :: 0 <= k < i ==> HeightOf(glyphs[k]) <= maxHeight
      invariant maxHeight == 0 || exists k :: 0 <= k < i && HeightOf(glyphs[k]) == maxHeight
    {
      if HeightOf(glyphs[i]) > maxHeight {
        maxHeight := HeightOf(glyphs[i]);
      }
    }
  }

  // ---------------------------------------------------------------- one page

  /** Each glyph's place has the size of its bitmap. */
  ghost predicate Matches(g: Glyph, rect: Option<Rect>) {
    match g
    case Blank => rect == None
    case Bitmap(pitch, height) => rect.Some? && rect.value.width == pitch && rect.value.height == height
  }

  /** The rectangle lies on a shelf above the cursor's, or on the cursor's to its left. */
  ghost predicate Behind(r: Rect, x: nat, y: nat, maxHeight: nat) {
    && r.height <= maxHeight
    && (r.y + maxHeight + 1 <= y || (r.y == y && r.x + r.width + 1 <= x))
  }

  /** The rectangles from `start` on lie on the page that is being filled. */
  ghost predicate Filling(rects: seq<Option<Rect>>, start: nat, x: nat, y: nat, maxHeight: nat) {
    && start <= |rects| && y + maxHeight + 1 < LIMIT
    && (forall i :: start <= i < |rects| && rects[i].Some? ==>
          Behind(rects[i].value, x, y, maxHeight) && InPageIff(rects[i].value))
    && (forall i, j :: start <= i < j < |rects| && rects[i].Some? && rects[j].Some? ==> Disjoint(rects[i].value, rects[j].value))
  }

  /** The rectangle is inside the page exactly if it is no wider than the page. */
  ghost predicate InPageIff(r: Rect) {
    InPage(r) <==> r.width <= PAGE_SIZE
  }

  /** One more glyph on the page. */
  lemma PlaceKeepsFilling(rects: seq<Option<Rect>>, start: nat, x: nat, y: nat, maxHeight: nat, g: Glyph)
    requires Filling(rects, start, x, y, maxHeight) && g.Bitmap? && g.height <= maxHeight
    requires !Refused(g, x, y, maxHeight)
    ensures
      var r, next := Placed(g, x, y, maxHeight), CursorAfter(g, x, y, maxHeight);
      Filling(rects + [Some(r)], start, next.x, next.y, maxHeight)
  {
    var r, next := Placed(g, x, y, maxHeight), CursorAfter(g, x, y, maxHeight);
    PlacedInPageIff(g, x, y, maxHeight);
    forall i | start <= i < |rects| && rects[i].Some?
      ensures Disjoint(rects[i].value, r) && Behind(rects[i].value, next.x, next.y, maxHeight)
    {
      assert Behind(rects[i].value, x, y, maxHeight);
    }
  }

  // ---------------------------------------------------------------- all pages

  /** Pages are filled in order, and hold an unbroken range of glyphs each. */
  ghost predicate InOrder(shaders: seq<nat>, pages: nat) {
    && (forall i :: 0 <= i < |shaders| ==> shaders[i] < pages)
    && (forall i, j :: 0 <= i < j < |shaders| ==> shaders[i] <= shaders[j])
  }

  /** Glyphs of the same page do not overlap, and those no wider than the page lie inside it. */
  ghost predicate PagesPacked(rects: seq<Option<Rect>>, shaders: seq<nat>)
    requires |shaders| <= |rects|
  {
    && (forall i :: 0 <= i < |shaders| && rects[i].Some? ==> InPageIff(rects[i].value))
    && (forall i, j :: 0 <= i < j < |shaders| && shaders[i] == shaders[j] && rects[i].Some? && rects[j].Some? ==>
          Disjoint(rects[i].value, rects[j].value))
  }

  ghost predicate AllMatch(glyphs: seq<Glyph>, rects: seq<Option<Rect>>) {
    |rects| <= |glyphs| && forall i :: 0 <= i < |rects| ==> Matches(glyphs[i], rects[i])
  }

  /** Names the page just uploaded in the glyphs that lie on it. */
  method NamePage(shaders: seq<nat>, i: nat, page: nat) returns (named: seq<nat>)
    requires |shaders| <= i
    ensures |named| == i && named[..|shaders|] == shaders
    ensures forall k :: |shaders| <= k < i ==> named[k] == page
  {
    named := shaders;
    for j := |shaders| to i
      invariant |named| == j && named[..|shaders|] == shaders
      invariant forall k :: |shaders| <= k < j ==> named[k] == page
    {
      named := named + [page];
    }
  }

  lemma UploadKeepsOrder(shaders: seq<nat>, named: seq<nat>, pages: nat)
    requires InOrder(shaders, pages) && |shaders| <= |named| && named[..|shaders|] == shaders
    requires forall k :: |shaders| <= k < |named| ==> named[k] == pages
    ensures InOrder(named, pages + 1)
  {
    assert forall k :: 0 <= k < |shaders| ==> named[k] == shaders[k];
  }

  lemma UploadKeepsPacked(rects: seq<Option<Rect>>, shaders: seq<nat>, named: seq<nat>, pages: nat,
                          x: nat, y: nat, maxHeight: nat)
    requires |shaders| <= |named| == |rects| && named[..|shaders|] == shaders
    requires forall k :: |shaders| <= k < |named| ==> named[k] == pages
    requires InOrder(shaders, pages) && PagesPacked(rects, shaders) && Filling(rects, |shaders|, x, y, maxHeight)
    ensures PagesPacked(rects, named)
  {
    assert forall k :: 0 <= k < |shaders| ==> named[k] == shaders[k];
  }

  // ---------------------------------------------------------------- the loop, turn by turn

  /** The variables that steer the page loop: the next glyph, the cursor, and the number of the page being filled. */
  datatype Turn = Turn(i: nat, x: nat, y: nat, page: nat)

  /** One turn: the glyph is placed, or the page is uploaded and an empty one started. */
  function Next(glyphs: seq<Glyph>, maxHeight: nat, t: Turn): Turn
    requires t.i <= |glyphs|
  {
    var cursor := if t.i < |glyphs| then CursorAfter(glyphs[t.i], t.x, t.y, maxHeight) else Full;
    match cursor
    case At(x, y) => Turn(t.i + 1, x, y, t.page)
    case Full => Turn(if t.i == |glyphs| then t.i + 1 else t.i, 0, 0, t.page + 1)
  }

  /** The loop after n turns; once it has ended it stays as it is. */
  function Run(glyphs: seq<Glyph>, maxHeight: nat, n: nat): Turn {
    if n == 0 then Turn(0, 0, 0, 0)
    else
      var t := Run(glyphs, maxHeight, n - 1);
      if t.i <= |glyphs| then Next(glyphs, maxHeight, t) else t
  }

  /** Turn n gets glyph k done: this is its place, if it has one, and the page that is then being filled. */
  ghost predicate DrawnBy(glyphs: seq<Glyph>, maxHeight: nat, n: nat, k: nat, rect: Option<Rect>, page: nat)
    requires k < |glyphs|
  {
    var t := Run(glyphs, maxHeight, n);
    && t.i == k && Run(glyphs, maxHeight, n + 1).i == k + 1 && t.page == page
    && rect == if glyphs[k].Blank? then None else Some(Placed(glyphs[k], t.x, t.y, maxHeight))
  }

  ghost predicate IsDrawn(glyphs: seq<Glyph>, maxHeight: nat, k: nat, rect: Option<Rect>, page: nat)
    requires k < |glyphs|
  {
    exists n :: DrawnBy(glyphs, maxHeight, n, k, rect, page)
  }

  /** The places and pages of the first glyphs are those that some turn has drawn them at. */
  ghost predicate Drawn(glyphs: seq<Glyph>, maxHeight: nat, rects: seq<Option<Rect>>, drawnOn: seq<nat>) {
    && |drawnOn| == |rects| <= |glyphs|
    && (forall k :: 0 <= k < |rects| ==> IsDrawn(glyphs, maxHeight, k, rects[k], drawnOn[k]))
  }

  /** Each page is named in the glyphs drawn on it, once it is uploaded. */
  ghost predicate NamedAsDrawn(shaders: seq<nat>, drawnOn: seq<nat>, pages: nat) {
    && |shaders| <= |drawnOn|
    && (forall k :: 0 <= k < |drawnOn| ==> drawnOn[k] == if k < |shaders| then shaders[k] else pages)
  }

  /** A turn that gets a glyph done draws it where the turn finds the cursor. */
  lemma DrawNext(glyphs: seq<Glyph>, maxHeight: nat, n: nat, t: Turn, rects: seq<Option<Rect>>, drawnOn: seq<nat>)
    requires Drawn(glyphs, maxHeight, rects, drawnOn) && |rects| < |glyphs|
    requires Run(glyphs, maxHeight, n) == t && t.i == |rects| && !Refused(glyphs[t.i], t.x, t.y, maxHeight)
    ensures
      var rect := if glyphs[t.i].Blank? then None else Some(Placed(glyphs[t.i], t.x, t.y, maxHeight));
      Drawn(glyphs, maxHeight, rects + [rect], drawnOn + [t.page])
  {
    var rect := if glyphs[t.i].Blank? then None else Some(Placed(glyphs[t.i], t.x, t.y, maxHeight));
    var rects', drawnOn' := rects + [rect], drawnOn + [t.page];
    assert Run(glyphs, maxHeight, n + 1) == Next(glyphs, maxHeight, t);
    assert DrawnBy(glyphs, maxHeight, n, |rects|, rect, t.page);
    forall k | 0 <= k < |rects'|
      ensures IsDrawn(glyphs, maxHeight, k, rects'[k], drawnOn'[k])
    {
      if k < |rects| {
        assert rects'[k] == rects[k] && drawnOn'[k] == drawnOn[k];
      }
    }
  }

  ghost predicate Ends(glyphs: seq<Glyph>, maxHeight: nat) {
    exists n: nat :: Run(glyphs, maxHeight, n).i > |glyphs|
  }

  /** No turn gets past a glyph that an empty page refuses. */
  lemma {:induction false} NeverPasses(glyphs: seq<Glyph>, maxHeight: nat, k: nat, n: nat)
    requires k < |glyphs| && Refused(glyphs[k], 0, 0, maxHeight)
    ensures Run(glyphs, maxHeight, n).i <= k
  {
    if n > 0 {
      NeverPasses(glyphs, maxHeight, k, n - 1);
      var t := Run(glyphs, maxHeight, n - 1);
      if t.i == k {
        RefusedEverywhere(glyphs[k], t.x, t.y, maxHeight);
      }
    }
  }

  /** If no glyph is refused by an empty page, two turns are enough to get on. */
  lemma {:induction false} GetsOn(glyphs: seq<Glyph>, maxHeight: nat, i: nat) returns (n: nat)
    requires forall k :: 0 <= k < |glyphs| ==> !Refused(glyphs[k], 0, 0, maxHeight)
    requires i <= |glyphs| + 1
    ensures Run(glyphs, maxHeight, n).i >= i
  {
    n := 0;
    if i > 0 {
      n := GetsOn(glyphs, maxHeight, i - 1);
      var t := Run(glyphs, maxHeight, n);
      if t.i == i - 1 {
        n := n + 1;
        var u := Run(glyphs, maxHeight, n);
        if u.i == i - 1 {
          assert u == Turn(i - 1, 0, 0, t.page + 1);
          assert Run(glyphs, maxHeight, n + 1) == Next(glyphs, maxHeight, u);
          n := n + 1;
        }
      }
    }
  }

  /** The page loop ends exactly if an empty page refuses no glyph. */
  lemma EndsIff(glyphs: seq<Glyph>, maxHeight: nat)
    ensures Ends(glyphs, maxHeight) <==> forall k :: 0 <= k < |glyphs| ==> !Refused(glyphs[k], 0, 0, maxHeight)
  {
    if k :| 0 <= k < |glyphs| && Refused(glyphs[k], 0, 0, maxHeight) {
      forall n: nat
        ensures Run(glyphs, maxHeight, n).i <= |glyphs|
      {
        NeverPasses(glyphs, maxHeight, k, n);
      }
    } else {
      var n := GetsOn(glyphs, maxHeight, |glyphs| + 1);
      assert Run(glyphs, maxHeight, n).i > |glyphs|;
    }
  }

  /** A single glyph 254 high: every turn of the loop starts an empty page for it. */
  lemma HighGlyphHangs(n: nat)
    ensures IsMaxHeight([Bitmap(12, 254)], 254) && Run([Bitmap(12, 254)], 254, n).i == 0
  {
    var glyphs := [Bitmap(12, 254)];
    assert HeightOf(glyphs[0]) == 254;
    NeverPasses(glyphs, 254, 0, n);
  }

  /** A single glyph 300 wide and 20 high: it is placed, beyond the page's side. */
  lemma WideGlyphSticksOut()
    ensures !Refused(Bitmap(300, 20), 0, 0, 20) && !InPage(Placed(Bitmap(300, 20), 0, 0, 20))
  {
  }

  // ---------------------------------------------------------------- RegisterFont

  /** The page loop after n turns, with what it has placed and named so far, and the pages drawn on. */
  ghost predicate Packing(glyphs: seq<Glyph>, maxHeight: nat, n: nat, t: Turn,
                          rects: seq<Option<Rect>>, shaders: seq<nat>, drawnOn: seq<nat>) {
    && Run(glyphs, maxHeight, n) == t && t.i <= |glyphs| + 1
    && |rects| == (if t.i <= |glyphs| then t.i else |glyphs|) && AllMatch(glyphs, rects)
    && |shaders| <= |rects| && (t.i == |glyphs| + 1 ==> |shaders| == |glyphs|)
    && InOrder(shaders, t.page) && PagesPacked(rects, shaders) && Filling(rects, |shaders|, t.x, t.y, maxHeight)
    && Drawn(glyphs, maxHeight, rects, drawnOn) && NamedAsDrawn(shaders, drawnOn, t.page)
  }

  /** Placing the next glyph keeps the pages packed and the current one filling. */
  lemma PlaceKeepsPages(glyphs: seq<Glyph>, rects: seq<Option<Rect>>, shaders: seq<nat>, x: nat, y: nat, maxHeight: nat)
    requires |shaders| <= |rects| < |glyphs| && AllMatch(glyphs, rects) && PagesPacked(rects, shaders)
    requires HeightOf(glyphs[|rects|]) <= maxHeight && !Refused(glyphs[|rects|], x, y, maxHeight)
    requires Filling(rects, |shaders|, x, y, maxHeight)
    ensures
      var g := glyphs[|rects|];
      var next := CursorAfter(g, x, y, maxHeight);
      var all := rects + [if g.Blank? then None else Some(Placed(g, x, y, maxHeight))];
      AllMatch(glyphs, all) && PagesPacked(all, shaders) && Filling(all, |shaders|, next.x, next.y, maxHeight)
  {
    var g := glyphs[|rects|];
    if g.Bitmap? {
      PlaceKeepsFilling(rects, |shaders|, x, y, maxHeight, g);
    }
  }

  /** A turn that places a glyph. */
  lemma PlaceTurn(glyphs: seq<Glyph>, maxHeight: nat, n: nat, t: Turn,
                  rects: seq<Option<Rect>>, shaders: seq<nat>, drawnOn: seq<nat>, rect: Option<Rect>)
    requires Packing(glyphs, maxHeight, n, t, rects, shaders, drawnOn)
    requires t.i < |glyphs| && HeightOf(glyphs[t.i]) <= maxHeight && !Refused(glyphs[t.i], t.x, t.y, maxHeight)
    requires rect == if glyphs[t.i].Blank? then None else Some(Placed(glyphs[t.i], t.x, t.y, maxHeight))
    ensures Packing(glyphs, maxHeight, n + 1, Next(glyphs, maxHeight, t), rects + [rect], shaders, drawnOn + [t.page])
  {
    PlaceKeepsPages(glyphs, rects, shaders, t.x, t.y, maxHeight);
    DrawNext(glyphs, maxHeight, n, t, rects, drawnOn);
    assert Run(glyphs, maxHeight, n + 1) == Next(glyphs, maxHeight, t);
  }

  /** A turn that uploads the page being filled, and names it in its glyphs. */
  lemma UploadTurn(glyphs: seq<Glyph>, maxHeight: nat, n: nat, t: Turn,
                   rects: seq<Option<Rect>>, shaders: seq<nat>, drawnOn: seq<nat>, named: seq<nat>)
    requires Packing(glyphs, maxHeight, n, t, rects, shaders, drawnOn)
    requires t.i == |glyphs| || (t.i < |glyphs| && Refused(glyphs[t.i], t.x, t.y, maxHeight))
    requires |named| == t.i && named[..|shaders|] == shaders
    requires forall k :: |shaders| <= k < |named| ==> named[k] == t.page
    ensures Packing(glyphs, maxHeight, n + 1, Next(glyphs, maxHeight, t), rects, named, drawnOn)
  {
    UploadKeepsOrder(shaders, named, t.page);
    UploadKeepsPacked(rects, shaders, named, t.page, t.x, t.y, maxHeight);
    UploadNames(shaders, named, drawnOn, t.page);
    assert Run(glyphs, maxHeight, n + 1) == Next(glyphs, maxHeight, t);
  }

  lemma UploadNames(shaders: seq<nat>, named: seq<nat>, drawnOn: seq<nat>, page: nat)
    requires NamedAsDrawn(shaders, drawnOn, page)
    requires |shaders| <= |named| == |drawnOn| && named[..|shaders|] == shaders
    requires forall k :: |shaders| <= k < |named| ==> named[k] == page
    ensures NamedAsDrawn(named, drawnOn, page + 1)
  {
    assert forall k :: 0 <= k < |shaders| ==> named[k] == shaders[k];
  }

  lemma PackingStarts(glyphs: seq<Glyph>, maxHeight: nat)
    requires IsMaxHeight(glyphs, maxHeight)
    requires forall i :: 0 <= i < |glyphs| ==> !Refused(glyphs[i], 0, 0, maxHeight)
    ensures Packing(glyphs, maxHeight, 0, Turn(0, 0, 0, 0), [], [], [])
  {
  }

  lemma PackingDone(glyphs: seq<Glyph>, maxHeight: nat, n: nat, t: Turn,
                    rects: seq<Option<Rect>>, shaders: seq<nat>, drawnOn: seq<nat>)
    requires Packing(glyphs, maxHeight, n, t, rects, shaders, drawnOn) && t.i > |glyphs|
    ensures |rects| == |shaders| == |glyphs| && AllMatch(glyphs, rects)
    ensures InOrder(shaders, t.page) && PagesPacked(rects, shaders) && Drawn(glyphs, maxHeight, rects, shaders)
  {
    assert shaders == drawnOn;
  }

  /**
   The page loop of RegisterFont, which follows Run. If an empty page refuses no glyph, it ends; each
   glyph then names the page that was being filled when it was placed, no two glyphs that name one page
   overlap, and just those wider than the page leave it.
   */
  method PackFont(glyphs: seq<Glyph>) returns (rects: seq<Option<Rect>>, shaders: seq<nat>, pages: nat)
    requires forall i, m: nat :: 0 <= i < |glyphs| && IsMaxHeight(glyphs, m) ==> !Refused(glyphs[i], 0, 0, m)
    ensures |rects| == |shaders| == |glyphs| && AllMatch(glyphs, rects)
    ensures InOrder(shaders, pages) && PagesPacked(rects, shaders)
    ensures exists m: nat :: IsMaxHeight(glyphs, m) && Drawn(glyphs, m, rects, shaders)
  {
    var maxHeight := MaxHeight(glyphs);
    assert IsMaxHeight(glyphs, maxHeight);
    PackingStarts(glyphs, maxHeight);
    rects, shaders, pages := [], [], 0;
    var i, x, y := 0, 0, 0;
    ghost var n, t, drawnOn := 0, Turn(0, 0, 0, 0), [];
    while i <= |glyphs|
      invariant t == Turn(i, x, y, pages)
      invariant Packing(glyphs, maxHeight, n, t, rects, shaders, drawnOn)
      decreases |glyphs| + 1 - i, if x == y == 0 then 0 else 1
    {
      var rect, next := None, Full;
      if i < |glyphs| {
        rect, next := ConstructGlyphInfo(glyphs[i], x, y, maxHeight);
      }
      if next.Full? {
        shaders := UploadPage(glyphs, i, shaders, pages, n, t, maxHeight, rects, drawnOn);
        pages := pages + 1;
        x, y := 0, 0;
        if i == |glyphs| {
          i := i + 1;
        }
      } else {
        PlaceTurn(glyphs, maxHeight, n, t, rects, shaders, drawnOn, rect);
        drawnOn := drawnOn + [pages];
        rects := rects + [rect];
        x, y := next.x, next.y;
        i := i + 1;
      }
      n, t := n + 1, Next(glyphs, maxHeight, t);
    }
    PackingDone(glyphs, maxHeight, n, t, rects, shaders, drawnOn);
  }

  /** Uploads the page that is being filled, and names it in its glyphs. */
  method UploadPage(glyphs: seq<Glyph>, i: nat, shaders: seq<nat>, page: nat, ghost n: nat, ghost t: Turn,
                    ghost maxHeight: nat, ghost rects: seq<Option<Rect>>, ghost drawnOn: seq<nat>)
    returns (named: seq<nat>)
    requires Packing(glyphs, maxHeight, n, t, rects, shaders, drawnOn) && t.i == i && t.page == page
    requires i == |glyphs| || (i < |glyphs| && Refused(glyphs[i], t.x, t.y, maxHeight))
    ensures Packing(glyphs, maxHeight, n + 1, Next(glyphs, maxHeight, t), rects, named, drawnOn)
  {
    named := NamePage(shaders, i, page);
    UploadTurn(glyphs, maxHeight, n, t, rects, shaders, drawnOn, named);
  }
}
