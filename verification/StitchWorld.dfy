/** R_TryStitchingPatch and R_StitchAllPatches: stitching every grid of the world to a fixpoint. */
module StitchWorld {
  import opened Wrappers
  import opened Runs
  import opened BspSurface
  import opened Stitching
  import opened StitchGrowth
  import opened StitchRuns

  // ---------------------------------------------------------------- the world and its measure

  /** The lines a grid can still gain. */
  ghost function Spare(s: Surface, maxGridSize: nat): nat
    reads s
  {
    if s.isGrid && s.width <= maxGridSize && s.height <= maxGridSize then 2 * maxGridSize - s.width - s.height else 0
  }

  /** One surface, as far as stitching is concerned. */
  datatype Item = Item(isGrid: bool, look: Look, spare: nat, pending: nat)

  ghost function ItemOf(s: Surface, maxGridSize: nat): Item
    reads s
  {
    Item(s.isGrid, LookOf(s), Spare(s, maxGridSize), if s.isGrid && !s.lodStitched then 1 else 0)
  }

  /** The whole world. */
  ghost function Items(surfaces: seq<Surface>, maxGridSize: nat): (items: seq<Item>)
    reads surfaces
    ensures |items| == |surfaces| && forall i :: 0 <= i < |surfaces| ==> items[i] == ItemOf(surfaces[i], maxGridSize)
  {
    seq(|surfaces|, i requires 0 <= i < |surfaces| reads surfaces => ItemOf(surfaces[i], maxGridSize))
  }

  function TotalSpare(items: seq<Item>): nat {
    if items == [] then 0 else TotalSpare(items[..|items| - 1]) + items[|items| - 1].spare
  }

  function TotalPending(items: seq<Item>): nat {
    if items == [] then 0 else TotalPending(items[..|items| - 1]) + items[|items| - 1].pending
  }

  lemma {:induction false} TotalsUpdate(items: seq<Item>, i: nat, item: Item)
    requires i < |items|
    ensures TotalSpare(items[i := item]) == TotalSpare(items) - items[i].spare + item.spare
    ensures TotalPending(items[i := item]) == TotalPending(items) - items[i].pending + item.pending
  {
    var n := |items| - 1;
    if i < n {
      TotalsUpdate(items[..n], i, item);
      assert items[i := item][..n] == items[..n][i := item];
    } else {
      assert items[i := item][..n] == items[..n];
    }
  }

  /** The grids among the surfaces. */
  ghost function SceneOf(items: seq<Item>): (scene: Scene)
    ensures |scene| == |items|
    ensures forall k :: 0 <= k < |items| ==> scene[k] == if items[k].isGrid then Some(items[k].look) else None
  {
    seq(|items|, k requires 0 <= k < |items| => if items[k].isGrid then Some(items[k].look) else None)
  }

  lemma SceneUpdate(v: seq<Item>, j: nat, item: Item)
    requires j < |v| && item.isGrid
    ensures SceneOf(v[j := item]) == SceneOf(v)[j := Some(item.look)]
  {
  }

  /** The world has gained n lines; surfaces are the same grids, in the same LOD groups. */
  ghost predicate Gained(v: seq<Item>, w: seq<Item>, n: nat) {
    && |v| == |w| && TotalSpare(w) + n == TotalSpare(v)
    && (forall k :: 0 <= k < |v| ==> w[k].isGrid == v[k].isGrid && w[k].look.SameGroup(v[k].look))
  }

  lemma GainedTransitive(u: seq<Item>, v: seq<Item>, w: seq<Item>, m: nat, n: nat)
    requires Gained(u, v, m) && Gained(v, w, n)
    ensures Gained(u, w, m + n)
  {
    forall k | 0 <= k < |u|
      ensures w[k].isGrid == u[k].isGrid && w[k].look.SameGroup(u[k].look)
    {
      assert v[k].look.SameGroup(u[k].look);
    }
  }

  /** The trace ends with the world's grids as they are. */
  ghost predicate Shows(t: seq<Scene>, items: seq<Item>, maxGridSize: nat) {
    IsTrace(t, maxGridSize) && Last(t) == SceneOf(items)
  }

  /** Every grid is what it was with lines added. */
  lemma TracedGrows(v: seq<Item>, w: seq<Item>, t: seq<Scene>, maxGridSize: nat, k: nat)
    requires Shows(t, w, maxGridSize) && t[0] == SceneOf(v) && k < |v| == |w| && v[k].isGrid && w[k].isGrid
    ensures Grown(v[k].look, w[k].look)
  {
    TraceGrows(t, |t| - 1, maxGridSize);
    assert GridGrown(SceneOf(v)[k], SceneOf(w)[k]);
  }

  // ---------------------------------------------------------------- stitching one grid

  /** The inner loop: stitches grid j to grid i until nothing is left to mend. */
  method StitchPair(surfaces: seq<Surface>, i: nat, j: nat, maxGridSize: nat, ghost t: seq<Scene>)
    returns (numstitches: nat, ghost u: seq<Scene>)
    requires World(surfaces, maxGridSize) && IsTrace(t, maxGridSize) && i < |surfaces| && j < |surfaces| == |Last(t)|
    requires surfaces[i].isGrid && surfaces[j].isGrid && LookOf(surfaces[i]).SameGroup(LookOf(surfaces[j]))
    requires Last(t)[i] == Some(LookOf(surfaces[i])) && Last(t)[j] == Some(LookOf(surfaces[j]))
    modifies surfaces[j]
    ensures surfaces[j].Valid(maxGridSize) && surfaces[j].isGrid
    ensures LookOf(surfaces[j]).SameGroup(old(LookOf(surfaces[j])))
    ensures Extends(t, u, numstitches, maxGridSize) && Last(u) == Last(t)[j := Some(LookOf(surfaces[j]))]
    ensures Spare(surfaces[j], maxGridSize) == old(Spare(surfaces[j], maxGridSize)) - numstitches
    ensures numstitches == 0 ==> unchanged(surfaces[j])
    ensures !Mendable(LookOf(surfaces[i]), LookOf(surfaces[j]), maxGridSize)
  {
    numstitches, u := 0, t;
    var more := true;
    while more
      invariant surfaces[j].Valid(maxGridSize) && surfaces[j].isGrid && surfaces[i].Valid(maxGridSize) && surfaces[i].isGrid
      invariant LookOf(surfaces[j]).SameGroup(old(LookOf(surfaces[j])))
      invariant LookOf(surfaces[i]).SameGroup(LookOf(surfaces[j]))
      invariant Extends(t, u, numstitches, maxGridSize)
      invariant Last(u) == Last(t)[j := Some(LookOf(surfaces[j]))] && Last(u)[i] == Some(LookOf(surfaces[i]))
      invariant Spare(surfaces[j], maxGridSize) == old(Spare(surfaces[j], maxGridSize)) - numstitches
      invariant numstitches == 0 ==> unchanged(surfaces[j])
      invariant !more ==> !Mendable(LookOf(surfaces[i]), LookOf(surfaces[j]), maxGridSize)
      decreases if more then 1 else 0, Spare(surfaces[j], maxGridSize)
    {
      more, u := StitchOnce(surfaces, i, j, maxGridSize, t, u, numstitches);
      if more {
        numstitches := numstitches + 1;
      }
    }
  }

  /** One attempt to stitch grid j to grid i; a stitch is added to the trace. */
  method StitchOnce(surfaces: seq<Surface>, i: nat, j: nat, maxGridSize: nat, ghost t: seq<Scene>, ghost u: seq<Scene>, ghost n: nat)
    returns (more: bool, ghost w: seq<Scene>)
    requires Extends(t, u, n, maxGridSize) && i < |surfaces| && j < |surfaces| == |Last(t)| && (surfaces[i] != surfaces[j] || i == j)
    requires surfaces[i].Valid(maxGridSize) && surfaces[i].isGrid && surfaces[j].Valid(maxGridSize) && surfaces[j].isGrid
    requires LookOf(surfaces[i]).SameGroup(LookOf(surfaces[j]))
    requires Last(u) == Last(t)[j := Some(LookOf(surfaces[j]))] && Last(u)[i] == Some(LookOf(surfaces[i]))
    modifies surfaces[j]
    ensures surfaces[j].Valid(maxGridSize) && surfaces[j].isGrid
    ensures LookOf(surfaces[j]).SameGroup(old(LookOf(surfaces[j])))
    ensures Extends(t, w, if more then n + 1 else n, maxGridSize)
    ensures Last(w) == Last(t)[j := Some(LookOf(surfaces[j]))] && Last(w)[i] == Some(LookOf(surfaces[i]))
    ensures more ==> Spare(surfaces[j], maxGridSize) == old(Spare(surfaces[j], maxGridSize)) - 1
    ensures !more ==> unchanged(surfaces[j]) && !Mendable(LookOf(surfaces[i]), LookOf(surfaces[j]), maxGridSize)
  {
    ghost var g, o := LookOf(surfaces[i]), LookOf(surfaces[j]);
    ghost var at;
    more, at := StitchPatches(surfaces[i], surfaces[j], maxGridSize);
    w := u;
    if more {
      ghost var next := LookOf(surfaces[j]);
      StitchedGrows(g, o, next, at, maxGridSize);
      ExtendsStitch(t, u, n, i, j, g, o, next, at, maxGridSize);
      w := u + [Last(t)[j := Some(next)]];
    }
  }

  /** StitchPair seen from the whole world: only surface j has changed. */
  method StitchPairInWorld(surfaces: seq<Surface>, i: nat, j: nat, maxGridSize: nat, ghost v: seq<Item>, ghost t: seq<Scene>)
    returns (numstitches: nat, ghost w: seq<Item>, ghost u: seq<Scene>)
    requires World(surfaces, maxGridSize) && i < |surfaces| && j < |surfaces|
    requires surfaces[i].isGrid && surfaces[j].isGrid && LookOf(surfaces[i]).SameGroup(LookOf(surfaces[j]))
    requires v == Items(surfaces, maxGridSize) && Shows(t, v, maxGridSize)
    modifies surfaces[j]
    ensures World(surfaces, maxGridSize) && w == Items(surfaces, maxGridSize)
    ensures w == v[j := w[j]] && w[j].isGrid && w[j].look.SameGroup(v[j].look) && w[j].spare + numstitches == v[j].spare
    ensures Shows(u, w, maxGridSize) && Extends(t, u, numstitches, maxGridSize)
    ensures numstitches == 0 ==> w[j] == v[j]
    ensures w[i].look.Valid(maxGridSize) && w[j].look.Valid(maxGridSize) && !Mendable(w[i].look, w[j].look, maxGridSize)
  {
    numstitches, u := StitchPair(surfaces, i, j, maxGridSize, t);
    w := Items(surfaces, maxGridSize);
    forall k | 0 <= k < |surfaces| && k != j
      ensures surfaces[k] != surfaces[j]
    {
    }
    assert w == v[j := w[j]];
    SceneUpdate(v, j, w[j]);
  }

  /** If surfaces i and j are grids of one LOD group, grid i can mend nothing in grid j. */
  ghost predicate Mended(items: seq<Item>, i: nat, j: nat, maxGridSize: nat)
    requires i < |items| && j < |items|
  {
    items[i].isGrid && items[j].isGrid && items[i].look.SameGroup(items[j].look) ==>
      && items[i].look.Valid(maxGridSize) && items[j].look.Valid(maxGridSize)
      && !Mendable(items[i].look, items[j].look, maxGridSize)
  }

  /** Grid i can mend nothing in the grids from number `from` up to j. */
  ghost predicate AllMended(items: seq<Item>, i: nat, from: nat, j: nat, maxGridSize: nat)
    requires i < |items| && j <= |items|
  {
    forall k :: from <= k < j ==> Mended(items, i, k, maxGridSize)
  }

  /** What is known after grid i has been tried against the surfaces before j, with n stitches. */
  ghost predicate Progress(v: seq<Item>, w: seq<Item>, i: nat, j: nat, n: nat, maxGridSize: nat)
    requires i < |v|
  {
    && Gained(v, w, n) && j <= |w| && (n == 0 ==> w == v)
    && (j <= i ==> w[i].look == v[i].look)
    && AllMended(w, i, i, j, maxGridSize)
    && (w[i].look == v[i].look ==> AllMended(w, i, 0, j, maxGridSize))
  }

  lemma ProgressStep(v: seq<Item>, w: seq<Item>, i: nat, j: nat, n: nat, item: Item, m: nat, maxGridSize: nat)
    requires i < |v| && Progress(v, w, i, j, n, maxGridSize) && j < |w|
    requires item.look.SameGroup(w[j].look) && item.isGrid == w[j].isGrid && item.spare + m == w[j].spare
    requires m == 0 ==> item == w[j]
    requires Mended(w[j := item], i, j, maxGridSize)
    ensures Progress(v, w[j := item], i, j + 1, n + m, maxGridSize)
  {
    var w' := w[j := item];
    TotalsUpdate(w, j, item);
    forall k | 0 <= k < j && w'[i].look == w[i].look && Mended(w, i, k, maxGridSize)
      ensures Mended(w', i, k, maxGridSize)
    {
      assert w'[k] == w[k];
    }
  }

  /**
   Stitches every grid of grid i's LOD group to grid i. The number returned is the number of lines
   the world has gained; afterwards grid i can mend nothing in the grids from itself on, and nothing
   at all unless it has been stitched to itself on the way.
   */
  method TryStitchingPatch(surfaces: seq<Surface>, i: nat, maxGridSize: nat, ghost v: seq<Item>, ghost t: seq<Scene>)
    returns (numstitches: nat, ghost w: seq<Item>, ghost u: seq<Scene>)
    requires World(surfaces, maxGridSize) && i < |surfaces| && surfaces[i].isGrid && v == Items(surfaces, maxGridSize)
    requires Shows(t, v, maxGridSize)
    modifies surfaces
    ensures World(surfaces, maxGridSize) && w == Items(surfaces, maxGridSize)
    ensures Progress(v, w, i, |surfaces|, numstitches, maxGridSize)
    ensures Shows(u, w, maxGridSize) && Extends(t, u, numstitches, maxGridSize)
  {
    numstitches, w, u := 0, v, t;
    for j := 0 to |surfaces|
      invariant World(surfaces, maxGridSize) && w == Items(surfaces, maxGridSize)
      invariant Progress(v, w, i, j, numstitches, maxGridSize)
      invariant Shows(u, w, maxGridSize) && Extends(t, u, numstitches, maxGridSize)
    {
      var n;
      n, w, u := TryPair(surfaces, i, j, maxGridSize, v, w, numstitches, u);
      numstitches := numstitches + n;
    }
  }

  method TryPair(surfaces: seq<Surface>, i: nat, j: nat, maxGridSize: nat, ghost v0: seq<Item>, ghost v: seq<Item>, ghost m: nat,
                 ghost t: seq<Scene>)
    returns (numstitches: nat, ghost w: seq<Item>, ghost u: seq<Scene>)
    requires World(surfaces, maxGridSize) && v == Items(surfaces, maxGridSize) && Shows(t, v, maxGridSize)
    requires i < |surfaces| == |v0| && j < |surfaces| && v0[i].isGrid && Progress(v0, v, i, j, m, maxGridSize)
    modifies surfaces
    ensures World(surfaces, maxGridSize) && w == Items(surfaces, maxGridSize)
    ensures Progress(v0, w, i, j + 1, m + numstitches, maxGridSize)
    ensures Shows(u, w, maxGridSize) && Extends(t, u, numstitches, maxGridSize)
  {
    var grid1, grid2 := surfaces[i], surfaces[j];
    if grid2.isGrid && grid1.lodRadius == grid2.lodRadius && grid1.lodOrigin == grid2.lodOrigin {
      numstitches, w, u := StitchPairInWorld(surfaces, i, j, maxGridSize, v, t);
    } else {
      numstitches, w, u := 0, v, t;
      assert w == v[j := w[j]];
    }
    ProgressStep(v0, v, i, j, m, w[j], numstitches, maxGridSize);
  }

  // ---------------------------------------------------------------- stitching them all

  /** The first n surfaces have nothing pending. */
  ghost predicate AllStitched(items: seq<Item>, n: nat) {
    forall k :: 0 <= k < n && k < |items| ==> items[k].pending == 0
  }

  /**
   Stitches the whole world. Insertions send grids back to be stitched again, but each one uses up
   room, so the pair (room left, grids pending) goes down with every pass that does anything; the
   loop ends with every grid marked stitched. As many lines are gained as there were stitches, each of
   which mended a crack between two grids of one group, and every grid is what it was with lines added.
   */
  method StitchAllPatches(surfaces: seq<Surface>, maxGridSize: nat) returns (numstitches: nat, ghost t: seq<Scene>)
    requires World(surfaces, maxGridSize)
    modifies surfaces
    ensures World(surfaces, maxGridSize)
    ensures Gained(old(Items(surfaces, maxGridSize)), Items(surfaces, maxGridSize), numstitches)
    ensures IsTrace(t, maxGridSize) && |t| == numstitches + 1
    ensures t[0] == old(SceneOf(Items(surfaces, maxGridSize))) && Last(t) == SceneOf(Items(surfaces, maxGridSize))
    ensures forall k :: 0 <= k < |surfaces| && old(surfaces[k].isGrid) ==> Grown(old(LookOf(surfaces[k])), LookOf(surfaces[k]))
    ensures forall k :: 0 <= k < |surfaces| && surfaces[k].isGrid ==> surfaces[k].lodStitched
  {
    ghost var v := Items(surfaces, maxGridSize);
    ghost var w := v;
    numstitches, t := 0, [SceneOf(v)];
    var stitched := true;
    while stitched
      invariant World(surfaces, maxGridSize) && w == Items(surfaces, maxGridSize) && Gained(v, w, numstitches)
      invariant Shows(t, w, maxGridSize) && Extends([SceneOf(v)], t, numstitches, maxGridSize)
      invariant !stitched ==> AllStitched(w, |w|)
      decreases if stitched then 1 else 0, TotalSpare(w), TotalPending(w)
    {
      ghost var u := w;
      var n;
      stitched, n, w, t := StitchPass(surfaces, maxGridSize, w, t);
      GainedTransitive(v, u, w, numstitches, n);
      numstitches := numstitches + n;
    }
    forall k | 0 <= k < |surfaces| && v[k].isGrid
      ensures Grown(v[k].look, w[k].look)
    {
      TracedGrows(v, w, t, maxGridSize, k);
    }
    forall k | 0 <= k < |surfaces| && surfaces[k].isGrid
      ensures surfaces[k].lodStitched
    {
      assert w[k].pending == 0;
    }
  }

  /** One pass over all surfaces. */
  method StitchPass(surfaces: seq<Surface>, maxGridSize: nat, ghost v: seq<Item>, ghost t: seq<Scene>)
    returns (stitched: bool, numstitches: nat, ghost w: seq<Item>, ghost u: seq<Scene>)
    requires World(surfaces, maxGridSize) && v == Items(surfaces, maxGridSize) && Shows(t, v, maxGridSize)
    modifies surfaces
    ensures World(surfaces, maxGridSize) && w == Items(surfaces, maxGridSize) && Gained(v, w, numstitches)
    ensures Shows(u, w, maxGridSize) && Extends(t, u, numstitches, maxGridSize)
    ensures !stitched ==> AllStitched(w, |w|)
    ensures stitched ==> numstitches > 0 || TotalPending(w) < TotalPending(v)
  {
    stitched, numstitches, w, u := false, 0, v, t;
    for i := 0 to |surfaces|
      invariant World(surfaces, maxGridSize) && w == Items(surfaces, maxGridSize) && Gained(v, w, numstitches)
      invariant Shows(u, w, maxGridSize) && Extends(t, u, numstitches, maxGridSize)
      invariant !stitched ==> numstitches == 0 && w == v && AllStitched(w, i)
      invariant stitched ==> numstitches > 0 || TotalPending(w) < TotalPending(v)
    {
      if surfaces[i].isGrid && !surfaces[i].lodStitched {
        var n;
        n, w, u := StitchOne(surfaces, i, maxGridSize, v, w, numstitches, u);
        stitched := true;
        numstitches := numstitches + n;
      }
    }
  }

  /** Marks a grid stitched and stitches its group to it; only insertions can make grids pending again. */
  method StitchOne(surfaces: seq<Surface>, i: nat, maxGridSize: nat, ghost v0: seq<Item>, ghost v: seq<Item>, ghost m: nat,
                   ghost t: seq<Scene>)
    returns (numstitches: nat, ghost w: seq<Item>, ghost u: seq<Scene>)
    requires World(surfaces, maxGridSize) && v == Items(surfaces, maxGridSize) && Shows(t, v, maxGridSize) && Gained(v0, v, m)
    requires i < |surfaces| && surfaces[i].isGrid && !surfaces[i].lodStitched
    modifies surfaces
    ensures World(surfaces, maxGridSize) && w == Items(surfaces, maxGridSize) && Gained(v0, w, m + numstitches)
    ensures Shows(u, w, maxGridSize) && Extends(t, u, numstitches, maxGridSize)
    ensures numstitches > 0 || TotalPending(w) + 1 == TotalPending(v)
  {
    ghost var marked := MarkStitched(surfaces, i, maxGridSize, v);
    GainedTransitive(v0, v, marked, m, 0);
    numstitches, w, u := TryStitchingPatch(surfaces, i, maxGridSize, marked, t);
    GainedTransitive(v0, marked, w, m, numstitches);
  }

  method MarkStitched(surfaces: seq<Surface>, i: nat, maxGridSize: nat, ghost v: seq<Item>) returns (ghost w: seq<Item>)
    requires World(surfaces, maxGridSize) && i < |surfaces| && surfaces[i].isGrid && !surfaces[i].lodStitched
    requires v == Items(surfaces, maxGridSize)
    modifies surfaces[i]
    ensures World(surfaces, maxGridSize) && w == Items(surfaces, maxGridSize)
    ensures Gained(v, w, 0) && TotalPending(w) + 1 == TotalPending(v) && SceneOf(w) == SceneOf(v)
  {
    surfaces[i].lodStitched := true;
    forall k | 0 <= k < |surfaces| && k != i && surfaces[k].isGrid
      ensures surfaces[k] != surfaces[i]
    {
    }
    w := Items(surfaces, maxGridSize);
    assert w == v[i := v[i].(pending := 0)];
    MarkGains(v, i);
  }

  lemma MarkGains(v: seq<Item>, i: nat)
    requires i < |v| && v[i].pending == 1
    ensures
      var w := v[i := v[i].(pending := 0)];
      Gained(v, w, 0) && TotalPending(w) + 1 == TotalPending(v) && SceneOf(w) == SceneOf(v)
  {
    TotalsUpdate(v, i, v[i].(pending := 0));
  }
}
