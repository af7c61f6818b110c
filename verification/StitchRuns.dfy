/** Runs of stitches over all grids of the world: every line a grid gains on the way mends a crack. */
module StitchRuns {
  import opened Wrappers
  import opened Runs
  import opened BspSurface
  import opened Stitching
  import opened StitchGrowth

  /** How the grids of the world look; a surface that is no grid has no look. */
  type Scene = seq<Option<Look>>

  /** Grid j is stitched to a grid of its LOD group, grid i, and nothing else changes. */
  ghost predicate StitchAt(v: Scene, w: Scene, i: nat, j: nat, at: Place, maxGridSize: nat) {
    && i < |v| && j < |v| == |w| && v[i].Some? && v[j].Some? && w[j].Some? && w == v[j := w[j]]
    && v[j].value.Valid(maxGridSize) && v[i].value.SameGroup(v[j].value)
    && Stitched(v[i].value, v[j].value, w[j].value, at, maxGridSize)
  }

  ghost predicate Stitch(v: Scene, w: Scene, maxGridSize: nat) {
    exists i, j, at :: StitchAt(v, w, i, j, at, maxGridSize)
  }

  ghost function Stitches(maxGridSize: nat): (Scene, Scene) -> bool {
    (v, w) => Stitch(v, w, maxGridSize)
  }

  /** The scenes on the way, each of which comes from the one before by a stitch. */
  ghost predicate IsTrace(t: seq<Scene>, maxGridSize: nat) {
    t != [] && Chain(Stitches(maxGridSize), t)
  }

  /** Trace u starts like t, and is n stitches longer. */
  ghost predicate Extends(t: seq<Scene>, u: seq<Scene>, n: nat, maxGridSize: nat) {
    IsTrace(u, maxGridSize) && t != [] && u[0] == t[0] && |u| == |t| + n
  }

  /** Adds one stitch of grid j to a trace whose stitches are all of grid j. */
  lemma ExtendsStitch(t: seq<Scene>, u: seq<Scene>, n: nat, i: nat, j: nat, g: Look, o: Look, next: Look, at: Place, maxGridSize: nat)
    requires Extends(t, u, n, maxGridSize) && i < |Last(t)| && j < |Last(t)|
    requires Last(u) == Last(t)[j := Some(o)] && Last(u)[i] == Some(g)
    requires o.Valid(maxGridSize) && g.SameGroup(o) && Stitched(g, o, next, at, maxGridSize)
    ensures Extends(t, u + [Last(t)[j := Some(next)]], n + 1, maxGridSize)
  {
    var v, w := Last(u), Last(t)[j := Some(next)];
    assert w == v[j := Some(next)];
    SceneStitched(v, w, i, j, g, o, next, at, maxGridSize);
    ChainAppend(Stitches(maxGridSize), u, w);
  }

  lemma SceneStitched(v: Scene, w: Scene, i: nat, j: nat, g: Look, o: Look, next: Look, at: Place, maxGridSize: nat)
    requires i < |v| && j < |v| && v[i] == Some(g) && v[j] == Some(o) && w == v[j := Some(next)]
    requires o.Valid(maxGridSize) && g.SameGroup(o) && Stitched(g, o, next, at, maxGridSize)
    ensures Stitch(v, w, maxGridSize)
  {
    assert StitchAt(v, w, i, j, at, maxGridSize);
  }

  /** A stitched grid has room for one line less than before, and is what it was with a line added. */
  lemma StitchedGrows(g: Look, o: Look, n: Look, at: Place, maxGridSize: nat)
    requires Stitched(g, o, n, at, maxGridSize) && o.Valid(maxGridSize)
    ensures n.mesh.width + n.mesh.height == o.mesh.width + o.mesh.height + 1 && n.SameGroup(o)
    ensures Grown(o, n)
  {
    ExtendedGrows(o, n, at.side2, at.l + 1, EdgeAt(g.mesh, at.side1, (at.k + at.k2) / 2), n.EdgeErrors(at.side2)[at.l + 1],
                  maxGridSize);
  }

  /** What every run of stitches keeps: each grid stays in its group, and is what it was with lines added. */
  ghost predicate SceneGrown(v: Scene, w: Scene) {
    |v| == |w| && forall k :: 0 <= k < |v| ==> GridGrown(v[k], w[k])
  }

  ghost predicate GridGrown(o: Option<Look>, n: Option<Look>) {
    if o.Some? && n.Some? then n.value.SameGroup(o.value) && Grown(o.value, n.value) else o == n
  }

  lemma GridGrownTransitive(o: Option<Look>, m: Option<Look>, n: Option<Look>)
    requires GridGrown(o, m) && GridGrown(m, n)
    ensures GridGrown(o, n)
  {
    if o.Some? && m.Some? && n.Some? {
      GrownTransitive(o.value, m.value, n.value);
    }
  }

  lemma SceneGrownTransitive(u: Scene, v: Scene, w: Scene)
    requires SceneGrown(u, v) && SceneGrown(v, w)
    ensures SceneGrown(u, w)
  {
    forall k | 0 <= k < |u|
      ensures GridGrown(u[k], w[k])
    {
      GridGrownTransitive(u[k], v[k], w[k]);
    }
  }

  lemma StitchGrows(v: Scene, w: Scene, maxGridSize: nat)
    requires Stitch(v, w, maxGridSize)
    ensures SceneGrown(v, w)
  {
    var i, j, at :| StitchAt(v, w, i, j, at, maxGridSize);
    StitchAtGrows(v, w, i, j, at, maxGridSize);
    forall k | 0 <= k < |v| && k != j
      ensures GridGrown(v[k], w[k])
    {
      assert w[k] == v[k];
    }
  }

  lemma StitchAtGrows(v: Scene, w: Scene, i: nat, j: nat, at: Place, maxGridSize: nat)
    requires StitchAt(v, w, i, j, at, maxGridSize)
    ensures GridGrown(v[j], w[j])
  {
    StitchedGrows(v[i].value, v[j].value, w[j].value, at, maxGridSize);
  }

  /** However many stitches lead to a scene, each grid of the first scene can be read back off its grid in it. */
  lemma {:induction false} TraceGrows(t: seq<Scene>, k: nat, maxGridSize: nat)
    requires IsTrace(t, maxGridSize) && k < |t|
    ensures SceneGrown(t[0], t[k])
  {
    if k > 0 {
      TraceGrows(t, k - 1, maxGridSize);
      assert Stitches(maxGridSize)(t[k - 1], t[k]);
      StitchGrows(t[k - 1], t[k], maxGridSize);
      SceneGrownTransitive(t[0], t[k - 1], t[k]);
    }
  }
}
