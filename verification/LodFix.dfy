/**
 R_FixSharedVertexLodError: LOD errors spread from grid to touching grid by a depth-first search, so
 that grids which share a border change their level of detail together.
 */
module LodFix {
  import opened BspSurface
  import opened Stitching
  import opened LodErrors

  // ---------------------------------------------------------------- the graph of touching grids

  /** One surface: whether it is a grid, what it looks like, its mark, and whether its errors are final. */
  datatype Item = Item(isGrid: bool, look: Look, mark: int, fixed: bool)

  ghost function ItemOf(s: Surface): Item
    reads s
  {
    Item(s.isGrid, LookOf(s), s.lodFixed, s.isGrid && s.lodFixed == 2)
  }

  ghost function Items(surfaces: seq<Surface>): (items: seq<Item>)
    reads surfaces
    ensures |items| == |surfaces| && forall i :: 0 <= i < |surfaces| ==> items[i] == ItemOf(surfaces[i])
  {
    seq(|surfaces|, i requires 0 <= i < |surfaces| reads surfaces => ItemOf(surfaces[i]))
  }

  /** Grids x and y belong to one LOD group and share an interior point of unmerged edges. */
  ghost predicate Touch(v: seq<Item>, x: nat, y: nat) {
    && x < |v| && y < |v| && v[x].isGrid && v[y].isGrid && v[x].look.SameGroup(v[y].look)
    && v[x].look.mesh.Valid() && v[y].look.mesh.Valid() && Touching(v[x].look.mesh, v[y].look.mesh)
  }

  lemma TouchSymmetric(v: seq<Item>, x: nat, y: nat)
    ensures Touch(v, x, y) <==> Touch(v, y, x)
  {
    if Touch(v, x, y) {
      TouchingSymmetric(v[x].look.mesh, v[y].look.mesh);
    }
    if Touch(v, y, x) {
      TouchingSymmetric(v[y].look.mesh, v[x].look.mesh);
    }
  }

  ghost predicate IsPath(v: seq<Item>, path: seq<nat>, x: nat, y: nat) {
    && |path| > 0 && path[0] == x && path[|path| - 1] == y
    && (forall k, l :: 0 <= k && l == k + 1 < |path| ==> Touch(v, path[k], path[l]))
  }

  /** Grid y can be reached from grid x over touching grids. */
  ghost predicate Connected(v: seq<Item>, x: nat, y: nat) {
    exists path :: IsPath(v, path, x, y)
  }

  lemma ConnectedStep(v: seq<Item>, x: nat, y: nat, z: nat)
    requires Connected(v, x, y) && Touch(v, y, z)
    ensures Connected(v, x, z)
  {
    var path :| IsPath(v, path, x, y);
    assert IsPath(v, path + [z], x, z);
  }

  lemma ConnectedSelf(v: seq<Item>, x: nat)
    ensures Connected(v, x, x)
  {
    assert IsPath(v, [x], x, x);
  }

  lemma {:induction false} ConnectedTransitive(v: seq<Item>, x: nat, y: nat, path: seq<nat>, z: nat)
    requires Connected(v, x, y) && IsPath(v, path, y, z)
    ensures Connected(v, x, z)
    decreases |path|
  {
    if |path| > 1 {
      var n := |path| - 1;
      assert IsPath(v, path[..n], y, path[n - 1]);
      ConnectedTransitive(v, x, y, path[..n], path[n - 1]);
      assert Touch(v, path[n - 1], path[n]);
      ConnectedStep(v, x, path[n - 1], z);
    }
  }

  /** A set of grids closed under touching contains everything it is connected to. */
  lemma {:induction false} ClosedUnderPaths(v: seq<Item>, path: seq<nat>, x: nat, y: nat, closed: set<nat>)
    requires IsPath(v, path, x, y) && x in closed
    requires forall a, b :: a in closed && Touch(v, a, b) ==> b in closed
    ensures y in closed
    decreases |path|
  {
    if |path| > 1 {
      var n := |path| - 1;
      assert IsPath(v, path[..n], x, path[n - 1]);
      ClosedUnderPaths(v, path[..n], x, path[n - 1], closed);
      assert Touch(v, path[n - 1], path[n]);
    }
  }

  /** Nothing but error lists and marks has changed, and those of fixed surfaces have not either. */
  ghost predicate SameShapes(v: seq<Item>, w: seq<Item>) {
    && |v| == |w|
    && (forall k :: 0 <= k < |v| ==>
          w[k].isGrid == v[k].isGrid && w[k].look.mesh == v[k].look.mesh && w[k].look.SameGroup(v[k].look))
    && (forall k :: 0 <= k < |v| && (v[k].fixed || !w[k].fixed) ==> w[k] == v[k])
  }

  lemma TouchKept(v: seq<Item>, w: seq<Item>, x: nat, y: nat)
    requires SameShapes(v, w)
    ensures Touch(v, x, y) <==> Touch(w, x, y)
  {
  }

  lemma ConnectedKept(v: seq<Item>, w: seq<Item>, x: nat, y: nat)
    requires SameShapes(v, w) && Connected(w, x, y)
    ensures Connected(v, x, y)
  {
    var path :| IsPath(w, path, x, y);
    forall k, l | 0 <= k && l == k + 1 < |path|
      ensures Touch(v, path[k], path[l])
    {
      TouchKept(v, w, path[k], path[l]);
    }
    assert IsPath(v, path, x, y);
  }

  // ---------------------------------------------------------------- what the search has done so far

  /** Surface y has become fixed between v and w. */
  ghost predicate New(v: seq<Item>, w: seq<Item>, y: nat) {
    y < |v| == |w| && !v[y].fixed && w[y].fixed
  }

  /** One grid took over the errors of another. */
  datatype Copy = Copy(from: nat, to: nat)

  /** Grid g is the target of one of the first k copies. */
  ghost predicate Reached(steps: seq<Copy>, k: nat, g: nat) {
    exists m :: 0 <= m < k && m < |steps| && steps[m].to == g
  }

  /**
   Copy number k goes to a touching grid, from a root or from the target of an earlier copy, and
   leaves the target with the errors its source has in the end.
   */
  ghost predicate CopyOk(v: seq<Item>, w: seq<Item>, roots: set<nat>, steps: seq<Copy>, k: nat)
    requires k < |steps|
  {
    var c := steps[k];
    && c.to < |v| == |w| && Touch(v, c.from, c.to) && w[c.from].look.mesh == v[c.from].look.mesh
    && (c.from in roots || Reached(steps, k, c.from))
    && Inherits(w[c.from].look, v[c.to].look, w[c.to].look)
  }

  /** The copies, in the order they were made; no grid is the target of two of them, or a root. */
  ghost predicate Copies(v: seq<Item>, w: seq<Item>, roots: set<nat>, steps: seq<Copy>) {
    && (forall k :: 0 <= k < |steps| ==> CopyOk(v, w, roots, steps, k) && steps[k].to !in roots)
    && (forall k, l :: 0 <= k < l < |steps| ==> steps[k].to != steps[l].to)
  }

  /**
   Grid `root` has been compared with the surfaces from `start` up to j: the grids fixed on the way
   are just the targets of the copies made; each is connected to the root, and has no unfixed
   neighbour left from `start` on; nor has the root, among the surfaces seen.
   */
  ghost predicate Scanned(v: seq<Item>, w: seq<Item>, start: nat, root: nat, j: nat, steps: seq<Copy>) {
    && SameShapes(v, w) && root < |v| && v[root].fixed
    && Copies(v, w, {root}, steps)
    && (forall y: nat :: New(v, w, y) <==> Reached(steps, |steps|, y))
    && (forall y :: New(v, w, y) ==> start <= y && Connected(v, root, y))
    && (forall x, y :: New(v, w, x) && start <= y && Touch(v, x, y) ==> w[y].fixed)
    && (forall y :: start <= y < j && Touch(v, root, y) ==> w[y].fixed)
  }

  lemma ScanStart(v: seq<Item>, start: nat, root: nat)
    requires root < |v| && v[root].fixed
    ensures Scanned(v, v, start, root, start, [])
  {
  }

  lemma ScanSkip(v: seq<Item>, w: seq<Item>, start: nat, root: nat, j: nat, steps: seq<Copy>)
    requires Scanned(v, w, start, root, j, steps) && j < |v| && (w[j].fixed || !Touch(v, root, j))
    ensures Scanned(v, w, start, root, j + 1, steps)
  {
  }

  /** Fixing grid j and searching on from it. */
  ghost predicate Fixes(w: seq<Item>, w1: seq<Item>, root: nat, j: nat) {
    && j < |w| == |w1| && root < |w| && w[j].isGrid && !w[j].fixed && w1 == w[j := w1[j]] && w1[j].fixed && w1[j].isGrid
    && w1[j].look.mesh == w[j].look.mesh && w1[j].look.SameGroup(w[j].look)
    && w[root].look.mesh.Valid() && w[j].look.mesh.Valid()
    && Inherits(w[root].look, w[j].look, w1[j].look)
  }

  lemma VisitShapes(v: seq<Item>, w: seq<Item>, root: nat, j: nat, w1: seq<Item>, w2: seq<Item>)
    requires SameShapes(v, w) && Fixes(w, w1, root, j) && SameShapes(w1, w2)
    ensures SameShapes(v, w1) && SameShapes(v, w2)
    ensures forall y: nat :: New(v, w2, y) <==> New(v, w, y) || y == j || New(w1, w2, y)
    ensures |w2| == |w| && forall y: nat :: New(v, w, y) ==> w2[y] == w[y]
    ensures w2[j] == w1[j]
  {
    forall k | 0 <= k < |v|
      ensures w2[k].isGrid == v[k].isGrid && w2[k].look.mesh == v[k].look.mesh && w2[k].look.SameGroup(v[k].look)
    {
      assert w1[k].isGrid == v[k].isGrid && w1[k].look.mesh == v[k].look.mesh && w1[k].look.SameGroup(v[k].look);
    }
  }

  /** The copies of the search from grid j, behind those made before and the one to grid j itself. */
  function Visited(before: seq<Copy>, root: nat, j: nat, after: seq<Copy>): (steps: seq<Copy>)
    ensures |steps| == |before| + 1 + |after|
    ensures forall k :: 0 <= k < |before| ==> steps[k] == before[k]
    ensures steps[|before|] == Copy(root, j)
    ensures forall k :: 0 <= k < |after| ==> steps[|before| + 1 + k] == after[k]
  {
    before + [Copy(root, j)] + after
  }

  lemma ReachedVisited(before: seq<Copy>, root: nat, j: nat, after: seq<Copy>, y: nat)
    ensures
      var steps := Visited(before, root, j, after);
      Reached(steps, |steps|, y) <==> Reached(before, |before|, y) || y == j || Reached(after, |after|, y)
  {
    var steps := Visited(before, root, j, after);
    assert steps[|before|].to == j;
    if Reached(before, |before|, y) || Reached(after, |after|, y) {
      ReachedInParts(before, root, j, after, y);
    }
    if Reached(steps, |steps|, y) {
      var m :| 0 <= m < |steps| && steps[m].to == y;
      if m < |before| {
        assert before[m].to == y;
      } else if m > |before| {
        assert after[m - |before| - 1].to == y;
      }
    }
  }

  lemma ReachedInParts(before: seq<Copy>, root: nat, j: nat, after: seq<Copy>, y: nat)
    requires Reached(before, |before|, y) || Reached(after, |after|, y)
    ensures
      var steps := Visited(before, root, j, after);
      Reached(steps, |steps|, y)
  {
    var steps := Visited(before, root, j, after);
    if Reached(before, |before|, y) {
      var m :| 0 <= m < |before| && before[m].to == y;
      assert steps[m].to == y;
    } else {
      var m :| 0 <= m < |after| && after[m].to == y;
      assert steps[|before| + 1 + m].to == y;
    }
  }

  /** The grids that a run of copies has used are as they were. */
  ghost predicate Untouched(w: seq<Item>, w2: seq<Item>, roots: set<nat>, steps: seq<Copy>) {
    |w| == |w2| && forall y: nat :: y in roots || Reached(steps, |steps|, y) ==> y < |w| && w2[y] == w[y]
  }

  /** The copies in `part` stand in `steps` from place n on. */
  ghost predicate Within(part: seq<Copy>, steps: seq<Copy>, n: nat) {
    n + |part| <= |steps| && forall m :: 0 <= m < |part| ==> steps[n + m] == part[m]
  }

  /** The copies made before stay right, since their grids do not change again. */
  lemma OldCopy(v: seq<Item>, w: seq<Item>, w2: seq<Item>, roots: set<nat>, roots': set<nat>,
                steps: seq<Copy>, steps': seq<Copy>, k: nat)
    requires k < |steps| && CopyOk(v, w, roots, steps, k) && roots <= roots'
    requires Within(steps, steps', 0) && Untouched(w, w2, roots, steps)
    ensures CopyOk(v, w2, roots', steps', k)
  {
    var c := steps[k];
    assert steps'[0 + k] == c;
    assert Reached(steps, |steps|, c.to);
    if c.from !in roots {
      var m :| 0 <= m < k && steps[m].to == c.from;
      assert Reached(steps, |steps|, c.from);
      assert steps'[0 + m].to == c.from;
      assert Reached(steps', k, c.from);
    }
  }

  lemma OldCopies(v: seq<Item>, w: seq<Item>, w2: seq<Item>, roots: set<nat>, roots': set<nat>,
                  steps: seq<Copy>, steps': seq<Copy>)
    requires Copies(v, w, roots, steps) && roots <= roots'
    requires Within(steps, steps', 0) && Untouched(w, w2, roots, steps)
    ensures forall k :: 0 <= k < |steps| ==> CopyOk(v, w2, roots', steps', k)
  {
    forall k | 0 <= k < |steps|
      ensures CopyOk(v, w2, roots', steps', k)
    {
      OldCopy(v, w, w2, roots, roots', steps, steps', k);
    }
  }

  /** The targets of the copies were not fixed yet. */
  ghost predicate Fresh(w: seq<Item>, steps: seq<Copy>) {
    forall y: nat :: Reached(steps, |steps|, y) ==> y < |w| && !w[y].fixed
  }

  /** The copies of a later search are right from where the world was before. */
  lemma NewCopy(v: seq<Item>, w1: seq<Item>, w2: seq<Item>, root: nat, roots: set<nat>,
                after: seq<Copy>, steps: seq<Copy>, n: nat, k: nat)
    requires SameShapes(v, w1) && k < |after| && CopyOk(w1, w2, {root}, after, k) && Within(after, steps, n)
    requires root in roots || Reached(steps, n, root)
    requires Fresh(w1, after)
    ensures CopyOk(v, w2, roots, steps, n + k)
  {
    var c := after[k];
    assert steps[n + k] == c;
    assert Reached(after, |after|, c.to);
    assert w1[c.to] == v[c.to];
    TouchKept(v, w1, c.from, c.to);
    NewSource(c.from, root, roots, after, steps, n, k);
  }

  lemma NewSource(from: nat, root: nat, roots: set<nat>, after: seq<Copy>, steps: seq<Copy>, n: nat, k: nat)
    requires k < |after| && Within(after, steps, n) && (root in roots || Reached(steps, n, root))
    requires from == root || Reached(after, k, from)
    ensures from in roots || Reached(steps, n + k, from)
  {
    if from == root {
      if root !in roots {
        var m :| 0 <= m < n && m < |steps| && steps[m].to == root;
        assert Reached(steps, n + k, root);
      }
    } else {
      var m :| 0 <= m < k && after[m].to == from;
      assert steps[n + m].to == from;
      assert Reached(steps, n + k, from);
    }
  }

  lemma NewCopies(v: seq<Item>, w1: seq<Item>, w2: seq<Item>, root: nat, roots: set<nat>,
                  after: seq<Copy>, steps: seq<Copy>, n: nat)
    requires SameShapes(v, w1) && Copies(w1, w2, {root}, after) && Within(after, steps, n)
    requires root in roots || Reached(steps, n, root)
    requires Fresh(w1, after)
    ensures forall k :: n <= k < n + |after| ==> CopyOk(v, w2, roots, steps, k)
  {
    forall k | n <= k < n + |after|
      ensures CopyOk(v, w2, roots, steps, k)
    {
      NewCopy(v, w1, w2, root, roots, after, steps, n, k - n);
    }
  }

  /** The grids fixed by the search from grid j. */
  lemma VisitNew(v: seq<Item>, w: seq<Item>, start: nat, root: nat, j: nat, w1: seq<Item>, w2: seq<Item>,
                 before: seq<Copy>, after: seq<Copy>)
    requires Scanned(v, w, start, root, j, before) && start <= j && Touch(v, root, j)
    requires Fixes(w, w1, root, j) && Scanned(w1, w2, start, j, |v|, after)
    ensures
      var steps := Visited(before, root, j, after);
      && (forall y: nat :: New(v, w2, y) <==> Reached(steps, |steps|, y))
      && (forall y :: New(v, w2, y) ==> start <= y && Connected(v, root, y))
  {
    VisitShapes(v, w, root, j, w1, w2);
    forall y: nat
      ensures New(v, w2, y) <==> Reached(Visited(before, root, j, after), |before| + 1 + |after|, y)
    {
      ReachedVisited(before, root, j, after, y);
    }
    forall y | New(v, w2, y)
      ensures start <= y && Connected(v, root, y)
    {
      VisitConnected(v, w, start, root, j, w1, w2, before, after, y);
    }
  }

  lemma VisitConnected(v: seq<Item>, w: seq<Item>, start: nat, root: nat, j: nat, w1: seq<Item>, w2: seq<Item>,
                       before: seq<Copy>, after: seq<Copy>, y: nat)
    requires Scanned(v, w, start, root, j, before) && start <= j && Touch(v, root, j)
    requires Fixes(w, w1, root, j) && Scanned(w1, w2, start, j, |v|, after) && New(v, w2, y)
    ensures start <= y && Connected(v, root, y)
  {
    VisitShapes(v, w, root, j, w1, w2);
    ConnectedSelf(v, root);
    ConnectedStep(v, root, root, j);
    if y != j && !New(v, w, y) {
      ConnectedKept(v, w1, j, y);
      var path :| IsPath(v, path, j, y);
      ConnectedTransitive(v, root, j, path, y);
    }
  }

  lemma VisitOldCopies(v: seq<Item>, w: seq<Item>, start: nat, root: nat, j: nat, w1: seq<Item>, w2: seq<Item>,
                       before: seq<Copy>, after: seq<Copy>)
    requires Scanned(v, w, start, root, j, before) && Fixes(w, w1, root, j) && SameShapes(w1, w2)
    ensures forall k :: 0 <= k < |before| ==> CopyOk(v, w2, {root}, Visited(before, root, j, after), k)
  {
    VisitShapes(v, w, root, j, w1, w2);
    OldCopies(v, w, w2, {root}, {root}, before, Visited(before, root, j, after));
  }

  /** The copy to grid j itself. */
  lemma VisitCopy(v: seq<Item>, w: seq<Item>, start: nat, root: nat, j: nat, w1: seq<Item>, w2: seq<Item>,
                  before: seq<Copy>, after: seq<Copy>)
    requires Scanned(v, w, start, root, j, before) && Touch(v, root, j) && Fixes(w, w1, root, j) && SameShapes(w1, w2)
    ensures CopyOk(v, w2, {root}, Visited(before, root, j, after), |before|)
  {
    VisitShapes(v, w, root, j, w1, w2);
    assert w2[root] == w[root] == v[root] && w[j] == v[j];
  }

  lemma VisitNewCopies(v: seq<Item>, w: seq<Item>, start: nat, root: nat, j: nat, w1: seq<Item>, w2: seq<Item>,
                       before: seq<Copy>, after: seq<Copy>)
    requires Scanned(v, w, start, root, j, before) && Fixes(w, w1, root, j) && Scanned(w1, w2, start, j, |v|, after)
    ensures forall k :: |before| < k < |before| + 1 + |after| ==> CopyOk(v, w2, {root}, Visited(before, root, j, after), k)
  {
    VisitShapes(v, w, root, j, w1, w2);
    var steps := Visited(before, root, j, after);
    assert steps[|before|].to == j;
    assert Fresh(w1, after) by {
      forall y: nat | Reached(after, |after|, y)
        ensures y < |w1| && !w1[y].fixed
      {
        assert New(w1, w2, y);
      }
    }
    NewCopies(v, w1, w2, j, {root}, after, steps, |before| + 1);
  }

  /** The targets of the copies of a search are apart. */
  lemma VisitApart(v: seq<Item>, w: seq<Item>, start: nat, root: nat, j: nat, w1: seq<Item>, w2: seq<Item>,
                   before: seq<Copy>, after: seq<Copy>, k: nat, l: nat)
    requires Scanned(v, w, start, root, j, before) && Fixes(w, w1, root, j) && Scanned(w1, w2, start, j, |v|, after)
    requires k < l < |before| + 1 + |after|
    ensures Visited(before, root, j, after)[k].to != Visited(before, root, j, after)[l].to
  {
    VisitTarget(v, w, start, root, j, w1, w2, before, after, k);
    VisitTarget(v, w, start, root, j, w1, w2, before, after, l);
    if l < |before| {
      assert before[k].to != before[l].to;
    } else if k > |before| {
      assert after[k - |before| - 1].to != after[l - |before| - 1].to;
    }
  }

  lemma VisitTargets(v: seq<Item>, w: seq<Item>, start: nat, root: nat, j: nat, w1: seq<Item>, w2: seq<Item>,
                     before: seq<Copy>, after: seq<Copy>)
    requires Scanned(v, w, start, root, j, before) && Fixes(w, w1, root, j) && Scanned(w1, w2, start, j, |v|, after)
    ensures
      var steps := Visited(before, root, j, after);
      && (forall k :: 0 <= k < |steps| ==> steps[k].to != root)
      && (forall k, l :: 0 <= k < l < |steps| ==> steps[k].to != steps[l].to)
  {
    var steps := Visited(before, root, j, after);
    forall k | 0 <= k < |steps|
      ensures steps[k].to != root
    {
      VisitTarget(v, w, start, root, j, w1, w2, before, after, k);
    }
    forall k, l | 0 <= k < l < |steps|
      ensures steps[k].to != steps[l].to
    {
      VisitApart(v, w, start, root, j, w1, w2, before, after, k, l);
    }
  }

  lemma VisitCopies(v: seq<Item>, w: seq<Item>, start: nat, root: nat, j: nat, w1: seq<Item>, w2: seq<Item>,
                    before: seq<Copy>, after: seq<Copy>)
    requires Scanned(v, w, start, root, j, before) && start <= j && Touch(v, root, j)
    requires Fixes(w, w1, root, j) && Scanned(w1, w2, start, j, |v|, after)
    ensures Copies(v, w2, {root}, Visited(before, root, j, after))
  {
    VisitOldCopies(v, w, start, root, j, w1, w2, before, after);
    VisitCopy(v, w, start, root, j, w1, w2, before, after);
    VisitNewCopies(v, w, start, root, j, w1, w2, before, after);
    VisitTargets(v, w, start, root, j, w1, w2, before, after);
  }

  /** Each target was fixed in the part of the search its copy belongs to. */
  lemma VisitTarget(v: seq<Item>, w: seq<Item>, start: nat, root: nat, j: nat, w1: seq<Item>, w2: seq<Item>,
                    before: seq<Copy>, after: seq<Copy>, k: nat)
    requires Scanned(v, w, start, root, j, before) && Fixes(w, w1, root, j) && Scanned(w1, w2, start, j, |v|, after)
    requires k < |before| + 1 + |after|
    ensures
      var y := Visited(before, root, j, after)[k].to;
      New(v, w2, y) && (k < |before| <==> New(v, w, y)) && (k > |before| <==> New(w1, w2, y))
  {
    VisitShapes(v, w, root, j, w1, w2);
    var y := Visited(before, root, j, after)[k].to;
    if k < |before| {
      assert Reached(before, |before|, y);
    } else if k > |before| {
      assert after[k - |before| - 1].to == y;
      assert Reached(after, |after|, y);
    }
  }

  lemma ScanVisit(v: seq<Item>, w: seq<Item>, start: nat, root: nat, j: nat, w1: seq<Item>, w2: seq<Item>,
                  before: seq<Copy>, after: seq<Copy>)
    requires Scanned(v, w, start, root, j, before) && start <= j && Touch(v, root, j)
    requires Fixes(w, w1, root, j) && Scanned(w1, w2, start, j, |v|, after)
    ensures Scanned(v, w2, start, root, j + 1, Visited(before, root, j, after))
  {
    VisitShapes(v, w, root, j, w1, w2);
    VisitNew(v, w, start, root, j, w1, w2, before, after);
    VisitCopies(v, w, start, root, j, w1, w2, before, after);
    forall x, y | New(v, w2, x) && start <= y && Touch(v, x, y)
      ensures w2[y].fixed
    {
      TouchKept(v, w1, x, y);
      if New(v, w, x) {
        assert w[y].fixed && w1[y].fixed;
      }
    }
    forall y | start <= y < j + 1 && Touch(v, root, y)
      ensures w2[y].fixed
    {
      if y < j {
        assert w[y].fixed && w1[y].fixed;
      }
    }
  }

  // ---------------------------------------------------------------- the search

  ghost function Unfixed(v: seq<Item>): set<int> {
    set y | 0 <= y < |v| && v[y].isGrid && !v[y].fixed
  }

  /** Takes grid j's errors from grid `root` and fixes it, if the two are in one LOD group and touch. */
  method TryFix(surfaces: seq<Surface>, root: nat, j: nat, ghost maxGridSize: nat, ghost v: seq<Item>)
    returns (touch: bool, ghost w: seq<Item>)
    requires World(surfaces, maxGridSize) && v == Items(surfaces)
    requires root < |surfaces| && j < |surfaces| && v[root].isGrid && v[root].fixed
    modifies surfaces[j]
    ensures World(surfaces, maxGridSize) && w == Items(surfaces)
    ensures !touch ==> w == v && (v[j].fixed || !Touch(v, root, j))
    ensures touch ==> Touch(v, root, j) && Fixes(v, w, root, j)
  {
    w := v;
    touch := false;
    var grid1, grid2 := surfaces[root], surfaces[j];
    if !grid2.isGrid || grid2.lodFixed == 2 || grid1.lodRadius != grid2.lodRadius || grid1.lodOrigin != grid2.lodOrigin {
      return;
    }
    touch := ShareErrors(grid1, grid2, maxGridSize);
    forall k | 0 <= k < |surfaces| && k != j
      ensures surfaces[k] != surfaces[j]
    {
    }
    if touch {
      grid2.lodFixed := 2;
    }
    w := Items(surfaces);
    assert w == v[j := w[j]];
  }

  /**
   Searches on from grid `root` among the surfaces from `start` on: everything left unfixed there
   that is connected to the root is fixed, each grid by one copy from the root or from a grid that a
   copy has reached before.
   */
  method FixSharedVertexLodErrorFrom(surfaces: seq<Surface>, start: nat, root: nat, ghost maxGridSize: nat, ghost v: seq<Item>)
    returns (ghost w: seq<Item>, ghost steps: seq<Copy>)
    requires World(surfaces, maxGridSize) && v == Items(surfaces)
    requires start <= |surfaces| && root < |surfaces| && v[root].isGrid && v[root].fixed
    modifies surfaces
    ensures World(surfaces, maxGridSize) && w == Items(surfaces)
    ensures Scanned(v, w, start, root, |surfaces|, steps)
    decreases Unfixed(v)
  {
    w, steps := v, [];
    ScanStart(v, start, root);
    for j := start to |surfaces|
      invariant World(surfaces, maxGridSize) && w == Items(surfaces)
      invariant Scanned(v, w, start, root, j, steps)
    {
      ghost var u := w;
      var touch;
      touch, w := TryFix(surfaces, root, j, maxGridSize, w);
      if !touch {
        TouchKept(v, u, root, j);
        ScanSkip(v, u, start, root, j, steps);
      } else {
        ghost var w1 := w;
        TouchKept(v, u, root, j);
        assert Unfixed(w1) < Unfixed(v) by {
          assert j in Unfixed(v) && j !in Unfixed(w1);
        }
        ghost var after;
        w, after := FixSharedVertexLodErrorFrom(surfaces, start, j, maxGridSize, w1);
        ScanVisit(v, u, start, root, j, w1, w, steps, after);
        steps := Visited(steps, root, j, after);
      }
    }
  }

  // ---------------------------------------------------------------- all components

  /** Fixed grids have only fixed neighbours. */
  ghost predicate Closed(v: seq<Item>) {
    forall x: nat, y: nat :: Touch(v, x, y) && v[x].fixed ==> v[y].fixed
  }

  lemma {:induction false} ClosedForward(v: seq<Item>, path: seq<nat>, x: nat, y: nat)
    requires Closed(v) && IsPath(v, path, x, y) && x < |v| && v[x].fixed
    ensures y < |v| && v[y].fixed
    decreases |path|
  {
    if |path| > 1 {
      var n := |path| - 1;
      assert IsPath(v, path[..n], x, path[n - 1]);
      ClosedForward(v, path[..n], x, path[n - 1]);
      assert Touch(v, path[n - 1], path[n]);
    }
  }

  lemma {:induction false} ClosedBackward(v: seq<Item>, path: seq<nat>, x: nat, y: nat)
    requires Closed(v) && IsPath(v, path, x, y) && y < |v| && v[y].fixed
    ensures x < |v| && v[x].fixed
    decreases |path|
  {
    if |path| > 1 {
      var n := |path| - 1;
      assert IsPath(v, path[..n], x, path[n - 1]);
      assert Touch(v, path[n - 1], path[n]);
      TouchSymmetric(v, path[n - 1], path[n]);
      ClosedBackward(v, path[..n], x, path[n - 1]);
    }
  }

  /** Marking a root before searching from it. */
  ghost predicate Marked(v: seq<Item>, v1: seq<Item>, root: nat) {
    root < |v| && v[root].isGrid && !v[root].fixed && v1 == v[root := v[root].(mark := 2, fixed := true)]
  }

  lemma MarkedShapes(v: seq<Item>, v1: seq<Item>, root: nat)
    requires Marked(v, v1, root)
    ensures SameShapes(v, v1) && SameMeshes(v1, v)
  {
  }

  /** Like SameShapes, without the marks: the same grids, with the same vertices. */
  ghost predicate SameMeshes(v: seq<Item>, w: seq<Item>) {
    && |v| == |w|
    && (forall k :: 0 <= k < |v| ==>
          w[k].isGrid == v[k].isGrid && w[k].look.mesh == v[k].look.mesh && w[k].look.SameGroup(v[k].look))
  }

  lemma ConnectedSame(v: seq<Item>, w: seq<Item>, x: nat, y: nat)
    requires SameMeshes(v, w) && Connected(v, x, y)
    ensures Connected(w, x, y)
  {
    var path :| IsPath(v, path, x, y);
    forall k, l | 0 <= k && l == k + 1 < |path|
      ensures Touch(w, path[k], path[l])
    {
      assert Touch(v, path[k], path[l]);
    }
    assert IsPath(w, path, x, y);
  }

  /** Once everything before the root was fixed and closed, so is everything up to and including its component. */
  lemma ComponentCloses(v: seq<Item>, v1: seq<Item>, w: seq<Item>, root: nat, steps: seq<Copy>)
    requires Marked(v, v1, root) && Closed(v) && Scanned(v1, w, root + 1, root, |v|, steps)
    requires forall k :: 0 <= k < root && v[k].isGrid ==> v[k].fixed
    ensures Closed(w) && SameShapes(v, w)
  {
    MarkedShapes(v, v1, root);
    assert SameShapes(v, w);
    forall x: nat, y: nat | Touch(w, x, y) && w[x].fixed
      ensures w[y].fixed
    {
      TouchKept(v1, w, x, y);
      TouchKept(v, v1, x, y);
      if y <= root {
        assert v1[y].fixed;
      } else if x != root {
        if v[x].fixed {
          assert v[y].fixed && v1[y].fixed;
        } else {
          assert New(v1, w, x);
        }
      }
    }
  }

  /** A search from a root fixes exactly the grids connected to it. */
  lemma ComponentExact(v: seq<Item>, v1: seq<Item>, w: seq<Item>, root: nat, steps: seq<Copy>, y: nat)
    requires Marked(v, v1, root) && Closed(v) && Closed(w) && SameShapes(v, w) && Scanned(v1, w, root + 1, root, |v|, steps)
    requires y < |v| && v[y].isGrid
    ensures New(v, w, y) <==> Connected(v, root, y)
  {
    MarkedShapes(v, v1, root);
    assert w[root] == v1[root];
    if New(v, w, y) {
      if y == root {
        ConnectedSelf(v, root);
      } else {
        assert New(v1, w, y);
        ConnectedSame(v1, v, root, y);
      }
    }
    if Connected(v, root, y) {
      ConnectedSame(v, w, root, y);
      var path :| IsPath(w, path, root, y);
      ClosedForward(w, path, root, y);
      if v[y].fixed {
        var back :| IsPath(v, back, root, y);
        ClosedBackward(v, back, root, y);
      }
    }
  }

  // ---------------------------------------------------------------- R_FixSharedVertexLodError

  ghost predicate Rooted(v0: seq<Item>, roots: set<nat>, y: nat) {
    exists r :: r in roots && Connected(v0, r, y)
  }

  /**
   Where the errors of the fixed grids come from: the roots have kept theirs, and every other fixed
   grid is the target of just one copy, from a root or from the target of an earlier copy.
   */
  ghost predicate Inherited(v0: seq<Item>, v: seq<Item>, roots: set<nat>, steps: seq<Copy>) {
    && |v| == |v0|
    && Copies(v0, v, roots, steps)
    && (forall y: nat :: y < |v| ==> (v[y].fixed <==> y in roots || Reached(steps, |steps|, y)))
    && (forall r: nat :: r in roots ==> r < |v| && v[r].look == v0[r].look)
  }

  /** The state of the outer loop: the surfaces before i are done, component by component. */
  ghost predicate Spread(v0: seq<Item>, v: seq<Item>, roots: set<nat>, i: nat, steps: seq<Copy>) {
    && SameShapes(v0, v) && Closed(v) && i <= |v|
    && (forall k :: 0 <= k < i && v[k].isGrid ==> v[k].fixed)
    && (forall k :: 0 <= k < |v| && v[k].isGrid && !v[k].fixed ==> v[k].mark == 0)
    && (forall r, r' :: r in roots && r' in roots && Connected(v0, r, r') ==> r == r')
    && (forall r, y :: r in roots && Connected(v0, r, y) ==> r <= y)
    && (forall y: nat :: y < |v| && v[y].fixed ==> v[y].isGrid && Rooted(v0, roots, y))
    && Inherited(v0, v, roots, steps)
  }

  lemma NewRootIsApart(v0: seq<Item>, v: seq<Item>, roots: set<nat>, i: nat, steps: seq<Copy>)
    requires Spread(v0, v, roots, i, steps) && i < |v| && v[i].isGrid && !v[i].fixed
    ensures forall r, r' :: r in roots + {i} && r' in roots + {i} && Connected(v0, r, r') ==> r == r'
  {
    forall r, r' | r in roots + {i} && r' in roots + {i} && Connected(v0, r, r')
      ensures r == r'
    {
      ConnectedSame(v0, v, r, r');
      var path :| IsPath(v, path, r, r');
      if r in roots && r' == i {
        ClosedForward(v, path, r, i);
      } else if r == i && r' in roots {
        ClosedBackward(v, path, i, r');
      }
    }
  }

  /** Everything connected to the next root is behind it: all grids before it are fixed, with their components. */
  lemma NewRootIsLowest(v0: seq<Item>, v: seq<Item>, roots: set<nat>, i: nat, steps: seq<Copy>, y: nat)
    requires Spread(v0, v, roots, i, steps) && i < |v| && v[i].isGrid && !v[i].fixed && Connected(v0, i, y)
    ensures i <= y
  {
    ConnectedSame(v0, v, i, y);
    var path :| IsPath(v, path, i, y);
    if y < i {
      var n := |path| - 1;
      assert Touch(v, path[n - 1], path[n]);
      ClosedBackward(v, path, i, y);
      assert false;
    }
  }

  /** What is fixed in the end, and that it is a grid connected to a root. */
  lemma FixedAfter(v0: seq<Item>, v: seq<Item>, v1: seq<Item>, w: seq<Item>, roots: set<nat>, i: nat,
                   steps: seq<Copy>, after: seq<Copy>, y: nat)
    requires Spread(v0, v, roots, i, steps) && Marked(v, v1, i) && Scanned(v1, w, i + 1, i, |v|, after)
    requires y < |w| && w[y].fixed
    ensures w[y].isGrid && Rooted(v0, roots + {i}, y)
    ensures v[y].fixed || y == i || New(v1, w, y)
  {
    MarkedShapes(v, v1, i);
    if v[y].fixed {
      var r :| r in roots && Connected(v0, r, y);
      assert r in roots + {i};
    } else if y == i {
      ConnectedSelf(v0, i);
      assert i in roots + {i};
    } else {
      assert New(v1, w, y);
      var m :| 0 <= m < |after| && after[m].to == y;
      assert CopyOk(v1, w, {i}, after, m);
      ConnectedSame(v1, v, i, y);
      ConnectedKept(v0, v, i, y);
      assert i in roots + {i};
    }
  }

  lemma ReachedBoth(steps: seq<Copy>, after: seq<Copy>, y: nat)
    ensures Reached(steps + after, |steps + after|, y) <==> Reached(steps, |steps|, y) || Reached(after, |after|, y)
  {
    var all := steps + after;
    if Reached(steps, |steps|, y) {
      var m :| 0 <= m < |steps| && steps[m].to == y;
      assert all[m].to == y;
    }
    if Reached(after, |after|, y) {
      var m :| 0 <= m < |after| && after[m].to == y;
      assert all[|steps| + m].to == y;
    }
    if Reached(all, |all|, y) {
      var m :| 0 <= m < |all| && all[m].to == y;
      if m < |steps| {
        assert steps[m].to == y;
      } else {
        assert after[m - |steps|].to == y;
      }
    }
  }

  lemma ShapesTransitive(u: seq<Item>, v: seq<Item>, w: seq<Item>)
    requires SameShapes(u, v) && SameShapes(v, w)
    ensures SameShapes(u, w)
  {
  }

  lemma OldCopiesAfter(v0: seq<Item>, v: seq<Item>, v1: seq<Item>, w: seq<Item>, roots: set<nat>, i: nat,
                       steps: seq<Copy>, after: seq<Copy>)
    requires Inherited(v0, v, roots, steps) && Marked(v, v1, i) && SameShapes(v1, w)
    ensures forall k :: 0 <= k < |steps| ==> CopyOk(v0, w, roots + {i}, steps + after, k)
  {
    MarkedShapes(v, v1, i);
    ShapesTransitive(v, v1, w);
    OldCopies(v0, v, w, roots, roots + {i}, steps, steps + after);
  }

  lemma NewCopiesAfter(v0: seq<Item>, v: seq<Item>, v1: seq<Item>, w: seq<Item>, roots: set<nat>, i: nat,
                       steps: seq<Copy>, after: seq<Copy>)
    requires SameShapes(v0, v) && Marked(v, v1, i) && Scanned(v1, w, i + 1, i, |v|, after)
    ensures forall k :: |steps| <= k < |steps + after| ==> CopyOk(v0, w, roots + {i}, steps + after, k)
  {
    MarkedShapes(v, v1, i);
    ShapesTransitive(v0, v, v1);
    assert Fresh(v1, after) by {
      forall y: nat | Reached(after, |after|, y)
        ensures y < |v1| && !v1[y].fixed
      {
        assert New(v1, w, y);
      }
    }
    NewCopies(v0, v1, w, i, roots + {i}, after, steps + after, |steps|);
  }

  /** The copies of all searches so far and of the one from root i, one behind the other. */
  lemma CopiesAfter(v0: seq<Item>, v: seq<Item>, v1: seq<Item>, w: seq<Item>, roots: set<nat>, i: nat,
                    steps: seq<Copy>, after: seq<Copy>)
    requires Inherited(v0, v, roots, steps) && SameShapes(v0, v) && Marked(v, v1, i) && Scanned(v1, w, i + 1, i, |v|, after)
    ensures Copies(v0, w, roots + {i}, steps + after)
  {
    OldCopiesAfter(v0, v, v1, w, roots, i, steps, after);
    NewCopiesAfter(v0, v, v1, w, roots, i, steps, after);
    TargetsApart(v0, v, v1, w, roots, i, steps, after);
  }

  /** Each target was fixed before or by the search, according to its copy. */
  lemma TargetAfter(v0: seq<Item>, v: seq<Item>, v1: seq<Item>, w: seq<Item>, roots: set<nat>, i: nat,
                    steps: seq<Copy>, after: seq<Copy>, k: nat)
    requires Inherited(v0, v, roots, steps) && Marked(v, v1, i) && Scanned(v1, w, i + 1, i, |v|, after)
    requires k < |steps + after|
    ensures
      var y := (steps + after)[k].to;
      y !in roots + {i} && y < |v| && (k < |steps| <==> v[y].fixed)
  {
    var y := (steps + after)[k].to;
    if k < |steps| {
      assert CopyOk(v0, v, roots, steps, k);
      assert Reached(steps, |steps|, y);
    } else {
      assert after[k - |steps|].to == y;
      assert Reached(after, |after|, y);
      assert New(v1, w, y);
    }
  }

  lemma TargetsApart(v0: seq<Item>, v: seq<Item>, v1: seq<Item>, w: seq<Item>, roots: set<nat>, i: nat,
                     steps: seq<Copy>, after: seq<Copy>)
    requires Inherited(v0, v, roots, steps) && Marked(v, v1, i) && Scanned(v1, w, i + 1, i, |v|, after)
    ensures forall k :: 0 <= k < |steps + after| ==> (steps + after)[k].to !in roots + {i}
    ensures forall k, l :: 0 <= k < l < |steps + after| ==> (steps + after)[k].to != (steps + after)[l].to
  {
    var all := steps + after;
    forall k | 0 <= k < |all|
      ensures all[k].to !in roots + {i}
    {
      TargetAfter(v0, v, v1, w, roots, i, steps, after, k);
    }
    forall k, l | 0 <= k < l < |all|
      ensures all[k].to != all[l].to
    {
      TargetAfter(v0, v, v1, w, roots, i, steps, after, k);
      TargetAfter(v0, v, v1, w, roots, i, steps, after, l);
      if k >= |steps| {
        assert after[k - |steps|].to != after[l - |steps|].to;
      }
    }
  }

  lemma InheritedAfter(v0: seq<Item>, v: seq<Item>, v1: seq<Item>, w: seq<Item>, roots: set<nat>, i: nat,
                       steps: seq<Copy>, after: seq<Copy>)
    requires Spread(v0, v, roots, i, steps) && Marked(v, v1, i) && Scanned(v1, w, i + 1, i, |v|, after)
    ensures Inherited(v0, w, roots + {i}, steps + after)
  {
    MarkedShapes(v, v1, i);
    CopiesAfter(v0, v, v1, w, roots, i, steps, after);
    forall y: nat | y < |w|
      ensures w[y].fixed <==> y in roots + {i} || Reached(steps + after, |steps + after|, y)
    {
      ReachedBoth(steps, after, y);
      if w[y].fixed {
        FixedAfter(v0, v, v1, w, roots, i, steps, after, y);
      }
    }
    forall r: nat | r in roots + {i}
      ensures r < |w| && w[r].look == v0[r].look
    {
      assert v1[r].fixed;
    }
  }

  lemma SpreadStep(v0: seq<Item>, v: seq<Item>, v1: seq<Item>, w: seq<Item>, roots: set<nat>, i: nat,
                   steps: seq<Copy>, after: seq<Copy>)
    requires Spread(v0, v, roots, i, steps) && Marked(v, v1, i) && Scanned(v1, w, i + 1, i, |v|, after)
    ensures Spread(v0, w, roots + {i}, i + 1, steps + after)
  {
    ComponentCloses(v, v1, w, i, after);
    NewRootIsApart(v0, v, roots, i, steps);
    forall r, y | r in roots + {i} && Connected(v0, r, y)
      ensures r <= y
    {
      if r !in roots {
        NewRootIsLowest(v0, v, roots, i, steps, y);
      }
    }
    InheritedAfter(v0, v, v1, w, roots, i, steps, after);
    forall y: nat | y < |w| && w[y].fixed
      ensures w[y].isGrid && Rooted(v0, roots + {i}, y)
    {
      FixedAfter(v0, v, v1, w, roots, i, steps, after, y);
    }
    assert forall k :: 0 <= k < |v| && v[k].fixed ==> w[k] == v[k];
    assert w[i] == v1[i];
  }

  /** Just the component of the root has become fixed. */
  lemma StepExact(v: seq<Item>, v1: seq<Item>, w: seq<Item>, i: nat, after: seq<Copy>)
    requires Closed(v) && Closed(w) && SameShapes(v, w) && Marked(v, v1, i) && Scanned(v1, w, i + 1, i, |v|, after)
    ensures forall y: nat :: y < |v| && v[y].isGrid ==> (New(v, w, y) <==> Connected(v, i, y))
  {
    forall y: nat | y < |v| && v[y].isGrid
      ensures New(v, w, y) <==> Connected(v, i, y)
    {
      ComponentExact(v, v1, w, i, after, y);
    }
  }

  /**
   Fixes the LOD errors of the whole world: every grid ends fixed; the roots, the grids of lowest
   index of each set of connected grids, keep their errors; and every other grid is the target of one copy, from a root or
   from a grid reached before, whose final errors it has at every vertex it shares with that grid.
   */
  method FixSharedVertexLodError(surfaces: seq<Surface>, ghost maxGridSize: nat) returns (ghost roots: set<nat>, ghost steps: seq<Copy>)
    requires World(surfaces, maxGridSize)
    requires forall k :: 0 <= k < |surfaces| && surfaces[k].isGrid ==> surfaces[k].lodFixed == 0
    modifies surfaces
    ensures World(surfaces, maxGridSize)
    ensures forall k :: 0 <= k < |surfaces| && surfaces[k].isGrid ==> surfaces[k].lodFixed == 2
    ensures Spread(old(Items(surfaces)), Items(surfaces), roots, |surfaces|, steps)
  {
    ghost var v0 := Items(surfaces);
    ghost var v := v0;
    roots, steps := {}, [];
    for i := 0 to |surfaces|
      invariant World(surfaces, maxGridSize) && v == Items(surfaces)
      invariant Spread(v0, v, roots, i, steps)
    {
      v, roots, steps := FixComponent(surfaces, i, maxGridSize, v0, v, roots, steps);
    }
    forall k | 0 <= k < |surfaces| && surfaces[k].isGrid
      ensures surfaces[k].lodFixed == 2
    {
      assert v[k].fixed;
    }
  }

  /** One turn of the outer loop: if surface i is a grid not yet fixed, its whole component is fixed. */
  method FixComponent(surfaces: seq<Surface>, i: nat, ghost maxGridSize: nat, ghost v0: seq<Item>, ghost v: seq<Item>,
                      ghost roots: set<nat>, ghost steps: seq<Copy>)
    returns (ghost w: seq<Item>, ghost roots': set<nat>, ghost steps': seq<Copy>)
    requires World(surfaces, maxGridSize) && v == Items(surfaces) && i < |surfaces| && Spread(v0, v, roots, i, steps)
    modifies surfaces
    ensures World(surfaces, maxGridSize) && w == Items(surfaces)
    ensures Spread(v0, w, roots', i + 1, steps')
    ensures !v[i].isGrid || v[i].fixed ==> w == v && roots' == roots && steps' == steps
    ensures v[i].isGrid && !v[i].fixed ==>
              roots' == roots + {i} && forall y: nat :: y < |v| && v[y].isGrid ==> (New(v, w, y) <==> Connected(v, i, y))
  {
    w, roots', steps' := v, roots, steps;
    var grid1 := surfaces[i];
    if !grid1.isGrid || grid1.lodFixed != 0 {
      return;
    }
    grid1.lodFixed := 2;
    forall k | 0 <= k < |surfaces| && k != i
      ensures surfaces[k] != surfaces[i]
    {
    }
    ghost var v1 := Items(surfaces);
    assert v1 == v[i := v1[i]];
    ghost var after;
    w, after := FixSharedVertexLodErrorFrom(surfaces, i + 1, i, maxGridSize, v1);
    roots', steps' := roots + {i}, steps + after;
    SpreadStep(v0, v, v1, w, roots, i, steps, after);
    ComponentCloses(v, v1, w, i, after);
    StepExact(v, v1, w, i, after);
  }

  // ---------------------------------------------------------------- where every error comes from

  /** One entry of an error list of one grid. */
  datatype Entry = Entry(grid: nat, along: bool, l: nat)

  ghost predicate HasEntry(v: seq<Item>, e: Entry) {
    e.grid < |v| && e.l < |Errors(v[e.grid].look, e.along)|
  }

  ghost function ErrorOf(v: seq<Item>, e: Entry): real
    requires HasEntry(v, e)
  {
    Errors(v[e.grid].look, e.along)[e.l]
  }

  /** Cursor c is the last match of entry e, and stands for entry f. */
  ghost predicate MatchedAt(v0: seq<Item>, v: seq<Item>, e: Entry, f: Entry, c: Cursor)
    requires HasEntry(v, e) && f.grid < |v| && e.grid < |v0| && v[f.grid].look.mesh.Valid() && v0[e.grid].look.mesh.Valid()
  {
    && Source(v[f.grid].look, v0[e.grid].look.mesh, e.along, e.l, END, c, ErrorOf(v, e))
    && f.along == AlongWidth(SIDES[c.s1]) && f.l == c.k
  }

  /** Entry e was copied from entry f, that of the last vertex of the source grid that matches it. */
  ghost predicate CopiedFrom(v0: seq<Item>, v: seq<Item>, steps: seq<Copy>, e: Entry, f: Entry) {
    && HasEntry(v, e) && HasEntry(v, f) && e.grid < |v0|
    && v[f.grid].look.mesh.Valid() && v0[e.grid].look.mesh.Valid()
    && Copy(f.grid, e.grid) in steps
    && exists c :: MatchedAt(v0, v, e, f, c)
  }

  /** Entry e belongs to a root, or no vertex of the grid its grid was reached from matches it. */
  ghost predicate OwnEntry(v0: seq<Item>, v: seq<Item>, roots: set<nat>, steps: seq<Copy>, e: Entry) {
    e.grid in roots || exists p: nat :: Copy(p, e.grid) in steps && Unmatched(v0, v, e, p)
  }

  ghost predicate Unmatched(v0: seq<Item>, v: seq<Item>, e: Entry, p: nat) {
    && e.grid < |v0| && v0[e.grid].look.mesh.Valid() && p < |v| && v[p].look.mesh.Valid()
    && !MatchedBefore(v[p].look.mesh, v0[e.grid].look.mesh, e.along, e.l, END)
  }

  /** From entry to entry, each copied from the next, up to one that is its grid's own. */
  ghost predicate Lineage(v0: seq<Item>, v: seq<Item>, roots: set<nat>, steps: seq<Copy>, chain: seq<Entry>) {
    && chain != []
    && (forall k, l :: 0 <= k && l == k + 1 < |chain| ==> CopiedFrom(v0, v, steps, chain[k], chain[l]))
    && OwnEntry(v0, v, roots, steps, chain[|chain| - 1])
  }

  /** The source of a copy is another grid than its target, and no later copy goes to it. */
  lemma SourceIsFinal(v0: seq<Item>, v: seq<Item>, roots: set<nat>, steps: seq<Copy>, k: nat)
    requires Copies(v0, v, roots, steps) && k < |steps|
    ensures steps[k].from != steps[k].to
    ensures forall l :: k <= l < |steps| ==> steps[l].to != steps[k].from
  {
    assert CopyOk(v0, v, roots, steps, k);
    if steps[k].from !in roots {
      var m :| 0 <= m < k && steps[m].to == steps[k].from;
    }
  }

  /** The chain leads from entry e back to the entry whose original error e has in the end. */
  ghost predicate Traces(v0: seq<Item>, v: seq<Item>, roots: set<nat>, steps: seq<Copy>, e: Entry, chain: seq<Entry>) {
    && Lineage(v0, v, roots, steps, chain) && chain[0] == e && HasEntry(v, e)
    && HasEntry(v0, chain[|chain| - 1]) && ErrorOf(v, e) == ErrorOf(v0, chain[|chain| - 1])
  }

  lemma TracesRoot(v0: seq<Item>, v: seq<Item>, roots: set<nat>, steps: seq<Copy>, e: Entry)
    requires Inherited(v0, v, roots, steps) && HasEntry(v, e) && e.grid in roots
    ensures Traces(v0, v, roots, steps, e, [e])
  {
    assert v[e.grid].look == v0[e.grid].look;
  }

  lemma TracesBack(v0: seq<Item>, v: seq<Item>, roots: set<nat>, steps: seq<Copy>, e: Entry, f: Entry, rest: seq<Entry>)
    requires CopiedFrom(v0, v, steps, e, f) && ErrorOf(v, e) == ErrorOf(v, f) && Traces(v0, v, roots, steps, f, rest)
    ensures Traces(v0, v, roots, steps, e, [e] + rest)
  {
    LineageFrom(v0, v, roots, steps, e, rest);
  }

  /** Every error in the fixed world is the original error of the entry at the end of its line of copies. */
  lemma {:induction false} ErrorHasOrigin(v0: seq<Item>, v: seq<Item>, roots: set<nat>, steps: seq<Copy>, e: Entry, k: nat)
    returns (chain: seq<Entry>)
    requires Inherited(v0, v, roots, steps) && HasEntry(v, e) && (e.grid in roots || (k < |steps| && steps[k].to == e.grid))
    ensures Traces(v0, v, roots, steps, e, chain)
    decreases k
  {
    if e.grid in roots {
      TracesRoot(v0, v, roots, steps, e);
      return [e];
    }
    var own, f := OriginOf(v0, v, roots, steps, e, k);
    if own {
      return [e];
    }
    var rest;
    if f.grid in roots {
      TracesRoot(v0, v, roots, steps, f);
      rest := [f];
    } else {
      var m :| 0 <= m < k && steps[m].to == f.grid;
      rest := ErrorHasOrigin(v0, v, roots, steps, f, m);
    }
    TracesBack(v0, v, roots, steps, e, f, rest);
    chain := [e] + rest;
  }

  lemma LineageFrom(v0: seq<Item>, v: seq<Item>, roots: set<nat>, steps: seq<Copy>, e: Entry, rest: seq<Entry>)
    requires rest != [] && CopiedFrom(v0, v, steps, e, rest[0]) && Lineage(v0, v, roots, steps, rest)
    ensures Lineage(v0, v, roots, steps, [e] + rest)
  {
    var chain := [e] + rest;
    forall k, l | 0 <= k && l == k + 1 < |chain|
      ensures CopiedFrom(v0, v, steps, chain[k], chain[l])
    {
      if k > 0 {
        assert CopiedFrom(v0, v, steps, rest[k - 1], rest[l - 1]);
      }
    }
  }

  /** An entry of a grid that is no root is its own, or copied from an entry of the grid its grid was reached from. */
  lemma OriginOf(v0: seq<Item>, v: seq<Item>, roots: set<nat>, steps: seq<Copy>, e: Entry, k: nat) returns (own: bool, f: Entry)
    requires Inherited(v0, v, roots, steps) && HasEntry(v, e) && k < |steps| && steps[k].to == e.grid
    ensures own ==> Lineage(v0, v, roots, steps, [e]) && HasEntry(v0, e) && ErrorOf(v, e) == ErrorOf(v0, e)
    ensures !own ==>
              && CopiedFrom(v0, v, steps, e, f) && ErrorOf(v, e) == ErrorOf(v, f)
              && (f.grid in roots || Reached(steps, k, f.grid))
  {
    var p := steps[k].from;
    assert CopyOk(v0, v, roots, steps, k) && Copy(p, e.grid) in steps;
    var c;
    own, c := EntryOrigin(v[p].look, v0[e.grid].look, v[e.grid].look, e.along, e.l);
    f := Entry(p, AlongWidth(SIDES[c.s1]), c.k);
    if own {
      OwnOrigin(v0, v, roots, steps, e, p);
      return;
    }
    assert MatchedAt(v0, v, e, f, c);
  }

  /** An entry that no vertex of the source grid matches is its grid's own. */
  lemma OwnOrigin(v0: seq<Item>, v: seq<Item>, roots: set<nat>, steps: seq<Copy>, e: Entry, p: nat)
    requires Copy(p, e.grid) in steps && Unmatched(v0, v, e, p)
    ensures Lineage(v0, v, roots, steps, [e])
  {
    assert OwnEntry(v0, v, roots, steps, e);
  }
}
