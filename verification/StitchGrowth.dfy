/** What insertions leave of a grid: the old grid can be read back off the new one, line by line. */
module StitchGrowth {
  import opened Vertex
  import opened BspSurface
  import opened GridInsert
  import opened Stitching

  /** `lines` picks `count` lines out of `total`, in order, both border lines among them. */
  ghost predicate Picks(lines: seq<nat>, count: nat, total: nat) {
    && |lines| == count >= 2 && lines[0] == 0 && lines[count - 1] + 1 == total
    && (forall i :: 0 <= i < count ==> lines[i] < total)
    && (forall i, j :: 0 <= i < j < count ==> lines[i] < lines[j])
  }

  /** Entry i of list o is entry lines[i] of list n. */
  ghost predicate PicksFrom(o: seq<real>, n: seq<real>, lines: seq<nat>) {
    |o| == |lines| && forall i :: 0 <= i < |o| ==> lines[i] < |n| && o[i] == n[lines[i]]
  }

  ghost predicate MeshFrom(o: Mesh, n: Mesh, cols: seq<nat>, rows: seq<nat>) {
    && o.Valid() && n.Valid() && Picks(cols, o.width, n.width) && Picks(rows, o.height, n.height)
    && forall r, c :: 0 <= r < o.height && 0 <= c < o.width ==> o.At(r, c) == n.At(rows[r], cols[c])
  }

  /** Grid o is grid n without the columns and rows that are not picked, vertices and errors alike. */
  ghost predicate ReadBack(o: Look, n: Look, cols: seq<nat>, rows: seq<nat>) {
    && MeshFrom(o.mesh, n.mesh, cols, rows)
    && PicksFrom(o.widthErrors, n.widthErrors, cols) && PicksFrom(o.heightErrors, n.heightErrors, rows)
  }

  /** Grid n is grid o, or o with lines added. */
  ghost predicate Grown(o: Look, n: Look) {
    o == n || exists cols, rows :: ReadBack(o, n, cols, rows)
  }

  function Chosen(lines: seq<nat>, of: seq<nat>): (r: seq<nat>)
    requires forall i :: 0 <= i < |lines| ==> lines[i] < |of|
    ensures |r| == |lines| && forall i :: 0 <= i < |r| ==> r[i] == of[lines[i]]
  {
    seq(|lines|, i requires 0 <= i < |lines| => of[lines[i]])
  }

  lemma ChosenPicks(a: seq<nat>, b: seq<nat>, count: nat, middle: nat, total: nat)
    requires Picks(a, count, middle) && Picks(b, middle, total)
    ensures Picks(Chosen(a, b), count, total)
  {
  }

  lemma ChosenErrors(o: seq<real>, m: seq<real>, n: seq<real>, a: seq<nat>, b: seq<nat>)
    requires PicksFrom(o, m, a) && PicksFrom(m, n, b)
    ensures PicksFrom(o, n, Chosen(a, b))
  {
  }

  lemma ReadBackTwice(o: Look, m: Look, n: Look, cols: seq<nat>, rows: seq<nat>, cols': seq<nat>, rows': seq<nat>)
    requires ReadBack(o, m, cols, rows) && ReadBack(m, n, cols', rows')
    ensures ReadBack(o, n, Chosen(cols, cols'), Chosen(rows, rows'))
  {
    ChosenPicks(cols, cols', o.mesh.width, m.mesh.width, n.mesh.width);
    ChosenPicks(rows, rows', o.mesh.height, m.mesh.height, n.mesh.height);
    ChosenErrors(o.widthErrors, m.widthErrors, n.widthErrors, cols, cols');
    ChosenErrors(o.heightErrors, m.heightErrors, n.heightErrors, rows, rows');
    forall r, c | 0 <= r < o.mesh.height && 0 <= c < o.mesh.width
      ensures o.mesh.At(r, c) == n.mesh.At(Chosen(rows, rows')[r], Chosen(cols, cols')[c])
    {
      assert o.mesh.At(r, c) == m.mesh.At(rows[r], cols[c]);
    }
  }

  lemma GrownTransitive(o: Look, m: Look, n: Look)
    requires Grown(o, m) && Grown(m, n)
    ensures Grown(o, n)
  {
    if o != m && m != n {
      var cols, rows :| ReadBack(o, m, cols, rows);
      var cols', rows' :| ReadBack(m, n, cols', rows');
      ReadBackTwice(o, m, n, cols, rows, cols', rows');
    }
  }

  /** All lines but line k. */
  function Skipping(count: nat, k: nat): (lines: seq<nat>)
    ensures |lines| == count && forall i :: 0 <= i < count ==> lines[i] == if i < k then i else i + 1
  {
    seq(count, i requires 0 <= i < count => if i < k then i else i + 1)
  }

  lemma SkippingPicks(count: nat, k: nat)
    requires count >= 2 && 0 < k
    ensures Picks(Skipping(count, k), count, if k < count then count + 1 else count)
  {
  }

  lemma ColumnGrows(o: Mesh, n: Mesh, column: nat, row: nat, point: Vec3)
    requires ColumnInserted(o, n, column, row, point)
    ensures MeshFrom(o, n, Skipping(o.width, column), Skipping(o.height, o.height))
  {
    var cols, rows := Skipping(o.width, column), Skipping(o.height, o.height);
    SkippingPicks(o.width, column);
    SkippingPicks(o.height, o.height);
    forall r, c | 0 <= r < o.height && 0 <= c < o.width
      ensures o.At(r, c) == n.At(rows[r], cols[c])
    {
      if c >= column {
        assert n.At(r, c + 1) == o.At(r, c);
      }
    }
  }

  lemma RowGrows(o: Mesh, n: Mesh, row: nat, column: nat, point: Vec3)
    requires RowInserted(o, n, row, column, point)
    ensures MeshFrom(o, n, Skipping(o.width, o.width), Skipping(o.height, row))
  {
    var cols, rows := Skipping(o.width, o.width), Skipping(o.height, row);
    SkippingPicks(o.width, o.width);
    SkippingPicks(o.height, row);
    forall r, c | 0 <= r < o.height && 0 <= c < o.width
      ensures o.At(r, c) == n.At(rows[r], cols[c])
    {
      if r >= row {
        assert n.At(r + 1, c) == o.At(r, c);
      }
    }
  }

  lemma InsertedErrors(o: seq<real>, k: nat, x: real)
    requires k <= |o|
    ensures PicksFrom(o, InsertAt(o, k, x), Skipping(|o|, k)) && PicksFrom(o, o, Skipping(|o|, |o|))
  {
  }

  /** One insertion: the old grid is read back by skipping the new line. */
  lemma ExtendedGrows(o: Look, n: Look, side: Side, k: nat, point: Vec3, loderror: real, maxGridSize: nat)
    requires Extended(o, n, side, k, point, loderror) && o.Valid(maxGridSize)
    ensures Grown(o, n)
  {
    InsertedErrors(o.EdgeErrors(side), k, loderror);
    InsertedErrors(o.CrossErrors(side), 0, 0.0);
    if AlongWidth(side) {
      ColumnGrows(o.mesh, n.mesh, k, EdgeRow(o.mesh, side, k), point);
      assert ReadBack(o, n, Skipping(o.mesh.width, k), Skipping(o.mesh.height, o.mesh.height));
    } else {
      RowGrows(o.mesh, n.mesh, k, EdgeColumn(o.mesh, side, k), point);
      assert ReadBack(o, n, Skipping(o.mesh.width, o.mesh.width), Skipping(o.mesh.height, k));
    }
  }
}
