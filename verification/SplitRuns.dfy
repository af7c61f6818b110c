/**
 What runs of needed splits have in common: however a run goes, if it ends with every span cut finely
 enough it ends with the same spans, so the order in which the loop visits the columns does not matter.
 */
module SplitRuns {
  import opened Vertex
  import opened Bezier
  import opened Runs
  import opened Subdivision

  /** The spans that are to be split. */
  ghost function Curved(orig: seq<seq<Vert>>, tuning: Tuning): Span -> bool {
    s => TooCurved(orig, s, tuning)
  }

  /** None of the spans is to be split. */
  ghost predicate Uncurved(curved: Span -> bool, spans: seq<Span>) {
    forall m :: 0 <= m < |spans| ==> !curved(spans[m])
  }

  // ---------------------------------------------------------------- how a span is cut

  /** A span with the way it has been cut: not at all, or into halves that have been cut themselves. */
  datatype Cut = Whole(span: Span) | Halved(span: Span, first: Cut, second: Cut)

  /** What is left of a cut span, in order. */
  ghost function Pieces(c: Cut): (spans: seq<Span>)
    ensures spans != []
  {
    match c
    case Whole(span) => [span]
    case Halved(_, first, second) => Pieces(first) + Pieces(second)
  }

  /** Every span that has been cut was to be split, and was cut in the middle. */
  ghost predicate Needed(curved: Span -> bool, c: Cut) {
    match c
    case Whole(_) => true
    case Halved(s, first, second) =>
      && curved(s) && first.span == FirstHalf(s) && second.span == SecondHalf(s)
      && Needed(curved, first) && Needed(curved, second)
  }

  ghost function FirstHalf(s: Span): Span {
    Span(s.piece, s.lo, s.Mid())
  }

  ghost function SecondHalf(s: Span): Span {
    Span(s.piece, s.Mid(), s.hi)
  }

  ghost function AllPieces(cuts: seq<Cut>): seq<Span> {
    if cuts == [] then [] else Pieces(cuts[0]) + AllPieces(cuts[1..])
  }

  ghost predicate AllNeeded(curved: Span -> bool, cuts: seq<Cut>) {
    forall i :: 0 <= i < |cuts| ==> Needed(curved, cuts[i])
  }

  ghost predicate SameRoots(a: seq<Cut>, b: seq<Cut>) {
    |a| == |b| && forall i :: 0 <= i < |a| ==> a[i].span == b[i].span
  }

  lemma SplitFirst(a: seq<Span>, b: seq<Span>, m: nat)
    requires m < |a|
    ensures SplitSpan(a + b, m) == SplitSpan(a, m) + b
  {
    assert (a + b)[..m] == a[..m] && (a + b)[m + 1..] == a[m + 1..] + b;
  }

  lemma SplitSecond(a: seq<Span>, b: seq<Span>, m: nat)
    requires m < |b|
    ensures SplitSpan(a + b, |a| + m) == a + SplitSpan(b, m)
  {
    assert (a + b)[..|a| + m] == a + b[..m] && (a + b)[|a| + m + 1..] == b[m + 1..];
  }

  lemma SplitOne(s: Span)
    ensures SplitSpan([s], 0) == [FirstHalf(s), SecondHalf(s)]
  {
  }

  /** Splitting one piece of a cut span cuts it further. */
  lemma {:induction false} CutFurther(curved: Span -> bool, c: Cut, m: nat, split: seq<Span>) returns (c': Cut)
    requires Needed(curved, c) && m < |Pieces(c)| && curved(Pieces(c)[m]) && split == SplitSpan(Pieces(c), m)
    ensures Needed(curved, c') && c'.span == c.span && Pieces(c') == split
    decreases c
  {
    if c.Whole? {
      SplitOne(c.span);
      return Halved(c.span, Whole(FirstHalf(c.span)), Whole(SecondHalf(c.span)));
    }
    var p, q := Pieces(c.first), Pieces(c.second);
    if m < |p| {
      var first := CutFurther(curved, c.first, m, SplitSpan(p, m));
      SplitFirst(p, q, m);
      return Halved(c.span, first, c.second);
    }
    var second := CutFurther(curved, c.second, m - |p|, SplitSpan(q, m - |p|));
    SplitSecond(p, q, m - |p|);
    return Halved(c.span, c.first, second);
  }

  lemma {:induction false} CutAllFurther(curved: Span -> bool, cuts: seq<Cut>, m: nat, split: seq<Span>) returns (cuts': seq<Cut>)
    requires AllNeeded(curved, cuts) && m < |AllPieces(cuts)| && curved(AllPieces(cuts)[m])
    requires split == SplitSpan(AllPieces(cuts), m)
    ensures AllNeeded(curved, cuts') && SameRoots(cuts, cuts') && AllPieces(cuts') == split
    decreases |cuts|
  {
    var p, q := Pieces(cuts[0]), AllPieces(cuts[1..]);
    if m < |p| {
      var first := CutFurther(curved, cuts[0], m, SplitSpan(p, m));
      SplitFirst(p, q, m);
      AllPiecesOf(first, cuts[1..]);
      ReplacedFirst(curved, cuts, first);
      return [first] + cuts[1..];
    }
    var others := CutAllFurther(curved, cuts[1..], m - |p|, SplitSpan(q, m - |p|));
    SplitSecond(p, q, m - |p|);
    AllPiecesOf(cuts[0], others);
    ReplacedOthers(curved, cuts, others);
    return [cuts[0]] + others;
  }

  lemma ReplacedFirst(curved: Span -> bool, cuts: seq<Cut>, first: Cut)
    requires cuts != [] && AllNeeded(curved, cuts) && Needed(curved, first) && first.span == cuts[0].span
    ensures AllNeeded(curved, [first] + cuts[1..]) && SameRoots(cuts, [first] + cuts[1..])
  {
  }

  lemma ReplacedOthers(curved: Span -> bool, cuts: seq<Cut>, others: seq<Cut>)
    requires cuts != [] && AllNeeded(curved, cuts) && AllNeeded(curved, others) && SameRoots(cuts[1..], others)
    ensures AllNeeded(curved, [cuts[0]] + others) && SameRoots(cuts, [cuts[0]] + others)
  {
    var all := [cuts[0]] + others;
    forall i | 0 <= i < |all|
      ensures Needed(curved, all[i]) && all[i].span == cuts[i].span
    {
      if i > 0 {
        assert all[i] == others[i - 1] && cuts[i] == cuts[1..][i - 1];
      }
    }
  }

  lemma AllPiecesOf(first: Cut, others: seq<Cut>)
    ensures AllPieces([first] + others) == Pieces(first) + AllPieces(others)
  {
    assert ([first] + others)[1..] == others;
  }

  lemma {:induction false} WholePieces(spans: seq<Span>) returns (cuts: seq<Cut>)
    ensures |cuts| == |spans| && forall i :: 0 <= i < |cuts| ==> cuts[i] == Whole(spans[i])
    ensures AllPieces(cuts) == spans
  {
    cuts := [];
    if spans != [] {
      var rest := WholePieces(spans[1..]);
      AllPiecesOf(Whole(spans[0]), rest);
      cuts := [Whole(spans[0])] + rest;
    }
  }

  // ---------------------------------------------------------------- runs, and what they come to

  /** Every state of a run of needed splits is made of the first one by needed cuts. */
  lemma {:induction false} RunCuts(orig: seq<seq<Vert>>, run: seq<seq<Span>>, k: nat, tuning: Tuning) returns (cuts: seq<Cut>)
    requires Chain(NeededSplits(orig, tuning), run) && k < |run|
    ensures |cuts| == |run[0]| && forall i :: 0 <= i < |cuts| ==> cuts[i].span == run[0][i]
    ensures AllNeeded(Curved(orig, tuning), cuts) && AllPieces(cuts) == run[k]
  {
    if k == 0 {
      cuts := WholePieces(run[0]);
    } else {
      var before := RunCuts(orig, run, k - 1, tuning);
      assert NeededSplits(orig, tuning)(run[k - 1], run[k]);
      var m: nat :| m < |run[k - 1]| && TooCurved(orig, run[k - 1][m], tuning) && run[k] == SplitSpan(run[k - 1], m);
      cuts := CutAllFurther(Curved(orig, tuning), before, m, run[k]);
    }
  }

  /** A span can be cut in one way only, if every cut is needed and none is missing. */
  lemma {:induction false} OneCut(curved: Span -> bool, a: Cut, b: Cut)
    requires Needed(curved, a) && Needed(curved, b) && a.span == b.span
    requires Uncurved(curved, Pieces(a)) && Uncurved(curved, Pieces(b))
    ensures a == b
    decreases a
  {
    if a.Whole? {
      UncutIsFine(curved, a);
    } else if b.Whole? {
      UncutIsFine(curved, b);
    } else {
      FineHalves(curved, Pieces(a.first), Pieces(a.second));
      FineHalves(curved, Pieces(b.first), Pieces(b.second));
      OneCut(curved, a.first, b.first);
      OneCut(curved, a.second, b.second);
    }
  }

  lemma UncutIsFine(curved: Span -> bool, c: Cut)
    requires c.Whole? && Uncurved(curved, Pieces(c))
    ensures !curved(c.span)
  {
    assert Pieces(c)[0] == c.span;
  }

  lemma FineHalves(curved: Span -> bool, a: seq<Span>, b: seq<Span>)
    requires Uncurved(curved, a + b)
    ensures Uncurved(curved, a) && Uncurved(curved, b)
  {
    assert forall m :: 0 <= m < |a| ==> (a + b)[m] == a[m];
    assert forall m :: 0 <= m < |b| ==> (a + b)[|a| + m] == b[m];
  }

  lemma {:induction false} OneCutting(curved: Span -> bool, a: seq<Cut>, b: seq<Cut>)
    requires AllNeeded(curved, a) && AllNeeded(curved, b) && SameRoots(a, b)
    requires Uncurved(curved, AllPieces(a)) && Uncurved(curved, AllPieces(b))
    ensures a == b
  {
    if a != [] {
      FineHalves(curved, Pieces(a[0]), AllPieces(a[1..]));
      FineHalves(curved, Pieces(b[0]), AllPieces(b[1..]));
      OneCut(curved, a[0], b[0]);
      OneCutting(curved, a[1..], b[1..]);
    }
  }

  /** Any two runs of needed splits that end with nothing left to split end with the same spans. */
  lemma OneResult(orig: seq<seq<Vert>>, run: seq<seq<Span>>, run': seq<seq<Span>>, pieces: nat,
                  spans: seq<Span>, spans': seq<Span>, tuning: Tuning)
    requires SplitRun(orig, run, pieces, spans, tuning) && forall m :: 0 <= m < |spans| ==> !TooCurved(orig, spans[m], tuning)
    requires SplitRun(orig, run', pieces, spans', tuning) && forall m :: 0 <= m < |spans'| ==> !TooCurved(orig, spans'[m], tuning)
    ensures spans == spans'
  {
    var a := RunCuts(orig, run, |run| - 1, tuning);
    var b := RunCuts(orig, run', |run'| - 1, tuning);
    OneCutting(Curved(orig, tuning), a, b);
  }

  lemma {:induction false} RunLength(orig: seq<seq<Vert>>, run: seq<seq<Span>>, k: nat, tuning: Tuning)
    requires Chain(NeededSplits(orig, tuning), run) && k < |run|
    ensures |run[k]| == |run[0]| + k
  {
    if k > 0 {
      RunLength(orig, run, k - 1, tuning);
      assert NeededSplits(orig, tuning)(run[k - 1], run[k]);
    }
  }

  /** There is one span more for each split; and if no whole segment bends too much, nothing is split. */
  lemma NothingToSplit(orig: seq<seq<Vert>>, run: seq<seq<Span>>, pieces: nat, spans: seq<Span>, tuning: Tuning)
    requires SplitRun(orig, run, pieces, spans, tuning)
    ensures |spans| == pieces + |run| - 1
    ensures (forall m: nat :: m < pieces ==> !TooCurved(orig, Span(m, 0.0, 1.0), tuning)) ==> spans == WholeSpans(pieces)
  {
    RunLength(orig, run, |run| - 1, tuning);
    if |run| > 1 {
      assert NeededSplits(orig, tuning)(run[0], run[1]);
    }
  }

  /** A span with a fitting error entry does not bend too much, and only one entry fits. */
  lemma FineIsNotTooCurved(orig: seq<seq<Vert>>, s: Span, error: real, error': real, tuning: Tuning)
    requires FineEnough(orig, s, error, tuning) && FineEnough(orig, s, error', tuning)
    ensures !TooCurved(orig, s, tuning) && error == error'
  {
    var d :| IsLargest(orig, s, tuning, d);
    forall e | IsLargest(orig, s, tuning, e)
      ensures e == d
    {
      OneLargest(orig, s, tuning, d, e);
    }
  }

  lemma AllFineUncurved(orig: seq<seq<Vert>>, spans: seq<Span>, errors: seq<real>, tuning: Tuning)
    requires AllFineEnough(orig, spans, errors, tuning)
    ensures forall m :: 0 <= m < |spans| ==> !TooCurved(orig, spans[m], tuning)
  {
    forall m | 0 <= m < |spans|
      ensures !TooCurved(orig, spans[m], tuning)
    {
      FineIsNotTooCurved(orig, spans[m], errors[2 * m + 1], errors[2 * m + 1], tuning);
    }
  }

  /**
   Unless the grid gets full, the curves and r_subdivisions alone decide what comes out: the spans and
   the error entry of each.
   */
  lemma OneSubdivision(orig: seq<seq<Vert>>, run: seq<seq<Span>>, run': seq<seq<Span>>, pieces: nat, spans: seq<Span>, spans': seq<Span>,
                       errors: seq<real>, errors': seq<real>, tuning: Tuning)
    requires SplitRun(orig, run, pieces, spans, tuning) && AllFineEnough(orig, spans, errors, tuning)
    requires SplitRun(orig, run', pieces, spans', tuning) && AllFineEnough(orig, spans', errors', tuning)
    ensures spans == spans' && forall m :: 0 <= m < |spans| ==> errors[2 * m + 1] == errors'[2 * m + 1]
  {
    AllFineUncurved(orig, spans, errors, tuning);
    AllFineUncurved(orig, spans', errors', tuning);
    OneResult(orig, run, run', pieces, spans, spans', tuning);
    forall m | 0 <= m < |spans|
      ensures errors[2 * m + 1] == errors'[2 * m + 1]
    {
      FineIsNotTooCurved(orig, spans[m], errors[2 * m + 1], errors'[2 * m + 1], tuning);
    }
  }
}
