/**
 Quadratic Bezier curves in polar form, the reference against which subdivision is judged.

 Blossom(a, b, c, u, v) is the polar form of the curve with control points a, b and c: it is
 symmetric and affine in u and v, Blossom(t, t) is the curve point at t, and the three control
 points of the sub-curve over [lo, hi] are Blossom(lo, lo), Blossom(lo, hi) and Blossom(hi, hi).
 */
module Bezier {
  import opened Vertex

  function Mix1(t: real, p: real, q: real): real {
    (1.0 - t) * p + t * q
  }

  /** The affine combination of two vertices, coordinate by coordinate. */
  function Mix(t: real, p: Vert, q: Vert): Vert {
    Vert(Mix1(t, p.x, q.x), Mix1(t, p.y, q.y), Mix1(t, p.z, q.z), Mix1(t, p.s, q.s), Mix1(t, p.t, q.t))
  }

  function Blossom(a: Vert, b: Vert, c: Vert, u: real, v: real): Vert {
    Mix(v, Mix(u, a, b), Mix(u, b, c))
  }

  /** The point at t of the quadratic curve with control points a, b and c. */
  function CurvePoint(a: Vert, b: Vert, c: Vert, t: real): Vert {
    Blossom(a, b, c, t, t)
  }

  lemma MixMidpoint1(v: real, w: real, p: real, q: real)
    ensures 0.5 * (Mix1(v, p, q) + Mix1(w, p, q)) == Mix1((v + w) / 2.0, p, q)
  {
  }

  lemma MixMidpoint(v: real, w: real, p: Vert, q: Vert)
    ensures LerpDrawVert(Mix(v, p, q), Mix(w, p, q)) == Mix((v + w) / 2.0, p, q)
  {
    MixMidpoint1(v, w, p.x, q.x);
    MixMidpoint1(v, w, p.y, q.y);
    MixMidpoint1(v, w, p.z, q.z);
    MixMidpoint1(v, w, p.s, q.s);
    MixMidpoint1(v, w, p.t, q.t);
  }

  lemma MixExpanded(u: real, v: real, a: real, b: real, c: real)
    ensures Mix1(v, Mix1(u, a, b), Mix1(u, b, c)) == a + (u + v) * (b - a) + v * (u * (c - b - b + a))
  {
    var r := c - b - b + a;
    assert Mix1(u, a, b) == a + u * (b - a);
    assert Mix1(u, b, c) == b + u * (c - b);
    var x := a + u * (b - a);
    assert Mix1(v, x, b + u * (c - b)) == x + v * ((b - a) + u * r);
  }

  lemma BlossomSymmetric1(a: real, b: real, c: real, u: real, v: real)
    ensures Mix1(v, Mix1(u, a, b), Mix1(u, b, c)) == Mix1(u, Mix1(v, a, b), Mix1(v, b, c))
  {
    MixExpanded(u, v, a, b, c);
    MixExpanded(v, u, a, b, c);
    var r := c - b - b + a;
    assert v * (u * r) == u * (v * r);
  }

  lemma BlossomSymmetric(a: Vert, b: Vert, c: Vert, u: real, v: real)
    ensures Blossom(a, b, c, u, v) == Blossom(a, b, c, v, u)
  {
    BlossomSymmetric1(a.x, b.x, c.x, u, v);
    BlossomSymmetric1(a.y, b.y, c.y, u, v);
    BlossomSymmetric1(a.z, b.z, c.z, u, v);
    BlossomSymmetric1(a.s, b.s, c.s, u, v);
    BlossomSymmetric1(a.t, b.t, c.t, u, v);
  }

  /**
   De Casteljau's step, as the subdivision loop takes it: halving a sub-curve yields the control
   points of its two halves.
   */
  lemma Halve(a: Vert, b: Vert, c: Vert, lo: real, hi: real)
    ensures
      var m := (lo + hi) / 2.0;
      var prev := LerpDrawVert(Blossom(a, b, c, lo, lo), Blossom(a, b, c, lo, hi));
      var next := LerpDrawVert(Blossom(a, b, c, lo, hi), Blossom(a, b, c, hi, hi));
      && prev == Blossom(a, b, c, lo, m)
      && next == Blossom(a, b, c, m, hi)
      && LerpDrawVert(prev, next) == Blossom(a, b, c, m, m)
  {
    var m := (lo + hi) / 2.0;
    MixMidpoint(lo, hi, Mix(lo, a, b), Mix(lo, b, c));
    BlossomSymmetric(a, b, c, lo, hi);
    MixMidpoint(lo, hi, Mix(hi, a, b), Mix(hi, b, c));
    BlossomSymmetric(a, b, c, hi, m);
    BlossomSymmetric(a, b, c, lo, m);
    MixMidpoint(lo, hi, Mix(m, a, b), Mix(m, b, c));
  }

  /** What PutPointsOnCurve computes for a control point between its two neighbours. */
  function Settle(before: Vert, peak: Vert, after: Vert): Vert {
    LerpDrawVert(LerpDrawVert(peak, after), LerpDrawVert(peak, before))
  }

  /** Replacing the peak of a sub-curve's control points by its settled value gives the mid-curve point. */
  lemma SettleIsMidCurve(a: Vert, b: Vert, c: Vert, lo: real, hi: real)
    ensures Settle(Blossom(a, b, c, lo, lo), Blossom(a, b, c, lo, hi), Blossom(a, b, c, hi, hi))
         == CurvePoint(a, b, c, (lo + hi) / 2.0)
  {
    Halve(a, b, c, lo, hi);
  }

  lemma MixLerp1(t: real, p: real, p': real, q: real, q': real)
    ensures 0.5 * (Mix1(t, p, q) + Mix1(t, p', q')) == Mix1(t, 0.5 * (p + p'), 0.5 * (q + q'))
  {
  }

  lemma MixLerp(t: real, p: Vert, p': Vert, q: Vert, q': Vert)
    ensures LerpDrawVert(Mix(t, p, q), Mix(t, p', q')) == Mix(t, LerpDrawVert(p, p'), LerpDrawVert(q, q'))
  {
    MixLerp1(t, p.x, p'.x, q.x, q'.x);
    MixLerp1(t, p.y, p'.y, q.y, q'.y);
    MixLerp1(t, p.z, p'.z, q.z, q'.z);
    MixLerp1(t, p.s, p'.s, q.s, q'.s);
    MixLerp1(t, p.t, p'.t, q.t, q'.t);
  }

  lemma BlossomLerp(a: Vert, a': Vert, b: Vert, b': Vert, c: Vert, c': Vert, t: real)
    ensures LerpDrawVert(CurvePoint(a, b, c, t), CurvePoint(a', b', c', t))
         == CurvePoint(LerpDrawVert(a, a'), LerpDrawVert(b, b'), LerpDrawVert(c, c'), t)
  {
    MixLerp(t, Mix(t, a, b), Mix(t, a', b'), Mix(t, b, c), Mix(t, b', c'));
    MixLerp(t, a, a', b, b');
    MixLerp(t, b, b', c, c');
  }

  /** Settling along one direction commutes with evaluating curves along the other. */
  lemma SettleCurves(a: Vert, a': Vert, a'': Vert, b: Vert, b': Vert, b'': Vert, c: Vert, c': Vert, c'': Vert, t: real)
    ensures Settle(CurvePoint(a, b, c, t), CurvePoint(a', b', c', t), CurvePoint(a'', b'', c'', t))
         == CurvePoint(Settle(a, a', a''), Settle(b, b', b''), Settle(c, c', c''), t)
  {
    BlossomLerp(a', a'', b', b'', c', c'', t);
    BlossomLerp(a', a, b', b, c', c, t);
    BlossomLerp(LerpDrawVert(a', a''), LerpDrawVert(a', a), LerpDrawVert(b', b''), LerpDrawVert(b', b),
                LerpDrawVert(c', c''), LerpDrawVert(c', c), t);
  }
}
