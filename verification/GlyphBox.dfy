/** Where a glyph's outline runs: its curves, its crossings with scanlines, and the box it stays in. */
module GlyphBox {
  import opened Outline
  import opened Rasterizer

  function Abs(n: int): nat { if n >= 0 then n else -n }

  /** A quotient without its fraction: no greater in size than the exact one, within one of it, and of its sign. */
  predicate Truncates(q: int, n: int, d: int)
    requires d != 0
  {
    && Abs(q) * Abs(d) <= Abs(n) < (Abs(q) + 1) * Abs(d)
    && (q > 0 ==> (n > 0 <==> d > 0)) && (q < 0 ==> n != 0 && (n < 0 <==> d > 0))
  }

  lemma QuotientBounds(m: nat, d: nat)
    requires d > 0
    ensures m / d * d <= m < (m / d + 1) * d && (m == 0 ==> m / d == 0)
  {
    assert m == m / d * d + m % d;
  }

  lemma DivSize(n: int, d: int)
    requires d > 0
    ensures Abs(Div(n, d)) == Abs(n) / d && (Div(n, d) > 0 ==> n >= 0) && (Div(n, d) < 0 ==> n < 0)
  {
  }

  lemma DivTruncates(n: int, d: int)
    requires d > 0
    ensures Truncates(Div(n, d), n, d)
  {
    QuotientBounds(Abs(n), d);
    DivSize(n, d);
    hide Div;
  }

  lemma OtherWay(q: int, n: int, d: int)
    requires d != 0 && Truncates(q, -n, -d)
    ensures Truncates(q, n, d)
  {
  }

  /** Main result: an edge crosses a scanline at the intersection, truncated from its first end. */
  lemma CrossingTruncates(e: Edge, y: int)
    requires Crosses(e, y)
    ensures Truncates(CrossingAt(e, y).x - e.x0, (e.x1 - e.x0) * (y - e.y0), e.y1 - e.y0)
  {
    var n, d := (e.x1 - e.x0) * (y - e.y0), e.y1 - e.y0;
    if d > 0 { DivTruncates(n, d); } else { DivTruncates(-n, -d); OtherWay(Div(-n, -d), n, d); }
    hide Truncates;
  }

  /** A number between two others. */
  predicate Between(a: int, v: int, b: int) { a <= v <= b || b <= v <= a }

  /** A part of a length, truncated, is within it. */
  lemma PartWithin(q: int, w: int, k: int, d: int)
    requires d != 0 && Truncates(q, w * k, d) && Abs(k) <= Abs(d) && (k == 0 || (k > 0 <==> d > 0))
    ensures Between(0, q, w)
  {
    SizeOfProduct(w, k);
    if Abs(q) > Abs(w) {
      Scaled(Abs(w) + 1, Abs(q), Abs(d));
      Scaled(Abs(k), Abs(d), Abs(w));
      assert false;
    }
    SignOfProduct(w, k);
  }

  lemma SizeOfProduct(w: int, k: int)
    ensures Abs(w * k) == Abs(w) * Abs(k)
  {
    if w >= 0 && k < 0 { assert w * k == -(w * -k); Scaled(0, w, -k); }
    else if w < 0 && k >= 0 { assert w * k == -(-w * k); Scaled(0, -w, k); }
    else if w < 0 { assert w * k == -w * -k; Scaled(0, -w, -k); }
    else { Scaled(0, w, k); }
  }

  lemma SignOfProduct(w: int, k: int)
    ensures w * k > 0 ==> w != 0 && (w > 0 <==> k > 0)
    ensures w * k < 0 ==> w != 0 && (w > 0 <==> k < 0)
  {
    if w >= 0 && k >= 0 { Scaled(0, w, k); }
    if w <= 0 && k <= 0 { assert w * k == -w * -k; Scaled(0, -w, -k); }
    if w >= 0 && k <= 0 { assert w * k == -(w * -k); Scaled(0, w, -k); }
    if w <= 0 && k >= 0 { assert w * k == -(-w * k); Scaled(0, -w, k); }
  }

  lemma Scaled(a: int, b: int, k: nat)
    requires a <= b
    ensures a * k <= b * k
  {
  }

  /** Main result: a crossing lies between the ends of its edge. */
  lemma CrossingBetween(e: Edge, y: int)
    requires Crosses(e, y)
    ensures Between(e.x0, CrossingAt(e, y).x, e.x1)
  {
    CrossingTruncates(e, y);
    var q := CrossingAt(e, y).x - e.x0;
    hide CrossingAt, Truncates;
    PartWithin(q, e.x1 - e.x0, y - e.y0, e.y1 - e.y0);
  }

  // -------------------------------------------------------------------- curves

  /** The weights of the three points of a curve after t of its eight steps, out of 64. */
  lemma QuadTruncates(a: int, b: int, c: int, t: nat)
    requires t <= 8
    ensures Truncates(Quad(a, b, c, t), (8 - t) * (8 - t) * a + 2 * (8 - t) * t * b + t * t * c, 64)
  {
    DivTruncates((8 - t) * (8 - t) * a + 2 * (8 - t) * t * b + t * t * c, 64);
    hide Truncates;
  }

  predicate Within(lo: int, v: int, hi: int) { lo <= v <= hi }

  lemma DivWithin(lo: int, n: int, hi: int)
    requires lo * 64 <= n <= hi * 64
    ensures Within(lo, Div(n, 64), hi)
  {
  }

  lemma Weights(t: nat)
    requires t <= 8
    ensures (8 - t) * (8 - t) + 2 * (8 - t) * t + t * t == 64
  {
  }

  lemma Sums(a: int, b: int, c: int, u: nat, v: nat, w: nat)
    ensures u * -a + v * -b + w * -c == -(u * a + v * b + w * c)
  {
  }

  /** A curve stays between the least and the greatest of its three points. */
  lemma QuadWithin(lo: int, a: int, b: int, c: int, hi: int, t: nat)
    requires t <= 8 && Within(lo, a, hi) && Within(lo, b, hi) && Within(lo, c, hi)
    ensures Within(lo, Quad(a, b, c, t), hi)
  {
    var u, v, w := (8 - t) * (8 - t), 2 * (8 - t) * t, t * t;
    assert Quad(a, b, c, t) == Div(u * a + v * b + w * c, 64);
    hide Quad;
    Weights(t);
    WeightedWithin(lo, a, b, c, hi, u, v, w);
  }

  lemma WeightedWithin(lo: int, a: int, b: int, c: int, hi: int, u: nat, v: nat, w: nat)
    requires u + v + w == 64 && Within(lo, a, hi) && Within(lo, b, hi) && Within(lo, c, hi)
    ensures Within(lo, Div(u * a + v * b + w * c, 64), hi)
  {
    Weighted(lo, a, b, c, u, v, w);
    Weighted(-hi, -a, -b, -c, u, v, w);
    Sums(a, b, c, u, v, w);
    hide Div;
    DivWithin(lo, u * a + v * b + w * c, hi);
  }

  lemma Weighted(lo: int, a: int, b: int, c: int, u: nat, v: nat, w: nat)
    requires lo <= a && lo <= b && lo <= c
    ensures lo * (u + v + w) <= u * a + v * b + w * c
  {
    Scaled(lo, a, u);
    Scaled(lo, b, v);
    Scaled(lo, c, w);
    assert lo * (u + v + w) == lo * u + lo * v + lo * w;
    assert u * a == a * u && v * b == b * v && w * c == c * w;
  }

  lemma InMiddle(a: seq<Vertex>, b: seq<Vertex>, v: Vertex)
    requires v in a || v in b
    ensures v in a + b
  {
  }

  /** What tracing from i on puts behind a point. */
  lemma TraceParts(points: seq<Point>, start: Point, prev: Point, i: nat) returns (front: seq<Vertex>, at: Point, next: nat)
    requires i < |points|
    ensures i < next && Trace(points, start, prev, i) == front + Trace(points, start, at, next)
    ensures points[i].onCurve ==> next == i + 1 && at == points[i]
    ensures !points[i].onCurve ==>
              var far := if i == |points| - 1 then start else points[i + 1];
              && at == (if far.onCurve then far else Middle(points[i], far)) && front == Curve(prev, points[i], at, STEPS)
              && next == if far.onCurve then i + 2 else i + 1
  {
    TraceStep(points, start, prev, i);
    hide Trace, Curve, Middle;
    var p := points[i];
    var far := if i == |points| - 1 then start else points[i + 1];
    if p.onCurve { front, at, next := [At(p)], p, i + 1; }
    else if far.onCurve { front, at, next := Curve(prev, p, far, STEPS), far, i + 2; }
    else { front, at, next := Curve(prev, p, Middle(p, far), STEPS), Middle(p, far), i + 1; }
  }

  lemma {:induction false} TraceCurves(points: seq<Point>, start: Point, prev: Point, i: nat, k: nat, t: nat)
    requires i <= k && k + 2 < |points| && 1 <= t <= STEPS
    requires points[k].onCurve && !points[k + 1].onCurve && points[k + 2].onCurve
    ensures QuadAt(points[k], points[k + 1], points[k + 2], t) in Trace(points, start, prev, i)
    decreases |points| - i
  {
    hide Trace, Curve, QuadAt;
    var v := QuadAt(points[k], points[k + 1], points[k + 2], t);
    var front, at, next := TraceParts(points, start, prev, i);
    if i == k {
      var curve, at', next' := TraceParts(points, start, at, next);
      CurveAt(points[k], points[k + 1], points[k + 2], STEPS, t);
      assert v in curve;
      InMiddle(curve, Trace(points, start, at', next'), v);
    } else {
      if next > k {
        PastCurve(points, start, prev, i, k, t);
        return;
      }
      TraceCurves(points, start, at, next, k, t);
    }
    InMiddle(front, Trace(points, start, at, next), v);
  }

  /** A curve that ends in the point where the next one begins. */
  lemma PastCurve(points: seq<Point>, start: Point, prev: Point, i: nat, k: nat, t: nat)
    requires i + 1 == k && k + 2 < |points| && 1 <= t <= STEPS
    requires !points[i].onCurve && points[k].onCurve && !points[k + 1].onCurve && points[k + 2].onCurve
    ensures QuadAt(points[k], points[k + 1], points[k + 2], t) in Trace(points, start, prev, i)
  {
    hide Trace, Curve, QuadAt;
    var v := QuadAt(points[k], points[k + 1], points[k + 2], t);
    var front, at, next := TraceParts(points, start, prev, i);
    var curve, at', next' := TraceParts(points, start, at, next);
    CurveAt(points[k], points[k + 1], points[k + 2], STEPS, t);
    assert v in curve;
    InMiddle(curve, Trace(points, start, at', next'), v);
    InMiddle(front, Trace(points, start, at, next), v);
  }

  /** Main result: between two points on the curve a point off it bends the path in eight steps. */
  lemma CurveTraced(points: seq<Point>, k: nat, t: nat)
    requires k + 2 < |points| && 1 <= t <= STEPS
    requires points[k].onCurve && !points[k + 1].onCurve && points[k + 2].onCurve
    ensures QuadAt(points[k], points[k + 1], points[k + 2], t) in Path(points)
  {
    hide Trace, QuadAt, Start;
    var start, v := Start(points), QuadAt(points[k], points[k + 1], points[k + 2], t);
    var i := if points[0].onCurve then 1 else 0;
    if i <= k {
      TraceCurves(points, start, start, i, k, t);
    } else {
      StartsThere(points, start, v, t);
    }
    assert Path(points) == [At(start)] + Trace(points, start, start, i) + [At(start)];
  }

  lemma StartsThere(points: seq<Point>, start: Point, v: Vertex, t: nat)
    requires 2 < |points| && 1 <= t <= STEPS && start == Start(points)
    requires points[0].onCurve && !points[1].onCurve && points[2].onCurve && v == QuadAt(points[0], points[1], points[2], t)
    ensures v in Trace(points, start, start, 1)
  {
    assert start == points[0];
    hide Trace, Curve, QuadAt, Start;
    var curve, at, next := TraceParts(points, start, start, 1);
    CurveAt(points[0], points[1], points[2], STEPS, t);
    assert v in curve;
    InMiddle(curve, Trace(points, start, at, next), v);
  }

  // ----------------------------------------------------------------------- the box

  datatype Box = Box(left: int, right: int, low: int, high: int)

  predicate InBox(b: Box, v: Vertex) { Within(b.left, v.x, b.right) && Within(b.low, v.y, b.high) }

  predicate Boxed(b: Box, points: seq<Point>) { forall i | 0 <= i < |points| :: InBox(b, At(points[i])) }

  predicate AllInBox(b: Box, path: seq<Vertex>) { forall k | 0 <= k < |path| :: InBox(b, path[k]) }

  lemma MiddleBoxed(b: Box, p: Point, q: Point)
    requires InBox(b, At(p)) && InBox(b, At(q))
    ensures InBox(b, At(Middle(p, q)))
  {
  }

  lemma {:induction false} CurveBoxed(b: Box, p: Point, q: Point, r: Point, t: nat)
    requires t <= STEPS && InBox(b, At(p)) && InBox(b, At(q)) && InBox(b, At(r))
    ensures AllInBox(b, Curve(p, q, r, t))
    decreases t
  {
    if t > 0 {
      CurveBoxed(b, p, q, r, t - 1);
      QuadWithin(b.left, p.x, q.x, r.x, b.right, t);
      QuadWithin(b.low, p.y, q.y, r.y, b.high, t);
    }
    hide Quad;
  }

  lemma BothInBox(b: Box, a: seq<Vertex>, c: seq<Vertex>)
    requires AllInBox(b, a) && AllInBox(b, c)
    ensures AllInBox(b, a + c)
  {
    hide InBox;
  }

  lemma {:induction false} TraceBoxed(b: Box, points: seq<Point>, start: Point, prev: Point, i: nat)
    requires Boxed(b, points) && InBox(b, At(start)) && InBox(b, At(prev))
    ensures AllInBox(b, Trace(points, start, prev, i))
    decreases |points| - i
  {
    if i < |points| {
      TraceStep(points, start, prev, i);
      var p := points[i];
      var next := if i == |points| - 1 then start else points[i + 1];
      assert InBox(b, At(p)) && InBox(b, At(next));
      MiddleBoxed(b, p, next);
      hide Trace, Curve, Middle, Boxed, InBox;
      if p.onCurve {
        TraceBoxed(b, points, start, p, i + 1);
        BothInBox(b, [At(p)], Trace(points, start, p, i + 1));
      } else if next.onCurve {
        TraceBoxed(b, points, start, next, i + 2);
        CurveBoxed(b, prev, p, next, STEPS);
        BothInBox(b, Curve(prev, p, next, STEPS), Trace(points, start, next, i + 2));
      } else {
        var mid := Middle(p, next);
        TraceBoxed(b, points, start, mid, i + 1);
        CurveBoxed(b, prev, p, mid, STEPS);
        BothInBox(b, Curve(prev, p, mid, STEPS), Trace(points, start, mid, i + 1));
      }
    }
  }

  lemma PathBoxed(b: Box, points: seq<Point>)
    requires Boxed(b, points)
    ensures AllInBox(b, Path(points))
  {
    if points != [] {
      var start := Start(points);
      var i := if points[0].onCurve then 1 else 0;
      assert InBox(b, At(points[0])) && InBox(b, At(points[|points| - 1]));
      MiddleBoxed(b, points[0], points[|points| - 1]);
      hide Trace, Middle, InBox, Boxed;
      TraceBoxed(b, points, start, start, i);
      BothInBox(b, [At(start)], Trace(points, start, start, i));
      BothInBox(b, [At(start)] + Trace(points, start, start, i), [At(start)]);
    }
  }

  predicate EdgeInBox(b: Box, e: Edge) { InBox(b, Vertex(e.x0, e.y0)) && InBox(b, Vertex(e.x1, e.y1)) }

  lemma {:induction false} EdgesBoxed(b: Box, path: seq<Vertex>)
    requires AllInBox(b, path)
    ensures forall e | e in EdgesOf(path) :: EdgeInBox(b, e)
    decreases |path|
  {
    if |path| >= 2 {
      EdgesBoxed(b, path[..|path| - 1]);
      assert InBox(b, path[|path| - 2]) && InBox(b, path[|path| - 1]);
      hide InBox;
    }
  }

  /** No edge of an outline leaves the box that its points lie in. */
  lemma {:induction false} OutlineBoxed(b: Box, contours: seq<seq<Point>>)
    requires forall i | 0 <= i < |contours| :: Boxed(b, contours[i])
    ensures forall e | e in Outline.Outline(contours) :: EdgeInBox(b, e)
    decreases |contours|
  {
    hide Boxed, EdgeInBox, Path, EdgesOf, AllInBox;
    if contours != [] {
      OutlineBoxed(b, contours[..|contours| - 1]);
      PathBoxed(b, contours[|contours| - 1]);
      EdgesBoxed(b, Path(contours[|contours| - 1]));
    }
  }

  /** Main result: if all edges fit, every sample that is inside lies in any box that holds the points. */
  lemma InkInBox(b: Box, contours: seq<seq<Point>>, x: int, y: int)
    requires forall i | 0 <= i < |contours| :: Boxed(b, contours[i])
    requires WindingLeftOf(Outline.Outline(contours), y, x) != 0
    ensures b.left <= x < b.right && b.low <= y < b.high
  {
    OutlineBoxed(b, contours);
    var es := Outline.Outline(contours);
    hide Outline.Outline, WindingLeftOf, Boxed, CrossingAt;
    if forall i | 0 <= i < |es| && Crosses(es[i], y) :: CrossingAt(es[i], y).x <= x { NoSpill(contours, es, y, x); }
    if forall i | 0 <= i < |es| && Crosses(es[i], y) :: CrossingAt(es[i], y).x > x { NoSpill(contours, es, y, x); }
    var i :| 0 <= i < |es| && Crosses(es[i], y) && CrossingAt(es[i], y).x > x;
    var j :| 0 <= j < |es| && Crosses(es[j], y) && CrossingAt(es[j], y).x <= x;
    CrossingBetween(es[i], y);
    CrossingBetween(es[j], y);
    assert EdgeInBox(b, es[i]) && EdgeInBox(b, es[j]);
  }
}
