/** Glyph outlines: contours traced to edges, and why every scanline's winding changes cancel out. */
module Outline {
  const STEPS: int := 8

  datatype Point = Point(x: int, y: int, onCurve: bool)
  datatype Vertex = Vertex(x: int, y: int)
  datatype Edge = Edge(x0: int, y0: int, x1: int, y1: int)

  /** Division that truncates towards zero. */
  function Div(a: int, b: int): int
    requires b > 0
  {
    if a >= 0 then a / b else -((-a) / b)
  }

  function At(p: Point): Vertex { Vertex(p.x, p.y) }

  function Middle(p: Point, q: Point): Point { Point(Div(p.x + q.x, 2), Div(p.y + q.y, 2), true) }

  function Quad(a: int, b: int, c: int, t: int): int {
    Div((STEPS - t) * (STEPS - t) * a + 2 * (STEPS - t) * t * b + t * t * c, STEPS * STEPS)
  }

  function QuadAt(a: Point, b: Point, c: Point, t: int): Vertex { Vertex(Quad(a.x, b.x, c.x, t), Quad(a.y, b.y, c.y, t)) }

  /** The points of a curve after its start: its last point is the end of the curve. */
  function Curve(a: Point, b: Point, c: Point, t: nat): (path: seq<Vertex>)
    requires t <= STEPS
    ensures |path| == t
  {
    if t == 0 then [] else Curve(a, b, c, t - 1) + [QuadAt(a, b, c, t)]
  }

  lemma CurveEnds(a: Point, b: Point, c: Point)
    ensures Curve(a, b, c, STEPS)[STEPS - 1] == At(c)
  {
    assert Quad(a.x, b.x, c.x, STEPS) == Div(64 * c.x, 64) == c.x;
    assert Quad(a.y, b.y, c.y, STEPS) == Div(64 * c.y, 64) == c.y;
  }

  lemma {:induction false} CurveAt(a: Point, b: Point, c: Point, t: nat, k: nat)
    requires 1 <= k <= t <= STEPS
    ensures Curve(a, b, c, t)[k - 1] == QuadAt(a, b, c, k)
    decreases t
  {
    hide Quad;
    if k < t { CurveAt(a, b, c, t - 1, k); }
  }

  // ------------------------------------------------------------------- tracing

  /** Where tracing a contour starts: its first point on the curve, or one implied. */
  function Start(points: seq<Point>): Point
    requires points != []
  {
    var first, last := points[0], points[|points| - 1];
    if first.onCurve then first else if last.onCurve then last else Middle(first, last)
  }

  /** The polyline from prev on, through the points from i on. */
  function Trace(points: seq<Point>, start: Point, prev: Point, i: nat): seq<Vertex>
    decreases |points| - i
  {
    if i >= |points| then []
    else
      var p := points[i];
      if p.onCurve then [At(p)] + Trace(points, start, p, i + 1)
      else
        var next := if i == |points| - 1 then start else points[i + 1];
        if next.onCurve then Curve(prev, p, next, STEPS) + Trace(points, start, next, i + 2)
        else
          var mid := Middle(p, next);
          Curve(prev, p, mid, STEPS) + Trace(points, start, mid, i + 1)
  }

  /** The closed polyline of a contour. */
  function Path(points: seq<Point>): seq<Vertex> {
    if points == [] then []
    else
      var start := Start(points);
      [At(start)] + Trace(points, start, start, if points[0].onCurve then 1 else 0) + [At(start)]
  }

  /** The edges of a polyline; level ones are left out. */
  function EdgesOf(path: seq<Vertex>): seq<Edge> {
    if |path| < 2 then []
    else
      var n := |path|;
      var a, b := path[n - 2], path[n - 1];
      EdgesOf(path[..n - 1]) + if a.y == b.y then [] else [Edge(a.x, a.y, b.x, b.y)]
  }

  function Outline(contours: seq<seq<Point>>): seq<Edge> {
    if contours == [] then []
    else Outline(contours[..|contours| - 1]) + EdgesOf(Path(contours[|contours| - 1]))
  }

  // ------------------------------------------------------------------- winding

  predicate Crosses(e: Edge, y: int) { (e.y0 <= y && e.y1 > y) || (e.y1 <= y && e.y0 > y) }

  function Delta(e: Edge): int { if e.y1 > e.y0 then 1 else -1 }

  /** The sum of the winding changes that a scanline meets. */
  function Winding(es: seq<Edge>, y: int): int {
    if es == [] then 0
    else Winding(es[..|es| - 1], y) + if Crosses(es[|es| - 1], y) then Delta(es[|es| - 1]) else 0
  }

  function Above(v: Vertex, y: int): int { if v.y > y then 1 else 0 }

  lemma {:induction false} WindingSplits(a: seq<Edge>, b: seq<Edge>, y: int)
    ensures Winding(a + b, y) == Winding(a, y) + Winding(b, y)
    decreases |b|
  {
    if b == [] {
      assert a + b == a;
    } else {
      assert (a + b)[..|a + b| - 1] == a + b[..|b| - 1];
      WindingSplits(a, b[..|b| - 1], y);
    }
  }

  /** Along a polyline the winding changes telescope to its two ends. */
  lemma {:induction false} WindingTelescopes(path: seq<Vertex>, y: int)
    requires path != []
    ensures Winding(EdgesOf(path), y) == Above(path[|path| - 1], y) - Above(path[0], y)
    decreases |path|
  {
    var n := |path|;
    if n >= 2 {
      var a, b := path[n - 2], path[n - 1];
      var last := if a.y == b.y then [] else [Edge(a.x, a.y, b.x, b.y)];
      WindingTelescopes(path[..n - 1], y);
      WindingSplits(EdgesOf(path[..n - 1]), last, y);
      assert last != [] ==> last[..0] == [];
      assert Winding(last, y) == Above(b, y) - Above(a, y);
    }
  }

  /** Main result: whatever the contours, the winding changes on every scanline sum to zero. */
  lemma {:induction false} Balanced(contours: seq<seq<Point>>, y: int)
    ensures Winding(Outline(contours), y) == 0
    decreases |contours|
  {
    if contours != [] {
      var n := |contours|;
      Balanced(contours[..n - 1], y);
      if contours[n - 1] != [] { WindingTelescopes(Path(contours[n - 1]), y); }
      WindingSplits(Outline(contours[..n - 1]), EdgesOf(Path(contours[n - 1])), y);
      hide Outline, Path, EdgesOf;
    }
  }

  /** The polyline visits every point that is on the curve. */
  lemma {:induction false} TraceVisits(points: seq<Point>, start: Point, prev: Point, i: nat, k: nat)
    requires i <= k < |points| && points[k].onCurve
    ensures At(points[k]) in Trace(points, start, prev, i)
    decreases |points| - i
  {
    var p := points[i];
    var path := Trace(points, start, prev, i);
    if p.onCurve {
      var rest := Trace(points, start, p, i + 1);
      assert path == [At(p)] + rest;
      if k == i {
        assert path[0] == At(p);
      } else {
        TraceVisits(points, start, p, i + 1, k);
        InBack([At(p)], rest, At(points[k]));
      }
    } else {
      var next := if i == |points| - 1 then start else points[i + 1];
      if next.onCurve {
        var curve, rest := Curve(prev, p, next, STEPS), Trace(points, start, next, i + 2);
        assert path == curve + rest;
        if k == i + 1 {
          CurveEnds(prev, p, next);
          InFront(curve, rest, At(next));
        } else {
          TraceVisits(points, start, next, i + 2, k);
          InBack(curve, rest, At(points[k]));
        }
      } else {
        var mid := Middle(p, next);
        var curve, rest := Curve(prev, p, mid, STEPS), Trace(points, start, mid, i + 1);
        assert path == curve + rest;
        TraceVisits(points, start, mid, i + 1, k);
        InBack(curve, rest, At(points[k]));
      }
    }
  }

  lemma InFront(a: seq<Vertex>, b: seq<Vertex>, v: Vertex)
    requires v in a
    ensures v in a + b
  {
  }

  lemma InBack(a: seq<Vertex>, b: seq<Vertex>, v: Vertex)
    requires v in b
    ensures v in a + b
  {
  }

  lemma PathVisits(points: seq<Point>, k: nat)
    requires k < |points| && points[k].onCurve
    ensures At(points[k]) in Path(points)
  {
    var start := Start(points);
    var i := if points[0].onCurve then 1 else 0;
    var trace := Trace(points, start, start, i);
    assert Path(points) == [At(start)] + trace + [At(start)];
    if k < i {
      assert Path(points)[0] == At(points[k]);
    } else {
      TraceVisits(points, start, start, i, k);
      InBack([At(start)], trace, At(points[k]));
      InFront([At(start)] + trace, [At(start)], At(points[k]));
    }
    hide Trace, Start;
  }
}
