/** Glyphs with more edges than the table holds: what the dropped edges do to a scanline. */
module EdgeLimit {
  import opened Outline

  const EDGES_MAX: nat := 512
  const POINTS_MAX: nat := 384
  const CONTOURS_MAX: nat := 64

  /**
    Main result: of a glyph's edges only the first are kept. A scanline's winding changes cancel out
    over the kept edges exactly when they do over the dropped ones.
  */
  lemma KeptBalanceIff(contours: seq<seq<Point>>, limit: nat, y: int)
    requires limit <= |Outline.Outline(contours)|
    ensures var es := Outline.Outline(contours); Winding(es[..limit], y) == -Winding(es[limit..], y)
  {
    hide Outline.Outline, Winding;
    var es := Outline.Outline(contours);
    Balanced(contours, y);
    assert es[..limit] + es[limit..] == es;
    WindingSplits(es[..limit], es[limit..], y);
  }

  // ---------------------------------------------------------------------------- counting

  function PointCount(contours: seq<seq<Point>>): nat {
    if contours == [] then 0 else PointCount(contours[..|contours| - 1]) + |contours[|contours| - 1]|
  }

  /** What the loader takes. */
  predicate Loadable(contours: seq<seq<Point>>) { |contours| <= CONTOURS_MAX && PointCount(contours) <= POINTS_MAX }

  lemma {:induction false} FewEdges(path: seq<Vertex>)
    ensures |EdgesOf(path)| <= if path == [] then 0 else |path| - 1
    decreases |path|
  {
    if |path| >= 2 { FewEdges(path[..|path| - 1]); }
  }

  predicate OnCurve(points: seq<Point>) { forall i | 0 <= i < |points| :: points[i].onCurve }

  lemma {:induction false} StraightTrace(points: seq<Point>, start: Point, prev: Point, i: nat)
    requires OnCurve(points) && i <= |points|
    ensures |Trace(points, start, prev, i)| == |points| - i
    decreases |points| - i
  {
    if i < |points| { StraightTrace(points, start, points[i], i + 1); }
  }

  lemma StraightEdges(points: seq<Point>)
    requires OnCurve(points)
    ensures |EdgesOf(Path(points))| <= |points|
  {
    if points != [] {
      StraightTrace(points, Start(points), Start(points), 1);
      FewEdges(Path(points));
    }
    hide EdgesOf;
  }

  /** Without points off the curve a glyph that the loader takes always fits. */
  lemma {:induction false} StraightFits(contours: seq<seq<Point>>)
    requires forall i | 0 <= i < |contours| :: OnCurve(contours[i])
    ensures |Outline.Outline(contours)| <= PointCount(contours)
    ensures Loadable(contours) ==> |Outline.Outline(contours)| <= EDGES_MAX
    decreases |contours|
  {
    if contours != [] {
      hide OnCurve, Path, EdgesOf;
      StraightFits(contours[..|contours| - 1]);
      StraightEdges(contours[|contours| - 1]);
    }
  }

  // ------------------------------------------------------------------- an outline too long

  const A := Point(0, 0, true)
  const B := Point(4, 1, true)
  const C := Point(0, 2, true)

  /** A drop: one point on the curve and two off it, which imply a fourth. */
  const P := Point(0, 0, true)
  const Q := Point(64, 0, false)
  const M := Point(32, 64, true)
  const R := Point(0, 128, false)

  /** A triangle and n drops. */
  function Glyph(n: nat): seq<seq<Point>> {
    if n == 0 then [[A, B, C]] else Glyph(n - 1) + [[P, Q, R]]
  }

  lemma {:induction false} GlyphCounts(n: nat)
    ensures |Glyph(n)| == n + 1 && PointCount(Glyph(n)) == 3 + 3 * n
  {
    if n == 0 {
      assert Glyph(0)[..0] == [];
      assert PointCount([]) == 0;
    } else {
      GlyphCounts(n - 1);
      assert Glyph(n)[..|Glyph(n)| - 1] == Glyph(n - 1);
    }
  }

  lemma ThreePoints(a: Point, b: Point, c: Point)
    requires a.onCurve && b.onCurve && c.onCurve
    ensures Path([a, b, c]) == [At(a), At(b), At(c), At(a)]
  {
    var contour := [a, b, c];
    assert Trace(contour, a, c, 3) == [];
    assert Trace(contour, a, b, 2) == [At(c)];
    assert Trace(contour, a, a, 1) == [At(b), At(c)];
    assert Start(contour) == a;
  }

  function Side(a: Vertex, b: Vertex): seq<Edge> { if a.y == b.y then [] else [Edge(a.x, a.y, b.x, b.y)] }

  lemma FourVertices(a: Vertex, b: Vertex, c: Vertex, d: Vertex)
    ensures EdgesOf([a, b, c, d]) == Side(a, b) + Side(b, c) + Side(c, d)
  {
    var path := [a, b, c, d];
    assert path[..3] == [a, b, c] && [a, b, c][..2] == [a, b] && [a, b][..1] == [a];
    assert EdgesOf([a]) == [];
    assert EdgesOf([a, b]) == Side(a, b);
    assert EdgesOf([a, b, c]) == EdgesOf([a, b]) + Side(b, c);
  }

  lemma FirstTriangle()
    ensures EdgesOf(Path([A, B, C])) == [Edge(0, 0, 4, 1), Edge(4, 1, 0, 2), Edge(0, 2, 0, 0)]
  {
    ThreePoints(A, B, C);
    FourVertices(At(A), At(B), At(C), At(A));
  }

  // --------------------------------------------------------------------------- drops

  function Drop(): seq<Vertex> { Path([P, Q, R]) }

  lemma DropParts()
    ensures Drop() == [At(P)] + Curve(P, Q, M, STEPS) + Curve(M, R, P, STEPS) + [At(P)]
  {
    var contour := [P, Q, R];
    assert Start(contour) == P && Middle(Q, R) == M;
    hide Curve;
    assert Trace(contour, P, P, 4) == [];
    assert Trace(contour, P, M, 2) == Curve(M, R, P, STEPS) + [];
    assert Trace(contour, P, P, 1) == Curve(P, Q, M, STEPS) + Trace(contour, P, M, 2);
  }

  /** How high a drop is after k steps. */
  function Height(k: nat): int {
    if k <= 8 then k * k else 64 + 16 * (k - 8) - 3 * (k - 8) * (k - 8)
  }

  lemma Rising(k: nat)
    requires k <= 8
    ensures Quad(0, 0, 64, k) == Height(k)
  {
    assert Quad(0, 0, 64, k) == Div(64 * (k * k), 64);
  }

  lemma Falling(k: nat)
    requires 1 <= k <= 8
    ensures Quad(64, 128, 0, k) == Height(8 + k)
  {
    var h := 64 + 16 * k - 3 * (k * k);
    assert (8 - k) * (8 - k) * 64 + 2 * (8 - k) * k * 128 == 64 * h;
    assert h >= 0;
  }

  lemma DropHeight(k: nat)
    requires k <= 16
    ensures |Drop()| == 18 && Drop()[k].y == Height(k)
  {
    DropParts();
    hide Drop, Curve, Quad, Height;
    if k == 0 {
      Rising(0);
      assert Height(0) == 0 by { HeightNought(); }
    } else if k <= 8 {
      CurveAt(P, Q, M, STEPS, k);
      Rising(k);
    } else {
      CurveAt(M, R, P, STEPS, k - 8);
      Falling(k - 8);
    }
  }

  lemma HeightNought()
    ensures Height(0) == 0 && Height(16) == 0 && Height(13) == 69
  {
  }

  lemma Slanted(k: nat)
    requires k < 16
    ensures Height(k) != Height(k + 1)
  {
    if k < 8 {
      assert (k + 1) * (k + 1) == k * k + 2 * k + 1;
    } else {
      var j := k - 8;
      assert Height(k) == 64 + 16 * j - 3 * (j * j);
      assert Height(k + 1) == 64 + 16 * (j + 1) - 3 * (j * j + 2 * j + 1);
    }
  }

  /** A polyline without level steps has an edge for every step. */
  lemma {:induction false} AllSteps(path: seq<Vertex>, n: nat)
    requires 1 <= n <= |path| && forall k | 0 <= k < n - 1 :: path[k].y != path[k + 1].y
    ensures |EdgesOf(path[..n])| == n - 1
    decreases n
  {
    if n > 1 {
      assert path[..n][..n - 1] == path[..n - 1];
      AllSteps(path, n - 1);
    }
  }

  lemma {:induction false} EdgesGrow(path: seq<Vertex>, n: nat, m: nat)
    requires n <= m <= |path|
    ensures EdgesOf(path[..n]) <= EdgesOf(path[..m])
    decreases m
  {
    if n < m {
      assert path[..m][..m - 1] == path[..m - 1];
      EdgesGrow(path, n, m - 1);
    }
  }

  lemma DropEdges(n: nat)
    requires 1 <= n <= 17
    ensures |Drop()| == 18 && |EdgesOf(Drop())| == 16
    ensures EdgesOf(Drop())[..n - 1] == EdgesOf(Drop()[..n])
  {
    DropEnds();
    DropSlants();
    var path := Drop();
    hide Drop, EdgesOf;
    AllSteps(path, n);
    AllSteps(path, 17);
    EdgesGrow(path, n, 17);
  }

  lemma DropSlants()
    ensures |Drop()| == 18 && forall k | 0 <= k < 16 :: Drop()[k].y != Drop()[k + 1].y
  {
    hide Drop, Height;
    DropHeight(16);
    forall k | 0 <= k < 16
      ensures Drop()[k].y != Drop()[k + 1].y
    {
      DropHeight(k);
      DropHeight(k + 1);
      Slanted(k);
    }
  }

  /** The last step of a drop is level and has no edge. */
  lemma DropEnds()
    ensures |Drop()| == 18 && EdgesOf(Drop()) == EdgesOf(Drop()[..17])
  {
    DropHeight(16);
    DropParts();
    HeightNought();
    var path := Drop();
    assert path[17] == At(P) && path[..17] == path[..|path| - 1];
    hide Drop, Height;
  }

  // --------------------------------------------------------------------------- the glyph

  lemma OneMore(n: nat)
    requires n > 0
    ensures Outline.Outline(Glyph(n)) == Outline.Outline(Glyph(n - 1)) + EdgesOf(Drop())
  {
    assert Glyph(n)[..|Glyph(n)| - 1] == Glyph(n - 1);
    hide Path, EdgesOf;
  }

  lemma {:induction false} EdgeCount(n: nat)
    ensures |Outline.Outline(Glyph(n))| == 3 + 16 * n
    decreases n
  {
    if n == 0 {
      FirstTriangle();
      hide Path, EdgesOf;
      assert Glyph(0)[..0] == [];
      assert Outline.Outline([]) == [];
    } else {
      hide Path, EdgesOf, Outline.Outline, Glyph, Drop;
      EdgeCount(n - 1);
      DropEdges(1);
      OneMore(n);
    }
  }

  /** The first thirteen edges of a drop lead up from the ground and not back to it. */
  lemma PartOfDrop()
    ensures |EdgesOf(Drop())| == 16 && Winding(EdgesOf(Drop())[..13], 11) == 1
  {
    DropEdges(14);
    DropHeight(0);
    DropHeight(13);
    HeightNought();
    hide Drop, Height, EdgesOf;
    WindingTelescopes(Drop()[..14], 11);
  }

  /**
    Main result: there is a glyph that the loader takes, of 33 contours and 99 points, whose last three
    edges are dropped. All its edges cancel out on the scanline at height eleven; those kept do not.
  */
  lemma DroppedEdgesSpill(n: nat)
    requires n == 32
    ensures Loadable(Glyph(n))
    ensures var es := Outline.Outline(Glyph(n));
            |es| == EDGES_MAX + 3 && Winding(es, 11) == 0 && Winding(es[..EDGES_MAX], 11) == 1
  {
    GlyphCounts(n);
    EdgeCount(n);
    EdgeCount(n - 1);
    OneMore(n);
    PartOfDrop();
    Balanced(Glyph(n), 11);
    Balanced(Glyph(n - 1), 11);
    hide Outline.Outline, Glyph, EdgesOf, Drop, Winding;
    var es, before, last := Outline.Outline(Glyph(n)), Outline.Outline(Glyph(n - 1)), EdgesOf(Drop());
    assert es[..EDGES_MAX] == before + last[..13];
    WindingSplits(before, last[..13], 11);
  }
}
