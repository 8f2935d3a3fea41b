/** The rasteriser's arrays: edges collected under a limit, crossings of a scanline sorted, and the inside test. */
module Rasterizer {
  import opened Outline

  // ------------------------------------------------------------------ collecting

  lemma EdgesNext(path: seq<Vertex>, v: Vertex)
    requires path != []
    ensures var a := path[|path| - 1];
            EdgesOf(path + [v]) == EdgesOf(path) + if a.y == v.y then [] else [Edge(a.x, a.y, v.x, v.y)]
  {
    assert (path + [v])[..|path|] == path;
  }

  /** What was found before, and the edges of a path since. */
  ghost predicate Collected(full: seq<Edge>, before: seq<Edge>, path: seq<Vertex>) { full == before + EdgesOf(path) }

  lemma CollectedIs(full: seq<Edge>, before: seq<Edge>, path: seq<Vertex>)
    requires Collected(full, before, path)
    ensures full == before + EdgesOf(path)
  {
  }

  lemma CollectedMore(full: seq<Edge>, before: seq<Edge>, path: seq<Vertex>, longer: seq<Vertex>, more: seq<Edge>)
    requires Collected(full, before, path) && EdgesOf(longer) == EdgesOf(path) + more
    ensures Collected(full + more, before, longer)
  {
    hide EdgesOf;
    assert before + EdgesOf(path) + more == before + (EdgesOf(path) + more);
  }

  /** The edges found so far; those beyond the capacity are dropped. */
  class EdgeList {
    const edges: array<Edge>
    var count: nat
    ghost var full: seq<Edge>  // all edges found, dropped ones included

    ghost predicate Valid()
      reads this, edges
    {
      && count <= edges.Length && count <= |full| && edges[..count] == full[..count]
      && (count < |full| ==> count == edges.Length)
    }

    constructor (capacity: nat)
      ensures Valid() && fresh(edges) && edges.Length == capacity && full == []
    {
      edges := new Edge[capacity](_ => Edge(0, 0, 0, 0));
      count, full := 0, [];
    }

    method AddEdge(x0: int, y0: int, x1: int, y1: int)
      requires Valid()
      modifies this, edges
      ensures Valid() && full == old(full) + if y0 == y1 then [] else [Edge(x0, y0, x1, y1)]
    {
      if y0 != y1 {
        full := full + [Edge(x0, y0, x1, y1)];
      }
      if count >= edges.Length || y0 == y1 {
        return;
      }
      edges[count] := Edge(x0, y0, x1, y1);
      count := count + 1;
    }

    /** The edge by which a path grew. */
    method AddLine(x0: int, y0: int, x1: int, y1: int, ghost before: seq<Edge>, ghost path: seq<Vertex>, ghost longer: seq<Vertex>)
      requires Valid() && Collected(full, before, path)
      requires EdgesOf(longer) == EdgesOf(path) + if y0 == y1 then [] else [Edge(x0, y0, x1, y1)]
      modifies this, edges
      ensures Valid() && Collected(full, before, longer)
    {
      CollectedMore(full, before, path, longer, if y0 == y1 then [] else [Edge(x0, y0, x1, y1)]);
      hide Collected, EdgesOf;
      AddEdge(x0, y0, x1, y1);
    }

    /** The edges of a curve, from where the path so far ends. */
    method AddQuad(a: Point, b: Point, c: Point, ghost before: seq<Edge>, ghost path: seq<Vertex>)
      requires Valid() && path != [] && path[|path| - 1] == At(a) && Collected(full, before, path)
      modifies this, edges
      ensures Valid() && Collected(full, before, path + Curve(a, b, c, STEPS))
    {
      var prevX, prevY := a.x, a.y;
      var step := 1;
      assert path + Curve(a, b, c, 0) == path;
      hide Collected, EdgesOf, Quad;
      while step <= STEPS
        invariant 1 <= step <= STEPS + 1 && Valid()
        invariant Collected(full, before, path + Curve(a, b, c, step - 1))
        invariant var now := path + Curve(a, b, c, step - 1); now[|now| - 1] == Vertex(prevX, prevY)
      {
        var x, y := Quad(a.x, b.x, c.x, step), Quad(a.y, b.y, c.y, step);
        ghost var now := path + Curve(a, b, c, step - 1);
        EdgesNext(now, Vertex(x, y));
        assert now + [Vertex(x, y)] == path + Curve(a, b, c, step);
        AddLine(prevX, prevY, x, y, before, now, now + [Vertex(x, y)]);
        prevX, prevY := x, y;
        step := step + 1;
      }
    }

    /** A contour: the points from first to last, none when first is beyond last. */
    method TraceContour(points: seq<Point>, first: nat, last: nat)
      requires Valid() && last < |points|
      modifies this, edges
      ensures Valid() && full == old(full) + EdgesOf(Path(Contour(points, first, last)))
    {
      if first > last {
        return;
      }
      ghost var contour, before := points[first..last + 1], full;
      var start, i := PickStart(points, first, last);
      var prev := start;
      ghost var path, whole := [At(start)], Path(contour);
      TraceBegins(contour, start, i - first);
      assert Collected(full, before, path);
      hide On, Curve, Trace, EdgesOf, Middle, Path, Start, At, Collected, Valid;
      while i <= last
        invariant first <= i <= last + 2 && Valid() && path != []
        invariant On(contour, start, prev, i - first, path, whole) && Collected(full, before, path)
        decreases last + 2 - i
      {
        var p := points[i];
        ghost var k, now := i - first, path;
        ContourAt(points, first, last, i);
        OnEnds(contour, start, prev, k, path, whole);
        if p.onCurve {
          path := StepPoint(contour, start, prev, k, now, whole);
          AddLine(prev.x, prev.y, p.x, p.y, before, now, path);
          prev := p;
          i := i + 1;
        } else {
          var next := if i == last then start else points[i + 1];
          if next.onCurve {
            path := StepCurve(contour, start, prev, k, now, whole);
            AddQuad(prev, p, next, before, now);
            prev := next;
            i := i + 2;
          } else {
            path := StepMiddle(contour, start, prev, k, now, whole);
            AddQuad(prev, p, Middle(p, next), before, now);
            prev := Middle(p, next);
            i := i + 1;
          }
        }
      }
      OnEnds(contour, start, prev, i - first, path, whole);
      TraceEnds(contour, start, prev, i - first, path, whole);
      AddLine(prev.x, prev.y, start.x, start.y, before, path, whole);
      CollectedIs(full, before, whole);
    }

    /** The next contour of a glyph. */
    method TraceNext(points: seq<Point>, ends: seq<nat>, i: nat, first: nat)
      requires Valid() && i < |ends| && UpTo(full, points, ends, i, first)
      modifies this, edges
      ensures Valid() && UpTo(full, points, ends, i + 1, ends[i] + 1)
    {
      TracedNext(full, points, ends, i, first, ends[i]);
      hide Path, EdgesOf, Contour, UpTo, Valid;
      TraceContour(points, first, ends[i]);
    }

    /** All contours of a glyph, given by the last point of each. */
    method TraceAll(points: seq<Point>, ends: seq<nat>)
      requires Valid() && full == [] && EndsWithin(points, ends)
      modifies this, edges
      ensures Valid() && full == Outline.Outline(Contours(points, ends, |ends|))
    {
      var first, i: nat := 0, 0;
      NothingTraced(points, ends);
      hide *;
      while i < |ends|
        invariant Valid() && UpTo(full, points, ends, i, first)
      {
        TraceNext(points, ends, i, first);
        first, i := ends[i] + 1, i + 1;
      }
      TracedAll(full, points, ends, first);
    }
  }

  function Contour(points: seq<Point>, first: nat, last: nat): seq<Point>
    requires last < |points|
  {
    if first > last then [] else points[first..last + 1]
  }

  /** Where a contour begins: after the last point of the one before. */
  function FirstOf(ends: seq<nat>, n: nat): nat
    requires n <= |ends|
  {
    if n == 0 then 0 else ends[n - 1] + 1
  }

  predicate EndsWithin(points: seq<Point>, ends: seq<nat>) { forall i | 0 <= i < |ends| :: ends[i] < |points| }

  /** The first n contours that the last points of each describe. */
  function Contours(points: seq<Point>, ends: seq<nat>, n: nat): seq<seq<Point>>
    requires n <= |ends| && EndsWithin(points, ends)
  {
    if n == 0 then []
    else Contours(points, ends, n - 1) + [Contour(points, FirstOf(ends, n - 1), ends[n - 1])]
  }

  lemma OutlineBack(contours: seq<seq<Point>>, contour: seq<Point>)
    ensures Outline.Outline(contours + [contour]) == Outline.Outline(contours) + EdgesOf(Path(contour))
  {
    hide Path, EdgesOf;
    assert (contours + [contour])[..|contours|] == contours;
  }

  /** The edges of the first n contours, and where the next one begins. */
  ghost predicate UpTo(full: seq<Edge>, points: seq<Point>, ends: seq<nat>, n: nat, first: nat) {
    && n <= |ends| && EndsWithin(points, ends) && first == FirstOf(ends, n)
    && full == Outline.Outline(Contours(points, ends, n))
  }

  lemma NothingTraced(points: seq<Point>, ends: seq<nat>)
    requires EndsWithin(points, ends)
    ensures UpTo([], points, ends, 0, 0)
  {
  }

  lemma TracedAll(full: seq<Edge>, points: seq<Point>, ends: seq<nat>, first: nat)
    requires UpTo(full, points, ends, |ends|, first)
    ensures EndsWithin(points, ends) && full == Outline.Outline(Contours(points, ends, |ends|))
  {
  }

  lemma TracedNext(full: seq<Edge>, points: seq<Point>, ends: seq<nat>, i: nat, first: nat, last: nat)
    requires UpTo(full, points, ends, i, first) && i < |ends| && last == ends[i]
    ensures last < |points|
    ensures UpTo(full + EdgesOf(Path(Contour(points, first, last))), points, ends, i + 1, last + 1)
  {
    hide Contour, Path, EdgesOf, Outline.Outline;
    OutlineBack(Contours(points, ends, i), Contour(points, first, last));
  }

  method PickStart(points: seq<Point>, first: nat, last: nat) returns (start: Point, i: nat)
    requires first <= last < |points|
    ensures start == Start(points[first..last + 1]) && i == first + if points[first].onCurve then 1 else 0
  {
    ghost var contour := points[first..last + 1];
    assert contour[0] == points[first] && contour[|contour| - 1] == points[last];
    if points[first].onCurve {
      return points[first], first + 1;
    }
    var lastPoint := points[last];
    if lastPoint.onCurve {
      return lastPoint, first;
    }
    return Point(Div(points[first].x + lastPoint.x, 2), Div(points[first].y + lastPoint.y, 2), true), first;
  }

  /** Tracing stands at point i, having drawn path; with what is still to be drawn that makes the whole. */
  ghost predicate On(points: seq<Point>, start: Point, prev: Point, i: nat, path: seq<Vertex>, whole: seq<Vertex>) {
    path != [] && path[|path| - 1] == At(prev) && whole == path + Trace(points, start, prev, i) + [At(start)]
  }

  lemma TraceBegins(points: seq<Point>, start: Point, i: nat)
    requires points != [] && start == Start(points) && i == if points[0].onCurve then 1 else 0
    ensures On(points, start, start, i, [At(start)], Path(points))
    ensures EdgesOf([At(start)]) == []
  {
  }

  lemma OnEnds(points: seq<Point>, start: Point, prev: Point, i: nat, path: seq<Vertex>, whole: seq<Vertex>)
    requires On(points, start, prev, i, path, whole)
    ensures path != [] && path[|path| - 1] == At(prev)
  {
  }

  lemma ContourAt(points: seq<Point>, first: nat, last: nat, i: nat)
    requires first <= i <= last < |points|
    ensures var contour := points[first..last + 1];
            |contour| == last + 1 - first && contour[i - first] == points[i]
            && (i < last ==> contour[i - first + 1] == points[i + 1])
  {
  }

  lemma StepPoint(points: seq<Point>, start: Point, prev: Point, i: nat, path: seq<Vertex>, whole: seq<Vertex>)
    returns (longer: seq<Vertex>)
    requires On(points, start, prev, i, path, whole) && i < |points| && points[i].onCurve
    ensures On(points, start, points[i], i + 1, longer, whole)
    ensures var p := points[i];
            longer != [] && EdgesOf(longer) == EdgesOf(path) + if prev.y == p.y then [] else [Edge(prev.x, prev.y, p.x, p.y)]
  {
    var v := At(points[i]);
    longer := path + [v];
    EdgesNext(path, v);
    TraceStep(points, start, prev, i);
    Longer(path, [v], Trace(points, start, points[i], i + 1), At(start));
    hide EdgesOf, Trace;
  }

  lemma StepCurve(points: seq<Point>, start: Point, prev: Point, i: nat, path: seq<Vertex>, whole: seq<Vertex>)
    returns (longer: seq<Vertex>)
    requires On(points, start, prev, i, path, whole) && i < |points| && !points[i].onCurve
    requires (if i == |points| - 1 then start else points[i + 1]).onCurve
    ensures var next := if i == |points| - 1 then start else points[i + 1];
            longer != [] && longer == path + Curve(prev, points[i], next, STEPS) && On(points, start, next, i + 2, longer, whole)
  {
    var next := if i == |points| - 1 then start else points[i + 1];
    longer := path + Curve(prev, points[i], next, STEPS);
    TraceStep(points, start, prev, i);
    CurveEnds(prev, points[i], next);
    Longer(path, Curve(prev, points[i], next, STEPS), Trace(points, start, next, i + 2), At(start));
    hide Curve, Trace;
  }

  lemma StepMiddle(points: seq<Point>, start: Point, prev: Point, i: nat, path: seq<Vertex>, whole: seq<Vertex>)
    returns (longer: seq<Vertex>)
    requires On(points, start, prev, i, path, whole) && i < |points| && !points[i].onCurve
    requires !(if i == |points| - 1 then start else points[i + 1]).onCurve
    ensures var mid := Middle(points[i], if i == |points| - 1 then start else points[i + 1]);
            longer != [] && longer == path + Curve(prev, points[i], mid, STEPS) && On(points, start, mid, i + 1, longer, whole)
  {
    var mid := Middle(points[i], if i == |points| - 1 then start else points[i + 1]);
    longer := path + Curve(prev, points[i], mid, STEPS);
    TraceStep(points, start, prev, i);
    CurveEnds(prev, points[i], mid);
    Longer(path, Curve(prev, points[i], mid, STEPS), Trace(points, start, mid, i + 1), At(start));
    hide Curve, Trace, Middle;
  }

  lemma TraceEnds(points: seq<Point>, start: Point, prev: Point, i: nat, path: seq<Vertex>, whole: seq<Vertex>)
    requires On(points, start, prev, i, path, whole) && i >= |points|
    ensures EdgesOf(whole) == EdgesOf(path) + if prev.y == start.y then [] else [Edge(prev.x, prev.y, start.x, start.y)]
  {
    assert path + [] == path;
    EdgesNext(path, At(start));
    hide EdgesOf;
  }

  lemma Longer(path: seq<Vertex>, part: seq<Vertex>, rest: seq<Vertex>, v: Vertex)
    ensures path + (part + rest) + [v] == (path + part) + rest + [v]
  {
  }

  lemma TraceStep(points: seq<Point>, start: Point, prev: Point, i: nat)
    requires i < |points|
    ensures var p := points[i];
            var next := if i == |points| - 1 then start else points[i + 1];
            Trace(points, start, prev, i) ==
            if p.onCurve then [At(p)] + Trace(points, start, p, i + 1)
            else if next.onCurve then Curve(prev, p, next, STEPS) + Trace(points, start, next, i + 2)
            else Curve(prev, p, Middle(p, next), STEPS) + Trace(points, start, Middle(p, next), i + 1)
  {
  }

  // ------------------------------------------------------------------- scanlines

  datatype Crossing = Crossing(x: int, delta: int)

  /** Where an edge crosses a scanline; the quotient truncates towards zero whatever the edge's direction. */
  function CrossingAt(e: Edge, y: int): Crossing
    requires Crosses(e, y)
  {
    var cross, denom := (e.x1 - e.x0) * (y - e.y0), e.y1 - e.y0;
    Crossing(e.x0 + (if denom > 0 then Div(cross, denom) else Div(-cross, -denom)), Delta(e))
  }

  /** The crossings of a scanline, in the order of the edges. */
  function Crossings(es: seq<Edge>, y: int): (cs: seq<Crossing>)
    ensures |cs| <= |es|
  {
    if es == [] then []
    else
      var e := es[|es| - 1];
      Crossings(es[..|es| - 1], y) + if Crosses(e, y) then [CrossingAt(e, y)] else []
  }

  /** The sum of the changes at or to the left of x. */
  function LeftSum(cs: seq<Crossing>, x: int): int {
    if cs == [] then 0
    else LeftSum(cs[..|cs| - 1], x) + if cs[|cs| - 1].x <= x then cs[|cs| - 1].delta else 0
  }

  ghost predicate Sorted(cs: seq<Crossing>) { forall i, j | 0 <= i < j < |cs| :: cs[i].x <= cs[j].x }

  /** A crossing put where it belongs, after those with the same x. */
  function Insert(cs: seq<Crossing>, c: Crossing): (r: seq<Crossing>)
    ensures |r| == |cs| + 1
  {
    if cs == [] || cs[|cs| - 1].x <= c.x then cs + [c]
    else Insert(cs[..|cs| - 1], c) + [cs[|cs| - 1]]
  }

  function Arranged(cs: seq<Crossing>): (r: seq<Crossing>)
    ensures |r| == |cs|
  {
    if cs == [] then [] else Insert(Arranged(cs[..|cs| - 1]), cs[|cs| - 1])
  }

  lemma {:induction false} InsertPermutes(cs: seq<Crossing>, c: Crossing)
    ensures multiset(Insert(cs, c)) == multiset(cs) + multiset{c}
    decreases |cs|
  {
    if cs != [] && cs[|cs| - 1].x > c.x {
      var init, last := cs[..|cs| - 1], cs[|cs| - 1];
      InsertPermutes(init, c);
      assert cs == init + [last];
      hide Insert;
    }
  }

  lemma {:induction false} InsertSums(cs: seq<Crossing>, c: Crossing, x: int)
    ensures LeftSum(Insert(cs, c), x) == LeftSum(cs, x) + if c.x <= x then c.delta else 0
    decreases |cs|
  {
    LeftSumBack(cs, c, x);
    if cs != [] && cs[|cs| - 1].x > c.x {
      var init, last := cs[..|cs| - 1], cs[|cs| - 1];
      InsertSums(init, c, x);
      LeftSumNext(cs, x);
      LeftSumBack(Insert(init, c), last, x);
    }
    hide LeftSum;
  }

  lemma LeftSumBack(cs: seq<Crossing>, c: Crossing, x: int)
    ensures LeftSum(cs + [c], x) == LeftSum(cs, x) + if c.x <= x then c.delta else 0
  {
    assert (cs + [c])[..|cs|] == cs;
  }

  lemma {:induction false} InsertSorts(cs: seq<Crossing>, c: Crossing)
    requires Sorted(cs)
    ensures Sorted(Insert(cs, c))
    decreases |cs|
  {
    if cs == [] || cs[|cs| - 1].x <= c.x {
      SortedBack(cs, c);
    } else {
      var init, last := cs[..|cs| - 1], cs[|cs| - 1];
      SortedFront(cs);
      InsertSorts(init, c);
      InsertPermutes(init, c);
      assert cs == init + [last];
      hide Insert, Sorted;
      InsertBelow(init, c, last);
    }
  }

  lemma SortedBack(cs: seq<Crossing>, c: Crossing)
    requires Sorted(cs) && (cs == [] || cs[|cs| - 1].x <= c.x)
    ensures Sorted(cs + [c])
  {
  }

  lemma SortedFront(cs: seq<Crossing>)
    requires Sorted(cs) && cs != []
    ensures Sorted(cs[..|cs| - 1])
  {
  }

  lemma InsertBelow(init: seq<Crossing>, c: Crossing, last: Crossing)
    requires Sorted(init + [last]) && c.x < last.x && Sorted(Insert(init, c))
    requires multiset(Insert(init, c)) == multiset(init) + multiset{c}
    ensures Sorted(Insert(init, c) + [last])
  {
    var r := Insert(init, c);
    forall i | 0 <= i < |r|
      ensures r[i].x <= last.x
    {
      assert r[i] in multiset(r);
      if r[i] != c {
        assert r[i] in multiset(init);
        var k :| 0 <= k < |init| && init[k] == r[i];
        assert (init + [last])[k] == init[k] && (init + [last])[|init|] == last;
      }
    }
  }

  lemma {:induction false} ArrangedSorts(cs: seq<Crossing>)
    ensures Sorted(Arranged(cs))
    decreases |cs|
  {
    if cs != [] {
      ArrangedSorts(cs[..|cs| - 1]);
      InsertSorts(Arranged(cs[..|cs| - 1]), cs[|cs| - 1]);
      hide Insert, Sorted;
    }
  }

  lemma {:induction false} ArrangedPermutes(cs: seq<Crossing>)
    ensures multiset(Arranged(cs)) == multiset(cs)
    decreases |cs|
  {
    if cs != [] {
      ArrangedPermutes(cs[..|cs| - 1]);
      InsertPermutes(Arranged(cs[..|cs| - 1]), cs[|cs| - 1]);
      assert cs == cs[..|cs| - 1] + [cs[|cs| - 1]];
      hide Insert;
    }
  }

  lemma {:induction false} ArrangedSums(cs: seq<Crossing>, x: int)
    ensures LeftSum(Arranged(cs), x) == LeftSum(cs, x)
    decreases |cs|
  {
    if cs != [] {
      ArrangedSums(cs[..|cs| - 1], x);
      InsertSums(Arranged(cs[..|cs| - 1]), cs[|cs| - 1], x);
      LeftSumNext(cs, x);
      hide Insert, LeftSum;
    }
  }

  /** Sorting permutes the crossings, puts them in order and keeps every left sum. */
  lemma ArrangedKeeps(cs: seq<Crossing>, x: int)
    ensures Sorted(Arranged(cs)) && multiset(Arranged(cs)) == multiset(cs)
    ensures LeftSum(Arranged(cs), x) == LeftSum(cs, x)
  {
    ArrangedSorts(cs);
    ArrangedPermutes(cs);
    ArrangedSums(cs, x);
    hide Arranged, Sorted, LeftSum;
  }

  lemma LeftSumNext(cs: seq<Crossing>, x: int)
    requires cs != []
    ensures LeftSum(cs, x) == LeftSum(cs[..|cs| - 1], x) + if cs[|cs| - 1].x <= x then cs[|cs| - 1].delta else 0
  {
  }

  /** What the insertion loop has done once the place for c among the first n is down to k. */
  ghost predicate Shifted(was: seq<Crossing>, now: seq<Crossing>, c: Crossing, n: nat, k: nat) {
    && k <= n < |was| == |now| && now[..k] == was[..k] && now[k + 1..n + 1] == was[k..n]
    && now[n + 1..] == was[n + 1..] && Insert(was[..n], c) == Insert(was[..k], c) + was[k..n]
  }

  lemma ShiftDone(was: seq<Crossing>, now: seq<Crossing>, c: Crossing, n: nat, k: nat)
    requires Shifted(was, now, c, n, k) && (k == 0 || was[k - 1].x <= c.x)
    ensures var r := now[k := c]; r[..n + 1] == Insert(was[..n], c) && r[n + 1..] == was[n + 1..]
  {
    var r := now[k := c];
    var s := was[..k];
    assert Insert(s, c) == s + [c] by { assert k > 0 ==> s[k - 1] == was[k - 1]; }
    assert r[..n + 1] == now[..k] + [c] + now[k + 1..n + 1];
    assert r[n + 1..] == now[n + 1..];
  }

  lemma ShiftMore(was: seq<Crossing>, now: seq<Crossing>, c: Crossing, n: nat, k: nat)
    requires Shifted(was, now, c, n, k) && k > 0 && was[k - 1].x > c.x
    ensures Shifted(was, now[k := now[k - 1]], c, n, k - 1)
  {
    var s := was[..k];
    assert s[..k - 1] == was[..k - 1] && s[k - 1] == was[k - 1];
    assert Insert(s, c) == Insert(was[..k - 1], c) + [was[k - 1]];
    hide Insert;
    assert Insert(was[..k - 1], c) + [was[k - 1]] + was[k..n] == Insert(was[..k - 1], c) + was[k - 1..n] by {
      assert [was[k - 1]] + was[k..n] == was[k - 1..n];
    }
    var r := now[k := now[k - 1]];
    assert now[k - 1] == now[..k][k - 1] == was[k - 1];
    assert r[k..n + 1] == [was[k - 1]] + now[k + 1..n + 1];
  }

  /** The element at i moved to its place among those before it. */
  method InsertLast(values: array<Crossing>, i: nat)
    requires i < values.Length
    modifies values
    ensures values[..i + 1] == Insert(old(values[..i]), old(values[i]))
    ensures values[i + 1..] == old(values[i + 1..])
  {
    ghost var before := values[..];
    assert before[..i] == values[..i] && before[i + 1..] == values[i + 1..];
    var value := values[i];
    var j := i;
    ShiftStart(before, value, i);
    hide Insert, Shifted;
    while j > 0 && values[j - 1].x > value.x
      invariant j <= i && Shifted(before, values[..], value, i, j)
    {
      ghost var now := values[..];
      ShiftedAt(before, now, value, i, j);
      ShiftMore(before, now, value, i, j);
      values[j] := values[j - 1];
      assert values[..] == now[j := now[j - 1]];
      j := j - 1;
    }
    ghost var now := values[..];
    ShiftedAt(before, now, value, i, j);
    ShiftDone(before, now, value, i, j);
    values[j] := value;
    assert values[..] == now[j := value];
    assert values[..][..i + 1] == values[..i + 1] && values[..][i + 1..] == values[i + 1..];
  }

  /** Insertion sort in place. */
  method SortCrossings(values: array<Crossing>, count: nat)
    requires count <= values.Length
    modifies values
    ensures values[..count] == Arranged(old(values[..count])) && values[count..] == old(values[count..])
  {
    if count == 0 {
      return;
    }
    ghost var was := values[..];
    ArrangedOne(was[..1]);
    assert values[..1] == was[..1] && values[1..] == was[1..];
    hide Insert, Arranged;
    for i := 1 to count
      invariant values[..i] == Arranged(was[..i]) && values[i..] == was[i..]
    {
      assert values[i] == values[i..][0] == was[i] && values[i + 1..] == was[i + 1..] by {
        assert values[i..][1..] == values[i + 1..] && was[i..][1..] == was[i + 1..];
      }
      ArrangedNext(was, i);
      InsertLast(values, i);
    }
    assert old(values[..count]) == was[..count] && old(values[count..]) == was[count..];
  }

  lemma ArrangedOne(cs: seq<Crossing>)
    requires |cs| == 1
    ensures Arranged(cs) == cs
  {
    assert cs[..0] == [] && cs == [cs[0]];
  }

  lemma ArrangedNext(was: seq<Crossing>, i: nat)
    requires i < |was|
    ensures Arranged(was[..i + 1]) == Insert(Arranged(was[..i]), was[i])
  {
    assert was[..i + 1][..i] == was[..i];
  }

  lemma ShiftStart(was: seq<Crossing>, c: Crossing, n: nat)
    requires n < |was|
    ensures Shifted(was, was, c, n, n)
  {
    assert was[n..n] == [];
  }

  lemma ShiftedAt(was: seq<Crossing>, now: seq<Crossing>, c: Crossing, n: nat, k: nat)
    requires Shifted(was, now, c, n, k)
    ensures k <= n < |was| == |now| && (k > 0 ==> now[k - 1] == was[k - 1])
  {
    if k > 0 { assert now[..k][k - 1] == was[..k][k - 1]; }
  }

  /** The crossings of a scanline with the edges kept, in an array, sorted. */
  method ScanlineCrossings(list: EdgeList, y: int, xs: array<Crossing>) returns (count: nat)
    requires list.Valid() && xs.Length >= list.edges.Length
    modifies xs
    ensures count <= xs.Length && xs[..count] == Arranged(Crossings(list.edges[..list.count], y))
  {
    ghost var es := list.edges[..list.count];
    count := 0;
    var i: nat := 0;
    assert es[..0] == [];
    while i < list.count && count < xs.Length
      invariant i <= list.count && count <= i
      invariant es == list.edges[..list.count]
      invariant xs[..count] == Crossings(es[..i], y)
    {
      var e := list.edges[i];
      assert e == es[i] && es[..i + 1][..i] == es[..i];
      if (e.y0 <= y && e.y1 > y) || (e.y1 <= y && e.y0 > y) {
        var cross, denom := (e.x1 - e.x0) * (y - e.y0), e.y1 - e.y0;
        ghost var was := xs[..count];
        xs[count] := Crossing(e.x0 + (if denom > 0 then Div(cross, denom) else Div(-cross, -denom)), if e.y1 > e.y0 then 1 else -1);
        assert xs[..count + 1] == was + [CrossingAt(e, y)];
        count := count + 1;
      }
      i := i + 1;
    }
    assert es[..i] == es;
    SortCrossings(xs, count);
  }

  // ----------------------------------------------------------------- inside test

  lemma {:induction false} LeftSumSplits(a: seq<Crossing>, b: seq<Crossing>, x: int)
    ensures LeftSum(a + b, x) == LeftSum(a, x) + LeftSum(b, x)
    decreases |b|
  {
    if b == [] {
      assert a + b == a;
    } else {
      assert (a + b)[..|a + b| - 1] == a + b[..|b| - 1];
      LeftSumSplits(a, b[..|b| - 1], x);
    }
  }

  lemma {:induction false} NothingLeft(cs: seq<Crossing>, x: int)
    requires forall i | 0 <= i < |cs| :: cs[i].x > x
    ensures LeftSum(cs, x) == 0
    decreases |cs|
  {
    if cs != [] { NothingLeft(cs[..|cs| - 1], x); }
  }

  lemma RestIsRight(cs: seq<Crossing>, i: nat, x: int)
    requires Sorted(cs) && i < |cs| && x < cs[i].x
    ensures LeftSum(cs, x) == LeftSum(cs[..i], x)
  {
    var rest := cs[i..];
    assert cs == cs[..i] + rest && forall k | 0 <= k < |rest| :: rest[k] == cs[i + k];
    NothingLeft(rest, x);
    LeftSumSplits(cs[..i], rest, x);
  }

  lemma OneFurther(cs: seq<Crossing>, i: nat, x: int)
    requires i < |cs|
    ensures LeftSum(cs[..i + 1], x) == LeftSum(cs[..i], x) + if cs[i].x <= x then cs[i].delta else 0
  {
    assert cs[..i + 1][..i] == cs[..i];
  }

  /** The walk along sorted crossings, left as soon as one lies to the right, sums all that lie to the left. */
  method InsideSpan(xs: array<Crossing>, count: nat, x: int) returns (inside: bool)
    requires count <= xs.Length && Sorted(xs[..count])
    ensures inside <==> LeftSum(xs[..count], x) != 0
  {
    ghost var cs := xs[..count];
    var winding := 0;
    var i: nat := 0;
    assert LeftSum(cs[..0], x) == 0;
    hide LeftSum, Sorted;
    while i < count
      invariant i <= count && winding == LeftSum(cs[..i], x)
    {
      assert cs[i] == xs[i];
      if x < xs[i].x {
        RestIsRight(cs, i, x);
        return winding != 0;
      }
      OneFurther(cs, i, x);
      winding := winding + xs[i].delta;
      i := i + 1;
    }
    assert cs[..i] == cs;
    return winding != 0;
  }

  /** The sum of the changes of the edges that cross a scanline at or to the left of x. */
  function WindingLeftOf(es: seq<Edge>, y: int, x: int): int {
    if es == [] then 0
    else
      var e := es[|es| - 1];
      WindingLeftOf(es[..|es| - 1], y, x) + if Crosses(e, y) && CrossingAt(e, y).x <= x then Delta(e) else 0
  }

  lemma {:induction false} LeftSumIsWinding(es: seq<Edge>, y: int, x: int)
    ensures LeftSum(Crossings(es, y), x) == WindingLeftOf(es, y, x)
    decreases |es|
  {
    if es != [] {
      var init, e := es[..|es| - 1], es[|es| - 1];
      LeftSumIsWinding(init, y, x);
      if Crosses(e, y) {
        assert (Crossings(init, y) + [CrossingAt(e, y)])[..|Crossings(init, y)|] == Crossings(init, y);
      } else {
        assert Crossings(init, y) + [] == Crossings(init, y);
      }
    }
  }

  lemma {:induction false} AllLeft(es: seq<Edge>, y: int, x: int)
    requires forall i | 0 <= i < |es| && Crosses(es[i], y) :: CrossingAt(es[i], y).x <= x
    ensures WindingLeftOf(es, y, x) == Winding(es, y)
    decreases |es|
  {
    if es != [] { AllLeft(es[..|es| - 1], y, x); }
  }

  /** A pixel sample: the crossings of its scanline, sorted, and the test at its place. */
  method Sample(list: EdgeList, xs: array<Crossing>, x: int, y: int) returns (inside: bool)
    requires list.Valid() && xs.Length >= list.edges.Length
    modifies xs
    ensures inside <==> WindingLeftOf(list.edges[..list.count], y, x) != 0
  {
    ghost var cs := Crossings(list.edges[..list.count], y);
    LeftSumIsWinding(list.edges[..list.count], y, x);
    ArrangedKeeps(cs, x);
    hide Arranged, Crossings, LeftSum, WindingLeftOf, Sorted;
    var count := ScanlineCrossings(list, y, xs);
    inside := InsideSpan(xs, count, x);
  }

  /**
    Main result: when all edges of a glyph's contours fit, a scanline's winding changes cancel out, so
    that no sample to the right of all its crossings, nor to the left of all, is inside.
  */
  lemma NoSpill(contours: seq<seq<Point>>, es: seq<Edge>, y: int, x: int)
    requires es == Outline.Outline(contours)
    requires (forall i | 0 <= i < |es| && Crosses(es[i], y) :: CrossingAt(es[i], y).x <= x)
             || (forall i | 0 <= i < |es| && Crosses(es[i], y) :: CrossingAt(es[i], y).x > x)
    ensures Winding(es, y) == 0 && WindingLeftOf(es, y, x) == 0
  {
    Balanced(contours, y);
    hide Outline.Outline, CrossingAt;
    if forall i | 0 <= i < |es| && Crosses(es[i], y) :: CrossingAt(es[i], y).x <= x {
      AllLeft(es, y, x);
    } else {
      NoneLeft(es, y, x);
    }
  }

  lemma {:induction false} NoneLeft(es: seq<Edge>, y: int, x: int)
    requires forall i | 0 <= i < |es| && Crosses(es[i], y) :: CrossingAt(es[i], y).x > x
    ensures WindingLeftOf(es, y, x) == 0
    decreases |es|
  {
    if es != [] { NoneLeft(es[..|es| - 1], y, x); }
  }

  /** All edges fit exactly when none was dropped. */
  lemma FitsIff(list: EdgeList)
    requires list.Valid()
    ensures list.edges[..list.count] == list.full <==> |list.full| <= list.edges.Length
  {
    assert list.full[..|list.full|] == list.full;
  }
}
