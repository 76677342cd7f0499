/**
 * Edges of the game graph (src/model/path.py).
 *
 * A `Path` is a chain of cubic curves between two vertices. This module holds
 * how a click sequence becomes a chain, how a new move's chain is bisected into
 * two edges meeting at a fresh vertex, the cached polyline approximation, and
 * the filters applied to raw curve-intersection results. The geometric parts
 * are parameters:
 *   - `controls` stands for `calc_control_points` (tangent control points around an
 *     anchor, computed with square roots);
 *   - `flatten` stands for `approximate_bezier` (adaptive flattening);
 *   - `intersect` stands for `Bezier.intersects` (Bézier clipping);
 *   - `touches` stands for the segment test of `point_touches_path`.
 */
module Paths {
  import opened Wrappers
  import opened Points
  import opened CubicBezier

  /** A vertex's radius is 9, so 81 is the squared radius used as "near a vertex". */
  const NearVertexSq: real := 81.0
  /** Intersections of adjacent curves closer than this to their joint are the joint itself. */
  const JointSq: real := 5.0
  /** Self-intersections closer than this to an end of the path are that end. */
  const EndSq: real := 1.0

  class Path {
    const beziers: seq<Bezier>
    const startPoint: Vertex
    const endPoint: Vertex
    /** The cached polyline; empty until `Approximate` fills it. */
    var approximation: seq<Point>

    constructor (beziers: seq<Bezier>, startPoint: Vertex, endPoint: Vertex)
      ensures this.beziers == beziers && this.startPoint == startPoint && this.endPoint == endPoint
      ensures approximation == []
    {
      this.beziers := beziers;
      this.startPoint := startPoint;
      this.endPoint := endPoint;
      approximation := [];
    }

    /** The vertex at the other end from `p`, or `None` when `p` is not an end of this path. */
    function GetOtherPoint(p: Vertex): (r: Option<Vertex>)
      ensures r.Some? <==> p == startPoint || p == endPoint
      ensures r.Some? ==> {p, r.value} == {startPoint, endPoint}
    {
      if p == startPoint then Some(endPoint)
      else if p == endPoint then Some(startPoint)
      else None
    }

    /** Asking for the other end of the other end gives the vertex back. */
    lemma GetOtherPointInvolution(p: Vertex)
      requires GetOtherPoint(p).Some?
      ensures GetOtherPoint(GetOtherPoint(p).value) == Some(p)
    {
    }

    /** `approximate`: fills the cache on the first call and returns the cached list afterwards. */
    method Approximate(flatten: Bezier -> seq<Point>) returns (r: seq<Point>)
      requires |beziers| > 0
      requires forall b :: |flatten(b)| > 0
      modifies this`approximation
      ensures old(approximation) != [] ==> r == old(approximation)
      ensures old(approximation) == [] ==> r == Joined(flatten, beziers)
      ensures approximation == r
    {
      if approximation == [] {
        var pointList := flatten(beziers[0]);
        for k := 1 to |beziers|
          invariant pointList == Joined(flatten, beziers[..k])
        {
          assert beziers[..k + 1][..k] == beziers[..k];
          var curvePoints := flatten(beziers[k]);
          if curvePoints[0] == pointList[|pointList| - 1] {
            pointList := pointList + curvePoints[1..];
          } else {
            pointList := pointList + curvePoints;
          }
        }
        assert beziers[..|beziers|] == beziers;
        approximation := pointList;
      }
      r := approximation;
    }
  }

  /** Appends a curve's polyline to the running list, dropping its first point when it repeats the last. */
  function JoinPolyline(acc: seq<Point>, pts: seq<Point>): seq<Point>
    requires |acc| > 0 && |pts| > 0
  {
    if pts[0] == acc[|acc| - 1] then acc + pts[1..] else acc + pts
  }

  /** The polylines of a chain of curves, joined in order. */
  function Joined(flatten: Bezier -> seq<Point>, bs: seq<Bezier>): (r: seq<Point>)
    requires |bs| > 0
    requires forall b :: |flatten(b)| > 0
    ensures |r| > 0
  {
    if |bs| == 1 then flatten(bs[0])
    else JoinPolyline(Joined(flatten, bs[..|bs| - 1]), flatten(bs[|bs| - 1]))
  }

  /** The joined polyline starts where the first curve's starts and ends where the last curve's ends. */
  lemma {:induction false} JoinedEnds(flatten: Bezier -> seq<Point>, bs: seq<Bezier>)
    requires |bs| > 0
    requires forall b :: |flatten(b)| > 0
    ensures Joined(flatten, bs)[0] == flatten(bs[0])[0]
    ensures Joined(flatten, bs)[|Joined(flatten, bs)| - 1] == flatten(bs[|bs| - 1])[|flatten(bs[|bs| - 1])| - 1]
  {
    if |bs| > 1 {
      var init := bs[..|bs| - 1];
      JoinedEnds(flatten, init);
      assert init[0] == bs[0];
    }
  }

  /**
   * The part of `point_touches_path` after the approximation: a point that is
   * at an end of the path never touches it; otherwise some segment must touch
   * it, skipping segments that start near the path's start (or end near its
   * end) while the point is also near that vertex.
   */
  predicate SegmentSkipped(approx: seq<Point>, i: int, s: Point, e: Point, point: Point)
    requires 0 <= i < |approx| - 1
  {
    (DistanceSq(approx[i], s) < NearVertexSq && DistanceSq(point, s) < NearVertexSq)
    || (DistanceSq(approx[i + 1], e) < NearVertexSq && DistanceSq(point, e) < NearVertexSq)
  }

  predicate SomeSegmentTouches(approx: seq<Point>, s: Point, e: Point, point: Point,
                               touches: (Point, Point, Point) -> bool)
  {
    exists i :: 0 <= i < |approx| - 1 && !SegmentSkipped(approx, i, s, e, point) && touches(approx[i], approx[i + 1], point)
  }

  method PointTouchesPolyline(approx: seq<Point>, s: Point, e: Point, point: Point,
                              touches: (Point, Point, Point) -> bool) returns (r: bool)
    ensures Equals(point, s) || Equals(point, e) ==> !r
    ensures r <==> !Equals(point, s) && !Equals(point, e) && SomeSegmentTouches(approx, s, e, point, touches)
  {
    if Equals(point, s) || Equals(point, e) {
      return false;
    }
    var i := 0;
    while i < |approx| - 1
      invariant 0 <= i <= if |approx| > 0 then |approx| - 1 else 0
      invariant forall k :: 0 <= k < i ==> SegmentSkipped(approx, k, s, e, point) || !touches(approx[k], approx[k + 1], point)
    {
      if DistanceSq(approx[i], s) < NearVertexSq && DistanceSq(point, s) < NearVertexSq {
        i := i + 1;
        continue;
      }
      if DistanceSq(approx[i + 1], e) < NearVertexSq && DistanceSq(point, e) < NearVertexSq {
        i := i + 1;
        continue;
      }
      if touches(approx[i], approx[i + 1], point) {
        return true;
      }
      i := i + 1;
    }
    return false;
  }

  /** `point_touches_path`: fills the approximation cache, then tests the polyline. */
  method PointTouchesPath(path: Path, point: Vertex, flatten: Bezier -> seq<Point>,
                          touches: (Point, Point, Point) -> bool) returns (r: bool)
    requires |path.beziers| > 0
    requires forall b :: |flatten(b)| > 0
    modifies path`approximation
    ensures path.approximation == (if old(path.approximation) == [] then Joined(flatten, path.beziers) else old(path.approximation))
    ensures r <==> !Equals(point.Pos(), path.startPoint.Pos()) && !Equals(point.Pos(), path.endPoint.Pos())
                   && SomeSegmentTouches(path.approximation, path.startPoint.Pos(), path.endPoint.Pos(), point.Pos(), touches)
  {
    var approx := path.Approximate(flatten);
    r := PointTouchesPolyline(approx, path.startPoint.Pos(), path.endPoint.Pos(), point.Pos(), touches);
  }

  /** The control point halfway between `a` and `b`, computed from `b` as the source does. */
  function Halfway(a: Point, b: Point): (r: Point)
    ensures 2.0 * r.x == a.x + b.x && 2.0 * r.y == a.y + b.y
  {
    Add(b, Scalar(Sub(a, b), 0.5))
  }

  /**
   * Control point number `m` of a click sequence: the first and the last are
   * halfway along the first and last click pairs; in between, each inner
   * anchor `i` contributes the pair `controls(clicks[i-1], clicks[i], clicks[i+1])`.
   */
  function ControlPoint(clicks: seq<Point>, controls: (Point, Point, Point) -> (Point, Point), m: int): Point
    requires |clicks| >= 2 && 0 <= m < 2 * (|clicks| - 1)
  {
    var n := |clicks|;
    if m == 0 then Halfway(clicks[0], clicks[1])
    else if m == 2 * (n - 1) - 1 then Halfway(clicks[n - 2], clicks[n - 1])
    else if m % 2 == 1 then
      var i := (m + 1) / 2;
      controls(clicks[i - 1], clicks[i], clicks[i + 1]).0
    else
      var i := m / 2;
      controls(clicks[i - 1], clicks[i], clicks[i + 1]).1
  }

  /** Curve `k` of the chain joins click `k` to click `k + 1` with control points `2k` and `2k + 1`. */
  function Link(clicks: seq<Point>, controls: (Point, Point, Point) -> (Point, Point), k: int): (b: Bezier)
    requires 0 <= k < |clicks| - 1
    ensures b.start == clicks[k] && b.end == clicks[k + 1]
  {
    Bezier(clicks[k], clicks[k + 1], ControlPoint(clicks, controls, 2 * k), ControlPoint(clicks, controls, 2 * k + 1))
  }

  /** The chain of curves through the clicks, one curve per pair of consecutive clicks. */
  function BezierChain(clicks: seq<Point>, controls: (Point, Point, Point) -> (Point, Point)): (r: seq<Bezier>)
    requires |clicks| >= 2
    ensures |r| == |clicks| - 1
    ensures forall k :: 0 <= k < |r| ==> r[k] == Link(clicks, controls, k)
    ensures r[0].start == clicks[0] && r[|r| - 1].end == clicks[|clicks| - 1]
    ensures Connected(r)
  {
    seq(|clicks| - 1, k requires 0 <= k < |clicks| - 1 => Link(clicks, controls, k))
  }

  /** Consecutive curves meet: each one starts where the previous one ends. */
  predicate Connected(bs: seq<Bezier>)
  {
    forall k :: 0 <= k < |bs| - 1 ==> bs[k].end == bs[k + 1].start
  }

  /** The first loop of `compute_beziers`: every control point, in order. */
  method ControlPoints(clicks: seq<Point>, controls: (Point, Point, Point) -> (Point, Point)) returns (cps: seq<Point>)
    requires |clicks| >= 2
    ensures |cps| == 2 * (|clicks| - 1)
    ensures forall m :: 0 <= m < |cps| ==> cps[m] == ControlPoint(clicks, controls, m)
  {
    var n := |clicks|;
    cps := [Halfway(clicks[0], clicks[1])];
    for i := 1 to n - 1
      invariant |cps| == 2 * i - 1
      invariant forall m :: 0 <= m < |cps| ==> cps[m] == ControlPoint(clicks, controls, m)
    {
      var (c1, c2) := controls(clicks[i - 1], clicks[i], clicks[i + 1]);
      cps := cps + [c1, c2];
    }
    cps := cps + [Halfway(clicks[n - 2], clicks[n - 1])];
  }

  /**
   * `compute_beziers` (and the curve structure of `compute_graphics_beziers`):
   * fewer than two clicks is the source's `ValueError` (`None`); otherwise the
   * control points are built first and consumed pairwise in order.
   */
  method ComputeBeziers(clicks: seq<Point>, controls: (Point, Point, Point) -> (Point, Point)) returns (r: Option<seq<Bezier>>)
    ensures r.None? <==> |clicks| < 2
    ensures r.Some? ==> r.value == BezierChain(clicks, controls)
  {
    if |clicks| < 2 {
      return None;
    }
    var n := |clicks|;
    var controlPoints := ControlPoints(clicks, controls);
    ghost var chain := BezierChain(clicks, controls);
    var bezierStart := Bezier(clicks[0], clicks[1], controlPoints[0], controlPoints[1]);
    var bezierEnd := Bezier(clicks[n - 2], clicks[n - 1], controlPoints[|controlPoints| - 2], controlPoints[|controlPoints| - 1]);
    assert chain[0] == bezierStart;
    var beziers := [bezierStart];
    if n == 2 {
      assert chain == beziers;
      return Some(beziers);
    }
    var j := 2;
    for i := 1 to n - 2
      invariant j == 2 * i
      invariant beziers == chain[..i]
    {
      assert chain[i] == Bezier(clicks[i], clicks[i + 1], controlPoints[j], controlPoints[j + 1]);
      assert chain[..i + 1] == chain[..i] + [chain[i]];
      beziers := beziers + [Bezier(clicks[i], clicks[i + 1], controlPoints[j], controlPoints[j + 1])];
      j := j + 2;
    }
    assert chain[n - 2] == bezierEnd;
    assert chain == chain[..n - 2] + [chain[n - 2]];
    beziers := beziers + [bezierEnd];
    return Some(beziers);
  }

  /**
   * How `add_path` cuts a chain in two at its middle. An even count splits at
   * the joint after curve `n/2 - 1`; an odd count splits the middle curve at
   * parameter 0.5. Both parts stay chains and meet at the returned point.
   */
  function SplitChain(bs: seq<Bezier>): (r: (seq<Bezier>, seq<Bezier>, Point))
    requires |bs| > 0
    ensures |r.0| == (if |bs| % 2 == 0 then |bs| / 2 else |bs| / 2 + 1)
    ensures |r.1| == |bs| - |bs| / 2
    ensures |r.0| > 0 && |r.1| > 0
    ensures r.0[0].start == bs[0].start && r.1[|r.1| - 1].end == bs[|bs| - 1].end
    ensures r.0[|r.0| - 1].end == r.2
    ensures Connected(bs) ==> r.1[0].start == r.2
    ensures Connected(bs) ==> Connected(r.0) && Connected(r.1)
    ensures |bs| % 2 == 0 ==> r.0 + r.1 == bs
  {
    var m := |bs| / 2;
    if |bs| % 2 == 0 then
      (bs[..m], bs[m..], bs[m - 1].end)
    else
      var halves := Split(bs[m], 0.5);
      var startBs := bs[..m] + [halves.0];
      var endBs := [halves.1] + bs[m + 1..];
      assert Connected(bs) ==> Connected(startBs) by {
        if Connected(bs) && m > 0 {
          assert startBs[m - 1].end == bs[m].start == startBs[m].start;
        }
      }
      assert Connected(bs) ==> Connected(endBs) by {
        if Connected(bs) && m + 1 < |bs| {
          assert endBs[0].end == bs[m].end == bs[m + 1].start == endBs[1].start;
        }
      }
      (startBs, endBs, Evaluate(bs[m], 0.5))
  }

  /**
   * `add_path`: builds the move's chain, cuts it in two at its middle, creates
   * the new indexed midpoint vertex and the two paths `p0 -> mid` and
   * `mid -> p1`, and records the new paths at their ends.
   */
  method AddPath(p0: Vertex, p1: Vertex, clicks: seq<Point>, controls: (Point, Point, Point) -> (Point, Point),
                 ids: IdCounter) returns (r: Option<(Path, Path, Vertex)>)
    modifies p0`paths, p0`numPaths, p1`paths, p1`numPaths, ids
    ensures r.None? <==> |clicks| < 2
    ensures r.None? ==> p0.paths == old(p0.paths) && p1.paths == old(p1.paths) && ids.lastId == old(ids.lastId)
    ensures r.Some? ==> fresh(r.value.0) && fresh(r.value.1) && fresh(r.value.2)
    ensures r.Some? ==> (r.value.0.beziers == SplitChain(BezierChain(clicks, controls)).0
                         && r.value.1.beziers == SplitChain(BezierChain(clicks, controls)).1
                         && r.value.2.Pos() == SplitChain(BezierChain(clicks, controls)).2)
    ensures r.Some? ==> (r.value.0.startPoint == p0 && r.value.0.endPoint == r.value.2
                         && r.value.1.startPoint == r.value.2 && r.value.1.endPoint == p1)
    ensures r.Some? ==> r.value.2.index == Some(old(ids.lastId)) && ids.lastId == old(ids.lastId) + 1
    ensures r.Some? ==> r.value.2.paths == [r.value.0, r.value.1] && r.value.2.Valid() && r.value.2.regions == {}
    ensures r.Some? && p0 != p1 ==> p0.paths == old(p0.paths) + [r.value.0] && p1.paths == old(p1.paths) + [r.value.1]
    ensures r.Some? && p0 == p1 ==> p0.paths == old(p0.paths) + [r.value.0, r.value.1]
    ensures r.Some? ==> p0.Valid() && p1.Valid()
    ensures p0.regions == old(p0.regions) && p1.regions == old(p1.regions)
  {
    var chain := ComputeBeziers(clicks, controls);
    if chain.None? {
      return None;
    }
    var cut := SplitChain(chain.value);
    var mid := new Vertex(cut.2.x, cut.2.y, true, ids, []);
    var startPath := new Path(cut.0, p0, mid);
    var endPath := new Path(cut.1, mid, p1);
    Attach(p0, p1, mid, startPath, endPath);
    r := Some((startPath, endPath, mid));
  }

  /** The end of `add_path`: both halves are registered at their ends, the start half first. */
  method Attach(p0: Vertex, p1: Vertex, mid: Vertex, startPath: Path, endPath: Path)
    requires mid != p0 && mid != p1
    modifies p0`paths, p0`numPaths, p1`paths, p1`numPaths, mid`paths, mid`numPaths
    ensures p0 != p1 ==> p0.paths == old(p0.paths) + [startPath] && p1.paths == old(p1.paths) + [endPath]
    ensures p0 == p1 ==> p0.paths == old(p0.paths) + [startPath, endPath]
    ensures mid.paths == old(mid.paths) + [startPath, endPath]
    ensures p0.Valid() && p1.Valid() && mid.Valid()
  {
    ghost var paths0, paths1 := p0.paths, p1.paths;
    p0.AddToPath(startPath);
    p1.AddToPath(endPath);
    assert p0 != p1 ==> p0.paths == paths0 + [startPath];
    mid.AddToPath(startPath);
    mid.AddToPath(endPath);
  }

  /** Whether curve `i` is the first or the last of a chain of `n`. */
  predicate AtEnd(i: int, n: int)
  {
    i == 0 || i == n - 1
  }

  /**
   * The vertices two paths share, as the other path's ends: the other path's
   * start (end) when it is also an end of this path.
   */
  function SharedEnds(self: Path, other: Path): (r: seq<Point>)
    ensures other.startPoint.Pos() in r <== self.startPoint == other.startPoint || self.endPoint == other.startPoint
    ensures other.endPoint.Pos() in r <== self.startPoint == other.endPoint || self.endPoint == other.endPoint
    ensures forall q :: q in r ==>
              (q == other.startPoint.Pos() && (self.startPoint == other.startPoint || self.endPoint == other.startPoint))
              || (q == other.endPoint.Pos() && (self.startPoint == other.endPoint || self.endPoint == other.endPoint))
    ensures |r| <= 2
  {
    (if self.startPoint == other.startPoint || self.endPoint == other.startPoint then [other.startPoint.Pos()] else [])
    + (if self.startPoint == other.endPoint || self.endPoint == other.endPoint then [other.endPoint.Pos()] else [])
  }

  predicate FarFromAll(p: Point, exclusions: seq<Point>)
  {
    forall q :: q in exclusions ==> DistanceSq(p, q) >= NearVertexSq
  }

  /** The inner exclusion loop of `__intersections`, with its early `break`. */
  method IsValidIntersection(p: Point, exclusions: seq<Point>) returns (valid: bool)
    ensures valid <==> FarFromAll(p, exclusions)
  {
    valid := true;
    var k := 0;
    while k < |exclusions|
      invariant 0 <= k <= |exclusions|
      invariant valid
      invariant forall m :: 0 <= m < k ==> DistanceSq(p, exclusions[m]) >= NearVertexSq
    {
      if DistanceSq(p, exclusions[k]) < NearVertexSq {
        valid := false;
        break;
      }
      k := k + 1;
    }
  }

  /** The raw points that are far from every exclusion, in order. */
  function KeepFar(ps: seq<Point>, exclusions: seq<Point>): seq<Point>
  {
    if |ps| == 0 then []
    else
      var init := KeepFar(ps[..|ps| - 1], exclusions);
      if FarFromAll(ps[|ps| - 1], exclusions) then init + [ps[|ps| - 1]] else init
  }

  /** `KeepFar` keeps exactly the points far from every exclusion. */
  lemma {:induction false} KeepFarMember(ps: seq<Point>, exclusions: seq<Point>, p: Point)
    ensures p in KeepFar(ps, exclusions) <==> p in ps && FarFromAll(p, exclusions)
  {
    if |ps| > 0 {
      KeepFarMember(ps[..|ps| - 1], exclusions, p);
      assert p in ps <==> p in ps[..|ps| - 1] || p == ps[|ps| - 1];
    }
  }

  method FilterFar(ps: seq<Point>, exclusions: seq<Point>) returns (kept: seq<Point>)
    ensures kept == KeepFar(ps, exclusions)
  {
    kept := [];
    for k := 0 to |ps|
      invariant kept == KeepFar(ps[..k], exclusions)
    {
      assert ps[..k + 1][..k] == ps[..k];
      var valid := IsValidIntersection(ps[k], exclusions);
      if valid {
        kept := kept + [ps[k]];
      }
    }
    assert ps[..|ps|] == ps;
  }

  /** What the pair (curve `i` of `a`, curve `j` of `b`) contributes. */
  function PairHits(a: seq<Bezier>, b: seq<Bezier>, i: int, j: int, exclusions: seq<Point>,
                    intersect: (Bezier, Bezier) -> seq<Point>): seq<Point>
    requires 0 <= i < |a| && 0 <= j < |b|
  {
    var raw := intersect(a[i], b[j]);
    if AtEnd(i, |a|) && AtEnd(j, |b|) then KeepFar(raw, exclusions) else raw
  }

  /** Lists joined in order. */
  function Concat(parts: seq<seq<Point>>): seq<Point>
  {
    if |parts| == 0 then [] else Concat(parts[..|parts| - 1]) + parts[|parts| - 1]
  }

  lemma {:induction false} ConcatMember(parts: seq<seq<Point>>, p: Point)
    ensures p in Concat(parts) <==> exists k :: 0 <= k < |parts| && p in parts[k]
  {
    if |parts| > 0 {
      var init := parts[..|parts| - 1];
      ConcatMember(init, p);
      if exists k :: 0 <= k < |parts| && p in parts[k] {
        var k :| 0 <= k < |parts| && p in parts[k];
        if k < |parts| - 1 {
          assert p in init[k];
        }
      }
    }
  }

  lemma ConcatStep(parts: seq<seq<Point>>, k: int)
    requires 0 <= k < |parts|
    ensures Concat(parts[..k + 1]) == Concat(parts[..k]) + parts[k]
  {
    assert parts[..k + 1][..k] == parts[..k];
  }

  /** The hits of curve `i` of `a` against every curve of `b`, in loop order. */
  function Row(a: seq<Bezier>, b: seq<Bezier>, i: int, exclusions: seq<Point>,
               intersect: (Bezier, Bezier) -> seq<Point>): (r: seq<seq<Point>>)
    requires 0 <= i < |a|
    ensures |r| == |b| && forall j :: 0 <= j < |b| ==> r[j] == PairHits(a, b, i, j, exclusions, intersect)
  {
    seq(|b|, j requires 0 <= j < |b| => PairHits(a, b, i, j, exclusions, intersect))
  }

  /** The rows of every curve of `a`, in loop order. */
  function Rows(a: seq<Bezier>, b: seq<Bezier>, exclusions: seq<Point>,
                intersect: (Bezier, Bezier) -> seq<Point>): (r: seq<seq<Point>>)
    ensures |r| == |a| && forall i :: 0 <= i < |a| ==> r[i] == Concat(Row(a, b, i, exclusions, intersect))
  {
    seq(|a|, i requires 0 <= i < |a| => Concat(Row(a, b, i, exclusions, intersect)))
  }

  /** What `__intersections` collects. */
  function AllHits(a: seq<Bezier>, b: seq<Bezier>, exclusions: seq<Point>,
                   intersect: (Bezier, Bezier) -> seq<Point>): seq<Point>
  {
    Concat(Rows(a, b, exclusions, intersect))
  }

  lemma PairMember(a: seq<Bezier>, b: seq<Bezier>, i: int, j: int, exclusions: seq<Point>,
                   intersect: (Bezier, Bezier) -> seq<Point>, p: Point)
    requires 0 <= i < |a| && 0 <= j < |b|
    ensures p in PairHits(a, b, i, j, exclusions, intersect) <==>
      p in intersect(a[i], b[j]) && (AtEnd(i, |a|) && AtEnd(j, |b|) ==> FarFromAll(p, exclusions))
  {
    KeepFarMember(intersect(a[i], b[j]), exclusions, p);
  }

  /**
   * The filter of `__intersections`, first half: every collected point is a
   * raw intersection, far from the shared vertices when both curves are end
   * curves of their chains.
   */
  lemma HitsSound(a: seq<Bezier>, b: seq<Bezier>, exclusions: seq<Point>,
                  intersect: (Bezier, Bezier) -> seq<Point>, p: Point)
    requires p in AllHits(a, b, exclusions, intersect)
    ensures exists i, j :: 0 <= i < |a| && 0 <= j < |b| && p in intersect(a[i], b[j])
                           && (AtEnd(i, |a|) && AtEnd(j, |b|) ==> FarFromAll(p, exclusions))
  {
    var rows := Rows(a, b, exclusions, intersect);
    ConcatMember(rows, p);
    var i :| 0 <= i < |rows| && p in rows[i];
    var row := Row(a, b, i, exclusions, intersect);
    ConcatMember(row, p);
    var j :| 0 <= j < |b| && p in row[j];
    PairMember(a, b, i, j, exclusions, intersect, p);
  }

  /**
   * Second half: a raw intersection is dropped only when both curves are end
   * curves and the point lies near a shared vertex; every other one is kept.
   */
  lemma HitsComplete(a: seq<Bezier>, b: seq<Bezier>, exclusions: seq<Point>,
                     intersect: (Bezier, Bezier) -> seq<Point>, i: int, j: int, p: Point)
    requires 0 <= i < |a| && 0 <= j < |b| && p in intersect(a[i], b[j])
    requires AtEnd(i, |a|) && AtEnd(j, |b|) ==> FarFromAll(p, exclusions)
    ensures p in AllHits(a, b, exclusions, intersect)
  {
    var rows := Rows(a, b, exclusions, intersect);
    var row := Row(a, b, i, exclusions, intersect);
    PairMember(a, b, i, j, exclusions, intersect, p);
    assert p in row[j];
    ConcatMember(row, p);
    assert p in rows[i];
    ConcatMember(rows, p);
  }

  /** `__intersections`: this path's curves against `beziers` (all or part of `other`'s). */
  method Intersections(self: Path, other: Path, beziers: seq<Bezier>,
                       intersect: (Bezier, Bezier) -> seq<Point>) returns (r: seq<Point>)
    ensures r == AllHits(self.beziers, beziers, SharedEnds(self, other), intersect)
  {
    var exclusions := SharedEnds(self, other);
    ghost var rows := Rows(self.beziers, beziers, exclusions, intersect);
    r := [];
    for i := 0 to |self.beziers|
      invariant r == Concat(rows[..i])
    {
      var rowHits := RowHits(self.beziers, beziers, i, exclusions, intersect);
      ConcatStep(rows, i);
      r := r + rowHits;
    }
    assert rows[..|self.beziers|] == rows;
  }

  /** The inner loop of `intersections`: curve `i` of this path against every curve of `beziers`. */
  method RowHits(bs: seq<Bezier>, beziers: seq<Bezier>, i: int, exclusions: seq<Point>,
                 intersect: (Bezier, Bezier) -> seq<Point>) returns (rowHits: seq<Point>)
    requires 0 <= i < |bs|
    ensures rowHits == Concat(Row(bs, beziers, i, exclusions, intersect))
  {
    ghost var row := Row(bs, beziers, i, exclusions, intersect);
    rowHits := [];
    for j := 0 to |beziers|
      invariant rowHits == Concat(row[..j])
    {
      var hits := intersect(bs[i], beziers[j]);
      var kept := hits;
      if hits != [] {
        var iAtEnd := i == 0 || i == |bs| - 1;
        var jAtEnd := j == 0 || j == |beziers| - 1;
        if iAtEnd && jAtEnd {
          kept := FilterFar(hits, exclusions);
        }
      } else {
        assert KeepFar(hits, exclusions) == [];
      }
      ConcatStep(row, j);
      rowHits := rowHits + kept;
    }
    assert row[..|beziers|] == row;
  }

  /** `intersects`: this path against the whole of `other`. */
  method Intersects(self: Path, other: Path, intersect: (Bezier, Bezier) -> seq<Point>) returns (r: seq<Point>)
    ensures r == AllHits(self.beziers, other.beziers, SharedEnds(self, other), intersect)
  {
    r := Intersections(self, other, other.beziers, intersect);
  }

  /**
   * `partial_intersects`: a path of three or more curves is tested only against
   * the last two curves of `other` (Python's slice `[len - 2:]`, which is the
   * whole list when it is shorter).
   */
  method PartialIntersects(self: Path, other: Path, intersect: (Bezier, Bezier) -> seq<Point>) returns (r: seq<Point>)
    ensures var tail := if |self.beziers| < 3 then other.beziers
                        else other.beziers[if |other.beziers| >= 2 then |other.beziers| - 2 else 0..];
            r == AllHits(self.beziers, tail, SharedEnds(self, other), intersect)
  {
    if |self.beziers| < 3 {
      r := Intersections(self, other, other.beziers, intersect);
    } else {
      var from := if |other.beziers| >= 2 then |other.beziers| - 2 else 0;
      r := Intersections(self, other, other.beziers[from..], intersect);
    }
  }

  /** The points more than `JointSq` away from the joint of two adjacent curves. */
  function KeepAwayFromJoint(ps: seq<Point>, joint: Point): seq<Point>
  {
    if |ps| == 0 then []
    else
      var init := KeepAwayFromJoint(ps[..|ps| - 1], joint);
      if DistanceSq(ps[|ps| - 1], joint) > JointSq then init + [ps[|ps| - 1]] else init
  }

  lemma {:induction false} KeepAwayFromJointMember(ps: seq<Point>, joint: Point, p: Point)
    ensures p in KeepAwayFromJoint(ps, joint) <==> p in ps && DistanceSq(p, joint) > JointSq
  {
    if |ps| > 0 {
      KeepAwayFromJointMember(ps[..|ps| - 1], joint, p);
      assert p in ps <==> p in ps[..|ps| - 1] || p == ps[|ps| - 1];
    }
  }

  predicate NearEnd(p: Point, s: Point, e: Point)
  {
    DistanceSq(p, s) < EndSq || DistanceSq(p, e) < EndSq
  }

  /** The points not within `EndSq` of either end of the path. */
  function KeepAwayFromEnds(ps: seq<Point>, s: Point, e: Point): seq<Point>
  {
    if |ps| == 0 then []
    else
      var init := KeepAwayFromEnds(ps[..|ps| - 1], s, e);
      if NearEnd(ps[|ps| - 1], s, e) then init else init + [ps[|ps| - 1]]
  }

  lemma {:induction false} KeepAwayFromEndsMember(ps: seq<Point>, s: Point, e: Point, p: Point)
    ensures p in KeepAwayFromEnds(ps, s, e) <==> p in ps && !NearEnd(p, s, e)
  {
    if |ps| > 0 {
      KeepAwayFromEndsMember(ps[..|ps| - 1], s, e, p);
      assert p in ps <==> p in ps[..|ps| - 1] || p == ps[|ps| - 1];
    }
  }

  /** What the pair of curves `i < j` of one chain contributes to its self-intersections. */
  function SelfPairHits(bs: seq<Bezier>, i: int, j: int, s: Point, e: Point,
                        intersect: (Bezier, Bezier) -> seq<Point>): seq<Point>
    requires 0 <= i < j < |bs|
  {
    var raw := intersect(bs[i], bs[j]);
    if j - i == 1 then KeepAwayFromJoint(raw, bs[i].end) else KeepAwayFromEnds(raw, s, e)
  }

  /** The self-hits of curve `i` against every later curve, in loop order. */
  function SelfRow(bs: seq<Bezier>, i: int, s: Point, e: Point,
                   intersect: (Bezier, Bezier) -> seq<Point>): (r: seq<seq<Point>>)
    requires 0 <= i < |bs|
    ensures |r| == |bs| - i - 1
    ensures forall d :: 0 <= d < |r| ==> r[d] == SelfPairHits(bs, i, i + 1 + d, s, e, intersect)
  {
    seq(|bs| - i - 1, d requires 0 <= d < |bs| - i - 1 => SelfPairHits(bs, i, i + 1 + d, s, e, intersect))
  }

  function SelfRows(bs: seq<Bezier>, s: Point, e: Point,
                    intersect: (Bezier, Bezier) -> seq<Point>): (r: seq<seq<Point>>)
    ensures |r| == |bs| && forall i :: 0 <= i < |bs| ==> r[i] == Concat(SelfRow(bs, i, s, e, intersect))
  {
    seq(|bs|, i requires 0 <= i < |bs| => Concat(SelfRow(bs, i, s, e, intersect)))
  }

  /** What `self_intersections` collects. */
  function SelfAllHits(bs: seq<Bezier>, s: Point, e: Point, intersect: (Bezier, Bezier) -> seq<Point>): seq<Point>
  {
    Concat(SelfRows(bs, s, e, intersect))
  }

  /** Whether a raw self-intersection of curves `i < j` survives the filter. */
  predicate SelfHitKept(bs: seq<Bezier>, i: int, j: int, s: Point, e: Point, p: Point)
    requires 0 <= i < j < |bs|
  {
    if j - i == 1 then DistanceSq(p, bs[i].end) > JointSq else !NearEnd(p, s, e)
  }

  lemma SelfPairMember(bs: seq<Bezier>, i: int, j: int, s: Point, e: Point,
                       intersect: (Bezier, Bezier) -> seq<Point>, p: Point)
    requires 0 <= i < j < |bs|
    ensures p in SelfPairHits(bs, i, j, s, e, intersect) <==> p in intersect(bs[i], bs[j]) && SelfHitKept(bs, i, j, s, e, p)
  {
    KeepAwayFromJointMember(intersect(bs[i], bs[j]), bs[i].end, p);
    KeepAwayFromEndsMember(intersect(bs[i], bs[j]), s, e, p);
  }

  /** Every collected self-intersection is a raw one that survives the filter. */
  lemma SelfHitsSound(bs: seq<Bezier>, s: Point, e: Point,
                      intersect: (Bezier, Bezier) -> seq<Point>, p: Point)
    requires p in SelfAllHits(bs, s, e, intersect)
    ensures exists i, j :: 0 <= i < j < |bs| && p in intersect(bs[i], bs[j]) && SelfHitKept(bs, i, j, s, e, p)
  {
    var rows := SelfRows(bs, s, e, intersect);
    ConcatMember(rows, p);
    var i :| 0 <= i < |rows| && p in rows[i];
    var row := SelfRow(bs, i, s, e, intersect);
    ConcatMember(row, p);
    var d :| 0 <= d < |row| && p in row[d];
    SelfPairMember(bs, i, i + 1 + d, s, e, intersect, p);
  }

  /** Every raw self-intersection that survives the filter is collected. */
  lemma SelfHitsComplete(bs: seq<Bezier>, s: Point, e: Point,
                         intersect: (Bezier, Bezier) -> seq<Point>, i: int, j: int, p: Point)
    requires 0 <= i < j < |bs| && p in intersect(bs[i], bs[j]) && SelfHitKept(bs, i, j, s, e, p)
    ensures p in SelfAllHits(bs, s, e, intersect)
  {
    var rows := SelfRows(bs, s, e, intersect);
    SelfPairMember(bs, i, j, s, e, intersect, p);
    var row := SelfRow(bs, i, s, e, intersect);
    assert p in row[j - i - 1];
    ConcatMember(row, p);
    assert p in rows[i];
    ConcatMember(rows, p);
  }

  /** The adjacent-curve filter loop of `self_intersections`. */
  method FilterAwayFromJoint(hits: seq<Point>, joint: Point) returns (kept: seq<Point>)
    ensures kept == KeepAwayFromJoint(hits, joint)
  {
    kept := [];
    for k := 0 to |hits|
      invariant kept == KeepAwayFromJoint(hits[..k], joint)
    {
      assert hits[..k + 1][..k] == hits[..k];
      if DistanceSq(hits[k], joint) > JointSq {
        kept := kept + [hits[k]];
      }
    }
    assert hits[..|hits|] == hits;
  }

  /** The filter loop of `self_intersections` for curves that are not adjacent. */
  method FilterAwayFromEnds(hits: seq<Point>, s: Point, e: Point) returns (kept: seq<Point>)
    ensures kept == KeepAwayFromEnds(hits, s, e)
  {
    kept := [];
    for k := 0 to |hits|
      invariant kept == KeepAwayFromEnds(hits[..k], s, e)
    {
      assert hits[..k + 1][..k] == hits[..k];
      if DistanceSq(hits[k], s) < EndSq {
        continue;
      } else if DistanceSq(hits[k], e) < EndSq {
        continue;
      }
      kept := kept + [hits[k]];
    }
    assert hits[..|hits|] == hits;
  }

  /** `self_intersections` of one path. */
  method SelfIntersections(path: Path, intersect: (Bezier, Bezier) -> seq<Point>) returns (r: seq<Point>)
    ensures r == SelfAllHits(path.beziers, path.startPoint.Pos(), path.endPoint.Pos(), intersect)
  {
    var bs := path.beziers;
    var s, e := path.startPoint.Pos(), path.endPoint.Pos();
    ghost var rows := SelfRows(bs, s, e, intersect);
    r := [];
    for i := 0 to |bs|
      invariant r == Concat(rows[..i])
    {
      var rowHits := SelfRowHits(bs, i, s, e, intersect);
      ConcatStep(rows, i);
      r := r + rowHits;
    }
    assert rows[..|bs|] == rows;
  }

  /** The inner loop of `self_intersections`: curve `i` against every later curve of the same path. */
  method SelfRowHits(bs: seq<Bezier>, i: int, s: Point, e: Point, intersect: (Bezier, Bezier) -> seq<Point>)
    returns (rowHits: seq<Point>)
    requires 0 <= i < |bs|
    ensures rowHits == Concat(SelfRow(bs, i, s, e, intersect))
  {
    ghost var row := SelfRow(bs, i, s, e, intersect);
    rowHits := [];
    for j := i + 1 to |bs|
      invariant rowHits == Concat(row[..j - i - 1])
    {
      var hits := intersect(bs[i], bs[j]);
      var kept;
      if j - i == 1 {
        kept := FilterAwayFromJoint(hits, bs[i].end);
      } else {
        kept := FilterAwayFromEnds(hits, s, e);
      }
      assert row[j - i - 1] == SelfPairHits(bs, i, j, s, e, intersect);
      assert kept == row[j - i - 1];
      ConcatStep(row, j - i - 1);
      rowHits := rowHits + kept;
    }
    assert row[..|bs| - i - 1] == row;
  }
}
