/**
 * The algebraic helpers of cubic Bézier curves (src/model/cubic_bezier.py):
 * linear interpolation, cubic evaluation, de Casteljau splitting, parameter
 * interval projection, the bounding-box area and the three-way "close enough"
 * classification used to stop Bézier clipping. All of them are exact identities
 * over `real`; the clipping loop itself is not part of this module.
 */
module CubicBezier {
  import opened Wrappers
  import opened Points

  /** Squared distance below which two tiny curves are taken to meet. */
  const IntersectDistSq: real := 4.0
  /** Bounding-box area below which clipping stops. */
  const BoundingBoxLimit: real := 3.0

  /** The three results of `bezier_close_enough`. */
  const BoundingTrue: int := 1
  const BoundingBig: int := 0
  const BoundingFar: int := -1

  /** A cubic curve: two anchors and two control points. */
  datatype Bezier = Bezier(start: Point, end: Point, control1: Point, control2: Point)
  {
    /** The control polygon in the order the source stores it. */
    function Points(): seq<Point>
    {
      [start, control1, control2, end]
    }
  }

  /**
   * The constructor: a missing control point defaults to the anchor next to it,
   * which makes a straight segment when both are missing.
   */
  function MakeBezier(start: Point, end: Point, control1: Option<Point>, control2: Option<Point>): (b: Bezier)
    ensures b.start == start && b.end == end
    ensures b.control1 == (if control1.Some? then control1.value else start)
    ensures b.control2 == (if control2.Some? then control2.value else end)
    ensures b.Points() == [start, b.control1, b.control2, end]
  {
    var c1 := if control1.None? then start else control1.value;
    var c2 := if control2.None? then end else control2.value;
    Bezier(start, end, c1, c2)
  }

  /** The curve that stays at one point. */
  function Degenerate(p: Point): (b: Bezier)
    ensures b.Points() == [p, p, p, p]
  {
    Bezier(p, p, p, p)
  }

  /** The point a fraction `t` of the way from `a` to `b`. */
  function Lerp(a: Point, b: Point, t: real): (r: Point)
    ensures t == 0.0 ==> r == a
    ensures t == 1.0 ==> r == b
    ensures a == b ==> r == a
  {
    Point(a.x + (b.x - a.x) * t, a.y + (b.y - a.y) * t)
  }

  /** The Bernstein form of the cubic through `s`, `c1`, `c2`, `e` at `t`. */
  function CubicCurve(s: Point, e: Point, c1: Point, c2: Point, t: real): (r: Point)
    ensures t == 0.0 ==> r == s
    ensures t == 1.0 ==> r == e
  {
    var u := 1.0 - t;
    var uu := u * u;
    var tt := t * t;
    var startScalar := u * uu;
    var endScalar := tt * t;
    var control1Scalar := 3.0 * uu * t;
    var control2Scalar := 3.0 * u * tt;
    Point(s.x * startScalar + endScalar * e.x + control1Scalar * c1.x + control2Scalar * c2.x,
          s.y * startScalar + endScalar * e.y + control1Scalar * c1.y + control2Scalar * c2.y)
  }

  function Evaluate(b: Bezier, t: real): Point
  {
    CubicCurve(b.start, b.end, b.control1, b.control2, t)
  }

  /** The four Bernstein weights sum to one, so a curve at one point stays there. */
  lemma DegenerateEvaluate(p: Point, t: real)
    ensures Evaluate(Degenerate(p), t) == p
  {
    var u := 1.0 - t;
    var w := u * (u * u) + (t * t) * t + 3.0 * (u * u) * t + 3.0 * u * (t * t);
    calc {
      w;
      == (u + t) * (u + t) * (u + t);
      == 1.0;
    }
    calc {
      Evaluate(Degenerate(p), t).x;
      == p.x * (u * (u * u)) + (t * t) * t * p.x + 3.0 * (u * u) * t * p.x + 3.0 * u * (t * t) * p.x;
      == p.x * w;
      == p.x;
    }
    calc {
      Evaluate(Degenerate(p), t).y;
      == p.y * (u * (u * u)) + (t * t) * t * p.y + 3.0 * (u * u) * t * p.y + 3.0 * u * (t * t) * p.y;
      == p.y * w;
      == p.y;
    }
  }

  /**
   * de Casteljau split at `t`. Splitting at an end gives the curve itself and a
   * curve degenerated to that end.
   */
  function Split(b: Bezier, t: real): (halves: (Bezier, Bezier))
    ensures t == 1.0 ==> halves == (b, Degenerate(b.end))
    ensures t == 0.0 ==> halves == (Degenerate(b.start), b)
    ensures halves.0.start == b.start && halves.1.end == b.end
    ensures halves.0.end == halves.1.start == Evaluate(b, t)
  {
    if t == 1.0 then
      (b, Bezier(b.end, b.end, b.end, b.end))
    else if t == 0.0 then
      (Bezier(b.start, b.start, b.start, b.start), b)
    else
      var splitPoint := Evaluate(b, t);
      var m0 := Lerp(b.start, b.control1, t);
      var m1 := Lerp(b.control1, b.control2, t);
      var m2 := Lerp(b.control2, b.end, t);
      var tangent0 := Lerp(m0, m1, t);
      var tangent1 := Lerp(m1, m2, t);
      (Bezier(b.start, splitPoint, m0, tangent0), Bezier(splitPoint, b.end, tangent1, m2))
  }

  /**
   * The piece of the curve between parameters `tMin` and `tMax`, by two
   * de Casteljau steps. The whole interval gives the curve back; a lower bound
   * of 1 outside that case divides by zero in the source (`None` here).
   */
  function SplitInterval(b: Bezier, tMin: real, tMax: real): (r: Option<Bezier>)
    ensures tMin == 0.0 && tMax == 1.0 ==> r == Some(b)
    ensures r.None? <==> tMin == 1.0
    ensures r.Some? ==> r.value.start == Evaluate(b, tMin) && r.value.end == Evaluate(b, tMax)
  {
    if tMin == 0.0 && tMax == 1.0 then
      Some(b)
    else if tMin == 1.0 then
      None
    else
      var startPoint := Evaluate(b, tMin);
      var endPoint := Evaluate(b, tMax);
      var secondSplitT := (tMax - tMin) / (1.0 - tMin);
      var firstControl2 := Lerp(b.control2, b.end, tMin);
      var firstMid := Lerp(b.control1, b.control2, tMin);
      var firstControl1 := Lerp(firstMid, firstControl2, tMin);
      var control1 := Lerp(startPoint, firstControl1, secondSplitT);
      var secondMid := Lerp(firstControl1, firstControl2, secondSplitT);
      var control2 := Lerp(control1, secondMid, secondSplitT);
      Some(Bezier(startPoint, endPoint, control1, control2))
  }

  /** The prefix piece `[0, t]` is exactly the first half of a split at `t`. */
  lemma SplitIntervalPrefix(b: Bezier, t: real)
    ensures SplitInterval(b, 0.0, t) == Some(Split(b, t).0)
  {
    if t != 1.0 && t != 0.0 {
      var r := SplitInterval(b, 0.0, t);
      assert (t - 0.0) / (1.0 - 0.0) == t;
      assert r.value.control1 == Lerp(b.start, b.control1, t);
      assert r.value.control2 == Lerp(Lerp(b.start, b.control1, t), Lerp(b.control1, b.control2, t), t);
    }
  }

  /** The suffix piece `[t, 1]` is exactly the second half of a split at `t`. */
  lemma SplitIntervalSuffix(b: Bezier, t: real)
    requires t != 1.0
    ensures SplitInterval(b, t, 1.0) == Some(Split(b, t).1)
  {
    if t != 0.0 {
      var r := SplitInterval(b, t, 1.0);
      DivideBySelf(1.0 - t);
      var m1 := Lerp(b.control1, b.control2, t);
      var m2 := Lerp(b.control2, b.end, t);
      assert r.value.control1 == Lerp(m1, m2, t);
      assert r.value.control2 == m2;
    }
  }

  /** Maps a sub-interval of `[0, 1]` into `[tMin, tMax]`. */
  function IntervalProject(tup: (real, real), tMin: real, tMax: real): (r: (real, real))
    ensures tup == (0.0, 1.0) ==> r == (tMin, tMax)
    ensures tMin <= tMax && tup.0 <= tup.1 ==> r.0 <= r.1
  {
    (tMin + tup.0 * (tMax - tMin), tMin + tup.1 * (tMax - tMin))
  }

  /** Projecting twice is projecting once into the composed interval. */
  lemma IntervalProjectCompose(tup: (real, real), a: real, b: real, tMin: real, tMax: real)
    ensures IntervalProject(IntervalProject(tup, a, b), tMin, tMax)
         == IntervalProject(tup, tMin + a * (tMax - tMin), tMin + b * (tMax - tMin))
  {
    var lo, hi := tMin + a * (tMax - tMin), tMin + b * (tMax - tMin);
    var lhs := IntervalProject(IntervalProject(tup, a, b), tMin, tMax);
    var rhs := IntervalProject(tup, lo, hi);
    assert lhs.0 == rhs.0 by { AffineCompose(tup.0, a, b, tMin, tMax); }
    assert lhs.1 == rhs.1 by { AffineCompose(tup.1, a, b, tMin, tMax); }
  }

  lemma AffineCompose(x: real, a: real, b: real, tMin: real, tMax: real)
    ensures tMin + (a + x * (b - a)) * (tMax - tMin)
         == (tMin + a * (tMax - tMin)) + x * ((tMin + b * (tMax - tMin)) - (tMin + a * (tMax - tMin)))
  {
  }

  lemma DivideBySelf(d: real)
    requires d != 0.0
    ensures d / d == 1.0
  {
  }

  function Min4(a: real, b: real, c: real, d: real): (m: real)
    ensures m <= a && m <= b && m <= c && m <= d
    ensures m == a || m == b || m == c || m == d
  {
    var ab := if a <= b then a else b;
    var cd := if c <= d then c else d;
    if ab <= cd then ab else cd
  }

  function Max4(a: real, b: real, c: real, d: real): (m: real)
    ensures m >= a && m >= b && m >= c && m >= d
    ensures m == a || m == b || m == c || m == d
  {
    var ab := if a >= b then a else b;
    var cd := if c >= d then c else d;
    if ab >= cd then ab else cd
  }

  function AtLeastOne(v: real): (r: real)
    ensures r >= 1.0 && r >= v
    ensures r == v || r == 1.0
  {
    if v >= 1.0 then v else 1.0
  }

  /** Area of the control polygon's bounding box, each side clamped to at least 1. */
  function BoundingBoxArea(b: Bezier): (area: real)
    ensures area >= 1.0
  {
    var xMin := Min4(b.start.x, b.end.x, b.control1.x, b.control2.x);
    var xMax := Max4(b.start.x, b.end.x, b.control1.x, b.control2.x);
    var yMin := Min4(b.start.y, b.end.y, b.control1.y, b.control2.y);
    var yMax := Max4(b.start.y, b.end.y, b.control1.y, b.control2.y);
    var w := AtLeastOne(xMax - xMin);
    var h := AtLeastOne(yMax - yMin);
    assert w * h >= 1.0 by {
      calc { w * h; >= 1.0 * h; >= 1.0; }
    }
    w * h
  }

  /** A curve shrunk to one point has the smallest possible area. */
  lemma DegenerateArea(p: Point)
    ensures BoundingBoxArea(Degenerate(p)) == 1.0
  {
  }

  /** Some pair of anchors, one from each curve, lies within the meeting distance. */
  predicate AnchorsMeet(c0: Bezier, c1: Bezier)
  {
    DistanceSq(c0.start, c1.start) < IntersectDistSq
    || DistanceSq(c0.end, c1.start) < IntersectDistSq
    || DistanceSq(c0.start, c1.end) < IntersectDistSq
    || DistanceSq(c0.end, c1.end) < IntersectDistSq
  }

  /**
   * The stop test of Bézier clipping: `BoundingBig` while either curve is still
   * large, otherwise `BoundingTrue` when the tiny curves touch at an anchor and
   * `BoundingFar` when they do not.
   */
  function CloseEnough(c0: Bezier, c1: Bezier): (r: int)
    ensures r in {BoundingTrue, BoundingBig, BoundingFar}
    ensures r != BoundingBig <==> BoundingBoxArea(c0) < BoundingBoxLimit && BoundingBoxArea(c1) < BoundingBoxLimit
    ensures r == BoundingTrue ==> AnchorsMeet(c0, c1)
    ensures r == BoundingFar ==> !AnchorsMeet(c0, c1)
  {
    if BoundingBoxArea(c0) < BoundingBoxLimit && BoundingBoxArea(c1) < BoundingBoxLimit then
      if AnchorsMeet(c0, c1) then BoundingTrue else BoundingFar
    else
      BoundingBig
  }

  /** The classification does not depend on the order of the two curves. */
  lemma CloseEnoughSymmetric(c0: Bezier, c1: Bezier)
    ensures CloseEnough(c0, c1) == CloseEnough(c1, c0)
  {
    DistanceSqSymmetric(c0.start, c1.start);
    DistanceSqSymmetric(c0.end, c1.start);
    DistanceSqSymmetric(c0.start, c1.end);
    DistanceSqSymmetric(c0.end, c1.end);
  }

  /** Two copies of one tiny curve always meet. */
  lemma CloseEnoughSelf(c: Bezier)
    requires BoundingBoxArea(c) < BoundingBoxLimit
    ensures CloseEnough(c, c) == BoundingTrue
  {
    DistanceSqZeroIff(c.start, c.start);
  }
}
