/**
 * Axis-aligned bounding boxes of point lists (src/model/bounding_box.py).
 *
 * The scan starts both corners at the sentinel (-1, -1) and treats a negative
 * coordinate as "not set yet", which is sound only for screen coordinates
 * (never negative). Each axis is scanned independently with the same rule, so
 * the rule is stated once on a sequence of coordinates.
 *
 * The source updates the maximum in an `else` branch of the minimum update, so
 * a value that lowers (or first sets) the minimum is never considered for the
 * maximum. `AxisAsWritten`/`GetBoundingBoxAsWritten` keep that behaviour;
 * `Axis`/`GetBoundingBox` are the corrected scan that the region model uses.
 */
module BoundingBox {
  import opened Points

  /** The "not set yet" coordinate of both corners. */
  const Unset: real := -1.0

  datatype Box = Box(minPoint: Point, maxPoint: Point)

  /** The x (or y) coordinates of a point list, in order. */
  function Xs(points: seq<Point>): (xs: seq<real>)
    ensures |xs| == |points| && forall i :: 0 <= i < |points| ==> xs[i] == points[i].x
  {
    seq(|points|, i requires 0 <= i < |points| => points[i].x)
  }

  function Ys(points: seq<Point>): (ys: seq<real>)
    ensures |ys| == |points| && forall i :: 0 <= i < |points| ==> ys[i] == points[i].y
  {
    seq(|points|, i requires 0 <= i < |points| => points[i].y)
  }

  predicate NonNegative(vs: seq<real>)
  {
    forall i :: 0 <= i < |vs| ==> vs[i] >= 0.0
  }

  /** `lo` is the least of `vs` and occurs in it. */
  predicate IsMin(lo: real, vs: seq<real>)
  {
    (forall i :: 0 <= i < |vs| ==> lo <= vs[i]) && (exists i :: 0 <= i < |vs| && vs[i] == lo)
  }

  /** `hi` is the greatest of `vs` and occurs in it. */
  predicate IsMax(hi: real, vs: seq<real>)
  {
    (forall i :: 0 <= i < |vs| ==> vs[i] <= hi) && (exists i :: 0 <= i < |vs| && vs[i] == hi)
  }

  /** One loop step on one axis, as written: the maximum only in the `elif`. */
  function AxisStepAsWritten(range: (real, real), v: real): (real, real)
  {
    var (lo, hi) := range;
    if lo < 0.0 || v < lo then (v, hi)
    else if hi < 0.0 || v > hi then (lo, v)
    else (lo, hi)
  }

  /** One loop step on one axis with both updates independent. */
  function AxisStep(range: (real, real), v: real): (real, real)
  {
    var (lo, hi) := range;
    (if lo < 0.0 || v < lo then v else lo, if hi < 0.0 || v > hi then v else hi)
  }

  /** The (min, max) pair the source's scan leaves for one axis. */
  function AxisAsWritten(vs: seq<real>): (real, real)
  {
    if |vs| == 0 then (Unset, Unset) else AxisStepAsWritten(AxisAsWritten(vs[..|vs| - 1]), vs[|vs| - 1])
  }

  function Axis(vs: seq<real>): (real, real)
  {
    if |vs| == 0 then (Unset, Unset) else AxisStep(Axis(vs[..|vs| - 1]), vs[|vs| - 1])
  }

  function BoxAsWritten(points: seq<Point>): Box
  {
    var (xLo, xHi) := AxisAsWritten(Xs(points));
    var (yLo, yHi) := AxisAsWritten(Ys(points));
    Box(Point(xLo, yLo), Point(xHi, yHi))
  }

  function BoxOf(points: seq<Point>): Box
  {
    var (xLo, xHi) := Axis(Xs(points));
    var (yLo, yHi) := Axis(Ys(points));
    Box(Point(xLo, yLo), Point(xHi, yHi))
  }

  lemma XsPrefix(points: seq<Point>, i: nat)
    requires i < |points|
    ensures Xs(points[..i + 1]) == Xs(points[..i]) + [points[i].x]
    ensures Ys(points[..i + 1]) == Ys(points[..i]) + [points[i].y]
  {
    assert Xs(points[..i + 1])[..i] == Xs(points[..i]);
    assert Ys(points[..i + 1])[..i] == Ys(points[..i]);
  }

  /** `get_bounding_box` as written; the input list is only read. */
  method GetBoundingBoxAsWritten(points: seq<Point>) returns (minPoint: Point, maxPoint: Point)
    ensures Box(minPoint, maxPoint) == BoxAsWritten(points)
    ensures |points| == 0 ==> minPoint == Point(Unset, Unset) && maxPoint == Point(Unset, Unset)
  {
    var minX, minY, maxX, maxY := Unset, Unset, Unset, Unset;
    for i := 0 to |points|
      invariant (minX, maxX) == AxisAsWritten(Xs(points[..i]))
      invariant (minY, maxY) == AxisAsWritten(Ys(points[..i]))
    {
      XsPrefix(points, i);
      if minX < 0.0 || points[i].x < minX {
        minX := points[i].x;
      } else if maxX < 0.0 || points[i].x > maxX {
        maxX := points[i].x;
      }
      if minY < 0.0 || points[i].y < minY {
        minY := points[i].y;
      } else if maxY < 0.0 || points[i].y > maxY {
        maxY := points[i].y;
      }
    }
    assert points[..|points|] == points;
    minPoint, maxPoint := Point(minX, minY), Point(maxX, maxY);
  }

  /** The corrected scan: every coordinate is tried for both corners. */
  method GetBoundingBox(points: seq<Point>) returns (minPoint: Point, maxPoint: Point)
    ensures Box(minPoint, maxPoint) == BoxOf(points)
    ensures |points| == 0 ==> minPoint == Point(Unset, Unset) && maxPoint == Point(Unset, Unset)
  {
    var minX, minY, maxX, maxY := Unset, Unset, Unset, Unset;
    for i := 0 to |points|
      invariant (minX, maxX) == Axis(Xs(points[..i]))
      invariant (minY, maxY) == Axis(Ys(points[..i]))
    {
      XsPrefix(points, i);
      if minX < 0.0 || points[i].x < minX {
        minX := points[i].x;
      }
      if maxX < 0.0 || points[i].x > maxX {
        maxX := points[i].x;
      }
      if minY < 0.0 || points[i].y < minY {
        minY := points[i].y;
      }
      if maxY < 0.0 || points[i].y > maxY {
        maxY := points[i].y;
      }
    }
    assert points[..|points|] == points;
    minPoint, maxPoint := Point(minX, minY), Point(maxX, maxY);
  }

  /** On non-negative coordinates the as-written minimum is the true minimum. */
  lemma {:induction false} AxisAsWrittenMin(vs: seq<real>)
    requires |vs| > 0 && NonNegative(vs)
    ensures IsMin(AxisAsWritten(vs).0, vs)
  {
    var init := vs[..|vs| - 1];
    var v := vs[|vs| - 1];
    if |init| == 0 {
      assert vs[0] == v;
    } else {
      AxisAsWrittenMin(init);
      var lo := AxisAsWritten(init).0;
      var k :| 0 <= k < |init| && init[k] == lo;
      assert vs[k] == lo;
    }
  }

  /** The as-written maximum is the sentinel or one of the values. */
  lemma {:induction false} AxisAsWrittenMaxOrigin(vs: seq<real>)
    ensures AxisAsWritten(vs).1 == Unset || exists i :: 0 <= i < |vs| && vs[i] == AxisAsWritten(vs).1
  {
    if |vs| > 0 {
      var init := vs[..|vs| - 1];
      AxisAsWrittenMaxOrigin(init);
      var hi := AxisAsWritten(init).1;
      if hi != Unset && hi == AxisAsWritten(vs).1 {
        var k :| 0 <= k < |init| && init[k] == hi;
        assert vs[k] == hi;
      }
    }
  }

  /**
   * The quirk on a single point: the point sets the minimum, the maximum stays
   * at the sentinel, and the point lies outside its own box.
   */
  lemma SinglePointAsWritten()
    ensures BoxAsWritten([Point(5.0, 5.0)]) == Box(Point(5.0, 5.0), Point(Unset, Unset))
    ensures !InsideClosedBox(Point(5.0, 5.0), BoxAsWritten([Point(5.0, 5.0)]))
  {
    assert Xs([Point(5.0, 5.0)]) == [5.0];
    assert Ys([Point(5.0, 5.0)]) == [5.0];
  }

  /** The corrected scan finds the true minimum and maximum. */
  lemma {:induction false} AxisMinMax(vs: seq<real>)
    requires |vs| > 0 && NonNegative(vs)
    ensures IsMin(Axis(vs).0, vs) && IsMax(Axis(vs).1, vs)
  {
    var init := vs[..|vs| - 1];
    var v := vs[|vs| - 1];
    if |init| == 0 {
      assert vs[0] == v;
    } else {
      AxisMinMax(init);
      var (lo, hi) := Axis(init);
      var k :| 0 <= k < |init| && init[k] == lo;
      assert vs[k] == lo;
      var m :| 0 <= m < |init| && init[m] == hi;
      assert vs[m] == hi;
    }
  }

  /** Every point of a non-empty screen-coordinate list lies in its corrected box. */
  lemma BoxOfContains(points: seq<Point>)
    requires |points| > 0 && NonNegative(Xs(points)) && NonNegative(Ys(points))
    ensures forall i :: 0 <= i < |points| ==> InsideClosedBox(points[i], BoxOf(points))
  {
    AxisMinMax(Xs(points));
    AxisMinMax(Ys(points));
  }

  predicate InsideClosedBox(p: Point, box: Box)
  {
    box.minPoint.x <= p.x <= box.maxPoint.x && box.minPoint.y <= p.y <= box.maxPoint.y
  }

  /**
   * `is_inside_box`: strictly inside on both axes, so a point on the boundary of
   * the box is outside it.
   */
  predicate IsInsideBox(p: Point, box: Box)
    ensures IsInsideBox(p, box) <==>
              (InsideClosedBox(p, box) && p.x != box.minPoint.x && p.x != box.maxPoint.x
               && p.y != box.minPoint.y && p.y != box.maxPoint.y)
  {
    box.minPoint.x < p.x < box.maxPoint.x && box.minPoint.y < p.y < box.maxPoint.y
  }
}
