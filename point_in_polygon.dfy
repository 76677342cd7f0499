/**
 * The winding-number step of the point-in-polygon test
 * (src/model/point_in_polygon.py).
 *
 * A ray is cast from the query point towards growing x. For every border edge
 * it meets, the caller passes the query point, the crossing point and the
 * edge; the step returns the new winding number, the edge's type and the
 * "last edge was counted" flag. Finding the crossing is geometry and stays
 * with the caller.
 */
module PointInPolygon {
  import opened Wrappers
  import opened Points

  const Up: int := 1
  const Down: int := -1

  /** An edge is "up" when it ends lower than it starts; horizontal edges count as "down". */
  function EdgeType(start: Point, end: Point): (t: int)
    ensures t == Up || t == Down
    ensures t == Up <==> start.y - end.y > 0.0
  {
    if start.y - end.y > 0.0 then Up else Down
  }

  /** What the step returns: winding number, type of this edge, whether an edge was counted. */
  datatype Step = Step(winding: int, edgeType: int, intersected: bool)

  /**
   * `update_winding_number`. A crossing is skipped when the previous edge was
   * counted and had the same type (both edges share the crossing point);
   * otherwise it counts, +1 for an up edge and -1 for a down edge, when the
   * crossing is strictly to the right of the query point.
   */
  function UpdateWindingNumber(query: Point, crossing: Point, winding: int, edgeStart: Point, edgeEnd: Point,
                               lastIntersected: bool, lastEdgeType: Option<int>): (r: Step)
    ensures r.edgeType == EdgeType(edgeStart, edgeEnd)
    ensures winding - 1 <= r.winding <= winding + 1
    ensures lastIntersected && lastEdgeType == Some(r.edgeType) ==> r.winding == winding && r.intersected
    ensures r.winding != winding <==>
              (!(lastIntersected && lastEdgeType == Some(r.edgeType)) && query.x < crossing.x)
    ensures r.winding != winding ==> r.winding == winding + r.edgeType
    ensures lastIntersected ==> r.intersected
    ensures r.intersected && !lastIntersected ==> r.winding != winding
  {
    var edgeType := EdgeType(edgeStart, edgeEnd);
    if !(lastIntersected && lastEdgeType == Some(edgeType)) then
      if edgeType == Up && query.x < crossing.x then
        Step(winding + 1, edgeType, true)
      else if edgeType == Down && query.x < crossing.x then
        Step(winding - 1, edgeType, true)
      else
        Step(winding, edgeType, lastIntersected)
    else
      Step(winding, edgeType, lastIntersected)
  }

  /** One crossing the caller found: the crossing point and the edge it lies on. */
  datatype Crossing = Crossing(at: Point, edgeStart: Point, edgeEnd: Point)

  /**
   * The step applied to a run of crossings in order, starting from winding 0,
   * no previous edge type and the flag clear, as the caller's loop does.
   */
  function Wind(query: Point, crossings: seq<Crossing>): (r: Step)
  {
    if |crossings| == 0 then
      Step(0, 0, false)
    else
      var prev := Wind(query, crossings[..|crossings| - 1]);
      var c := crossings[|crossings| - 1];
      var last := if |crossings| == 1 then None else Some(prev.edgeType);
      UpdateWindingNumber(query, c.at, prev.winding, c.edgeStart, c.edgeEnd, prev.intersected, last)
  }

  /** After `n` crossings the winding number lies in `[-n, n]`. */
  lemma {:induction false} WindBounded(query: Point, crossings: seq<Crossing>)
    ensures -|crossings| <= Wind(query, crossings).winding <= |crossings|
  {
    if |crossings| > 0 {
      WindBounded(query, crossings[..|crossings| - 1]);
    }
  }

  /** No crossing to the right of the query point: the winding number stays 0 and nothing is counted. */
  lemma {:induction false} WindAllLeft(query: Point, crossings: seq<Crossing>)
    requires forall i :: 0 <= i < |crossings| ==> crossings[i].at.x <= query.x
    ensures Wind(query, crossings).winding == 0 && !Wind(query, crossings).intersected
  {
    if |crossings| > 0 {
      WindAllLeft(query, crossings[..|crossings| - 1]);
    }
  }
}
