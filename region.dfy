/**
 * The region tree of the game (src/model/region.py).
 *
 * A region is a face of the drawing: the game vertices it can still reach,
 * the border it is bounded by, the cycle of paths that makes that border, an
 * adjacency map from vertex index to the paths ending there, and the regions
 * nested inside it (its exclusions). The regions form a tree through
 * `exclusions` and `parent`; every vertex keeps the set of regions that claim
 * it, so the link between the two runs both ways.
 *
 * The winding-number loops of the polygon tests need line intersections and
 * are an oracle `winding(region, point)`: "the winding loop over this region's
 * border says the point is inside". Everything around it (bounding-box
 * guard, recursion into the exclusions, child-before-parent order) is modelled.
 */
module Regions {
  import opened Wrappers
  import opened Points
  import opened BoundingBox
  import opened CubicBezier
  import opened Paths
  import opened FaceFinder

  /** `get_min_max_x`: the two x coordinates in ascending order. */
  function GetMinMaxX(p1: Point, p2: Point): (r: (real, real))
    ensures r.0 <= r.1
    ensures (r.0 == p1.x && r.1 == p2.x) || (r.0 == p2.x && r.1 == p1.x)
  {
    if p1.x > p2.x then (p2.x, p1.x) else (p1.x, p2.x)
  }

  /** `is_in_range`: closed interval test. */
  predicate IsInRange(value: real, lo: real, hi: real)
    ensures IsInRange(value, lo, hi) ==> lo <= hi
    ensures lo == hi ==> (IsInRange(value, lo, hi) <==> value == lo)
  {
    lo <= value && value <= hi
  }

  /** Sorting the ends first makes the range test independent of the segment's direction. */
  lemma InRangeOfSegment(value: real, p1: Point, p2: Point)
    ensures IsInRange(value, GetMinMaxX(p1, p2).0, GetMinMaxX(p1, p2).1) <==>
              (p1.x <= value <= p2.x || p2.x <= value <= p1.x)
  {
  }

  // ---------------------------------------------------------------------------
  // The adjacency map: vertex index -> set of paths ending at that vertex.
  // ---------------------------------------------------------------------------

  /** Both ends carry an index; the source reads `.index` on each end. */
  predicate Indexed(p: Path)
  {
    p.startPoint.index.Some? && p.endPoint.index.Some?
  }

  /** `k` is the index of one end of `p`. */
  predicate EndsAtIndex(p: Path, k: int)
  {
    p.startPoint.index == Some(k) || p.endPoint.index == Some(k)
  }

  /** The map lists `p` under key `k`. */
  predicate Has(m: EdgeMap, k: int, p: Path)
  {
    k in m && p in m[k]
  }

  /** No key maps to an empty set. */
  predicate NoEmptySets(m: EdgeMap)
  {
    forall k :: k in m ==> m[k] != {}
  }

  /** One round of the `update_edge_map` loop: add `p` under `k`, creating the set when `k` is absent. */
  function AddUnder(m: EdgeMap, k: int, p: Path): EdgeMap
  {
    if k in m then m[k := m[k] + {p}] else m[k := {p}]
  }

  /** `update_edge_map` on values: `p` goes under the index of its start and of its end. */
  function AddPathTo(m: EdgeMap, p: Path): (r: EdgeMap)
    requires Indexed(p)
    ensures forall k, q | k in r && q in r[k] :: Has(m, k, q) || (q == p && EndsAtIndex(p, k))
    ensures forall k, q | k in m && q in m[k] :: Has(r, k, q)
    ensures forall k :: EndsAtIndex(p, k) ==> Has(r, k, p)
    ensures forall k :: k in r <==> k in m || EndsAtIndex(p, k)
    ensures forall k :: k in m && !EndsAtIndex(p, k) ==> r[k] == m[k]
    ensures forall k :: k !in m && EndsAtIndex(p, k) ==> r[k] == {p}
    ensures NoEmptySets(m) ==> NoEmptySets(r)
  {
    AddUnder(AddUnder(m, p.startPoint.index.value, p), p.endPoint.index.value, p)
  }

  /** One round of the `remove_from_edge_map` loop: drop `p` under `k`, and the key once its set is empty. */
  function RemoveUnder(m: EdgeMap, k: int, p: Path): (r: EdgeMap)
    ensures forall j, q | j in r && q in r[j] :: Has(m, j, q) && !(q == p && j == k)
    ensures forall j, q | j in m && q in m[j] && !(q == p && j == k) :: Has(r, j, q)
    ensures forall j :: j in r ==> j in m
    ensures forall j :: j in m && (j != k || p !in m[j]) ==> j in r && r[j] == m[j]
    ensures forall j :: j in m && j !in r ==> m[j] == {p}
    ensures NoEmptySets(m) ==> NoEmptySets(r)
  {
    if k in m && m[k] != {} && p in m[k] then
      if m[k] - {p} != {} then m[k := m[k] - {p}] else m - {k}
    else
      m
  }

  /** `remove_from_edge_map` on values. */
  function RemovePathFrom(m: EdgeMap, p: Path): (r: EdgeMap)
    requires Indexed(p)
    ensures forall k, q | k in r && q in r[k] :: Has(m, k, q) && !(q == p && EndsAtIndex(p, k))
    ensures forall k, q | k in m && q in m[k] && !(q == p && EndsAtIndex(p, k)) :: Has(r, k, q)
    ensures forall k :: k in r ==> k in m
    ensures forall k :: k in m && (!EndsAtIndex(p, k) || p !in m[k]) ==> k in r && r[k] == m[k]
    ensures forall k :: k in m && k !in r ==> m[k] == {p}
    ensures NoEmptySets(m) ==> NoEmptySets(r)
  {
    RemoveUnder(RemoveUnder(m, p.startPoint.index.value, p), p.endPoint.index.value, p)
  }

  /** Two maps without empty sets are equal once they list the same paths under the same keys. */
  lemma SameListingSameMap(m1: EdgeMap, m2: EdgeMap)
    requires NoEmptySets(m1) && NoEmptySets(m2)
    requires forall k, q :: Has(m1, k, q) <==> Has(m2, k, q)
    ensures m1 == m2
  {
    forall k | k in m1
      ensures k in m2 && m1[k] == m2[k]
    {
      var q :| q in m1[k];
      assert Has(m1, k, q);
      assert forall r :: r in m1[k] <==> Has(m2, k, r) by {
        forall r ensures r in m1[k] <==> Has(m2, k, r) {
          assert Has(m1, k, r) <==> Has(m2, k, r);
        }
      }
    }
    forall k | k in m2
      ensures k in m1
    {
      var q :| q in m2[k];
      assert Has(m2, k, q);
    }
    assert m1.Keys == m2.Keys;
  }

  /** Removing a path that was just added gives the map back. */
  lemma RemoveUndoesAdd(m: EdgeMap, p: Path)
    requires Indexed(p) && NoEmptySets(m)
    requires forall k :: !Has(m, k, p)
    ensures RemovePathFrom(AddPathTo(m, p), p) == m
  {
    var r := RemovePathFrom(AddPathTo(m, p), p);
    forall k, q
      ensures Has(r, k, q) <==> Has(m, k, q)
    {
      if q == p {
        assert !Has(m, k, q);
      }
    }
    SameListingSameMap(r, m);
  }

  /** `update`'s loop and `compute_edge_map`: every path of the list added in order. */
  function AddPaths(m: EdgeMap, ps: seq<Path>): EdgeMap
    requires forall i :: 0 <= i < |ps| ==> Indexed(ps[i])
  {
    if |ps| == 0 then m else AddPathTo(AddPaths(m, ps[..|ps| - 1]), ps[|ps| - 1])
  }

  /** After adding a list of paths, a key lists exactly what it listed before plus the added paths ending there. */
  lemma {:induction false} AddPathsListing(m: EdgeMap, ps: seq<Path>)
    requires forall i :: 0 <= i < |ps| ==> Indexed(ps[i])
    ensures forall k, q :: Has(AddPaths(m, ps), k, q) <==> Has(m, k, q) || (q in ps && EndsAtIndex(q, k))
    ensures NoEmptySets(m) ==> NoEmptySets(AddPaths(m, ps))
  {
    if |ps| > 0 {
      var init := ps[..|ps| - 1];
      AddPathsListing(m, init);
      assert ps == init + [ps[|ps| - 1]];
      forall k, q
        ensures Has(AddPaths(m, ps), k, q) <==> Has(m, k, q) || (q in ps && EndsAtIndex(q, k))
      {
        assert q in ps <==> q in init || q == ps[|ps| - 1];
      }
    }
  }

  // ---------------------------------------------------------------------------
  // Open slots: each game vertex takes three path ends.
  // ---------------------------------------------------------------------------

  /** The sum of `3 - num_paths` over a set of vertices. */
  ghost function SumOpen(s: set<Vertex>): int
    reads s
  {
    if s == {} then 0 else var v :| v in s; 3 - v.numPaths + SumOpen(s - {v})
  }

  /** The sum does not depend on which vertex is taken first. */
  lemma {:induction false} SumOpenRemove(s: set<Vertex>, v: Vertex)
    requires v in s
    ensures SumOpen(s) == 3 - v.numPaths + SumOpen(s - {v})
    decreases |s|
  {
    var w :| w in s && SumOpen(s) == 3 - w.numPaths + SumOpen(s - {w});
    if w != v {
      SumOpenRemove(s - {w}, v);
      SumOpenRemove(s - {v}, w);
      assert s - {w} - {v} == s - {v} - {w};
    }
  }

  /** A positive count means some vertex of the set still has a free end. */
  lemma {:induction false} SumOpenPositive(s: set<Vertex>)
    requires SumOpen(s) > 0
    ensures exists v :: v in s && v.numPaths < 3
    decreases |s|
  {
    var w :| w in s && SumOpen(s) == 3 - w.numPaths + SumOpen(s - {w});
    if w.numPaths >= 3 {
      SumOpenPositive(s - {w});
    }
  }

  /** With degrees never negative, a set of `n` vertices offers at most `3n` ends. */
  lemma {:induction false} SumOpenAtMost(s: set<Vertex>)
    requires forall v :: v in s ==> v.numPaths >= 0
    ensures SumOpen(s) <= 3 * |s|
    decreases |s|
  {
    if s != {} {
      var w :| w in s && SumOpen(s) == 3 - w.numPaths + SumOpen(s - {w});
      SumOpenAtMost(s - {w});
    }
  }

  // ---------------------------------------------------------------------------
  // Vertex <-> region links.
  // ---------------------------------------------------------------------------

  /** How many regions a vertex may belong to: two while it is open, three once closed. */
  function Capacity(point: Vertex): (c: int)
    reads point
    ensures c == 2 || c == 3
    ensures c == 2 <==> point.Available()
  {
    if point.Available() then 2 else 3
  }

  /** `full`: the vertex already belongs to as many regions as it may. */
  predicate Full(point: Vertex)
    reads point
    ensures Full(point) <==> |point.regions| >= Capacity(point)
  {
    (point.Available() && |point.regions| > 1) || (!point.Available() && |point.regions| > 2)
  }

  /** A border point is a plain screen point or one of the game vertices. */
  datatype BorderPoint = Plain(p: Point) | Game(v: Vertex)

  function Spot(b: BorderPoint): Point
  {
    match b
    case Plain(p) => p
    case Game(v) => v.Pos()
  }

  function Spots(bs: seq<BorderPoint>): (ps: seq<Point>)
    ensures |ps| == |bs| && forall i :: 0 <= i < |bs| ==> ps[i] == Spot(bs[i])
  {
    seq(|bs|, i requires 0 <= i < |bs| => Spot(bs[i]))
  }

  /**
   * `optimized_border_points`: a border whose last point lies on its first
   * loses the last point; any other border is kept. The source indexes the
   * first and last point, so the border must not be empty.
   */
  function OptimizedBorderPoints(points: seq<BorderPoint>): (r: seq<BorderPoint>)
    requires |points| > 0
    ensures r <= points
    ensures |r| == |points| - 1 <==> Equals(Spot(points[0]), Spot(points[|points| - 1]))
    ensures |r| != |points| - 1 <==> r == points
  {
    if Equals(Spot(points[0]), Spot(points[|points| - 1])) then points[..|points| - 1] else points
  }

  /** A ring closed by repeating its first point comes back as the ring. */
  lemma OptimizedClosedRing(ring: seq<BorderPoint>)
    requires |ring| > 0
    ensures OptimizedBorderPoints(ring + [ring[0]]) == ring
  {
    assert (ring + [ring[0]])[..|ring|] == ring;
  }

  /** What `update_region_tree` does with its path list before the restructuring steps. */
  datatype Outcome = RaisedBeforeUpdate | FailedAfterUpdate | Continues

  class Region {
    var gamePoints: set<Vertex>
    var borderPoints: seq<BorderPoint>
    var cycle: seq<Path>
    var boundingBox: Box
    var edgeMap: EdgeMap
    var exclusions: set<Region>
    var parent: Region?
    var openConnections: int
    /** This region, the regions below it and every game vertex they hold. */
    ghost var Repr: set<object>

    /** The exclusions form a tree below this region, each child's footprint strictly inside its parent's. */
    ghost predicate Ranked()
      reads this, Repr
      decreases Repr
    {
      this in Repr
      && (forall v :: v in gamePoints ==> v in Repr)
      && (forall e :: e in exclusions ==>
            e in Repr && e.Repr <= Repr && this !in e.Repr && e.Ranked())
    }

    /** Every game vertex of this region lists the region back. */
    ghost predicate Linked()
      reads this, gamePoints
    {
      forall v :: v in gamePoints ==> this in v.regions
    }

    /**
     * `__init__`. A region without a parent (the base region) registers itself
     * with its vertices. The border drops a repeated closing point, and the box
     * is the corrected bounding-box scan of the border.
     */
    constructor (gamePoints: set<Vertex>, borderPoints: seq<BorderPoint>, edgeMap: EdgeMap,
                 exclusions: set<Region>, parent: Region?, cycle: seq<Path>)
      requires |borderPoints| > 0
      modifies if parent == null then gamePoints else {}
      ensures this.gamePoints == gamePoints && this.edgeMap == edgeMap && this.cycle == cycle
      ensures this.exclusions == exclusions && this.parent == parent
      ensures this.borderPoints == OptimizedBorderPoints(borderPoints)
      ensures boundingBox == BoxOf(Spots(this.borderPoints))
      ensures parent == null ==> forall v :: v in gamePoints ==> v.regions == old(v.regions) + {this}
      ensures parent == null ==> Linked()
      ensures forall v :: v in gamePoints ==> v.numPaths == old(v.numPaths)
      ensures openConnections == SumOpen(gamePoints)
      ensures exclusions == {} ==> Ranked()
    {
      var border := OptimizedBorderPoints(borderPoints);
      var lo, hi := GetBoundingBox(Spots(border));
      this.gamePoints := gamePoints;
      this.borderPoints := border;
      this.cycle := cycle;
      boundingBox := Box(lo, hi);
      this.edgeMap := edgeMap;
      this.exclusions := exclusions;
      this.parent := parent;
      Repr := {this} + gamePoints;
      new;
      if parent == null {
        Claim(gamePoints);
      }
      openConnections := ComputeConnections();
    }

    /** The base region's constructor loop: every vertex of `points` lists this region. */
    method Claim(points: set<Vertex>)
      modifies points
      ensures forall v :: v in points ==> v.regions == old(v.regions) + {this}
      ensures forall v :: v in points ==> v.numPaths == old(v.numPaths)
    {
      var rest := points;
      while rest != {}
        invariant rest <= points
        invariant forall v :: v in points - rest ==> v.regions == old(v.regions) + {this}
        invariant forall v :: v in rest ==> v.regions == old(v.regions)
        invariant forall v :: v in points ==> v.numPaths == old(v.numPaths)
        decreases rest
      {
        var v :| v in rest;
        v.regions := v.regions + {this};
        rest := rest - {v};
      }
    }

    /** `add_point`: both links are made. */
    method AddPoint(newPoint: Vertex)
      modifies this`gamePoints, newPoint`regions
      ensures gamePoints == old(gamePoints) + {newPoint}
      ensures newPoint.regions == old(newPoint.regions) + {this}
      ensures old(Linked()) ==> Linked()
    {
      gamePoints := gamePoints + {newPoint};
      newPoint.regions := newPoint.regions + {this};
    }

    /**
     * `remove_point`: both links are dropped. The source also pops the vertex
     * object from the adjacency map, whose keys are indices, so the map keeps
     * every entry.
     */
    method RemovePoint(point: Vertex)
      modifies this`gamePoints, point`regions
      ensures gamePoints == old(gamePoints) - {point}
      ensures point.regions == old(point.regions) - {this}
      ensures edgeMap == old(edgeMap)
      ensures old(Linked()) ==> Linked()
    {
      if point in gamePoints {
        gamePoints := gamePoints - {point};
      }
      point.regions := point.regions - {this};
    }

    /** `update_edge_map`. */
    method UpdateEdgeMap(newPath: Path)
      requires Indexed(newPath)
      modifies this`edgeMap
      ensures edgeMap == AddPathTo(old(edgeMap), newPath)
    {
      var keys := [newPath.startPoint.index.value, newPath.endPoint.index.value];
      for i := 0 to 2
        invariant i == 0 ==> edgeMap == old(edgeMap)
        invariant i == 1 ==> edgeMap == AddUnder(old(edgeMap), keys[0], newPath)
        invariant i == 2 ==> edgeMap == AddUnder(AddUnder(old(edgeMap), keys[0], newPath), keys[1], newPath)
      {
        var point := keys[i];
        var pathSet;
        if point in edgeMap {
          pathSet := edgeMap[point] + {newPath};
        } else {
          pathSet := {newPath};
        }
        edgeMap := edgeMap[point := pathSet];
      }
    }

    /** `remove_from_edge_map`. */
    method RemoveFromEdgeMap(path: Path)
      requires Indexed(path)
      modifies this`edgeMap
      ensures edgeMap == RemovePathFrom(old(edgeMap), path)
    {
      var keys := [path.startPoint.index.value, path.endPoint.index.value];
      for i := 0 to 2
        invariant i == 0 ==> edgeMap == old(edgeMap)
        invariant i == 1 ==> edgeMap == RemoveUnder(old(edgeMap), keys[0], path)
        invariant i == 2 ==> edgeMap == RemoveUnder(RemoveUnder(old(edgeMap), keys[0], path), keys[1], path)
      {
        var point := keys[i];
        if point in edgeMap {
          var pathSet := edgeMap[point];
          if pathSet != {} && path in pathSet {
            pathSet := pathSet - {path};
            if pathSet != {} {
              edgeMap := edgeMap[point := pathSet];
            } else {
              edgeMap := edgeMap - {point};
            }
          }
        }
      }
    }

    /** `compute_connections`: the free path ends left at this region's vertices. */
    method ComputeConnections() returns (connections: int)
      ensures connections == SumOpen(gamePoints)
    {
      connections := 0;
      var rest := gamePoints;
      while rest != {}
        invariant rest <= gamePoints
        invariant connections + SumOpen(rest) == SumOpen(gamePoints)
        decreases rest
      {
        var point :| point in rest;
        SumOpenRemove(rest, point);
        connections := connections + 3 - point.numPaths;
        rest := rest - {point};
      }
    }

    /** `update`: the new paths enter the adjacency map in order and the new vertex joins the region. */
    method Update(paths: seq<Path>, midPoint: Vertex)
      requires forall i :: 0 <= i < |paths| ==> Indexed(paths[i])
      modifies this`edgeMap, this`gamePoints, midPoint`regions
      ensures edgeMap == AddPaths(old(edgeMap), paths)
      ensures gamePoints == old(gamePoints) + {midPoint}
      ensures midPoint.regions == old(midPoint.regions) + {this}
    {
      for i := 0 to |paths|
        invariant edgeMap == AddPaths(old(edgeMap), paths[..i])
        invariant gamePoints == old(gamePoints) && midPoint.regions == old(midPoint.regions)
      {
        assert paths[..i + 1][..i] == paths[..i];
        UpdateEdgeMap(paths[i]);
      }
      assert paths[..|paths|] == paths;
      AddPoint(midPoint);
    }

    /**
     * `clear`: the region becomes an empty container. Each former vertex drops
     * its link to the region.
     */
    method Clear()
      modifies this`gamePoints, this`edgeMap, this`openConnections, gamePoints`regions
      ensures gamePoints == {} && edgeMap == map[] && openConnections == 0
      ensures forall v :: v in old(gamePoints) ==> v.regions == old(v.regions) - {this}
    {
      var points := gamePoints;
      gamePoints := {};
      var rest := points;
      while rest != {}
        invariant rest <= points
        invariant gamePoints == {}
        invariant forall v :: v in points - rest ==> v.regions == old(v.regions) - {this}
        invariant forall v :: v in rest ==> v.regions == old(v.regions)
        decreases rest
      {
        var point :| point in rest;
        RemovePoint(point);
        rest := rest - {point};
      }
      edgeMap := map[];
      openConnections := 0;
    }

    /** The vertices on this region's border: the ends of its cycle, or, without a cycle, the game vertices of its border. */
    function OuterSet(): (r: set<Vertex>)
      reads this`cycle, this`borderPoints
    {
      if cycle != [] then
        (set p | p in cycle :: p.startPoint) + (set p | p in cycle :: p.endPoint)
      else
        set b | b in borderPoints && b.Game? :: b.v
    }

    /** `get_outer_set`. */
    method GetOuterSet() returns (outerSet: set<Vertex>)
      ensures outerSet == OuterSet()
      ensures cycle != [] ==> forall v :: v in outerSet <==> exists p :: p in cycle && EndAt(p, v)
      ensures cycle == [] ==> forall v :: v in outerSet <==> Game(v) in borderPoints
    {
      outerSet := {};
      if cycle != [] {
        for i := 0 to |cycle|
          invariant outerSet == (set p | p in cycle[..i] :: p.startPoint) + (set p | p in cycle[..i] :: p.endPoint)
        {
          assert cycle[..i + 1] == cycle[..i] + [cycle[i]];
          outerSet := outerSet + {cycle[i].startPoint};
          outerSet := outerSet + {cycle[i].endPoint};
        }
        assert cycle[..|cycle|] == cycle;
      } else {
        for i := 0 to |borderPoints|
          invariant outerSet == set b | b in borderPoints[..i] && b.Game? :: b.v
        {
          assert borderPoints[..i + 1] == borderPoints[..i] + [borderPoints[i]];
          if borderPoints[i].Game? {
            outerSet := outerSet + {borderPoints[i].v};
          }
        }
        assert borderPoints[..|borderPoints|] == borderPoints;
      }
    }

    /** Some region of this subtree has more than one free path end. */
    ghost predicate HasOpen()
      requires Ranked()
      reads Repr
      decreases Repr
    {
      SumOpen(gamePoints) > 1 || exists e :: e in exclusions && e.HasOpen()
    }

    /**
     * `find_open_region`: this region when it has more than one free end,
     * else the first open region an exclusion reports (in whatever order the
     * set yields them), else none.
     */
    method FindOpenRegion() returns (r: Region?)
      requires Ranked()
      decreases Repr
      ensures r == this <==> SumOpen(gamePoints) > 1
      ensures r != null ==> r in Repr && SumOpen(r.gamePoints) > 1
      ensures r != null && r != this ==> exists e :: e in exclusions && r in e.Repr
      ensures r == null <==> !HasOpen()
    {
      var connections := ComputeConnections();
      if connections > 1 {
        return this;
      }
      var rest := exclusions;
      while rest != {}
        invariant rest <= exclusions
        invariant forall e :: e in exclusions - rest ==> !e.HasOpen()
        decreases rest
      {
        var exclusion :| exclusion in rest;
        var open := exclusion.FindOpenRegion();
        if open != null {
          return open;
        }
        rest := rest - {exclusion};
      }
      return null;
    }

    /** `points_in_subtree`: the game vertices of this region and of every region below it. */
    function PointsInSubtree(): (r: set<Vertex>)
      requires Ranked()
      reads Repr
      decreases Repr
      ensures gamePoints <= r
      ensures forall v :: v in r ==> v in Repr
    {
      gamePoints + (set e, v | e in exclusions && v in e.PointsInSubtree() :: v)
    }

    /** A tree with an open region still has a vertex with a free end somewhere. */
    lemma {:induction false} OpenTreeHasFreeVertex()
      requires Ranked() && HasOpen()
      ensures exists v :: v in PointsInSubtree() && v.numPaths < 3
      decreases Repr
    {
      if SumOpen(gamePoints) > 1 {
        SumOpenPositive(gamePoints);
      } else {
        var e :| e in exclusions && e.HasOpen();
        e.OpenTreeHasFreeVertex();
        var v :| v in e.PointsInSubtree() && v.numPaths < 3;
        assert v in PointsInSubtree();
      }
    }

    /** `is_point_in_polygon`: strictly inside the box, and the winding loop over the border says inside. */
    predicate IsPointInPolygon(point: Point, winding: (Region, Point) -> bool)
      reads this
      ensures IsPointInPolygon(point, winding) ==> InsideClosedBox(point, boundingBox) && winding(this, point)
      ensures boundingBox.maxPoint.x <= boundingBox.minPoint.x || boundingBox.maxPoint.y <= boundingBox.minPoint.y ==>
                !IsPointInPolygon(point, winding)
    {
      IsInsideBox(point, boundingBox) && winding(this, point)
    }

    /**
     * `is_point_in_region`: a point inside one of the exclusions is not in
     * this region. The exclusions are consulted unless the call comes from a
     * parent (`inChild`) and this region still holds game vertices.
     */
    predicate IsPointInRegion(point: Point, inChild: bool, winding: (Region, Point) -> bool)
      requires Ranked()
      reads Repr
      decreases Repr
      ensures IsPointInRegion(point, inChild, winding) ==> IsPointInPolygon(point, winding)
      ensures exclusions == {} ==> (IsPointInRegion(point, inChild, winding) <==> IsPointInPolygon(point, winding))
      ensures inChild && gamePoints != {} ==>
                (IsPointInRegion(point, inChild, winding) <==> IsPointInPolygon(point, winding))
      ensures (!inChild || gamePoints == {}) && (exists e :: e in exclusions && e.IsPointInRegion(point, true, winding)) ==>
                !IsPointInRegion(point, inChild, winding)
    {
      IsInsideBox(point, boundingBox)
      && (if (!inChild || gamePoints == {}) && (exists e :: e in exclusions && e.IsPointInRegion(point, true, winding))
          then false
          else winding(this, point))
    }

    /** Some region of this subtree holds the point: inside every box on the way down, and claimed by a non-empty region. */
    ghost predicate Locates(point: Point, winding: (Region, Point) -> bool)
      requires Ranked()
      reads Repr
      decreases Repr
    {
      IsInsideBox(point, boundingBox)
      && ((exists e :: e in exclusions && e.Locates(point, winding))
          || (gamePoints != {} && winding(this, point)))
    }

    /**
     * `find_region`: the exclusions are tried before this region; a container
     * (no game vertices) never answers for itself.
     */
    method FindRegion(point: Point, winding: (Region, Point) -> bool) returns (r: Region?)
      requires Ranked()
      decreases Repr
      ensures r == null <==> !Locates(point, winding)
      ensures r != null ==> r in Repr && r.gamePoints != {} && r.IsPointInPolygon(point, winding)
      ensures r == this ==> forall e :: e in exclusions ==> !e.Locates(point, winding)
      ensures r != null && r != this ==> exists e :: e in exclusions && r in e.Repr
      ensures gamePoints == {} ==> r != this
    {
      if !IsInsideBox(point, boundingBox) {
        return null;
      }
      var rest := exclusions;
      while rest != {}
        invariant rest <= exclusions
        invariant forall e :: e in exclusions - rest ==> !e.Locates(point, winding)
        decreases rest
      {
        var exclusion :| exclusion in rest;
        var inSubregion := exclusion.FindRegion(point, winding);
        if inSubregion != null {
          return inSubregion;
        }
        rest := rest - {exclusion};
      }
      if gamePoints == {} {
        return null;
      }
      if winding(this, point) {
        return this;
      }
      return null;
    }

    /**
     * `detect_cycles`: the faces found from `p` (`faces`, as `find_faces`
     * returns them), and of those the new cycles.
     */
    method DetectCycles(p: Vertex, angleLess: (Path, Path, Path, Vertex) -> bool)
      returns (newCycles: seq<seq<Path>>, faces: seq<seq<Path>>)
      requires WellFormed(edgeMap)
      requires p.index.Some? && p.index.value in edgeMap && edgeMap[p.index.value] != {}
      requires forall q :: q in edgeMap[p.index.value] ==> EndAt(q, p)
      ensures forall c :: c in faces ==> NoRepeats(c) && (c == [] || ClosedWalk(c))
      ensures forall c, q :: c in faces && q in c ==> q in AllPaths(edgeMap)
      ensures forall c :: c in newCycles <==> c in faces && IsNewHere(c)
    {
      var found;
      faces, found := FindFaces(p, edgeMap, angleLess);
      newCycles := SelectNewCycles(faces);
    }

    /** Not empty, and a path set different from this region's cycle and from every exclusion's cycle. */
    predicate IsNewHere(c: seq<Path>)
      reads this, exclusions
    {
      c != [] && Elements(c) != Elements(cycle)
      && forall e :: e in exclusions ==> Elements(c) != Elements(e.cycle)
    }

    /**
     * The filtering half of `detect_cycles`: the existing cycles are this
     * region's and its exclusions', and a cycle is kept when it is new.
     */
    method SelectNewCycles(cycles: seq<seq<Path>>) returns (newCycles: seq<seq<Path>>)
      ensures forall c :: c in newCycles <==> c in cycles && IsNewHere(c)
    {
      ghost var exclusionCycles := set e | e in exclusions :: e.cycle;
      var existingCycles := [cycle];
      var rest := exclusions;
      while rest != {}
        invariant rest <= exclusions
        invariant existingCycles != [] && existingCycles[0] == cycle
        invariant forall e :: e in exclusions - rest ==> e.cycle in existingCycles
        invariant forall j :: 0 < j < |existingCycles| ==> existingCycles[j] in exclusionCycles
        decreases rest
      {
        var exclusion :| exclusion in rest;
        existingCycles := existingCycles + [exclusion.cycle];
        rest := rest - {exclusion};
      }
      newCycles := FilterNewCycles(cycles, existingCycles);
      KeepNewMember(cycles, existingCycles);
      forall c | c in cycles
        ensures IsNewCycle(c, existingCycles) <==> IsNewHere(c)
      {
        if IsNewCycle(c, existingCycles) {
          forall e | e in exclusions
            ensures Elements(c) != Elements(e.cycle)
          {
            var j :| 0 <= j < |existingCycles| && existingCycles[j] == e.cycle;
          }
        }
        if IsNewHere(c) {
          forall j | 0 <= j < |existingCycles|
            ensures Elements(c) != Elements(existingCycles[j])
          {
            if j > 0 {
              var e :| e in exclusions && e.cycle == existingCycles[j];
            }
          }
        }
      }
    }

    /**
     * The input guard of `update_region_tree` and its first step. An empty list
     * or one longer than two raises before anything changes; otherwise the
     * paths and the vertex are added, and a one-element list then fails when
     * the second path is read. The restructuring that follows is not modelled.
     */
    method UpdateRegionTree(paths: seq<Path>, midPoint: Vertex) returns (outcome: Outcome)
      requires 1 <= |paths| <= 2 ==> forall i :: 0 <= i < |paths| ==> Indexed(paths[i])
      modifies this`edgeMap, this`gamePoints, midPoint`regions
      ensures outcome == RaisedBeforeUpdate <==> |paths| == 0 || |paths| > 2
      ensures outcome == FailedAfterUpdate <==> |paths| == 1
      ensures outcome == RaisedBeforeUpdate ==>
                edgeMap == old(edgeMap) && gamePoints == old(gamePoints) && midPoint.regions == old(midPoint.regions)
      ensures outcome != RaisedBeforeUpdate ==>
                edgeMap == AddPaths(old(edgeMap), paths) && gamePoints == old(gamePoints) + {midPoint}
                && midPoint.regions == old(midPoint.regions) + {this}
    {
      if |paths| > 2 || |paths| == 0 {
        return RaisedBeforeUpdate;
      }
      Update(paths, midPoint);
      if |paths| < 2 {
        return FailedAfterUpdate;
      }
      return Continues;
    }

    /** `add_edges`, one vertex: copy the paths listed there whose other end is in `scope`. */
    method AddEdgesAt(r: Region, pt: Vertex, scope: set<Vertex>)
      requires r != this
      requires pt.index.Some? && pt.index.value in r.edgeMap
      requires forall p :: p in r.edgeMap[pt.index.value] ==> Indexed(p)
      modifies this`edgeMap
      ensures AddedListing(edgeMap, old(edgeMap), ClosedAt(r, pt, scope))
    {
      var paths := r.edgeMap[pt.index.value];
      var rest := paths;
      ghost var added: set<Path> := {};
      while rest != {}
        invariant rest <= paths
        invariant added == set p | p in paths - rest && ClosesIn(p, pt, scope)
        invariant AddedListing(edgeMap, old(edgeMap), added)
        decreases rest
      {
        var path :| path in rest;
        if ClosesIn(path, pt, scope) {
          ghost var before := edgeMap;
          UpdateEdgeMap(path);
          AddedListingSingle(before, path);
          AddedListingCompose(old(edgeMap), before, edgeMap, added, {path});
          added := added + {path};
        }
        rest := rest - {path};
      }
    }

    /** `add_edges`, one region: the paths of `r` running between two of its border vertices. */
    method AddEdgesOf(r: Region)
      requires r != this && EdgesReady(r)
      modifies this`edgeMap
      ensures AddedListing(edgeMap, old(edgeMap), ClosedPaths(r))
    {
      var outerSet: set<Vertex>;
      if r.gamePoints != {} {
        outerSet := r.GetOuterSet();
      } else {
        outerSet := {};
      }
      var rest := outerSet;
      ghost var done: set<Vertex> := {};
      ClosedOverEmpty(r, outerSet);
      while rest != {}
        invariant rest <= outerSet && done == outerSet - rest
        invariant AddedListing(edgeMap, old(edgeMap), ClosedOver(r, done, outerSet))
        invariant EdgesReady(r)
        decreases rest
      {
        var point :| point in rest;
        assert point in r.OuterSet();
        ghost var before := edgeMap;
        AddEdgesAt(r, point, outerSet);
        AddedListingCompose(old(edgeMap), before, edgeMap, ClosedOver(r, done, outerSet), ClosedAt(r, point, outerSet));
        ClosedOverStep(r, done, point, outerSet);
        TakeOne(outerSet, rest, point);
        rest := rest - {point};
        done := done + {point};
      }
    }

    /** `add_edges`: the closed paths of every region in `regions` enter this region's map. */
    method AddEdges(regions: set<Region>)
      requires this !in regions
      requires forall r :: r in regions ==> EdgesReady(r)
      modifies this`edgeMap
      ensures AddedListing(edgeMap, old(edgeMap), AddedEdges(regions))
    {
      var rest := regions;
      ghost var done: set<Region> := {};
      AddedEdgesEmpty();
      while rest != {}
        invariant rest <= regions && done == regions - rest
        invariant AddedListing(edgeMap, old(edgeMap), AddedEdges(done))
        decreases rest
      {
        var region :| region in rest;
        AddEdgesNext(region, done, old(edgeMap));
        TakeOne(regions, rest, region);
        rest := rest - {region};
        done := done + {region};
      }
    }

    /** One pass of the loop of `add_edges`: the closed paths of `region` join those of the regions `done`. */
    method AddEdgesNext(region: Region, ghost done: set<Region>, ghost m0: EdgeMap)
      requires region != this && region !in done && this !in done && EdgesReady(region)
      requires AddedListing(edgeMap, m0, AddedEdges(done))
      modifies this`edgeMap
      ensures AddedListing(edgeMap, m0, AddedEdges(done + {region}))
    {
      ghost var before := edgeMap;
      ghost var soFar := AddedEdges(done);
      ghost var closed := ClosedPaths(region);
      AddedEdgesStep(done, region);
      ghost var next := AddedEdges(done + {region});
      AddEdgesOf(region);
      assert closed == ClosedPaths(region) && next == AddedEdges(done + {region});
      AddedListingCompose(m0, before, edgeMap, soFar, closed);
    }

    /** `remove_edges`, one region: its cycle's paths that are not on its parent's cycle leave this region's map. */
    method RemoveEdgesOf(r: Region)
      requires r.parent != null
      requires forall p :: p in r.cycle ==> Indexed(p)
      modifies this`edgeMap
      ensures RemovedListing(edgeMap, old(edgeMap), OwnCyclePaths(r))
    {
      var border := Elements(r.parent.cycle);
      ghost var removed: set<Path> := {};
      for i := 0 to |r.cycle|
        invariant removed == set p | p in r.cycle[..i] && p !in border
        invariant RemovedListing(edgeMap, old(edgeMap), removed)
      {
        assert r.cycle[..i + 1] == r.cycle[..i] + [r.cycle[i]];
        var path := r.cycle[i];
        if path !in border {
          ghost var before := edgeMap;
          RemoveFromEdgeMap(path);
          RemovedListingSingle(before, path);
          RemovedListingCompose(old(edgeMap), before, edgeMap, removed, {path});
          removed := removed + {path};
        }
      }
      assert r.cycle[..|r.cycle|] == r.cycle;
    }

    /** `remove_edges`: for every region with a parent, its own cycle paths leave this region's map. */
    method RemoveEdges(regions: set<Region>)
      requires forall r, p :: r in regions && r.parent != null && p in r.cycle ==> Indexed(p)
      modifies this`edgeMap
      ensures RemovedListing(edgeMap, old(edgeMap), RemovedEdges(regions))
    {
      var rest := regions;
      ghost var done: set<Region> := {};
      RemovedEdgesEmpty();
      while rest != {}
        invariant rest <= regions && done == regions - rest
        invariant RemovedListing(edgeMap, old(edgeMap), RemovedEdges(done))
        decreases rest
      {
        var region :| region in rest;
        ghost var before := edgeMap;
        if region.parent != null {
          RemoveEdgesOf(region);
          RemovedListingCompose(old(edgeMap), before, edgeMap, RemovedEdges(done), OwnCyclePaths(region));
        } else {
          RemovedListingCompose(old(edgeMap), before, edgeMap, RemovedEdges(done), {});
        }
        RemovedEdgesStep(done, region);
        TakeOne(regions, rest, region);
        rest := rest - {region};
        done := done + {region};
      }
    }

    /** The loop over the game vertices in `insert_rotation`: stop at the first vertex outside `newRegion`, counting those on `borderSet`. */
    method CountInside(points: set<Vertex>, borderSet: set<Vertex>, newRegion: Region, winding: (Region, Point) -> bool)
      returns (allIn: bool, onBorder: nat)
      ensures allIn <==> forall gp :: gp in points ==> InsideOrOwn(gp, newRegion, winding)
      ensures allIn ==> onBorder == |points * borderSet|
    {
      allIn, onBorder := true, 0;
      var rest := points;
      ghost var seen: set<Vertex> := {};
      while rest != {}
        invariant rest <= points && seen == points - rest
        invariant onBorder == |seen * borderSet|
        invariant forall gp :: gp in seen ==> InsideOrOwn(gp, newRegion, winding)
        invariant allIn
        decreases rest
      {
        var gamePoint :| gamePoint in rest;
        CountStep(seen, gamePoint, borderSet);
        if gamePoint in borderSet {
          onBorder := onBorder + 1;
        }
        if !(newRegion.IsPointInPolygon(gamePoint.Pos(), winding) || gamePoint in newRegion.gamePoints) {
          allIn := false;
          break;
        }
        TakeOne(points, rest, gamePoint);
        rest := rest - {gamePoint};
        seen := seen + {gamePoint};
      }
      assert allIn ==> seen == points;
    }

    /** `insert_rotation`'s first test on one exclusion: are its deciding vertices all inside the new region, and how many lie on its border. */
    method CheckPoints(exclusion: Region, newRegion: Region, winding: (Region, Point) -> bool)
      returns (allIn: bool, onBorder: nat)
      ensures allIn <==> AllPointsInside(exclusion, newRegion, winding)
      ensures allIn ==> onBorder == OnBorder(exclusion, newRegion)
    {
      var borderSet := newRegion.GetOuterSet();
      var points: set<Vertex>;
      if exclusion.gamePoints != {} {
        points := exclusion.gamePoints;
      } else {
        points := exclusion.GetOuterSet();
      }
      assert points == DecidingPoints(exclusion);
      allIn, onBorder := CountInside(points, borderSet, newRegion, winding);
    }

    /** The loop over the exclusion's cycle in `insert_rotation`: every path not shared with the new region has its midpoint inside it. */
    method CheckPaths(exclusion: Region, newRegion: Region, winding: (Region, Point) -> bool) returns (allPaths: bool)
      requires newRegion.Ranked()
      requires forall p :: p in exclusion.cycle && p !in newRegion.cycle ==> |p.beziers| > 0
      ensures allPaths <==> AllPathsInside(exclusion, newRegion, winding)
    {
      var exclusionCycle := Elements(exclusion.cycle);
      allPaths := true;
      var rest := exclusionCycle;
      while rest != {}
        invariant rest <= exclusionCycle
        invariant forall p :: p in exclusionCycle - rest && p !in newRegion.cycle ==>
                    newRegion.IsPointInRegion(MidPoint(p), false, winding)
        decreases rest
      {
        var path :| path in rest;
        if path !in newRegion.cycle {
          var pathMidPoint := MidPoint(path);
          if !newRegion.IsPointInRegion(pathMidPoint, false, winding) {
            allPaths := false;
            break;
          }
        }
        rest := rest - {path};
      }
    }

    /** The body of the selection loop of `insert_rotation` for one exclusion. */
    method Decide(exclusion: Region, newRegion: Region, winding: (Region, Point) -> bool)
      returns (rotates: bool, splits: bool)
      requires newRegion.Ranked()
      requires AllPointsInside(exclusion, newRegion, winding) && OnBorder(exclusion, newRegion) > 1 ==>
                 forall p :: p in exclusion.cycle && p !in newRegion.cycle ==> |p.beziers| > 0
      ensures rotates == Rotates(exclusion, newRegion, winding)
      ensures splits == Splits(exclusion, newRegion, winding)
    {
      rotates, splits := false, false;
      var allIn, onBorder := CheckPoints(exclusion, newRegion, winding);
      if allIn && onBorder < 1 {
        rotates := true;
      } else if allIn && onBorder > 1 {
        var allPaths := CheckPaths(exclusion, newRegion, winding);
        if allPaths {
          rotates, splits := true, true;
        }
      }
    }

    /**
     * One pass of the selection loop of `insert_rotation`: the exclusion joins
     * the rotation when it moves, and a second split marks the new region for
     * clearing. `splits` are the exclusions that split the new region so far.
     */
    method ClassifyOne(exclusion: Region, newRegion: Region, winding: (Region, Point) -> bool,
                       ghost splits: set<Region>, rotation: set<Region>, splitted: bool, clearRegion: bool)
      returns (rotation': set<Region>, splitted': bool, clearRegion': bool)
      requires newRegion.Ranked() && exclusion !in splits && SplitReady(exclusion, newRegion, winding)
      requires (splitted <==> splits != {}) && (clearRegion <==> |splits| >= 2)
      ensures newRegion.Ranked()
      ensures rotation' == rotation + (if Rotates(exclusion, newRegion, winding) then {exclusion} else {})
      ensures var splits' := splits + (if Splits(exclusion, newRegion, winding) then {exclusion} else {});
                (splitted' <==> splits' != {}) && (clearRegion' <==> |splits'| >= 2)
    {
      var rotates, split := Decide(exclusion, newRegion, winding);
      var tally := Tally(exclusion, rotates, split, rotation, splitted, clearRegion, splits);
      rotation', splitted', clearRegion' := tally.0, tally.1, tally.2;
    }

    /**
     * The bookkeeping of one pass of the selection loop, once the exclusion is
     * decided: the new rotation set, and whether one and whether two
     * exclusions split the new region, given that `splits` split it before.
     */
    function Tally(exclusion: Region, rotates: bool, split: bool, rotation: set<Region>,
                   splitted: bool, clearRegion: bool, ghost splits: set<Region>): (r: (set<Region>, bool, bool))
      requires exclusion !in splits
      requires (splitted <==> splits != {}) && (clearRegion <==> |splits| >= 2)
      ensures r.0 == rotation + (if rotates then {exclusion} else {})
      ensures r.1 <==> splits + (if split then {exclusion} else {}) != {}
      ensures r.2 <==> |splits + (if split then {exclusion} else {})| >= 2
    {
      if split then
        assert |splits + {exclusion}| == |splits| + 1;
        (if rotates then rotation + {exclusion} else rotation, true, splitted)
      else
        assert splits + {} == splits;
        (if rotates then rotation + {exclusion} else rotation, splitted, clearRegion)
    }

    /**
     * The selection loop of `insert_rotation`: which exclusions move below the
     * new region, whether one of them splits it, and whether a second one does.
     */
    method ClassifyExclusions(newRegion: Region, winding: (Region, Point) -> bool)
      returns (rotation: set<Region>, splitted: bool, clearRegion: bool)
      requires newRegion.Ranked()
      requires forall e :: e in exclusions ==> SplitReady(e, newRegion, winding)
      ensures rotation == RotatedAmong(exclusions, newRegion, winding)
      ensures splitted <==> SplitAmong(exclusions, newRegion, winding) != {}
      ensures clearRegion <==> |SplitAmong(exclusions, newRegion, winding)| >= 2
    {
      rotation, splitted, clearRegion := {}, false, false;
      var rest := exclusions;
      ghost var all := exclusions;
      ghost var done: set<Region> := {};
      AmongEmpty(newRegion, winding);
      while rest != {}
        invariant rest <= all && done == all - rest
        invariant rotation == RotatedAmong(done, newRegion, winding)
        invariant splitted <==> SplitAmong(done, newRegion, winding) != {}
        invariant clearRegion <==> |SplitAmong(done, newRegion, winding)| >= 2
        decreases rest
      {
        var exclusion :| exclusion in rest;
        ghost var rotated := RotatedAmong(done, newRegion, winding);
        ghost var splits := SplitAmong(done, newRegion, winding);
        label BeforeOne:
        rotation, splitted, clearRegion :=
          ClassifyOne(exclusion, newRegion, winding, splits, rotation, splitted, clearRegion);
        SelectionUnchanged@BeforeOne(Selection(newRegion, winding, done, rotated, splits));
        AmongStep(done, exclusion, newRegion, winding, Rotates(exclusion, newRegion, winding), Splits(exclusion, newRegion, winding));
        TakeOne(all, rest, exclusion);
        rest := rest - {exclusion};
        done := done + {exclusion};
      }
      assert done == all;
    }

    /** Every region of `regions` gets `p` as its parent. */
    method SetParent(regions: set<Region>, p: Region)
      modifies regions`parent
      ensures forall r :: r in regions ==> r.parent == p
    {
      var rest := regions;
      while rest != {}
        invariant rest <= regions
        invariant forall r :: r in regions - rest ==> r.parent == p
        decreases rest
      {
        var region :| region in rest;
        region.parent := p;
        rest := rest - {region};
      }
    }

    /**
     * `insert_rotation`: the new region becomes an exclusion of this region and
     * takes over the exclusions that lie inside it. Their closed paths move to
     * the new region's map, their own cycle paths leave this region's map, and
     * a new region split by two of them is cleared into a container.
     */
    method InsertRotation(newRegion: Region, winding: (Region, Point) -> bool) returns (newRegionSplitted: bool)
      requires newRegion.Ranked() && newRegion != this && newRegion !in exclusions && this !in exclusions
      requires forall e :: e in exclusions ==> SplitReady(e, newRegion, winding)
      requires forall e :: e in RotatedAmong(exclusions, newRegion, winding) ==> EdgesReady(e) && CycleIndexed(e)
      modifies this`exclusions, this`edgeMap, exclusions`parent
      modifies newRegion`exclusions, newRegion`edgeMap, newRegion`gamePoints, newRegion`openConnections
      modifies newRegion.gamePoints`regions
      ensures newRegion.exclusions == old(RotatedAmong(exclusions, newRegion, winding))
      ensures exclusions == old(exclusions) - newRegion.exclusions + {newRegion}
      ensures forall r :: r in newRegion.exclusions ==> r.parent == newRegion
      ensures forall r :: r in old(exclusions) - newRegion.exclusions ==> r.parent == old(r.parent)
      ensures newRegionSplitted <==> old(SplitAmong(exclusions, newRegion, winding)) != {}
      ensures RemovedListing(edgeMap, old(edgeMap), RemovedEdges(newRegion.exclusions))
      ensures forall r :: r in old(exclusions) <==> (r in exclusions && r != newRegion) || r in newRegion.exclusions
      ensures forall r :: r in newRegion.exclusions ==> r !in exclusions
      ensures old(|SplitAmong(exclusions, newRegion, winding)|) >= 2 ==>
                newRegion.gamePoints == {} && newRegion.edgeMap == map[] && newRegion.openConnections == 0
      ensures old(|SplitAmong(exclusions, newRegion, winding)|) >= 2 ==>
                forall v :: v in old(newRegion.gamePoints) ==> v.regions == old(v.regions) - {newRegion}
      ensures old(|SplitAmong(exclusions, newRegion, winding)|) < 2 ==>
                AddedListing(newRegion.edgeMap, old(newRegion.edgeMap), AddedEdges(newRegion.exclusions))
      ensures old(|SplitAmong(exclusions, newRegion, winding)|) < 2 ==>
                newRegion.gamePoints == old(newRegion.gamePoints) && newRegion.openConnections == old(newRegion.openConnections)
                && forall v :: v in old(newRegion.gamePoints) ==> v.regions == old(v.regions)
    {
      ghost var rotated := RotatedAmong(exclusions, newRegion, winding);
      ghost var splitting := SplitAmong(exclusions, newRegion, winding);
      var rotationRegions, splitted, clearRegion := ClassifyExclusions(newRegion, winding);
      assert rotationRegions == rotated && (splitted <==> splitting != {}) && (clearRegion <==> |splitting| >= 2);
      newRegionSplitted := splitted;
      Reassign(newRegion, rotationRegions);
      MoveEdges(newRegion, rotationRegions, clearRegion);
    }

    /** The tree update of `insert_rotation`: the rotated exclusions move below the new region. */
    method Reassign(newRegion: Region, rotation: set<Region>)
      requires newRegion != this && newRegion !in exclusions && rotation <= exclusions
      requires forall r :: r in rotation ==> EdgesReady(r) && CycleIndexed(r)
      modifies this`exclusions, newRegion`exclusions, rotation`parent
      ensures forall r :: r in rotation ==> EdgesReady(r) && CycleIndexed(r)
      ensures newRegion.exclusions == rotation
      ensures exclusions == old(exclusions) - rotation + {newRegion}
      ensures forall r :: r in rotation ==> r.parent == newRegion
    {
      exclusions := (exclusions - rotation) + {newRegion};
      newRegion.exclusions := rotation;
      SetParent(rotation, newRegion);
    }

    /**
     * The edge-map update of `insert_rotation`: the closed paths of the rotated
     * exclusions join the new region's map, their own cycle paths leave this
     * region's map, and a new region split twice is cleared.
     */
    method MoveEdges(newRegion: Region, rotation: set<Region>, clearRegion: bool)
      requires newRegion != this && this !in rotation && newRegion !in rotation
      requires forall r :: r in rotation ==> EdgesReady(r) && CycleIndexed(r)
      modifies this`edgeMap, newRegion`edgeMap, newRegion`gamePoints, newRegion`openConnections
      modifies newRegion.gamePoints`regions
      ensures RemovedListing(edgeMap, old(edgeMap), RemovedEdges(rotation))
      ensures clearRegion ==> newRegion.gamePoints == {} && newRegion.edgeMap == map[] && newRegion.openConnections == 0
      ensures clearRegion ==> forall v :: v in old(newRegion.gamePoints) ==> v.regions == old(v.regions) - {newRegion}
      ensures !clearRegion ==> AddedListing(newRegion.edgeMap, old(newRegion.edgeMap), AddedEdges(rotation))
      ensures !clearRegion ==>
                newRegion.gamePoints == old(newRegion.gamePoints) && newRegion.openConnections == old(newRegion.openConnections)
                && forall v :: v in old(newRegion.gamePoints) ==> v.regions == old(v.regions)
    {
      newRegion.AddEdges(rotation);
      RemoveEdges(rotation);
      if clearRegion {
        label BeforeClear:
        newRegion.Clear();
        RemovedEdgesUnchanged@BeforeClear(rotation);
      }
    }
  }

  /** A cycle is new when it is not empty and its set of paths matches no existing cycle's set. */
  predicate IsNewCycle(c: seq<Path>, existing: seq<seq<Path>>)
  {
    c != [] && forall j :: 0 <= j < |existing| ==> Elements(c) != Elements(existing[j])
  }

  /** The new cycles among `cycles`, in order. */
  function KeepNew(cycles: seq<seq<Path>>, existing: seq<seq<Path>>): seq<seq<Path>>
  {
    if |cycles| == 0 then []
    else if IsNewCycle(cycles[0], existing) then [cycles[0]] + KeepNew(cycles[1..], existing)
    else KeepNew(cycles[1..], existing)
  }

  lemma {:induction false} KeepNewMember(cycles: seq<seq<Path>>, existing: seq<seq<Path>>)
    ensures forall c :: c in KeepNew(cycles, existing) <==> c in cycles && IsNewCycle(c, existing)
  {
    if |cycles| > 0 {
      KeepNewMember(cycles[1..], existing);
      assert forall c :: c in cycles <==> c == cycles[0] || c in cycles[1..];
    }
  }

  /** The filtering loop of `detect_cycles`; symmetric difference empty means equal sets. */
  method FilterNewCycles(cycles: seq<seq<Path>>, existing: seq<seq<Path>>) returns (newCycles: seq<seq<Path>>)
    ensures newCycles == KeepNew(cycles, existing)
  {
    newCycles := [];
    for k := 0 to |cycles|
      invariant newCycles + KeepNew(cycles[k..], existing) == KeepNew(cycles, existing)
    {
      var c := cycles[k];
      assert cycles[k..][1..] == cycles[k + 1..];
      var newCycle := true;
      if c == [] {
        continue;
      }
      for j := 0 to |existing|
        invariant newCycle <==> forall m :: 0 <= m < j ==> Elements(c) != Elements(existing[m])
      {
        if Elements(c) == Elements(existing[j]) {
          newCycle := false;
        }
      }
      if newCycle {
        newCycles := newCycles + [c];
      }
    }
  }

  /** `remove_region`: the link between the vertex and the region is dropped on both sides. */
  method RemoveRegion(gamePoint: Vertex, region: Region)
    modifies gamePoint`regions, region`gamePoints
    ensures gamePoint.regions == old(gamePoint.regions) - {region}
    ensures region.gamePoints == old(region.gamePoints) - {gamePoint}
  {
    if |gamePoint.regions| > 0 {
      gamePoint.regions := gamePoint.regions - {region};
    }
    if gamePoint in region.gamePoints {
      region.gamePoints := region.gamePoints - {gamePoint};
    }
  }

  /**
   * `add_replace_region`: a vertex with room takes the region; a full vertex
   * gives up the region's parent for it. The source reads the parent's game
   * vertices, so a full vertex needs a region with a parent.
   */
  method AddReplaceRegion(gamePoint: Vertex, region: Region)
    requires Full(gamePoint) ==> region.parent != null
    modifies gamePoint`regions, (if region.parent == null then {} else {region.parent})`gamePoints
    ensures !old(Full(gamePoint)) ==> gamePoint.regions == old(gamePoint.regions) + {region}
    ensures old(Full(gamePoint)) ==>
              gamePoint.regions == old(gamePoint.regions) - {old(region.parent)} + {region}
              && old(region.parent).gamePoints == old(region.parent.gamePoints) - {gamePoint}
    ensures !old(Full(gamePoint)) && region.parent != null ==> region.parent.gamePoints == old(region.parent.gamePoints)
    ensures old(|gamePoint.regions| <= Capacity(gamePoint))
            && (old(Full(gamePoint)) ==> old(region.parent) in old(gamePoint.regions)) ==>
              |gamePoint.regions| <= Capacity(gamePoint)
  {
    if !Full(gamePoint) {
      gamePoint.regions := gamePoint.regions + {region};
    } else {
      RemoveRegion(gamePoint, region.parent);
      gamePoint.regions := gamePoint.regions + {region};
    }
  }

  // ---------------------------------------------------------------------------
  // What `insert_rotation` decides for one exclusion.
  // ---------------------------------------------------------------------------

  /** The vertices that decide where an exclusion goes: its game vertices, or its border vertices when it has none. */
  function DecidingPoints(e: Region): set<Vertex>
    reads e
  {
    if e.gamePoints != {} then e.gamePoints else e.OuterSet()
  }

  /** The vertex lies in the new region's polygon or is one of its game vertices. */
  predicate InsideOrOwn(gp: Vertex, newRegion: Region, winding: (Region, Point) -> bool)
    reads newRegion
  {
    newRegion.IsPointInPolygon(gp.Pos(), winding) || gp in newRegion.gamePoints
  }

  /** Every deciding vertex of the exclusion is inside the new region or one of its game vertices. */
  predicate AllPointsInside(e: Region, newRegion: Region, winding: (Region, Point) -> bool)
    reads e, newRegion
  {
    forall gp :: gp in DecidingPoints(e) ==> InsideOrOwn(gp, newRegion, winding)
  }

  /** How many deciding vertices lie on the new region's border. */
  function OnBorder(e: Region, newRegion: Region): nat
    reads e, newRegion
  {
    |DecidingPoints(e) * newRegion.OuterSet()|
  }

  /** `Path.calculate_mid_point`: the middle curve evaluated at one half. */
  function MidPoint(p: Path): (r: Point)
    requires |p.beziers| > 0
    ensures r == Split(p.beziers[|p.beziers| / 2], 0.5).0.end == Split(p.beziers[|p.beziers| / 2], 0.5).1.start
    ensures |p.beziers| == 1 ==> r == Evaluate(p.beziers[0], 0.5)
  {
    Evaluate(p.beziers[|p.beziers| / 2], 0.5)
  }

  /** Every path of the exclusion's cycle is on the new region's cycle or has its midpoint inside the new region. */
  predicate AllPathsInside(e: Region, newRegion: Region, winding: (Region, Point) -> bool)
    requires newRegion.Ranked()
    reads e, newRegion, newRegion.Repr
  {
    forall p :: p in e.cycle && p !in newRegion.cycle ==>
      |p.beziers| > 0 && newRegion.IsPointInRegion(MidPoint(p), false, winding)
  }

  /** The exclusion touches the new region's border more than once and lies inside it: it splits the new region. */
  predicate Splits(e: Region, newRegion: Region, winding: (Region, Point) -> bool)
    requires newRegion.Ranked()
    reads e, newRegion, newRegion.Repr
  {
    AllPointsInside(e, newRegion, winding) && OnBorder(e, newRegion) > 1 && AllPathsInside(e, newRegion, winding)
  }

  /** The exclusion moves below the new region: inside it and off its border, or splitting it. */
  predicate Rotates(e: Region, newRegion: Region, winding: (Region, Point) -> bool)
    requires newRegion.Ranked()
    reads e, newRegion, newRegion.Repr
  {
    AllPointsInside(e, newRegion, winding) && (OnBorder(e, newRegion) < 1 || Splits(e, newRegion, winding))
  }

  /** The midpoint test can be made on every path it would reach. */
  predicate SplitReady(e: Region, newRegion: Region, winding: (Region, Point) -> bool)
    reads e, newRegion
  {
    AllPointsInside(e, newRegion, winding) && OnBorder(e, newRegion) > 1 ==>
      forall p :: p in e.cycle && p !in newRegion.cycle ==> |p.beziers| > 0
  }

  /** The exclusions among `es` that move below the new region. */
  function RotatedAmong(es: set<Region>, newRegion: Region, winding: (Region, Point) -> bool): set<Region>
    requires newRegion.Ranked()
    reads es, newRegion, newRegion.Repr
  {
    set e | e in es && Rotates(e, newRegion, winding)
  }

  /** The exclusions among `es` that split the new region. */
  function SplitAmong(es: set<Region>, newRegion: Region, winding: (Region, Point) -> bool): set<Region>
    requires newRegion.Ranked()
    reads es, newRegion, newRegion.Repr
  {
    set e | e in es && Splits(e, newRegion, winding)
  }

  /** What the selection loop has decided so far: the exclusions looked at, and those that rotate and split. */
  datatype Selection = Selection(newRegion: Region, winding: (Region, Point) -> bool,
                                 done: set<Region>, rotated: set<Region>, splits: set<Region>)

  /** A call that changes nothing the selection reads leaves its decisions as they were. */
  twostate lemma SelectionUnchanged(sel: Selection)
    requires old(sel.newRegion.Ranked()) && unchanged(sel.done) && unchanged(sel.newRegion) && unchanged(sel.newRegion.Repr)
    requires sel.rotated == old(RotatedAmong(sel.done, sel.newRegion, sel.winding))
    requires sel.splits == old(SplitAmong(sel.done, sel.newRegion, sel.winding))
    ensures sel.newRegion.Ranked()
    ensures sel.rotated == RotatedAmong(sel.done, sel.newRegion, sel.winding)
    ensures sel.splits == SplitAmong(sel.done, sel.newRegion, sel.winding)
  {
  }

  lemma AmongEmpty(newRegion: Region, winding: (Region, Point) -> bool)
    requires newRegion.Ranked()
    ensures RotatedAmong({}, newRegion, winding) == {} && SplitAmong({}, newRegion, winding) == {}
  {
  }

  lemma AmongStep(done: set<Region>, x: Region, newRegion: Region, winding: (Region, Point) -> bool,
                  rotates: bool, splits: bool)
    requires newRegion.Ranked() && x !in done
    requires rotates == Rotates(x, newRegion, winding) && splits == Splits(x, newRegion, winding)
    ensures RotatedAmong(done + {x}, newRegion, winding) ==
              RotatedAmong(done, newRegion, winding) + (if rotates then {x} else {})
    ensures SplitAmong(done + {x}, newRegion, winding) ==
              SplitAmong(done, newRegion, winding) + (if splits then {x} else {})
    ensures x !in SplitAmong(done, newRegion, winding)
  {
  }

  // ---------------------------------------------------------------------------
  // What `add_edges` and `remove_edges` move.
  // ---------------------------------------------------------------------------

  /** The vertices `add_edges` looks at: the region's border vertices, or none when it has no game vertices. */
  function EdgeScope(r: Region): set<Vertex>
    reads r
  {
    if r.gamePoints != {} then r.OuterSet() else {}
  }

  /** Seen from `pt`, the other end of `p` is in `scope`. */
  predicate ClosesIn(p: Path, pt: Vertex, scope: set<Vertex>)
  {
    p.GetOtherPoint(pt).Some? && p.GetOtherPoint(pt).value in scope
  }

  /** The paths the region lists at `pt`. */
  function PathsAt(r: Region, pt: Vertex): set<Path>
    reads r
  {
    if pt.index.Some? && pt.index.value in r.edgeMap then r.edgeMap[pt.index.value] else {}
  }

  /** The paths listed at `pt` whose other end is in `scope`. */
  function ClosedAt(r: Region, pt: Vertex, scope: set<Vertex>): set<Path>
    reads r
  {
    set p | p in PathsAt(r, pt) && ClosesIn(p, pt, scope)
  }

  function ClosedOver(r: Region, pts: set<Vertex>, scope: set<Vertex>): set<Path>
    reads r
  {
    set pt, p | pt in pts && p in ClosedAt(r, pt, scope) :: p
  }

  /** The paths of `r` listed at one of its border vertices and ending at another. */
  function ClosedPaths(r: Region): set<Path>
    reads r
  {
    ClosedOver(r, EdgeScope(r), EdgeScope(r))
  }

  function AddedEdges(rs: set<Region>): set<Path>
    reads rs
  {
    set r, p | r in rs && p in ClosedPaths(r) :: p
  }

  /** What `remove_edges` moves depends only on the cycles and the parents. */
  twostate lemma RemovedEdgesUnchanged(rs: set<Region>)
    requires forall r :: r in rs ==> old(r.cycle) == r.cycle && old(r.parent) == r.parent
    requires forall r :: r in rs && r.parent != null ==> old(r.parent.cycle) == r.parent.cycle
    ensures old(RemovedEdges(rs)) == RemovedEdges(rs)
  {
  }

  /** The paths of the region's cycle that are not on its parent's cycle (none without a parent). */
  function OwnCyclePaths(r: Region): set<Path>
    reads r`cycle, r`parent, (if r.parent == null then {} else {r.parent})`cycle
  {
    if r.parent == null then {} else set p | p in r.cycle && p !in r.parent.cycle
  }

  function RemovedEdges(rs: set<Region>): set<Path>
    reads rs`cycle, rs`parent, (set r | r in rs && r.parent != null :: r.parent)`cycle
  {
    set r, p | r in rs && p in OwnCyclePaths(r) :: p
  }

  lemma ClosedOverEmpty(r: Region, scope: set<Vertex>)
    ensures ClosedOver(r, {}, scope) == {}
  {
  }

  lemma ClosedOverStep(r: Region, done: set<Vertex>, x: Vertex, scope: set<Vertex>)
    ensures ClosedOver(r, done + {x}, scope) == ClosedOver(r, done, scope) + ClosedAt(r, x, scope)
  {
  }

  lemma AddedEdgesEmpty()
    ensures AddedEdges({}) == {}
  {
  }

  lemma AddedEdgesStep(done: set<Region>, x: Region)
    ensures AddedEdges(done + {x}) == AddedEdges(done) + ClosedPaths(x)
  {
  }

  lemma RemovedEdgesEmpty()
    ensures RemovedEdges({}) == {}
  {
  }

  lemma RemovedEdgesStep(done: set<Region>, x: Region)
    ensures RemovedEdges(done + {x}) == RemovedEdges(done) + OwnCyclePaths(x)
  {
  }

  /** What `add_edges` reads of a region with game vertices: every border vertex indexed and listed, every listed path indexed. */
  predicate EdgesReady(r: Region)
    reads r`gamePoints, r`cycle, r`borderPoints, r`edgeMap
  {
    r.gamePoints != {} ==>
      forall pt :: pt in r.OuterSet() ==>
        pt.index.Some? && pt.index.value in r.edgeMap && forall p :: p in r.edgeMap[pt.index.value] ==> Indexed(p)
  }

  /** The paths of the region's cycle carry indices at both ends. */
  predicate CycleIndexed(r: Region)
    reads r`cycle
  {
    forall p :: p in r.cycle ==> Indexed(p)
  }

  /** `m` lists what `m0` lists plus every path of `added` under the indices of its ends. */
  ghost predicate AddedListing(m: EdgeMap, m0: EdgeMap, added: set<Path>)
  {
    (forall k, q | k in m && q in m[k] :: Has(m0, k, q) || (q in added && EndsAtIndex(q, k)))
    && (forall k, q | k in m0 && q in m0[k] :: Has(m, k, q))
    && (forall k, q | q in added && EndsAtIndex(q, k) :: Has(m, k, q))
    && (NoEmptySets(m0) ==> NoEmptySets(m))
  }

  /** `m` lists what `m0` lists except the paths of `removed` under the indices of their ends. */
  ghost predicate RemovedListing(m: EdgeMap, m0: EdgeMap, removed: set<Path>)
  {
    (forall k, q | k in m && q in m[k] :: Has(m0, k, q) && !(q in removed && EndsAtIndex(q, k)))
    && (forall k, q | k in m0 && q in m0[k] && !(q in removed && EndsAtIndex(q, k)) :: Has(m, k, q))
    && (NoEmptySets(m0) ==> NoEmptySets(m))
  }

  /** Moving one element from what is left to what is done keeps the two a partition of `all`. */
  lemma TakeOne<T>(all: set<T>, rest: set<T>, x: T)
    requires x in rest && rest <= all
    ensures rest - {x} <= all && (all - rest) + {x} == all - (rest - {x})
  {
  }

  /** Counting one more element of a set against `b`. */
  lemma CountStep<T>(seen: set<T>, x: T, b: set<T>)
    requires x !in seen
    ensures |(seen + {x}) * b| == |seen * b| + (if x in b then 1 else 0)
  {
    if x in b {
      assert (seen + {x}) * b == seen * b + {x};
    } else {
      assert (seen + {x}) * b == seen * b;
    }
  }

  lemma AddedListingSingle(m: EdgeMap, p: Path)
    requires Indexed(p)
    ensures AddedListing(AddPathTo(m, p), m, {p})
  {
  }

  lemma RemovedListingSingle(m: EdgeMap, p: Path)
    requires Indexed(p)
    ensures RemovedListing(RemovePathFrom(m, p), m, {p})
  {
  }

  lemma AddedListingCompose(m0: EdgeMap, m1: EdgeMap, m2: EdgeMap, s: set<Path>, t: set<Path>)
    requires AddedListing(m1, m0, s) && AddedListing(m2, m1, t)
    ensures AddedListing(m2, m0, s + t)
  {
  }

  lemma RemovedListingCompose(m0: EdgeMap, m1: EdgeMap, m2: EdgeMap, s: set<Path>, t: set<Path>)
    requires RemovedListing(m1, m0, s) && RemovedListing(m2, m1, t)
    ensures RemovedListing(m2, m0, s + t)
  {
    forall k, q | k in m2 && q in m2[k]
      ensures Has(m0, k, q) && !(q in s + t && EndsAtIndex(q, k))
    {
      assert Has(m1, k, q);
    }
  }
}
