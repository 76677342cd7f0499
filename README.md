# Sprouts: the bookkeeping of the game graph, in Dafny

Sprouts is played by drawing paths between vertices. Every path gets a new vertex at its middle. A vertex may take at most three path ends, and a new path must not cross any existing one. This project models the discrete core of the Python implementation, then states and proves what that core promises.

- **Points** (`point.dfy`, module `Points`): exact point arithmetic over `real`, and the game vertex. The vertex carries its path list and degree counter, the set of regions that claim it, and an index drawn from a process-wide id counter. That counter is an explicit `IdCounter` object.
- **Cubic Bézier helpers** (`cubic_bezier.py` → `CubicBezier`):
  - constructor defaults
  - linear and cubic evaluation
  - de Casteljau split, and split of a parameter interval
  - interval projection
  - bounding-box area
  - the three-way "close enough" test that stops Bézier clipping
- **Bounding box** (`BoundingBox`): the min/max scan over a point list, as written and corrected (see Findings), and the strict containment test.
- **Winding-number step** (`PointInPolygon`): one step of the point-in-polygon test, and that step folded over a run of ray crossings.
- **Paths** (`Paths`):
  - a click sequence becomes a chain of curves;
  - `add_path` cuts a move's chain in two at a fresh middle vertex and registers both halves;
  - the approximation is cached;
  - the endpoint guard of `point_touches_path`;
  - the filters applied to raw curve intersections (`__intersections`, `self_intersections`).
- **Face finder** (`FaceFinder`): the depth-first walk of `find_faces`/`CycleDetection`. It takes every (path, direction) pair at most once and keeps only faces that repeat no path.
- **Region tree** (`Regions`):
  - the index-keyed adjacency map and its add/remove operations;
  - the two-way links between vertices and regions;
  - the count of open path ends;
  - the search for an open region;
  - re-parenting of exclusions when a new face is inserted (`insert_rotation`);
  - de-duplication of detected cycles;
  - the child-before-parent recursion of point location;
  - the input guard of `update_region_tree`.

Geometry whose correctness rests on floating-point tolerances is a parameter of the operation that uses it:

| parameter | stands for |
|---|---|
| `intersect` | `Bezier.intersects` |
| `controls` | `calc_control_points` |
| `flatten` | `approximate_bezier` |
| `touches` | the segment test of `point_touches_path` |
| `angleLess` | `segment_angle`/`find_path_segment` |
| `winding(region, point)` | the winding-number loop over a region's border |

All source paths below are relative to the repository root.

## Model

| member | source | states |
|---|---|---|
| Points.Add | src/model/point.py:30-31 | subtracting the second operand from the sum gives the first operand back |
| Points.Sub | src/model/point.py:33-34 | adding the subtrahend back to the difference gives the minuend |
| Points.Neg | src/model/point.py:27-28 | a point plus its negation is the origin |
| Points.Scalar | src/model/point.py:39-40 | scaling by 1 leaves the point unchanged; scaling by 0 gives the origin |
| Points.DistanceSq | src/model/point.py:19-22 | the squared distance is never negative |
| Points.DistanceSqZeroIff | src/model/point.py:19-22 | the squared distance is zero exactly between equal points |
| Points.DistanceSqSymmetric | src/model/point.py:19-22 | the squared distance does not depend on argument order |
| Points.Equals | src/model/point.py:70-74 | holds exactly when the two coordinate pairs are equal (no tolerance), so it is reflexive and symmetric |
| Points.RotateAnticlock | src/model/point.py:55-56 | the result is perpendicular to the input (dot product 0) and has the same length |
| Points.Normalized | src/model/point.py:59-62 | a zero-length vector comes back unchanged; any other vector comes back with unit length |
| Points.IdCounter.constructor | src/model/point.py:78 | the class-level id counter starts at 0 |
| Points.IdCounter.SetLastId | src/model/point.py:114-116 | the next index handed out is the given value |
| Points.Vertex.constructor | src/model/point.py:80-96 | an indexed vertex takes the counter's current value and advances the counter by exactly one; an unindexed vertex has no index and leaves the counter alone; the vertex starts with the given paths, a degree equal to their number and no regions |
| Points.Vertex.Available | src/model/point.py:118-119 | while the degree matches the path list, a vertex is available exactly when it has fewer than three paths |
| Points.Vertex.AddToPath | src/model/point.py:121-123 | the path is appended at the end, and the degree again equals the number of paths |
| CubicBezier.MakeBezier | src/model/cubic_bezier.py:114-127 | missing control points default to the start and the end; the point list is start, control 1, control 2, end |
| CubicBezier.Lerp | src/model/cubic_bezier.py:22-25 | t = 0 gives the first point and t = 1 the second; interpolating between equal points gives that point |
| CubicBezier.CubicCurve | src/model/cubic_bezier.py:34-50 | the curve is at its start for t = 0 and at its end for t = 1 |
| CubicBezier.DegenerateEvaluate | src/model/cubic_bezier.py:129-130 | a curve whose four points coincide evaluates to that point for every t |
| CubicBezier.Split | src/model/cubic_bezier.py:133-152 | splitting at 1 gives the curve and a degenerate curve at its end; splitting at 0 gives a degenerate curve at its start and the curve; the halves keep the outer anchors and meet at the curve's value at t |
| CubicBezier.SplitInterval | src/model/cubic_bezier.py:155-175 | the interval (0, 1) gives the curve itself; t_min = 1 divides by zero (`None`); otherwise the piece runs from the curve's value at t_min to its value at t_max |
| CubicBezier.SplitIntervalPrefix | src/model/cubic_bezier.py:155-175 | the piece over (0, t) is the first half of the split at t |
| CubicBezier.SplitIntervalSuffix | src/model/cubic_bezier.py:155-175 | for t ≠ 1 the piece over (t, 1) is the second half of the split at t |
| CubicBezier.IntervalProject | src/model/cubic_bezier.py:93-94 | (0, 1) maps to (t_min, t_max), and an ordered interval stays ordered |
| CubicBezier.IntervalProjectCompose | src/model/cubic_bezier.py:93-94 | projecting twice equals one projection into the composed interval (the map is affine) |
| CubicBezier.BoundingBoxArea | src/model/cubic_bezier.py:265-274 | the area is at least 1 |
| CubicBezier.DegenerateArea | src/model/cubic_bezier.py:265-274 | a curve collapsed to one point has area exactly 1 |
| CubicBezier.CloseEnough | src/model/cubic_bezier.py:101-110 | the result is 1, 0 or −1; it is non-zero exactly when both areas are below 3; 1 means some pair of anchors is within squared distance 4, and −1 means no pair is |
| CubicBezier.CloseEnoughSymmetric | src/model/cubic_bezier.py:101-110 | the classification does not depend on argument order |
| CubicBezier.CloseEnoughSelf | src/model/cubic_bezier.py:101-110 | a curve with area below 3 is close enough to itself |
| BoundingBox.GetBoundingBoxAsWritten | src/model/bounding_box.py:11-23 | the scan as written, `elif` included: its corners are the per-axis fold of the as-written step; an empty list gives (−1, −1) for both corners; the input is only read |
| BoundingBox.AxisAsWrittenMin | src/model/bounding_box.py:15-16 | on non-negative coordinates the as-written minimum is the least coordinate and occurs in the list |
| BoundingBox.AxisAsWrittenMaxOrigin | src/model/bounding_box.py:17-18 | the as-written maximum is the sentinel −1 or one of the coordinates |
| BoundingBox.SinglePointAsWritten | src/model/bounding_box.py:15-22 | for the single point (5, 5) the maximum corner stays at (−1, −1), so the point lies outside its own box |
| BoundingBox.GetBoundingBox | src/model/bounding_box.py:11-23 | the corrected scan: both corners are tried for every coordinate; an empty list gives (−1, −1) for both corners |
| BoundingBox.AxisMinMax | src/model/bounding_box.py:14-22 | on non-negative coordinates the corrected scan gives the least and the greatest coordinate, and both occur in the list |
| BoundingBox.BoxOfContains | src/model/bounding_box.py:11-23 | every point of a non-empty screen-coordinate list lies in its corrected box |
| BoundingBox.IsInsideBox | src/model/bounding_box.py:26-29 | inside means inside the closed box and on none of its four edges |
| PointInPolygon.EdgeType | src/model/point_in_polygon.py:10-14 | the type is up (1) exactly when the edge ends lower than it starts; otherwise, horizontal edges included, it is down (−1) |
| PointInPolygon.UpdateWindingNumber | src/model/point_in_polygon.py:18-31 | the returned type is the current edge's type; the winding number moves by at most one; a repeated type after a counted edge changes nothing; otherwise it changes exactly when the crossing is strictly right of the query point, by the edge type; the flag never drops, and it rises only with a change of the winding number |
| PointInPolygon.WindBounded | src/model/point_in_polygon.py:18-31 | after n crossings the winding number lies between −n and n |
| PointInPolygon.WindAllLeft | src/model/point_in_polygon.py:24-30 | when no crossing lies right of the query point, the winding number stays 0 and no edge is counted |
| Paths.Path.constructor | src/model/path.py:25-30 | a new path holds its curves and its two end vertices, with an empty approximation cache |
| Paths.Path.GetOtherPoint | src/model/path.py:44-50 | the result exists exactly when the vertex is an end of the path, and then the vertex and the result are the path's two ends |
| Paths.Path.GetOtherPointInvolution | src/model/path.py:44-50 | the other end of the other end is the vertex itself |
| Paths.Path.Approximate | src/model/path.py:73-83 | the first call fills the cache with the joined polylines of the curves; later calls return the cached list unchanged |
| Paths.JoinedEnds | src/model/path.py:73-83 | the joined polyline starts at the first curve's first point and ends at the last curve's last point |
| Paths.PointTouchesPolyline | src/model/path.py:111-129 | a point equal to either end never touches; otherwise the answer is true exactly when some segment that is not skipped near an end touches the point |
| Paths.PointTouchesPath | src/model/path.py:109-129 | the cache is filled as by `Approximate`, and the answer is the polyline test on the cached list |
| Paths.Halfway | src/model/path.py:288-289 | the point lies halfway between the two clicks |
| Paths.Link | src/model/path.py:305-320 | curve k runs from click k to click k + 1 |
| Paths.BezierChain | src/model/path.py:287-322 | n clicks give n − 1 curves; curve k joins click k to click k + 1 with control points 2k and 2k + 1; the chain starts at the first click, ends at the last, and each curve starts where the previous one ends |
| Paths.ControlPoints | src/model/path.py:287-301 | there are 2(n − 1) control points: the first and the last are halfway along the outer click pairs, and each inner click contributes its pair |
| Paths.ComputeBeziers | src/model/path.py:279-322 | fewer than two clicks is the `ValueError` (`None`); otherwise the result is the chain through the clicks |
| Paths.SplitChain | src/model/path.py:234-268 | an even count of n curves gives n/2 curves to each half; an odd count gives each half (n+1)/2 curves, the middle curve being split at 0.5 between them; the halves keep the chain's outer anchors, are chains themselves and meet at the returned point; an even split loses no curve |
| Paths.AddPath | src/model/path.py:231-276 | fewer than two clicks changes nothing; otherwise the start path runs p0 → mid and the end path mid → p1 over the two halves of the chain; mid is a fresh vertex at the meeting point, takes the next index and holds exactly the two new paths; p0 and p1 gain one new path each (two when they are the same vertex) |
| Paths.Attach | src/model/path.py:270-274 | p0 gains the start path, p1 the end path, and mid both paths in order; every degree matches its path list |
| Paths.SharedEnds | src/model/path.py:138-144 | each end of the other path that is also an end of this path is in the result; every point in the result is such a shared end, so an unshared end never appears; there are at most two |
| Paths.IsValidIntersection | src/model/path.py:161-170 | a point is valid exactly when it is at squared distance 81 or more from every exclusion point |
| Paths.KeepFarMember | src/model/path.py:160-170 | the filter keeps exactly the points that are far from every exclusion point |
| Paths.FilterFar | src/model/path.py:160-170 | the filter loop keeps the far points in their order |
| Paths.HitsSound | src/model/path.py:146-174 | every collected intersection is a raw intersection of some curve pair, and it is far from the shared ends when both curves are end curves |
| Paths.HitsComplete | src/model/path.py:146-174 | every raw intersection is collected unless both curves are end curves and the point is near a shared end |
| Paths.Intersections | src/model/path.py:137-174 | the nested loops collect, pair by pair in loop order, the raw intersections that the end-curve filter keeps |
| Paths.RowHits | src/model/path.py:148-172 | the inner loop collects the hits of one curve against every curve of the other list, in order |
| Paths.Intersects | src/model/path.py:201-202 | the path is tested against all of the other path's curves |
| Paths.PartialIntersects | src/model/path.py:204-208 | a path of three or more curves is tested only against the other path's last two curves |
| Paths.KeepAwayFromJointMember | src/model/path.py:187-190 | the filter for adjacent curves keeps exactly the points at squared distance more than 5 from their joint |
| Paths.KeepAwayFromEndsMember | src/model/path.py:191-198 | the filter for non-adjacent curves keeps exactly the points at squared distance 1 or more from both ends of the path |
| Paths.SelfHitsSound | src/model/path.py:176-199 | every collected self-intersection is a raw intersection of curves i < j that survives that pair's filter |
| Paths.SelfHitsComplete | src/model/path.py:176-199 | every raw self-intersection that survives its pair's filter is collected |
| Paths.FilterAwayFromJoint | src/model/path.py:187-190 | the loop keeps the points away from the joint, in order |
| Paths.FilterAwayFromEnds | src/model/path.py:191-198 | the loop keeps the points away from both ends, in order |
| Paths.SelfIntersections | src/model/path.py:176-199 | the nested loops over pairs i < j collect, in loop order, what each pair's filter keeps |
| Paths.SelfRowHits | src/model/path.py:180-198 | the inner loop collects the hits of curve i against every later curve, in order |
| FaceFinder.WentFromStartToEnd | src/model/face_finder.py:24-28 | the result is 1 exactly when the walk starts at the path's start vertex, and −1 otherwise |
| FaceFinder.RecordAdds | src/model/face_finder.py:70-72 | appending a direction to a path's list records exactly that (path, direction) pair more |
| FaceFinder.MeasureDrops | src/model/face_finder.py:70-73 | recording a new pair strictly shrinks the set of pairs left to walk (the walk's termination measure) |
| FaceFinder.ElementsBound | src/model/face_finder.py:54 | a face has no more distinct paths than entries |
| FaceFinder.DistinctIffFullSet | src/model/face_finder.py:54 | `len(set(face)) == len(face)` holds exactly when no path occurs twice in the face |
| FaceFinder.KeepDistinctMember | src/model/face_finder.py:51-55 | the filter keeps exactly the faces that repeat no path |
| FaceFinder.FilterFaces | src/model/face_finder.py:51-55 | the loop keeps the faces that repeat no path, in order |
| FaceFinder.Enumerate | src/model/face_finder.py:42 | a set is listed with every element exactly once |
| FaceFinder.CycleDetection.constructor | src/model/face_finder.py:61-62 | the detector holds the map, and no direction is recorded yet |
| FaceFinder.CycleDetection.TakePath | src/model/face_finder.py:66-81 | recorded directions are never removed; the direction taken is recorded afterwards; a direction recorded before gives no faces, no path and no change; every path handed back comes from the map; every face found is a closed walk; a non-empty path ends with the taken path and, read backwards, walks from `came_from` to the root |
| FaceFinder.CycleDetection.OtherPaths | src/model/face_finder.py:94-98 | the ways on from a vertex are exactly the paths listed there other than the one followed |
| FaceFinder.CycleDetection.Faces | src/model/face_finder.py:86-151 | reaching the root gives no faces and the one-path list, with nothing recorded; a dead end gives nothing, with nothing recorded; recorded directions are never removed; every path handed back comes from the map; every face found is a closed walk; a non-empty constructed path ends with the path followed and, read backwards, is a chain of paths from `came_from` to the root, each leaving the vertex where the one after it arrived |
| FaceFinder.CycleDetection.Follow | src/model/face_finder.py:104-113 | with one way on, the findings are kept only when a face was closed; the constructed path then ends with the path followed, and the rest of it walks from the branching vertex to the root |
| FaceFinder.CycleDetection.Branch | src/model/face_finder.py:114-151 | recorded directions are never removed; every face found is a closed walk, including the one started at the branching vertex; a non-empty constructed path ends with the path followed, goes on through one of the two ways compared, and walks from the branching vertex to the root |
| FaceFinder.FindFaces | src/model/face_finder.py:41-57 | it returns the faces kept together with the faces found (the walk's faces followed by the last back-track); the faces kept are exactly the faces found that repeat no path, in order; every face found before the last is a closed walk; the last back-track is empty or a closed walk from the start vertex through a path listed there; every path of a face kept comes from the map |
| Regions.GetMinMaxX | src/model/region.py:19-23 | the two x coordinates come back in ascending order |
| Regions.IsInRange | src/model/region.py:25-26 | a value is in range only when the range is not reversed; a one-value range holds exactly that value |
| Regions.InRangeOfSegment | src/model/region.py:19-26 | the range test on the sorted ends holds exactly when the value lies between the two x coordinates, in either order |
| Regions.AddPathTo | src/model/region.py:239-246 | the path is listed under the index of each of its ends, with a new singleton set for an absent key; every other key and every other listing is unchanged; no set becomes empty |
| Regions.RemovePathFrom | src/model/region.py:251-260 | the path is no longer listed under its ends' indices; a key whose set only held the path disappears; keys not holding the path are unchanged; every other listing is kept |
| Regions.RemoveUndoesAdd | src/model/region.py:239-260 | removing a path that was just added gives the original map back |
| Regions.SameListingSameMap | src/model/region.py:239-260 | two maps without empty sets that list the same paths under the same keys are equal |
| Regions.AddPathsListing | src/model/region.py:119-121 | after adding a list of paths, each key lists what it listed before plus the added paths that end at that index |
| Regions.SumOpenRemove | src/model/region.py:126-130 | the open-end count does not depend on the order in which the vertices are taken |
| Regions.SumOpenPositive | src/model/region.py:126-130 | a positive open-end count means some vertex has fewer than three paths |
| Regions.SumOpenAtMost | src/model/region.py:126-130 | n vertices offer at most 3n open ends |
| Regions.Capacity | src/model/region.py:34-36 | a vertex may belong to two regions while it is available and to three once it is closed |
| Regions.Full | src/model/region.py:34-36 | a vertex is full exactly when it already belongs to as many regions as it may |
| Regions.OptimizedBorderPoints | src/model/region.py:42-45 | the result is a prefix of the border; it is one point shorter exactly when the last point equals the first, and otherwise the border is unchanged |
| Regions.OptimizedClosedRing | src/model/region.py:42-45 | a ring closed by repeating its first point comes back as the ring |
| Regions.Region.constructor | src/model/region.py:84-98 | the fields hold the arguments; the border loses a repeated closing point; the box is the corrected bounding box of the border (see Left out); a region without a parent is listed by each of its vertices; the open-end count is the sum over its vertices |
| Regions.Region.Claim | src/model/region.py:89-91 | each vertex gains exactly this region and keeps its degree |
| Regions.Region.AddPoint | src/model/region.py:103-105 | the vertex joins the region and the region joins the vertex's regions; links made both ways stay so |
| Regions.Region.RemovePoint | src/model/region.py:110-114 | both links are dropped; the adjacency map keeps every entry (its keys are indices, not vertices) |
| Regions.Region.UpdateEdgeMap | src/model/region.py:239-246 | the new map is the old map with the path added under both of its ends |
| Regions.Region.RemoveFromEdgeMap | src/model/region.py:251-260 | the new map is the old map with the path removed under both of its ends |
| Regions.Region.ComputeConnections | src/model/region.py:126-130 | the count is the sum of 3 − degree over the region's vertices |
| Regions.Region.Update | src/model/region.py:135-138 | the paths enter the map in order, and the middle vertex joins the region both ways |
| Regions.Region.Clear | src/model/region.py:144-150 | the region has no vertices, an empty map and no open ends; each former vertex no longer lists the region |
| Regions.Region.GetOuterSet | src/model/region.py:155-165 | with a cycle, the vertices are exactly the ends of the cycle's paths; without one, they are exactly the game vertices on the border |
| Regions.Region.FindOpenRegion | src/model/region.py:191-199 | the result is this region exactly when its count exceeds 1; any other result lies below one of its exclusions; a returned region always has a count above 1; none comes back exactly when no region of the subtree is open |
| Regions.Region.PointsInSubtree | src/model/region.py:265-269 | the region's own vertices are included, and every vertex lies in the subtree's footprint |
| Regions.Region.OpenTreeHasFreeVertex | src/model/region.py:191-199 | a subtree with an open region has a vertex with fewer than three paths |
| Regions.Region.IsPointInPolygon | src/model/region.py:534-559 | a point is in the polygon only when it lies in the region's box and the winding test over the border says so; a box whose maximum does not exceed its minimum on some axis (as the as-written scan can leave it) contains no point |
| Regions.Region.IsPointInRegion | src/model/region.py:565-597 | inside implies inside the region's own polygon; without exclusions, or from a parent while the region holds vertices, it is exactly the polygon test; otherwise a point that some exclusion holds is not in this region |
| Regions.Region.FindRegion | src/model/region.py:604-638 | the exclusions are tried first; the result is a non-empty region of the subtree whose polygon holds the point; none comes back exactly when no region locates the point; this region answers only when no exclusion does, and a container never answers for itself |
| Regions.Region.DetectCycles | src/model/region.py:171-186 | it returns the faces `find_faces` found from the vertex together with the new cycles; the faces repeat no path, are closed walks (or empty) and come from the map; a cycle is returned as new exactly when it is one of those faces, is non-empty, and has a path set different from the region's cycle and from every exclusion's cycle |
| Regions.Region.SelectNewCycles | src/model/region.py:173-186 | for any given list of cycles, a cycle is kept exactly when it is in the list, is non-empty, and has a path set different from the region's cycle and from every exclusion's cycle |
| Regions.KeepNewMember | src/model/region.py:177-185 | the filter keeps exactly the non-empty cycles whose path set matches no existing cycle |
| Regions.FilterNewCycles | src/model/region.py:176-186 | the filter loop keeps the new cycles in order |
| Regions.Region.UpdateRegionTree | src/model/region.py:398-404 | an empty list or one longer than two raises before anything changes; otherwise the paths and the middle vertex are added, and a one-path list then fails reading the second path |
| Regions.Region.AddEdgesAt | src/model/region.py:219-223 | the paths listed at one border vertex whose other end is on the border are added to this region's map |
| Regions.Region.AddEdgesOf | src/model/region.py:214-223 | the closed paths of one region are added; a region without vertices adds nothing |
| Regions.Region.AddEdges | src/model/region.py:213-223 | this region's map lists what it listed before plus the closed paths of every given region |
| Regions.Region.RemoveEdgesOf | src/model/region.py:230-234 | the cycle paths of one region that are not on its parent's cycle leave this region's map; nothing else does |
| Regions.Region.RemoveEdges | src/model/region.py:228-234 | the own cycle paths of every given region with a parent leave the map; regions without a parent remove nothing |
| Regions.Region.CountInside | src/model/region.py:344-349 | all are inside exactly when every vertex lies in the new region's polygon or is one of its vertices; in that case the count is the number of vertices on the new region's border |
| Regions.Region.CheckPoints | src/model/region.py:332-349 | the deciding vertices are the exclusion's game vertices, or its border vertices when it has none; the answer is whether all of them are inside, and the count is how many lie on the new region's border |
| Regions.MidPoint | src/model/path.py:52-55 | the midpoint of a path is where its middle curve splits at 0.5: the end of the first half and the start of the second; for a one-curve path it is that curve at 0.5 |
| Regions.Region.CheckPaths | src/model/region.py:357-366 | true exactly when every cycle path of the exclusion is on the new region's cycle or has its midpoint in the new region |
| Regions.Region.Decide | src/model/region.py:338-373 | the exclusion rotates when it lies inside and off the border, or when it splits the new region; it splits when it lies inside, touches the border more than once, and all its paths are inside |
| Regions.Region.Tally | src/model/region.py:367-373 | a rotating exclusion joins the rotation; the first split sets the split flag, and a second split sets the clear flag |
| Regions.Region.ClassifyOne | src/model/region.py:331-373 | one pass adds the exclusion to the rotation when it rotates, and the flags track whether one and whether two exclusions split |
| Regions.Region.ClassifyExclusions | src/model/region.py:331-373 | the rotation is exactly the exclusions that rotate; the split flag means at least one exclusion splits, and the clear flag at least two |
| Regions.Region.SetParent | src/model/region.py:382-384 | every rotated region gets the new region as its parent |
| Regions.Region.Reassign | src/model/region.py:375-384 | the exclusions become (old − rotated) ∪ {new}; the new region's exclusions are the rotated ones; each of those has the new region as its parent |
| Regions.Region.MoveEdges | src/model/region.py:385-390 | the rotated regions' own cycle paths leave this region's map; a new region split twice is cleared, and each of its former vertices drops it; otherwise its map gains their closed paths while its vertices, their region sets and its open-end count stay as they were |
| Regions.Region.InsertRotation | src/model/region.py:326-391 | the new region's exclusions are those that rotate; this region's exclusions become the others plus the new region, and the old exclusions are split between the two without overlap; rotated regions get the new region as parent and the others keep theirs; the result is true exactly when some exclusion splits the new region; the edge maps move; a region split twice is cleared and its former vertices drop it; otherwise its vertices, their region sets and its open-end count are unchanged |
| Regions.RemoveRegion | src/model/region.py:73-77 | the link between the vertex and the region is dropped on both sides |
| Regions.AddReplaceRegion | src/model/region.py:62-67 | a vertex with room gains the region and the parent is untouched; a full vertex trades the region's parent for it, and the parent loses the vertex; only the vertex's region set and the parent's vertex set may change; a vertex within its capacity stays within it |

## Left out

- Drawing, surfaces, colours and the menu/event loop are left out, because they are I/O. So is the player colour of a path and its `redraw`. The colour change in `add_to_path` is left out for the same reason.
- Bézier clipping (`Bezier.intersects`, `bezier_intersection.py`) is the `intersect` parameter, because it is driven by floating-point tolerances. The same holds for:
  - adaptive flattening (`approximate_bezier`, `sufficient_approximation`): the `flatten` parameter;
  - tangent control points (`calc_control_points`): the `controls` parameter;
  - the angle order (`segment_angle`, `find_path_segment`): the `angleLess` parameter;
  - the segment test of `point_touches_path`: the `touches` parameter;
  - the winding loops of `is_point_in_polygon`, `is_point_in_region` and `find_region`: the `winding` parameter. Their step is modelled separately, as `PointInPolygon.UpdateWindingNumber`.
- `intersects_bezier`, `quadratic_curve` (it returns nothing), `bezier_interval_distance` and `Point.distance`/`length`/`abs` are left out. They need a square root or return no value.
- `normalized_ip` and `from_point` are left out. They only copy values into a point.
- The restructuring branches of `update_region_tree` are left out, because they interleave the geometry oracles with many mutations. So are `transfer_game_points`, `add_game_points`, `create_region_from_cycle`, `region_is_splitted`, `find_proper_parent` and `update_all_connections`.
- `compute_edge_map` is modelled as the function `Regions.AddPaths` and is proved through `Regions.AddPathsListing`. It has no method of its own.
- Python set and dictionary iteration order is not modelled: loops over sets take elements in an arbitrary order. Results that depend on the order are stated for every order. These are the first open region found, the first region located, and the first listed path in `find_faces`.
- Regions.Region.InsertRotation: does not re-establish the ghost footprint `Repr` and the tree predicate `Ranked()` of the regions it re-parents. Ancestors' footprints are not tracked through mutation. The contract states the new fields, parents and maps instead.
- Regions.Region.InsertRotation: requires that every border vertex of a rotated region with game vertices is listed in that region's adjacency map, and that the paths listed there are indexed at both ends. The same requirement is on `AddEdgesAt`, `AddEdgesOf` and `AddEdges`. The source reads `region.edge_map[point.index]` without a check and raises `KeyError` for an unlisted vertex. The model does not cover that error path.
- Regions.Region.InsertRotation: requires that the midpoint test can be made on every path it reaches, i.e. every such path has at least one curve. In the source an empty path would fail on indexing.
- Regions.Region.constructor: the box is the corrected bounding-box scan, where the source stores the as-written scan of `bounding_box.py` (see Findings). Whenever the as-written maximum corner is wrong, point location differs from the source. For the border [(30, 5), (20, 30), (10, 5)], the source's box has max x −1, so `find_region` returns None without visiting any exclusion. The model's box is (10, 5)–(30, 30), and it goes on to the exclusions and the winding test.
- Regions.Region.Clear: the source assigns an empty `dict` to `game_points`, while the model uses an empty set. A later `add` on a cleared region would fail in the source.
- Paths.Path.Approximate: joining compares points by value. The source compares `Point` objects with `==`, which is identity there, so two distinct objects at the same coordinates are both kept in the source. It also requires a non-empty curve list and non-empty flattenings, which the source indexes without a check.
- Paths.AddPath: the source overwrites the end (start) point object of the curve next to the midpoint with the new vertex. In the value model, curves hold coordinates, and those are already equal, so only object identity is lost.
- Points.Normalized: takes the vector's length as a parameter, because the length needs a square root.
- FaceFinder.FindFaces: requires an adjacency map whose listed paths end at the vertex they are listed under. The source assumes this of the map that `Region` maintains and fails otherwise.
- FaceFinder.CycleDetection.Faces: which faces are found, and in what order, depends on the angle oracle. The contract states where the paths come from, that every face is a closed walk, the base cases, and that the walk terminates.
- FaceFinder.CycleDetection.Branch: the contract does not say which of the two ways is tried first (the one the angle oracle puts first), nor that a first way that closed no face has its findings dropped. It states the walk and closed-walk shape of what is handed back.
- FaceFinder.FindFaces: the contract does not state that only the first path's direction is recorded at the start. That map is internal to the walk.
- FaceFinder.Enumerate: lists a set in an unspecified order, standing in for `list(set)`.
- Floating-point rounding is not modelled: all coordinates are exact reals.

## Findings

| source | as written | input that shows it | evidently intended | confidence | as-written member | corrected member |
|---|---|---|---|---|---|---|
| src/model/bounding_box.py:15-22 | the maximum of each axis is updated in an `elif` of the minimum update, so a coordinate that sets or lowers the minimum is never tried for the maximum | a single point (5, 5): the box is min (5, 5), max (−1, −1), and the point is not inside its own box | both corners tried for every coordinate, giving the true minimum and maximum | not executed | BoundingBox.SinglePointAsWritten | BoundingBox.AxisMinMax |
