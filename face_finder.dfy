/**
 * Face finding on the game graph (src/model/face_finder.py).
 *
 * A depth-first walk along paths, starting at a vertex, that records every
 * (path, direction) pair it takes so that each pair is walked at most once.
 * At a vertex with two ways on, the way that turns less is tried first; that
 * choice rests on angles of flattened curves and is the parameter `angleLess`.
 * The adjacency map lists, for each vertex index, the set of incident paths;
 * its iteration order is not fixed, so the model enumerates sets in an
 * arbitrary order.
 */
module FaceFinder {
  import opened Wrappers
  import opened Points
  import opened Paths

  /** `went_from_start_to_end`: 1 when the path is walked from its start, -1 otherwise. */
  function WentFromStartToEnd(path: Path, cameFrom: Vertex): (r: int)
    ensures r == 1 || r == -1
    ensures r == 1 <==> path.startPoint == cameFrom
  {
    if path.startPoint == cameFrom then 1 else -1
  }

  /** Vertex index to the paths ending at that vertex. */
  type EdgeMap = map<int, set<Path>>

  function AllPaths(m: EdgeMap): (r: set<Path>)
    ensures forall k, p :: k in m && p in m[k] ==> p in r
    ensures forall p :: p in r ==> exists k :: k in m && p in m[k]
  {
    set k, p | k in m && p in m[k] :: p
  }

  predicate EndAt(p: Path, v: Vertex)
  {
    v == p.startPoint || v == p.endPoint
  }

  /**
   * What the walk relies on: every end of a listed path is indexed, and a path
   * listed under index `k` ends at every listed vertex whose index is `k`.
   */
  predicate WellFormed(m: EdgeMap)
  {
    (forall q :: q in AllPaths(m) ==> q.startPoint.index.Some? && q.endPoint.index.Some?)
    && (forall k, p, q :: k in m && p in m[k] && q in AllPaths(m) ==>
          (q.startPoint.index == Some(k) ==> EndAt(p, q.startPoint))
          && (q.endPoint.index == Some(k) ==> EndAt(p, q.endPoint)))
  }

  /** The (path, direction) pairs a direction map has recorded. */
  ghost function Recorded(taken: map<Path, seq<int>>): set<(Path, int)>
  {
    set p, d | p in taken && d in taken[p] :: (p, d)
  }

  lemma RecordAdds(taken: map<Path, seq<int>>, p: Path, d: int)
    ensures Recorded(taken[p := (if p in taken then taken[p] else []) + [d]]) == Recorded(taken) + {(p, d)}
  {
    var updated := taken[p := (if p in taken then taken[p] else []) + [d]];
    forall x | x in Recorded(updated)
      ensures x in Recorded(taken) + {(p, d)}
    {
      var (q, e) := x;
      if q != p {
        assert q in taken && e in taken[q];
      }
    }
    forall x | x in Recorded(taken) + {(p, d)}
      ensures x in Recorded(updated)
    {
      var (q, e) := x;
      if x != (p, d) {
        assert q in updated && e in updated[q];
      } else {
        assert e in updated[q];
      }
    }
  }

  /** Recording a new pair of the universe leaves strictly fewer pairs to record. */
  lemma MeasureDrops(universe: set<(Path, int)>, recorded: set<(Path, int)>, x: (Path, int))
    requires x in universe && x !in recorded
    ensures universe - (recorded + {x}) < universe - recorded
  {
    assert x in universe - recorded;
  }

  predicate NoRepeats(f: seq<Path>)
  {
    forall i, j :: 0 <= i < j < |f| ==> f[i] != f[j]
  }

  /** The paths of a face as a set, as `set(face)` builds it. */
  function Elements(f: seq<Path>): set<Path>
  {
    set p | p in f
  }

  lemma {:induction false} ElementsBound(f: seq<Path>)
    ensures |Elements(f)| <= |f|
  {
    if |f| > 0 {
      var init := f[..|f| - 1];
      ElementsBound(init);
      assert Elements(f) == Elements(init) + {f[|f| - 1]};
    }
  }

  /** `len(set(face)) == len(face)` holds exactly when no path occurs twice. */
  lemma {:induction false} DistinctIffFullSet(f: seq<Path>)
    ensures |Elements(f)| == |f| <==> NoRepeats(f)
  {
    if |f| > 0 {
      var init := f[..|f| - 1];
      var x := f[|f| - 1];
      DistinctIffFullSet(init);
      assert Elements(f) == Elements(init) + {x};
      if x in init {
        ElementsBound(init);
        var i :| 0 <= i < |init| && init[i] == x;
        assert f[i] == f[|f| - 1];
      } else {
        assert Elements(init) + {x} == Elements(init) + {x};
        assert |Elements(f)| == |Elements(init)| + 1;
        if NoRepeats(init) {
          forall i, j | 0 <= i < j < |f|
            ensures f[i] != f[j]
          {
            if j < |f| - 1 {
              assert init[i] != init[j];
            } else {
              assert f[i] in init;
            }
          }
        } else {
          var i, j :| 0 <= i < j < |init| && init[i] == init[j];
          assert f[i] == f[j];
        }
      }
    }
  }

  /**
   * Read from its end, `c` is a walk: its last path leaves `from`, each path
   * before it leaves the vertex where the one after it arrived, and its first
   * path arrives at `to`.
   */
  predicate WalksBack(c: seq<Path>, from: Vertex, to: Vertex)
    decreases |c|
  {
    |c| > 0 && EndAt(c[|c| - 1], from)
    && var next := c[|c| - 1].GetOtherPoint(from).value;
       if |c| == 1 then next == to else WalksBack(c[..|c| - 1], next, to)
  }

  /** A face as the walk builds it: a walk that returns to the vertex its last path leaves. */
  predicate ClosedWalk(f: seq<Path>)
  {
    |f| > 0
    && (WalksBack(f, f[|f| - 1].startPoint, f[|f| - 1].startPoint)
        || WalksBack(f, f[|f| - 1].endPoint, f[|f| - 1].endPoint))
  }

  /** A walk from a vertex back to itself is closed. */
  lemma WalkHomeClosed(f: seq<Path>, v: Vertex)
    requires WalksBack(f, v, v)
    ensures ClosedWalk(f)
  {
  }

  /** The faces whose paths are all different, in order. */
  function KeepDistinct(faces: seq<seq<Path>>): seq<seq<Path>>
  {
    if |faces| == 0 then []
    else
      var init := KeepDistinct(faces[..|faces| - 1]);
      var f := faces[|faces| - 1];
      if |Elements(f)| == |f| then init + [f] else init
  }

  /** The filter keeps exactly the faces that repeat no path. */
  lemma {:induction false} KeepDistinctMember(faces: seq<seq<Path>>, f: seq<Path>)
    ensures f in KeepDistinct(faces) <==> f in faces && NoRepeats(f)
  {
    if |faces| > 0 {
      KeepDistinctMember(faces[..|faces| - 1], f);
      DistinctIffFullSet(faces[|faces| - 1]);
      assert f in faces <==> f in faces[..|faces| - 1] || f == faces[|faces| - 1];
    }
  }

  /** The final filter loop of `find_faces`. */
  method FilterFaces(faces: seq<seq<Path>>) returns (kept: seq<seq<Path>>)
    ensures kept == KeepDistinct(faces)
  {
    kept := [];
    for i := 0 to |faces|
      invariant kept == KeepDistinct(faces[..i])
    {
      assert faces[..i + 1][..i] == faces[..i];
      var distinct := Elements(faces[i]);
      if |distinct| == |faces[i]| {
        kept := kept + [faces[i]];
      }
    }
    assert faces[..|faces|] == faces;
  }

  /** Lists a set in some order, each element once. */
  method Enumerate(s: set<Path>) returns (r: seq<Path>)
    ensures forall p :: p in r <==> p in s
    ensures NoRepeats(r)
  {
    r := [];
    var rest := s;
    while rest != {}
      invariant forall p :: p in s <==> p in r || p in rest
      invariant forall p :: p in r ==> p !in rest
      invariant NoRepeats(r)
      decreases |rest|
    {
      var p :| p in rest;
      r := r + [p];
      rest := rest - {p};
    }
  }

  class CycleDetection {
    const edgeMap: EdgeMap
    /** `angleLess(from, a, b, at)`: at vertex `at`, `a` turns less away from `from` than `b` does. */
    const angleLess: (Path, Path, Path, Vertex) -> bool
    /** For each path, the directions it has been walked in so far. */
    var directionsTaken: map<Path, seq<int>>

    constructor (edgeMap: EdgeMap, angleLess: (Path, Path, Path, Vertex) -> bool)
      ensures this.edgeMap == edgeMap && this.angleLess == angleLess && directionsTaken == map[]
    {
      this.edgeMap := edgeMap;
      this.angleLess := angleLess;
      directionsTaken := map[];
    }

    /** Every pair the walk could ever record. */
    ghost function Universe(): set<(Path, int)>
    {
      (set p | p in AllPaths(edgeMap) :: (p, 1)) + (set p | p in AllPaths(edgeMap) :: (p, -1))
    }

    /** The paths listed for a vertex (`edge_map.get(v.index, [])`). */
    function Incident(v: Vertex): set<Path>
    {
      if v.index.Some? && v.index.value in edgeMap then edgeMap[v.index.value] else {}
    }

    /** Every path handed back comes from the adjacency map, and every face found is a closed walk. */
    predicate FromMap(found: seq<seq<Path>>, constructed: seq<Path>)
    {
      ListedFaces(found) && Listed(constructed)
    }

    predicate Listed(c: seq<Path>)
    {
      forall p :: p in c ==> p in AllPaths(edgeMap)
    }

    predicate ListedFaces(found: seq<seq<Path>>)
    {
      forall i :: 0 <= i < |found| ==> Listed(found[i]) && ClosedWalk(found[i])
    }

    lemma ListedFacesAppend(a: seq<seq<Path>>, b: seq<seq<Path>>)
      requires ListedFaces(a) && ListedFaces(b)
      ensures ListedFaces(a + b)
    {
      forall i | 0 <= i < |a + b|
        ensures Listed((a + b)[i]) && ClosedWalk((a + b)[i])
      {
        if i >= |a| {
          assert (a + b)[i] == b[i - |a|];
        }
      }
    }

    lemma IncidentEndsHere(pathToFollow: Path, next: Vertex, p: Path)
      requires WellFormed(edgeMap) && pathToFollow in AllPaths(edgeMap) && EndAt(pathToFollow, next)
      requires p in Incident(next)
      ensures p in AllPaths(edgeMap) && EndAt(p, next)
    {
      var k := next.index.value;
      assert p in edgeMap[k];
    }

    /**
     * `take_path`: walks `takenPath` away from `cameFrom` only when that
     * direction is not recorded yet, recording it first; otherwise nothing
     * changes and nothing is found.
     */
    method TakePath(root: Vertex, takenPath: Path, cameFrom: Vertex) returns (found: seq<seq<Path>>, constructed: seq<Path>)
      requires WellFormed(edgeMap) && takenPath in AllPaths(edgeMap) && EndAt(takenPath, cameFrom)
      modifies this
      decreases Universe() - Recorded(directionsTaken), 0
      ensures Recorded(old(directionsTaken)) <= Recorded(directionsTaken)
      ensures (takenPath, WentFromStartToEnd(takenPath, cameFrom)) in Recorded(directionsTaken)
      ensures (takenPath, WentFromStartToEnd(takenPath, cameFrom)) in Recorded(old(directionsTaken)) ==>
                found == [] && constructed == [] && directionsTaken == old(directionsTaken)
      ensures FromMap(found, constructed)
      ensures constructed != [] ==> constructed[|constructed| - 1] == takenPath
      ensures constructed != [] ==> WalksBack(constructed, cameFrom, root)
    {
      var direction := WentFromStartToEnd(takenPath, cameFrom);
      var takenDirections := if takenPath in directionsTaken then directionsTaken[takenPath] else [];
      if direction !in takenDirections {
        ghost var before := Recorded(directionsTaken);
        InUniverse(takenPath, direction);
        MeasureDrops(Universe(), before, (takenPath, direction));
        takenDirections := takenDirections + [direction];
        RecordAdds(directionsTaken, takenPath, direction);
        directionsTaken := directionsTaken[takenPath := takenDirections];
        found, constructed := Faces(root, cameFrom, takenPath);
        if constructed == [] {
          return found, [];
        }
        return found, constructed;
      }
      assert (takenPath, direction) in Recorded(directionsTaken);
      return [], [];
    }

    lemma InUniverse(p: Path, d: int)
      requires p in AllPaths(edgeMap) && (d == 1 || d == -1)
      ensures (p, d) in Universe()
    {
    }

    /** The listed paths at `next` other than `pathToFollow`, in listing order. */
    method OtherPaths(next: Vertex, pathToFollow: Path) returns (otherPaths: seq<Path>)
      ensures forall p :: p in otherPaths <==> p in Incident(next) && p != pathToFollow
    {
      var incident := Enumerate(Incident(next));
      otherPaths := [];
      for i := 0 to |incident|
        invariant forall p :: p in otherPaths <==> p in incident[..i] && p != pathToFollow
      {
        assert incident[..i + 1] == incident[..i] + [incident[i]];
        if incident[i] == pathToFollow {
          continue;
        }
        otherPaths := otherPaths + [incident[i]];
      }
      assert incident[..|incident|] == incident;
    }

    /**
     * `faces`: follows `pathToFollow` away from `cameFrom`. Reaching `root`
     * closes a face; a vertex with no other path is a dead end; with one way
     * on it is taken, and what it found is dropped unless it closed a face.
     */
    method Faces(root: Vertex, cameFrom: Vertex, pathToFollow: Path) returns (found: seq<seq<Path>>, constructed: seq<Path>)
      requires WellFormed(edgeMap) && pathToFollow in AllPaths(edgeMap) && EndAt(pathToFollow, cameFrom)
      modifies this
      decreases Universe() - Recorded(directionsTaken), 2
      ensures Recorded(old(directionsTaken)) <= Recorded(directionsTaken)
      ensures FromMap(found, constructed)
      ensures constructed != [] ==> constructed[|constructed| - 1] == pathToFollow
      ensures constructed != [] ==> WalksBack(constructed, cameFrom, root)
      ensures pathToFollow.GetOtherPoint(cameFrom) == Some(root) ==>
                found == [] && constructed == [pathToFollow] && directionsTaken == old(directionsTaken)
      ensures var next := pathToFollow.GetOtherPoint(cameFrom).value;
              next != root && Incident(next) - {pathToFollow} == {} ==>
                found == [] && constructed == [] && directionsTaken == old(directionsTaken)
    {
      var next := pathToFollow.GetOtherPoint(cameFrom).value;
      if next == root {
        return [], [pathToFollow];
      }
      var otherPaths := OtherPaths(next, pathToFollow);
      forall p | p in otherPaths
        ensures p in AllPaths(edgeMap) && EndAt(p, next)
      {
        IncidentEndsHere(pathToFollow, next, p);
      }
      if |otherPaths| == 0 {
        assert forall p :: p !in Incident(next) - {pathToFollow};
        return [], [];
      }
      assert otherPaths[0] in Incident(next) - {pathToFollow};
      if |otherPaths| == 1 {
        found, constructed := Follow(root, next, pathToFollow, otherPaths[0]);
      } else {
        found, constructed := Branch(root, next, pathToFollow, otherPaths[0], otherPaths[1]);
      }
    }

    /**
     * The single-way case of `faces` at vertex `next`: the one way on is taken,
     * and what it found is dropped unless it closed a face.
     */
    method Follow(root: Vertex, next: Vertex, pathToFollow: Path, other: Path)
      returns (found: seq<seq<Path>>, constructed: seq<Path>)
      requires WellFormed(edgeMap) && other in AllPaths(edgeMap) && EndAt(other, next)
      requires pathToFollow in AllPaths(edgeMap)
      modifies this
      decreases Universe() - Recorded(directionsTaken), 1
      ensures Recorded(old(directionsTaken)) <= Recorded(directionsTaken)
      ensures FromMap(found, constructed)
      ensures constructed != [] ==> constructed[|constructed| - 1] == pathToFollow
      ensures constructed != [] ==> |constructed| >= 2 && WalksBack(constructed[..|constructed| - 1], next, root)
      ensures constructed == [] ==> found == []
    {
      var foundFaces, constructedPath := TakePath(root, other, next);
      found, constructed := [], [];
      if constructedPath != [] {
        found, constructed := foundFaces, constructedPath + [pathToFollow];
        assert |constructed| - 1 == |constructedPath| && constructed[|constructedPath|] == pathToFollow;
        assert constructed[..|constructed| - 1] == constructedPath;
      }
    }

    /**
     * The branching case of `faces` at vertex `next`, between the first two
     * listed ways on: the one turning less is tried first; when it closed a
     * face, the other one starts a new face rooted at `next`, otherwise the
     * other one is tried in its place and the first one's findings are dropped.
     */
    method Branch(root: Vertex, next: Vertex, pathToFollow: Path, other0: Path, other1: Path)
      returns (found: seq<seq<Path>>, constructed: seq<Path>)
      requires WellFormed(edgeMap)
      requires other0 in AllPaths(edgeMap) && EndAt(other0, next)
      requires other1 in AllPaths(edgeMap) && EndAt(other1, next)
      requires pathToFollow in AllPaths(edgeMap)
      modifies this
      decreases Universe() - Recorded(directionsTaken), 1
      ensures Recorded(old(directionsTaken)) <= Recorded(directionsTaken)
      ensures FromMap(found, constructed)
      ensures constructed != [] ==> constructed[|constructed| - 1] == pathToFollow
      ensures constructed != [] ==> |constructed| >= 2 && WalksBack(constructed[..|constructed| - 1], next, root)
      ensures constructed != [] ==> constructed[|constructed| - 2] == other0 || constructed[|constructed| - 2] == other1
    {
      ghost var entry := Recorded(directionsTaken);
      var firstPath, secondPath := other1, other0;
      if angleLess(pathToFollow, other0, other1, next) {
        firstPath, secondPath := other0, other1;
      }
      var foundFaces, constructedFirst := TakePath(root, firstPath, next);
      ghost var afterFirst := Recorded(directionsTaken);
      if constructedFirst != [] {
        var foundSecond, constructedSecond := TakePath(next, secondPath, next);
        assert afterFirst <= Recorded(directionsTaken);
        ListedFacesAppend(foundFaces, foundSecond);
        foundFaces := foundFaces + foundSecond;
        if constructedSecond != [] {
          WalkHomeClosed(constructedSecond, next);
          ListedFacesAppend(foundFaces, [constructedSecond]);
          foundFaces := foundFaces + [constructedSecond];
        }
      } else {
        foundFaces, constructedFirst := TakePath(root, secondPath, next);
        assert afterFirst <= Recorded(directionsTaken);
      }
      assert entry <= Recorded(directionsTaken);
      found, constructed := foundFaces, [];
      if constructedFirst != [] {
        constructed := constructedFirst + [pathToFollow];
        assert |constructed| - 1 == |constructedFirst| && constructed[|constructedFirst|] == pathToFollow;
        assert constructed[..|constructed| - 1] == constructedFirst;
      }
    }
  }

  /**
   * `find_faces`: walks from the first listed path of `startPoint`, adds the
   * walk's last constructed path to the faces it found (`found`), and keeps
   * the faces that repeat no path.
   */
  method FindFaces(startPoint: Vertex, edgeMap: EdgeMap, angleLess: (Path, Path, Path, Vertex) -> bool)
    returns (faces: seq<seq<Path>>, found: seq<seq<Path>>)
    requires WellFormed(edgeMap)
    requires startPoint.index.Some? && startPoint.index.value in edgeMap && edgeMap[startPoint.index.value] != {}
    requires forall p :: p in edgeMap[startPoint.index.value] ==> EndAt(p, startPoint)
    ensures faces == KeepDistinct(found)
    ensures forall f :: f in faces <==> f in found && NoRepeats(f)
    ensures forall f :: f in faces ==> f == [] || ClosedWalk(f)
    ensures forall f, p :: f in faces && p in f ==> p in AllPaths(edgeMap)
    ensures |found| > 0
    ensures forall i :: 0 <= i < |found| - 1 ==> ClosedWalk(found[i])
    ensures var last := found[|found| - 1];
            last == [] || (WalksBack(last, startPoint, startPoint) && last[|last| - 1] in edgeMap[startPoint.index.value])
  {
    var listed := Enumerate(edgeMap[startPoint.index.value]);
    var some :| some in edgeMap[startPoint.index.value];
    assert some in listed;
    var path := listed[0];
    assert path in edgeMap[startPoint.index.value];
    assert path in AllPaths(edgeMap);
    var detector := new CycleDetection(edgeMap, angleLess);
    var direction := WentFromStartToEnd(path, startPoint);
    detector.directionsTaken := map[path := [direction]];
    var foundFaces, lastBackTrack := detector.Faces(startPoint, startPoint, path);
    foundFaces := foundFaces + [lastBackTrack];
    found := foundFaces;
    faces := FilterFaces(foundFaces);
    forall f | f in faces
      ensures NoRepeats(f) && f in found
    {
      KeepDistinctMember(found, f);
    }
    forall f | f in found && NoRepeats(f)
      ensures f in faces
    {
      KeepDistinctMember(found, f);
    }
    forall f | f in faces
      ensures f == [] || ClosedWalk(f)
    {
      var i :| 0 <= i < |found| && found[i] == f;
      if i == |found| - 1 && f != [] {
        WalkHomeClosed(f, startPoint);
      }
    }
  }
}
