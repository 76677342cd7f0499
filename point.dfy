/**
 * Points and game vertices (src/model/point.py).
 *
 * `Point` is an exact coordinate pair over `real`; `Vertex` is the game's
 * `GraphicsPoint`: a point with an identifier, a degree counter and the set of
 * regions that currently see it. The class-level id counter of the source is an
 * explicit `IdCounter` object that every indexed vertex draws from.
 */
module Points {
  import opened Wrappers

  datatype Point = Point(x: real, y: real)

  const Origin := Point(0.0, 0.0)

  function Add(p: Point, q: Point): (r: Point)
    ensures Sub(r, q) == p
  {
    Point(p.x + q.x, p.y + q.y)
  }

  function Sub(p: Point, q: Point): (r: Point)
    ensures Point(r.x + q.x, r.y + q.y) == p
  {
    Point(p.x - q.x, p.y - q.y)
  }

  function Neg(p: Point): (r: Point)
    ensures Point(p.x + r.x, p.y + r.y) == Origin
  {
    Point(-p.x, -p.y)
  }

  function Scalar(p: Point, s: real): (r: Point)
    ensures s == 1.0 ==> r == p
    ensures s == 0.0 ==> r == Origin
  {
    Point(p.x * s, p.y * s)
  }

  function Dot(p: Point, q: Point): real
  {
    p.x * q.x + p.y * q.y
  }

  /** Squared Euclidean distance. */
  function DistanceSq(p: Point, q: Point): (r: real)
    ensures r >= 0.0
  {
    SquareNonNegative(p.x - q.x);
    SquareNonNegative(p.y - q.y);
    (p.x - q.x) * (p.x - q.x) + (p.y - q.y) * (p.y - q.y)
  }

  lemma SquareNonNegative(d: real)
    ensures d * d >= 0.0
    ensures d != 0.0 ==> d * d > 0.0
  {
    if d < 0.0 {
      var e := -d;
      calc { d * d; == e * e; > 0.0; }
    }
  }

  /** The squared distance vanishes exactly between equal points. */
  lemma DistanceSqZeroIff(p: Point, q: Point)
    ensures DistanceSq(p, q) == 0.0 <==> p == q
  {
    var dx, dy := p.x - q.x, p.y - q.y;
    SquareNonNegative(dx);
    SquareNonNegative(dy);
    if dx != 0.0 {
      calc { DistanceSq(p, q); == dx * dx + dy * dy; >= dx * dx; > 0.0; }
    } else if dy != 0.0 {
      calc { DistanceSq(p, q); == dx * dx + dy * dy; >= dy * dy; > 0.0; }
    } else {
      calc { DistanceSq(p, q); == dx * dx + dy * dy; == 0.0; }
    }
  }

  lemma DistanceSqSymmetric(p: Point, q: Point)
    ensures DistanceSq(p, q) == DistanceSq(q, p)
  {
    var dx, dy := p.x - q.x, p.y - q.y;
    assert (q.x - p.x) * (q.x - p.x) == dx * dx;
    assert (q.y - p.y) * (q.y - p.y) == dy * dy;
  }

  /** Exact coordinate equality, without tolerance. */
  predicate Equals(p: Point, q: Point)
    ensures Equals(p, q) <==> p == q
  {
    p.x == q.x && p.y == q.y
  }

  /** The vector turned by a quarter turn: `(y, -x)`. */
  function RotateAnticlock(p: Point): (r: Point)
    ensures Dot(r, p) == 0.0
    ensures DistanceSq(r, Origin) == DistanceSq(p, Origin)
  {
    Point(p.y, -p.x)
  }

  /**
   * The vector scaled to unit length. `len` is the vector's length, which the
   * source obtains with a square root; a zero-length vector comes back as it is.
   */
  function Normalized(p: Point, len: real): (r: Point)
    requires len >= 0.0 && len * len == p.x * p.x + p.y * p.y
    ensures len == 0.0 ==> r == p
    ensures len != 0.0 ==> r.x * r.x + r.y * r.y == 1.0
  {
    if len == 0.0 then
      Scalar(p, 1.0)
    else
      var r := Scalar(p, 1.0 / len);
      assert r.x * r.x + r.y * r.y == (p.x * p.x + p.y * p.y) / (len * len) by {
        assert r.x * r.x == (p.x * p.x) / (len * len);
        assert r.y * r.y == (p.y * p.y) / (len * len);
      }
      r
  }

  /** The process-wide vertex counter (`GraphicsPoint.__lastId`). */
  class IdCounter {
    var lastId: int

    constructor ()
      ensures lastId == 0
    {
      lastId := 0;
    }

    /** `GraphicsPoint.setLastID`. */
    method SetLastId(i: int)
      modifies this
      ensures lastId == i
    {
      lastId := i;
    }
  }

  /** A game vertex (`GraphicsPoint`). */
  class Vertex {
    const x: real
    const y: real
    /** `None` for a vertex created without an index (the attribute is then absent). */
    const index: Option<int>
    /** The paths ending here; their element type is opaque to this module. */
    var paths: seq<object>
    var numPaths: int
    /** The regions that currently claim this vertex. */
    var regions: set<object>

    ghost predicate Valid()
      reads this
    {
      numPaths == |paths|
    }

    constructor (x: real, y: real, indexed: bool, ids: IdCounter, paths: seq<object>)
      modifies ids
      ensures this.x == x && this.y == y
      ensures indexed ==> index == Some(old(ids.lastId)) && ids.lastId == old(ids.lastId) + 1
      ensures !indexed ==> index == None && ids.lastId == old(ids.lastId)
      ensures this.paths == paths && regions == {} && Valid()
    {
      this.x := x;
      this.y := y;
      index := if indexed then Some(ids.lastId) else None;
      this.paths := paths;
      numPaths := |paths|;
      regions := {};
      new;
      if indexed {
        ids.lastId := ids.lastId + 1;
      }
    }

    function Pos(): Point
    {
      Point(x, y)
    }

    /** A vertex is open while fewer than three path ends meet at it. */
    predicate Available()
      reads this
      ensures Valid() ==> (Available() <==> numPaths < 3)
    {
      |paths| < 3
    }

    method AddToPath(path: object)
      modifies this`paths, this`numPaths
      ensures paths == old(paths) + [path] && Valid()
    {
      paths := paths + [path];
      numPaths := |paths|;
    }
  }
}
