/**
 * The puzzle-face grid generator of generator/drawFace.js: the concentric
 * rings of vertices of a triangular, square or pentagonal face, and the
 * paths that link neighbouring vertices. Vertices and paths are the
 * generator's mutable objects; a path object is shared by its two end
 * vertices.
 *
 * The SVG drawing is left out; the face's `CoordinateSystems` entry, which
 * lives in a module that is not part of this model, is a parameter.
 */
module DrawFace {
  import opened Wrappers

  /** A vertex's `[ring, index along the ring]`. */
  datatype Index = Index(ring: int, position: int)

  datatype Point = Point(x: real, y: real)

  /** The fields of a `CoordinateSystems` entry the generator reads. */
  datatype GridSystem = GridSystem(
    numSegments: int,
    verticesPerSegmentPerRing: int,
    verticesPerCorner: int,
    ringShiftUnit: Point,
    segmentUnitVectors: seq<Point>)

  /** What the generator needs of a coordinate system: segments to walk, and a unit vector for each. */
  predicate SystemValid(sys: GridSystem) {
    && sys.numSegments > 0
    && sys.verticesPerSegmentPerRing > 0
    && |sys.segmentUnitVectors| >= sys.numSegments
  }

  /** A path between two vertices, identified by its end points' indices. */
  class Path {
    const indices: (Index, Index)
    var active: bool

    constructor (indices: (Index, Index))
      ensures this.indices == indices && !active
    {
      this.indices := indices;
      active := false;
    }
  }

  class GridVertex {
    const indices: Index
    const coordinates: Point
    var paths: seq<Path>

    constructor (indices: Index, coordinates: Point)
      ensures this.indices == indices && this.coordinates == coordinates && paths == []
    {
      this.indices := indices;
      this.coordinates := coordinates;
      paths := [];
    }
  }

  // ---------------------------------------------------------------------
  // constructVertices

  /** The centre vertex's position: `depth` ring shifts back from the origin. */
  function Center(sys: GridSystem, depth: nat): Point {
    Point(-sys.ringShiftUnit.x * depth as real, -sys.ringShiftUnit.y * depth as real)
  }

  /** Where ring `r` starts: `r` ring shifts out from the centre. */
  function RingStart(sys: GridSystem, depth: nat, r: nat): Point {
    var center := Center(sys, depth);
    Point(center.x + sys.ringShiftUnit.x * r as real, center.y + sys.ringShiftUnit.y * r as real)
  }

  function VerticesPerSegment(sys: GridSystem, r: nat): int {
    sys.verticesPerSegmentPerRing * r
  }

  /** How many vertices ring `r` holds. */
  function RingSize(sys: GridSystem, r: nat): int {
    sys.numSegments * VerticesPerSegment(sys, r)
  }

  lemma MulMonotone(a: int, b: int, n: int)
    requires a <= b && 0 <= n
    ensures a * n <= b * n
  {
    assert b * n - a * n == (b - a) * n;
  }

  /** Vertex `seg * n + c` of a ring with `n` vertices per segment lies in segment `seg`. */
  lemma SegmentOfIndex(seg: nat, n: int, c: nat)
    requires 0 <= c < n
    ensures (seg * n + c) / n == seg
  {
    var k := seg * n + c;
    var q := k / n;
    assert q * n + k % n == seg * n + c;
    if q > seg {
      MulMonotone(seg + 1, q, n);
      assert false;
    } else if q < seg {
      MulMonotone(q + 1, seg, n);
      assert false;
    }
  }

  /** Every index of a ring falls in one of its segments. */
  lemma IndexInSomeSegment(k: nat, n: int, segments: nat)
    requires n > 0 && k < segments * n
    ensures k / n < segments
  {
    var q := k / n;
    assert q * n + k % n == k;
    if q >= segments {
      MulMonotone(segments, q, n);
      assert false;
    }
  }

  /**
   * Where vertex `k` of ring `r` sits: the ring's start for the first, and
   * otherwise the vertex before it moved by the unit vector of that
   * vertex's segment.
   */
  function RingCoordinates(sys: GridSystem, depth: nat, r: nat, k: nat): Point
    requires SystemValid(sys) && 1 <= r && k <= RingSize(sys, r)
  {
    if k == 0 then RingStart(sys, depth, r)
    else
      var previous := RingCoordinates(sys, depth, r, k - 1);
      var n := VerticesPerSegment(sys, r);
      assert n > 0 by {
        assert sys.verticesPerSegmentPerRing * r >= sys.verticesPerSegmentPerRing * 1;
      }
      IndexInSomeSegment(k - 1, n, sys.numSegments);
      var unitVector := sys.segmentUnitVectors[(k - 1) / n];
      Point(previous.x + unitVector.x, previous.y + unitVector.y)
  }

  /** The vertices of ring `r` in order: each carries its own indices and coordinates. */
  ghost predicate RingLayout(sys: GridSystem, depth: nat, r: nat, ring: seq<GridVertex>)
    requires SystemValid(sys) && 1 <= r && |ring| <= RingSize(sys, r)
  {
    forall k :: 0 <= k < |ring| ==>
      ring[k].indices == Index(r, k) && ring[k].coordinates == RingCoordinates(sys, depth, r, k)
  }

  /** No vertex of the ring has a path yet. */
  ghost predicate NoPaths(ring: seq<GridVertex>)
    reads set k | 0 <= k < |ring| :: ring[k]
  {
    forall k :: 0 <= k < |ring| ==> ring[k].paths == []
  }

  /** One step along ring `r`, inside segment `seg`, moves by that segment's unit vector. */
  lemma RingCoordinatesStep(sys: GridSystem, depth: nat, r: nat, seg: nat, c: nat)
    requires SystemValid(sys) && 1 <= r && seg < sys.numSegments && 0 <= c < VerticesPerSegment(sys, r)
    requires seg * VerticesPerSegment(sys, r) + c < RingSize(sys, r)
    ensures var k := seg * VerticesPerSegment(sys, r) + c;
      var previous := RingCoordinates(sys, depth, r, k);
      RingCoordinates(sys, depth, r, k + 1)
        == Point(previous.x + sys.segmentUnitVectors[seg].x, previous.y + sys.segmentUnitVectors[seg].y)
  {
    SegmentOfIndex(seg, VerticesPerSegment(sys, r), c);
  }

  /** Segment `seg` of ring `r` is non-empty and ends inside the ring. */
  lemma SegmentBounds(sys: GridSystem, r: nat, seg: nat)
    requires SystemValid(sys) && 1 <= r && seg < sys.numSegments
    ensures VerticesPerSegment(sys, r) > 0
    ensures seg * VerticesPerSegment(sys, r) + VerticesPerSegment(sys, r) == (seg + 1) * VerticesPerSegment(sys, r)
    ensures (seg + 1) * VerticesPerSegment(sys, r) <= RingSize(sys, r)
  {
    MulMonotone(1, r, sys.verticesPerSegmentPerRing);
    MulMonotone(seg + 1, sys.numSegments, VerticesPerSegment(sys, r));
  }

  /**
   * One pass of the innermost loop of `constructVertices`: vertex `c` of
   * segment `segmentIdx`, at the running coordinates.
   */
  method AppendVertex(sys: GridSystem, depth: nat, r: nat, ring: seq<GridVertex>, coordinates: Point, segmentIdx: nat, c: nat)
    returns (ring': seq<GridVertex>)
    requires SystemValid(sys) && 1 <= r && segmentIdx < sys.numSegments && c < VerticesPerSegment(sys, r)
    requires |ring| == segmentIdx * VerticesPerSegment(sys, r) + c && |ring| < RingSize(sys, r)
    requires coordinates == RingCoordinates(sys, depth, r, |ring|)
    requires RingLayout(sys, depth, r, ring) && NoPaths(ring)
    ensures |ring'| == |ring| + 1 && ring'[..|ring|] == ring && fresh(ring'[|ring|])
    ensures RingLayout(sys, depth, r, ring') && NoPaths(ring')
  {
    var countIdx := segmentIdx * VerticesPerSegment(sys, r) + c;
    var vertex := new GridVertex(Index(r, countIdx), coordinates);
    ring' := ring + [vertex];
  }

  /**
   * The innermost loop of `constructVertices`: the vertices of segment
   * `segmentIdx` of ring `r`, each at the running coordinates, which then
   * step along the segment's unit vector.
   */
  method AppendSegment(sys: GridSystem, depth: nat, r: nat, ring: seq<GridVertex>, coordinates: Point, segmentIdx: nat)
    returns (ring': seq<GridVertex>, coordinates': Point)
    requires SystemValid(sys) && 1 <= r && segmentIdx < sys.numSegments
    requires |ring| == segmentIdx * VerticesPerSegment(sys, r)
    requires |ring| <= RingSize(sys, r)
    requires coordinates == RingCoordinates(sys, depth, r, |ring|)
    requires RingLayout(sys, depth, r, ring) && NoPaths(ring)
    ensures |ring'| == |ring| + VerticesPerSegment(sys, r) && |ring'| <= RingSize(sys, r)
    ensures ring'[..|ring|] == ring
    ensures coordinates' == RingCoordinates(sys, depth, r, |ring'|)
    ensures RingLayout(sys, depth, r, ring') && NoPaths(ring')
    ensures forall k :: |ring| <= k < |ring'| ==> fresh(ring'[k])
  {
    var verticesPerSegment := VerticesPerSegment(sys, r);
    SegmentBounds(sys, r, segmentIdx);
    var base := |ring|;
    var unitVector := sys.segmentUnitVectors[segmentIdx];
    ring', coordinates' := ring, coordinates;
    var segmentCountIdx := 0;
    while segmentCountIdx < verticesPerSegment
      invariant 0 <= segmentCountIdx <= verticesPerSegment
      invariant |ring'| == base + segmentCountIdx
      invariant ring'[..base] == ring
      invariant coordinates' == RingCoordinates(sys, depth, r, |ring'|)
      invariant RingLayout(sys, depth, r, ring') && NoPaths(ring')
      invariant forall k :: base <= k < |ring'| ==> fresh(ring'[k])
    {
      ghost var before := ring';
      ring' := AppendVertex(sys, depth, r, ring', coordinates', segmentIdx, segmentCountIdx);
      assert forall k :: 0 <= k < |before| ==> ring'[k] == before[k];
      RingCoordinatesStep(sys, depth, r, segmentIdx, segmentCountIdx);
      coordinates' := Point(coordinates'.x + unitVector.x, coordinates'.y + unitVector.y);
      segmentCountIdx := segmentCountIdx + 1;
    }
  }

  /** The segment loop of `constructVertices`: the whole of ring `r`. */
  method BuildRing(sys: GridSystem, depth: nat, r: nat) returns (ring: seq<GridVertex>)
    requires SystemValid(sys) && 1 <= r
    ensures |ring| == RingSize(sys, r)
    ensures RingLayout(sys, depth, r, ring) && NoPaths(ring)
    ensures forall k :: 0 <= k < |ring| ==> fresh(ring[k])
  {
    var center := Center(sys, depth);
    var ringShift := Point(sys.ringShiftUnit.x * r as real, sys.ringShiftUnit.y * r as real);
    var coordinates := Point(center.x + ringShift.x, center.y + ringShift.y);
    ring := [];
    assert 0 <= RingSize(sys, r);
    var segmentIdx := 0;
    while segmentIdx < sys.numSegments
      invariant 0 <= segmentIdx <= sys.numSegments
      invariant |ring| == segmentIdx * VerticesPerSegment(sys, r)
      invariant |ring| <= RingSize(sys, r)
      invariant coordinates == RingCoordinates(sys, depth, r, |ring|)
      invariant RingLayout(sys, depth, r, ring) && NoPaths(ring)
      invariant forall k :: 0 <= k < |ring| ==> fresh(ring[k])
    {
      ghost var before := ring;
      SegmentBounds(sys, r, segmentIdx);
      ring, coordinates := AppendSegment(sys, depth, r, ring, coordinates, segmentIdx);
      assert forall k :: 0 <= k < |before| ==> ring[k] == before[k];
      segmentIdx := segmentIdx + 1;
    }
  }

  /**
   * `constructVertices`: ring 0 holds the centre alone; ring `r` for
   * 1 <= r <= depth holds `numSegments * verticesPerSegmentPerRing * r`
   * vertices, laid out segment by segment.
   */
  method ConstructVertices(sys: GridSystem, depth: nat) returns (vertices: seq<seq<GridVertex>>)
    requires SystemValid(sys)
    ensures |vertices| == depth + 1
    ensures |vertices[0]| == 1 && fresh(vertices[0][0])
    ensures vertices[0][0].indices == Index(0, 0) && vertices[0][0].paths == []
    ensures vertices[0][0].coordinates == Center(sys, depth)
    ensures forall r :: 1 <= r <= depth ==> |vertices[r]| == RingSize(sys, r)
    ensures forall r :: 1 <= r <= depth ==> RingLayout(sys, depth, r, vertices[r]) && NoPaths(vertices[r])
    ensures forall r, k :: 0 <= r <= depth && 0 <= k < |vertices[r]| ==> fresh(vertices[r][k])
    ensures GridOf(sys, vertices)
  {
    var centerVertex := new GridVertex(Index(0, 0), Center(sys, depth));
    vertices := [[centerVertex]];
    var ringIdx := 1;
    while ringIdx <= depth
      invariant 1 <= ringIdx <= depth + 1
      invariant |vertices| == ringIdx
      invariant vertices[0] == [centerVertex] && centerVertex.paths == []
      invariant forall r :: 1 <= r < ringIdx ==> |vertices[r]| == RingSize(sys, r)
      invariant forall r :: 1 <= r < ringIdx ==> RingLayout(sys, depth, r, vertices[r]) && NoPaths(vertices[r])
      invariant forall r, k :: 0 <= r < ringIdx && 0 <= k < |vertices[r]| ==> fresh(vertices[r][k])
    {
      var ring := BuildRing(sys, depth, ringIdx);
      vertices := vertices + [ring];
      ringIdx := ringIdx + 1;
    }
  }

  // ---------------------------------------------------------------------
  // createPath

  /**
   * A path's key matches one of the two keys `createPath` computes: the
   * flattened index pairs compare equal exactly when the pairs are equal.
   */
  predicate Joins(indices: (Index, Index), a: Index, b: Index) {
    indices == (a, b) || indices == (b, a)
  }

  /** Some path in `paths` joins `a` and `b`, in either order. */
  ghost predicate HasPath(paths: seq<Path>, a: Index, b: Index) {
    exists p :: p in paths && Joins(p.indices, a, b)
  }

  /** No two paths of a vertex join the same pair of end points. */
  ghost predicate NoDuplicatePaths(paths: seq<Path>) {
    forall i, j :: 0 <= i < j < |paths| ==> !Joins(paths[i].indices, paths[j].indices.0, paths[j].indices.1)
  }

  /** `paths.find(...)`: the first path whose key is one of the two keys. */
  function FindPath(paths: seq<Path>, a: Index, b: Index): (r: Option<Path>)
    ensures r.Some? ==> r.value in paths && Joins(r.value.indices, a, b)
    ensures r.None? <==> !HasPath(paths, a, b)
  {
    if |paths| == 0 then None
    else if Joins(paths[0].indices, a, b) then Some(paths[0])
    else
      var r := FindPath(paths[1..], a, b);
      assert forall p :: p in paths && p != paths[0] ==> p in paths[1..];
      r
  }

  /** Adding a path whose ends no path joins yet keeps the paths free of duplicates. */
  lemma AppendKeepsNoDuplicates(paths: seq<Path>, p: Path)
    requires NoDuplicatePaths(paths)
    requires !HasPath(paths, p.indices.0, p.indices.1)
    ensures NoDuplicatePaths(paths + [p])
  {
    var s := paths + [p];
    forall i, j | 0 <= i < j < |s|
      ensures !Joins(s[i].indices, s[j].indices.0, s[j].indices.1)
    {
      if j == |paths| {
        assert s[i] in paths;
      }
    }
  }

  /**
   * `createPath(from, to)`: a new inactive path, whose indices end up as
   * `[to, from]` because `reverse()` turns the pair round in place before it
   * is stored, is pushed onto each end vertex that has no path between the
   * two yet. `newPath` is that object; when both ends take it they share it.
   */
  method CreatePath(from: GridVertex, to: GridVertex) returns (ghost newPath: Path)
    modifies from, to
    ensures fresh(newPath) && newPath.indices == (to.indices, from.indices) && !newPath.active
    ensures from.paths == old(from.paths)
      + (if old(HasPath(from.paths, from.indices, to.indices)) then [] else [newPath])
    ensures from != to ==>
      to.paths == old(to.paths) + (if old(HasPath(to.paths, from.indices, to.indices)) then [] else [newPath])
  {
    var keyA := (from.indices, to.indices);
    var keyB := (to.indices, from.indices);
    var path := new Path(keyB);
    newPath := path;
    var existingFrom := FindPath(from.paths, keyA.0, keyA.1);
    if existingFrom.None? {
      from.paths := from.paths + [path];
    }
    var existingTo := FindPath(to.paths, keyA.0, keyA.1);
    if existingTo.None? {
      to.paths := to.paths + [path];
    }
  }

  /** After `createPath` both end vertices have a path between the two. */
  lemma CreatePathLinks(fromBefore: seq<Path>, fromAfter: seq<Path>, a: Index, b: Index, newPath: Path)
    requires newPath.indices == (b, a)
    requires fromAfter == fromBefore + (if HasPath(fromBefore, a, b) then [] else [newPath])
    ensures HasPath(fromAfter, a, b)
    ensures NoDuplicatePaths(fromBefore) ==> NoDuplicatePaths(fromAfter)
    ensures HasPath(fromBefore, a, b) ==> fromAfter == fromBefore
  {
    if !HasPath(fromBefore, a, b) {
      assert newPath in fromAfter;
      if NoDuplicatePaths(fromBefore) {
        assert !HasPath(fromBefore, newPath.indices.0, newPath.indices.1) by {
          forall p | p in fromBefore ensures !Joins(p.indices, b, a) {
            assert !Joins(p.indices, a, b);
          }
        }
        AppendKeepsNoDuplicates(fromBefore, newPath);
      }
    } else {
      assert fromAfter == fromBefore;
    }
  }

  /** Which end is called `from` does not matter to the key comparison. */
  lemma HasPathSymmetric(paths: seq<Path>, a: Index, b: Index)
    ensures HasPath(paths, a, b) <==> HasPath(paths, b, a)
  {
    if HasPath(paths, a, b) {
      var p :| p in paths && Joins(p.indices, a, b);
      assert Joins(p.indices, b, a);
    }
    if HasPath(paths, b, a) {
      var p :| p in paths && Joins(p.indices, b, a);
      assert Joins(p.indices, a, b);
    }
  }

  /**
   * `createPath` is idempotent: once one call has run, a second one with the
   * same or with swapped end points leaves the vertex's paths as they are.
   */
  lemma CreatePathIdempotent(before: seq<Path>, a: Index, b: Index, first: Path, second: Path)
    requires first.indices == (b, a)
    ensures var mid := before + (if HasPath(before, a, b) then [] else [first]);
      && mid + (if HasPath(mid, a, b) then [] else [second]) == mid
      && mid + (if HasPath(mid, b, a) then [] else [second]) == mid
  {
    var mid := before + (if HasPath(before, a, b) then [] else [first]);
    CreatePathLinks(before, mid, a, b, first);
    HasPathSymmetric(mid, a, b);
  }

  // ---------------------------------------------------------------------
  // The link loops of drawTriangle, drawSquare and drawPentagon

  /** The three face generators; they share the ring/segment loop nest and differ in what each vertex links to. */
  datatype Shape = Triangle | Square | Pentagon

  /** Every vertex object of the grid. */
  ghost function Vertices(grid: seq<seq<GridVertex>>): set<GridVertex> {
    set r, k | 0 <= r < |grid| && 0 <= k < |grid[r]| :: grid[r][k]
  }

  /** The paths every vertex holds at one moment. */
  ghost function Snapshot(grid: seq<seq<GridVertex>>): map<GridVertex, seq<Path>>
    reads Vertices(grid)
  {
    map v | v in Vertices(grid) :: v.paths
  }

  /** `vertices[r][i]`: undefined when `i` is outside ring `r`. */
  function Lookup(ring: seq<GridVertex>, i: int): Option<GridVertex> {
    if 0 <= i < |ring| then Some(ring[i]) else None
  }

  /** The grid `constructVertices` returns for `sys`: ring sizes and each vertex's indices. */
  ghost predicate GridOf(sys: GridSystem, grid: seq<seq<GridVertex>>) {
    && SystemValid(sys)
    && |grid| >= 1 && |grid[0]| == 1
    && (forall r :: 1 <= r < |grid| ==> |grid[r]| == RingSize(sys, r))
    && (forall r, k :: 0 <= r < |grid| && 0 <= k < |grid[r]| ==> grid[r][k].indices == Index(r, k))
  }

  /** Paths are only ever added: each vertex's list at `after` extends its list at `before`. */
  ghost predicate Grows(before: map<GridVertex, seq<Path>>, after: map<GridVertex, seq<Path>>) {
    before.Keys == after.Keys && forall v :: v in before ==> before[v] <= after[v]
  }

  ghost predicate AllNoDuplicates(m: map<GridVertex, seq<Path>>) {
    forall v :: v in m ==> NoDuplicatePaths(m[v])
  }

  /** Vertex `k` of ring `r` and vertex `j` of ring `r2` each hold a path between the two. */
  ghost predicate Linked(grid: seq<seq<GridVertex>>, m: map<GridVertex, seq<Path>>, r: int, k: int, r2: int, j: int) {
    && 0 <= r < |grid| && 0 <= k < |grid[r]| && 0 <= r2 < |grid| && 0 <= j < |grid[r2]|
    && grid[r][k] in m && grid[r2][j] in m
    && HasPath(m[grid[r][k]], Index(r, k), Index(r2, j))
    && HasPath(m[grid[r2][j]], Index(r, k), Index(r2, j))
  }

  /** Vertices `k` and `j` of ring `r` each hold a path between the two. */
  ghost predicate Adjacent(grid: seq<seq<GridVertex>>, m: map<GridVertex, seq<Path>>, r: int, k: int, j: int) {
    Linked(grid, m, r, k, r, j)
  }

  /**
   * The ring neighbour each generator links a vertex to: the predecessor
   * for triangles and pentagons (vertex 0 wraps to the last), the successor
   * for squares (the last wraps to 0).
   */
  function Neighbour(shape: Shape, k: int, len: int): (j: int)
    requires 0 <= k < len
    ensures 0 <= j < len
    ensures shape != Square ==> (j + 1) % len == k
    ensures shape == Square ==> j == (k + 1) % len
  {
    if shape == Square then (if k == len - 1 then 0 else k + 1)
    else if k == 0 then len - 1 else k - 1
  }

  /** Every vertex before `upto` in ring `r`, and every vertex of the rings inside it, is linked to its ring neighbour. */
  ghost predicate LinkedBefore(shape: Shape, grid: seq<seq<GridVertex>>, m: map<GridVertex, seq<Path>>, r: int, upto: int) {
    forall r', k :: 1 <= r' < |grid| && 0 <= k < |grid[r']| && (r' < r || (r' == r && k < upto)) ==>
      Adjacent(grid, m, r', k, Neighbour(shape, k, |grid[r']|))
  }

  lemma HasPathGrows(before: seq<Path>, after: seq<Path>, a: Index, b: Index)
    requires before <= after && HasPath(before, a, b)
    ensures HasPath(after, a, b)
  {
    var p :| p in before && Joins(p.indices, a, b);
    var i :| 0 <= i < |before| && before[i] == p;
    assert after[i] == p;
  }

  lemma {:induction false} GrowsTransitive(a: map<GridVertex, seq<Path>>, b: map<GridVertex, seq<Path>>, c: map<GridVertex, seq<Path>>)
    requires Grows(a, b) && Grows(b, c)
    ensures Grows(a, c)
  {
    forall v | v in a ensures a[v] <= c[v] {
      assert a[v] == b[v][..|a[v]|];
      assert b[v] == c[v][..|b[v]|];
    }
  }

  /** Links, once made, survive any later additions. */
  lemma {:induction false} LinksSurvive(shape: Shape, grid: seq<seq<GridVertex>>, a: map<GridVertex, seq<Path>>, b: map<GridVertex, seq<Path>>, r: int, upto: int)
    requires Grows(a, b) && LinkedBefore(shape, grid, a, r, upto)
    ensures LinkedBefore(shape, grid, b, r, upto)
  {
    forall r', k | 1 <= r' < |grid| && 0 <= k < |grid[r']| && (r' < r || (r' == r && k < upto))
      ensures Adjacent(grid, b, r', k, Neighbour(shape, k, |grid[r']|))
    {
      var j := Neighbour(shape, k, |grid[r']|);
      assert Adjacent(grid, a, r', k, j);
      HasPathGrows(a[grid[r'][k]], b[grid[r'][k]], Index(r', k), Index(r', j));
      HasPathGrows(a[grid[r'][j]], b[grid[r'][j]], Index(r', k), Index(r', j));
    }
  }

  /** One link, once made, survives any later additions. */
  lemma {:induction false} LinkSurvives(grid: seq<seq<GridVertex>>, a: map<GridVertex, seq<Path>>, b: map<GridVertex, seq<Path>>, r: int, k: int, r2: int, j: int)
    requires Grows(a, b) && Linked(grid, a, r, k, r2, j)
    ensures Linked(grid, b, r, k, r2, j)
  {
    HasPathGrows(a[grid[r][k]], b[grid[r][k]], Index(r, k), Index(r2, j));
    HasPathGrows(a[grid[r2][j]], b[grid[r2][j]], Index(r, k), Index(r2, j));
  }

  /**
   * A `createPath` call between two grid vertices, seen from the whole
   * grid: only the two ends gain a path, both end up holding one between
   * the two, and no vertex gains a duplicate.
   */
  method Connect(grid: seq<seq<GridVertex>>, from: GridVertex, to: GridVertex)
    requires from in Vertices(grid) && to in Vertices(grid)
    requires AllNoDuplicates(Snapshot(grid))
    modifies from, to
    ensures Grows(old(Snapshot(grid)), Snapshot(grid)) && AllNoDuplicates(Snapshot(grid))
    ensures HasPath(from.paths, from.indices, to.indices) && HasPath(to.paths, from.indices, to.indices)
  {
    ghost var before := Snapshot(grid);
    ghost var newPath := CreatePath(from, to);
    CreatePathLinks(before[from], from.paths, from.indices, to.indices, newPath);
    if from != to {
      CreatePathLinks(before[to], to.paths, from.indices, to.indices, newPath);
    }
    ghost var after := Snapshot(grid);
    forall v | v in before ensures before[v] <= after[v] && NoDuplicatePaths(after[v]) {
      if v != from && v != to {
        assert after[v] == before[v];
      }
    }
  }

  /** Two positions of the grid hold the same vertex object only if they are the same position. */
  lemma GridVertexAt(sys: GridSystem, grid: seq<seq<GridVertex>>, r: int, k: int)
    requires GridOf(sys, grid) && 0 <= r < |grid| && 0 <= k < |grid[r]|
    ensures grid[r][k] in Vertices(grid) && grid[r][k].indices == Index(r, k)
  {
  }

  /** `if (innerVertex) createPath(vertex, innerVertex)` for `vertex = vertices[r][k]` and `innerVertex = vertices[ring][idx]`. */
  method ConnectIfPresent(sys: GridSystem, grid: seq<seq<GridVertex>>, r: nat, k: nat, ring: nat, idx: int)
    requires GridOf(sys, grid) && r < |grid| && k < |grid[r]| && ring < |grid|
    requires AllNoDuplicates(Snapshot(grid))
    modifies Vertices(grid)
    ensures Grows(old(Snapshot(grid)), Snapshot(grid)) && AllNoDuplicates(Snapshot(grid))
    ensures 0 <= idx < |grid[ring]| ==> Linked(grid, Snapshot(grid), r, k, ring, idx)
    ensures !(0 <= idx < |grid[ring]|) ==> Snapshot(grid) == old(Snapshot(grid))
  {
    GridVertexAt(sys, grid, r, k);
    var innerVertex := Lookup(grid[ring], idx);
    if innerVertex.Some? {
      GridVertexAt(sys, grid, ring, idx);
      Connect(grid, grid[r][k], innerVertex.value);
    }
  }

  /** `previousCornerVertexCountIdx` of `drawTriangle`. */
  function TrianglePreviousCornerIdx(countIdx: int, ringLength: int): int {
    if countIdx == 1 then ringLength - 1 else countIdx - 2
  }

  /** `previousCountIdx` of `drawTriangle`: the inner-ring vertex behind the current one. */
  function TrianglePreviousInnerIdx(sys: GridSystem, r: int, segmentIdx: int, countIdx: int, ringLength: int): int {
    if r == 1 then 0
    else if countIdx == ringLength - 1 then 0
    else countIdx - ((segmentIdx + 1) * sys.verticesPerCorner - 1)
  }

  /** `nextCountIdx` of `drawTriangle`: the inner-ring vertex ahead of the current one. */
  function TriangleNextInnerIdx(sys: GridSystem, r: int, segmentIdx: int, countIdx: int, ringLength: int): int {
    if r == 1 then 0
    else if countIdx == ringLength - 2 then 0
    else countIdx - ((segmentIdx + 1) * sys.verticesPerCorner - 2)
  }

  /**
   * The links `drawTriangle` makes besides the predecessor: to the corner
   * before a segment's second vertex, which always exists, and to the
   * inner-ring vertices that exist.
   */
  method LinkTriangleInner(sys: GridSystem, grid: seq<seq<GridVertex>>, r: nat, segmentIdx: nat, segmentCountIdx: nat, countIdx: nat)
    requires GridOf(sys, grid) && 1 <= r < |grid|
    requires segmentCountIdx < VerticesPerSegment(sys, r) && segmentCountIdx <= countIdx < |grid[r]|
    requires AllNoDuplicates(Snapshot(grid))
    modifies Vertices(grid)
    ensures Grows(old(Snapshot(grid)), Snapshot(grid)) && AllNoDuplicates(Snapshot(grid))
    ensures segmentCountIdx == 1 ==>
      Linked(grid, Snapshot(grid), r, countIdx, r, TrianglePreviousCornerIdx(countIdx, |grid[r]|))
    ensures segmentCountIdx > 1 && 0 <= TrianglePreviousInnerIdx(sys, r, segmentIdx, countIdx, |grid[r]|) < |grid[r - 1]| ==>
      Linked(grid, Snapshot(grid), r, countIdx, r - 1, TrianglePreviousInnerIdx(sys, r, segmentIdx, countIdx, |grid[r]|))
    ensures (0 < segmentCountIdx < VerticesPerSegment(sys, r) - 1
             && 0 <= TriangleNextInnerIdx(sys, r, segmentIdx, countIdx, |grid[r]|) < |grid[r - 1]|) ==>
      Linked(grid, Snapshot(grid), r, countIdx, r - 1, TriangleNextInnerIdx(sys, r, segmentIdx, countIdx, |grid[r]|))
  {
    ghost var start := Snapshot(grid);
    var ringVertices := grid[r];
    var vertex := ringVertices[countIdx];
    GridVertexAt(sys, grid, r, countIdx);
    var previousCornerVertexCountIdx := TrianglePreviousCornerIdx(countIdx, |ringVertices|);
    if segmentCountIdx == 1 {
      var previousCornerVertex := ringVertices[previousCornerVertexCountIdx];
      GridVertexAt(sys, grid, r, previousCornerVertexCountIdx);
      Connect(grid, vertex, previousCornerVertex);
    }
    ghost var mid := Snapshot(grid);
    var previousRingIdx := r - 1;
    var previousCountIdx := TrianglePreviousInnerIdx(sys, r, segmentIdx, countIdx, |ringVertices|);
    if segmentCountIdx > 1 {
      ConnectIfPresent(sys, grid, r, countIdx, previousRingIdx, previousCountIdx);
    }
    ghost var mid2 := Snapshot(grid);
    GrowsTransitive(start, mid, mid2);
    if segmentCountIdx == 1 {
      LinkSurvives(grid, mid, mid2, r, countIdx, r, previousCornerVertexCountIdx);
    }
    var nextCountIdx := TriangleNextInnerIdx(sys, r, segmentIdx, countIdx, |ringVertices|);
    if segmentCountIdx > 0 && segmentCountIdx < VerticesPerSegment(sys, r) - 1 {
      ConnectIfPresent(sys, grid, r, countIdx, previousRingIdx, nextCountIdx);
    }
    ghost var final := Snapshot(grid);
    GrowsTransitive(start, mid2, final);
    if segmentCountIdx == 1 {
      LinkSurvives(grid, mid2, final, r, countIdx, r, previousCornerVertexCountIdx);
    }
    if segmentCountIdx > 1 && 0 <= previousCountIdx < |grid[previousRingIdx]| {
      LinkSurvives(grid, mid2, final, r, countIdx, previousRingIdx, previousCountIdx);
    }
  }

  /**
   * One pass of `drawTriangle`'s innermost loop, for vertex
   * `segmentIdx * verticesPerSegment + segmentCountIdx` of ring `r`: link it
   * to its predecessor, then make the other links.
   */
  method LinkTriangleVertex(sys: GridSystem, grid: seq<seq<GridVertex>>, r: nat, segmentIdx: nat, segmentCountIdx: nat)
    requires GridOf(sys, grid) && 1 <= r < |grid|
    requires segmentIdx < sys.numSegments && segmentCountIdx < VerticesPerSegment(sys, r)
    requires AllNoDuplicates(Snapshot(grid))
    modifies Vertices(grid)
    ensures Grows(old(Snapshot(grid)), Snapshot(grid)) && AllNoDuplicates(Snapshot(grid))
    ensures var k := segmentIdx * VerticesPerSegment(sys, r) + segmentCountIdx;
      k < |grid[r]| && Adjacent(grid, Snapshot(grid), r, k, Neighbour(Triangle, k, |grid[r]|))
  {
    ghost var start := Snapshot(grid);
    var ringVertices := grid[r];
    var verticesPerSegment := VerticesPerSegment(sys, r);
    SegmentBounds(sys, r, segmentIdx);
    var countIdx := segmentIdx * verticesPerSegment + segmentCountIdx;
    var vertex := ringVertices[countIdx];
    var previousVertexCountIdx := if countIdx == 0 then |ringVertices| - 1 else countIdx - 1;
    var previousVertex := grid[r][previousVertexCountIdx];
    GridVertexAt(sys, grid, r, countIdx);
    GridVertexAt(sys, grid, r, previousVertexCountIdx);
    Connect(grid, vertex, previousVertex);
    ghost var linked := Snapshot(grid);
    assert Adjacent(grid, linked, r, countIdx, previousVertexCountIdx);
    LinkTriangleInner(sys, grid, r, segmentIdx, segmentCountIdx, countIdx);
    ghost var final := Snapshot(grid);
    GrowsTransitive(start, linked, final);
    LinkSurvives(grid, linked, final, r, countIdx, r, previousVertexCountIdx);
  }

  /** `directInnerIdx` of `drawSquare` away from a segment's first vertex. */
  function SquareDirectInnerIdx(sys: GridSystem, segmentIdx: int, countIdx: int, ringLength: int): int {
    if countIdx == ringLength - 1 then 0
    else countIdx - (1 + segmentIdx * (sys.verticesPerCorner * 2))
  }

  /**
   * The links `drawSquare` makes besides the successor: at a segment's first
   * vertex, to the vertex before it in the same ring; elsewhere to the
   * inner-ring vertex when it exists. `previousIdx` is undefined (the
   * source's `ringVertices - 1` is not a number) for vertex 0, where it is
   * never read.
   */
  method LinkSquareInner(sys: GridSystem, grid: seq<seq<GridVertex>>, r: nat, segmentIdx: nat, segmentCountIdx: nat, countIdx: nat)
    requires GridOf(sys, grid) && 1 <= r < |grid|
    requires segmentCountIdx <= countIdx < |grid[r]|
    requires AllNoDuplicates(Snapshot(grid))
    modifies Vertices(grid)
    ensures Grows(old(Snapshot(grid)), Snapshot(grid)) && AllNoDuplicates(Snapshot(grid))
    ensures segmentCountIdx == 0 ==>
      Linked(grid, Snapshot(grid), r, countIdx, r, if countIdx == 0 then |grid[r]| - 1 else countIdx - 1)
    ensures (segmentCountIdx > 0 && 0 <= SquareDirectInnerIdx(sys, segmentIdx, countIdx, |grid[r]|) < |grid[r - 1]|) ==>
      Linked(grid, Snapshot(grid), r, countIdx, r - 1, SquareDirectInnerIdx(sys, segmentIdx, countIdx, |grid[r]|))
  {
    var ringVertices := grid[r];
    var previousIdx: Option<int> := if countIdx == 0 then None else Some(countIdx - 1);
    var previousRingIdx := r - 1;
    if segmentCountIdx == 0 {
      var directInnerIdx := if countIdx == 0 then |ringVertices| - 1 else previousIdx.value;
      ConnectIfPresent(sys, grid, r, countIdx, r, directInnerIdx);
    } else {
      var directInnerIdx := SquareDirectInnerIdx(sys, segmentIdx, countIdx, |ringVertices|);
      ConnectIfPresent(sys, grid, r, countIdx, previousRingIdx, directInnerIdx);
    }
  }

  /**
   * One pass of `drawSquare`'s innermost loop: link the vertex to its
   * successor, then make the other links.
   */
  method LinkSquareVertex(sys: GridSystem, grid: seq<seq<GridVertex>>, r: nat, segmentIdx: nat, segmentCountIdx: nat)
    requires GridOf(sys, grid) && 1 <= r < |grid|
    requires segmentIdx < sys.numSegments && segmentCountIdx < VerticesPerSegment(sys, r)
    requires AllNoDuplicates(Snapshot(grid))
    modifies Vertices(grid)
    ensures Grows(old(Snapshot(grid)), Snapshot(grid)) && AllNoDuplicates(Snapshot(grid))
    ensures var k := segmentIdx * VerticesPerSegment(sys, r) + segmentCountIdx;
      k < |grid[r]| && Adjacent(grid, Snapshot(grid), r, k, Neighbour(Square, k, |grid[r]|))
  {
    ghost var start := Snapshot(grid);
    var ringVertices := grid[r];
    var verticesPerSegment := VerticesPerSegment(sys, r);
    SegmentBounds(sys, r, segmentIdx);
    var countIdx := segmentIdx * verticesPerSegment + segmentCountIdx;
    var vertex := ringVertices[countIdx];
    var nextIdx := if countIdx == |ringVertices| - 1 then 0 else countIdx + 1;
    var nextVertex := grid[r][nextIdx];
    GridVertexAt(sys, grid, r, countIdx);
    GridVertexAt(sys, grid, r, nextIdx);
    Connect(grid, vertex, nextVertex);
    ghost var linked := Snapshot(grid);
    assert Adjacent(grid, linked, r, countIdx, nextIdx);
    LinkSquareInner(sys, grid, r, segmentIdx, segmentCountIdx, countIdx);
    ghost var final := Snapshot(grid);
    GrowsTransitive(start, linked, final);
    LinkSurvives(grid, linked, final, r, countIdx, r, nextIdx);
  }

  /** `nextInnerIdx` of `drawPentagon`: the inner-ring vertex ahead of the current one. */
  function PentagonNextInnerIdx(sys: GridSystem, r: int, segmentIdx: int, countIdx: int, ringLength: int): int {
    if r == 1 then 0
    else if countIdx == ringLength - 1 then 0
    else countIdx - segmentIdx * sys.verticesPerCorner
  }

  /**
   * Whether `drawPentagon` throws at vertex `segmentCountIdx` of segment
   * `segmentIdx` of ring `r`: the re-link guarded by the previous inner
   * vertex passes the next inner vertex, which is undefined there.
   */
  predicate PentagonRelinkThrows(sys: GridSystem, r: nat, segmentIdx: nat, segmentCountIdx: nat)
    requires SystemValid(sys) && 1 <= r
  {
    var countIdx := segmentIdx * VerticesPerSegment(sys, r) + segmentCountIdx;
    var innerSize := RingSize(sys, r - 1);
    var nextInnerIdx := PentagonNextInnerIdx(sys, r, segmentIdx, countIdx, RingSize(sys, r));
    var previousCountIdx := countIdx - (segmentIdx + 1) * sys.verticesPerCorner;
    && r > 1 && segmentCountIdx > 0
    && 0 <= previousCountIdx < innerSize
    && !(0 <= nextInnerIdx < innerSize)
  }

  /**
   * The second `createPath(vertex, nextInnerVertex)` of `drawPentagon`: the
   * two vertices are linked already, so it changes neither.
   */
  method Relink(from: GridVertex, to: GridVertex)
    requires HasPath(from.paths, from.indices, to.indices) && HasPath(to.paths, from.indices, to.indices)
    modifies from, to
    ensures from.paths == old(from.paths) && to.paths == old(to.paths)
  {
    ghost var fromBefore, toBefore := from.paths, to.paths;
    ghost var newPath := CreatePath(from, to);
    CreatePathLinks(fromBefore, from.paths, from.indices, to.indices, newPath);
    if from != to {
      CreatePathLinks(toBefore, to.paths, from.indices, to.indices, newPath);
    }
  }

  /**
   * The links `drawPentagon` makes besides the predecessor: to the next
   * inner vertex when it exists, and the re-link guarded by the previous
   * inner vertex. `ok` is false when that re-link throws.
   */
  method LinkPentagonInner(sys: GridSystem, grid: seq<seq<GridVertex>>, r: nat, segmentIdx: nat, segmentCountIdx: nat, countIdx: nat)
    returns (ok: bool)
    requires GridOf(sys, grid) && 1 <= r < |grid|
    requires countIdx == segmentIdx * VerticesPerSegment(sys, r) + segmentCountIdx && countIdx < |grid[r]|
    requires AllNoDuplicates(Snapshot(grid))
    modifies Vertices(grid)
    ensures Grows(old(Snapshot(grid)), Snapshot(grid)) && AllNoDuplicates(Snapshot(grid))
    ensures ok <==> !PentagonRelinkThrows(sys, r, segmentIdx, segmentCountIdx)
    ensures 0 <= PentagonNextInnerIdx(sys, r, segmentIdx, countIdx, |grid[r]|) < |grid[r - 1]| ==>
      Linked(grid, Snapshot(grid), r, countIdx, r - 1, PentagonNextInnerIdx(sys, r, segmentIdx, countIdx, |grid[r]|))
  {
    var ringVertices := grid[r];
    var vertex := ringVertices[countIdx];
    GridVertexAt(sys, grid, r, countIdx);
    var previousRingIdx := r - 1;
    var nextInnerIdx := PentagonNextInnerIdx(sys, r, segmentIdx, countIdx, |ringVertices|);
    var nextInnerVertex := Lookup(grid[previousRingIdx], nextInnerIdx);
    ConnectIfPresent(sys, grid, r, countIdx, previousRingIdx, nextInnerIdx);
    ok := true;
    if r > 1 && segmentCountIdx > 0 {
      var previousCountIdx := countIdx - (segmentIdx + 1) * sys.verticesPerCorner;
      var previousInnerVertex := Lookup(grid[previousRingIdx], previousCountIdx);
      if previousInnerVertex.Some? {
        if nextInnerVertex.None? {
          ok := false;
          return;
        }
        GridVertexAt(sys, grid, previousRingIdx, nextInnerIdx);
        ghost var before := Snapshot(grid);
        Relink(vertex, nextInnerVertex.value);
        assert Snapshot(grid) == before;
      }
    }
  }

  /**
   * One pass of `drawPentagon`'s innermost loop: link the vertex to its
   * predecessor, then make the other links; `ok` is false when the pass
   * throws.
   */
  method LinkPentagonVertex(sys: GridSystem, grid: seq<seq<GridVertex>>, r: nat, segmentIdx: nat, segmentCountIdx: nat)
    returns (ok: bool)
    requires GridOf(sys, grid) && 1 <= r < |grid|
    requires segmentIdx < sys.numSegments && segmentCountIdx < VerticesPerSegment(sys, r)
    requires AllNoDuplicates(Snapshot(grid))
    modifies Vertices(grid)
    ensures Grows(old(Snapshot(grid)), Snapshot(grid)) && AllNoDuplicates(Snapshot(grid))
    ensures var k := segmentIdx * VerticesPerSegment(sys, r) + segmentCountIdx;
      k < |grid[r]| && Adjacent(grid, Snapshot(grid), r, k, Neighbour(Pentagon, k, |grid[r]|))
    ensures ok <==> !PentagonRelinkThrows(sys, r, segmentIdx, segmentCountIdx)
  {
    ghost var start := Snapshot(grid);
    var ringVertices := grid[r];
    var verticesPerSegment := VerticesPerSegment(sys, r);
    SegmentBounds(sys, r, segmentIdx);
    var countIdx := segmentIdx * verticesPerSegment + segmentCountIdx;
    var vertex := ringVertices[countIdx];
    var previousVertexIdx := if countIdx == 0 then |ringVertices| - 1 else countIdx - 1;
    var previousVertex := ringVertices[previousVertexIdx];
    GridVertexAt(sys, grid, r, countIdx);
    GridVertexAt(sys, grid, r, previousVertexIdx);
    Connect(grid, vertex, previousVertex);
    ghost var linked := Snapshot(grid);
    assert Adjacent(grid, linked, r, countIdx, previousVertexIdx);
    ok := LinkPentagonInner(sys, grid, r, segmentIdx, segmentCountIdx, countIdx);
    ghost var final := Snapshot(grid);
    GrowsTransitive(start, linked, final);
    LinkSurvives(grid, linked, final, r, countIdx, r, previousVertexIdx);
  }

  /** Whether the generator for `shape` throws at a vertex: only `drawPentagon` can. */
  predicate Throws(shape: Shape, sys: GridSystem, r: nat, segmentIdx: nat, segmentCountIdx: nat)
    requires SystemValid(sys) && 1 <= r
  {
    shape == Pentagon && PentagonRelinkThrows(sys, r, segmentIdx, segmentCountIdx)
  }

  /** One pass of the innermost loop of the generator for `shape`. */
  method LinkVertex(shape: Shape, sys: GridSystem, grid: seq<seq<GridVertex>>, r: nat, segmentIdx: nat, segmentCountIdx: nat)
    returns (ok: bool)
    requires GridOf(sys, grid) && 1 <= r < |grid|
    requires segmentIdx < sys.numSegments && segmentCountIdx < VerticesPerSegment(sys, r)
    requires AllNoDuplicates(Snapshot(grid))
    modifies Vertices(grid)
    ensures Grows(old(Snapshot(grid)), Snapshot(grid)) && AllNoDuplicates(Snapshot(grid))
    ensures var k := segmentIdx * VerticesPerSegment(sys, r) + segmentCountIdx;
      k < |grid[r]| && Adjacent(grid, Snapshot(grid), r, k, Neighbour(shape, k, |grid[r]|))
    ensures ok <==> !Throws(shape, sys, r, segmentIdx, segmentCountIdx)
  {
    match shape
    case Triangle =>
      LinkTriangleVertex(sys, grid, r, segmentIdx, segmentCountIdx);
      ok := true;
    case Square =>
      LinkSquareVertex(sys, grid, r, segmentIdx, segmentCountIdx);
      ok := true;
    case Pentagon =>
      ok := LinkPentagonVertex(sys, grid, r, segmentIdx, segmentCountIdx);
  }

  /** The innermost loop: every vertex of segment `segmentIdx` of ring `r`, stopping at a throw. */
  method LinkSegment(shape: Shape, sys: GridSystem, grid: seq<seq<GridVertex>>, r: nat, segmentIdx: nat)
    returns (ok: bool)
    requires GridOf(sys, grid) && 1 <= r < |grid| && segmentIdx < sys.numSegments
    requires AllNoDuplicates(Snapshot(grid))
    requires LinkedBefore(shape, grid, Snapshot(grid), r, segmentIdx * VerticesPerSegment(sys, r))
    modifies Vertices(grid)
    ensures Grows(old(Snapshot(grid)), Snapshot(grid)) && AllNoDuplicates(Snapshot(grid))
    ensures ok ==> LinkedBefore(shape, grid, Snapshot(grid), r, segmentIdx * VerticesPerSegment(sys, r) + VerticesPerSegment(sys, r))
    ensures ok <==> forall c :: 0 <= c < VerticesPerSegment(sys, r) ==> !Throws(shape, sys, r, segmentIdx, c)
  {
    ghost var start := Snapshot(grid);
    var verticesPerSegment := VerticesPerSegment(sys, r);
    var segmentCountIdx := 0;
    while segmentCountIdx < verticesPerSegment
      invariant 0 <= segmentCountIdx <= verticesPerSegment
      invariant Grows(start, Snapshot(grid)) && AllNoDuplicates(Snapshot(grid))
      invariant LinkedBefore(shape, grid, Snapshot(grid), r, segmentIdx * verticesPerSegment + segmentCountIdx)
      invariant forall c :: 0 <= c < segmentCountIdx ==> !Throws(shape, sys, r, segmentIdx, c)
    {
      ghost var before := Snapshot(grid);
      ok := LinkVertex(shape, sys, grid, r, segmentIdx, segmentCountIdx);
      GrowsTransitive(start, before, Snapshot(grid));
      LinksSurvive(shape, grid, before, Snapshot(grid), r, segmentIdx * verticesPerSegment + segmentCountIdx);
      if !ok {
        return;
      }
      segmentCountIdx := segmentCountIdx + 1;
    }
    ok := true;
  }

  /** The segment loop: every vertex of ring `r`, stopping at a throw. */
  method LinkRing(shape: Shape, sys: GridSystem, grid: seq<seq<GridVertex>>, r: nat)
    returns (ok: bool)
    requires GridOf(sys, grid) && 1 <= r < |grid|
    requires AllNoDuplicates(Snapshot(grid))
    requires LinkedBefore(shape, grid, Snapshot(grid), r, 0)
    modifies Vertices(grid)
    ensures Grows(old(Snapshot(grid)), Snapshot(grid)) && AllNoDuplicates(Snapshot(grid))
    ensures ok ==> LinkedBefore(shape, grid, Snapshot(grid), r + 1, 0)
    ensures ok <==> forall seg, c :: 0 <= seg < sys.numSegments && 0 <= c < VerticesPerSegment(sys, r) ==> !Throws(shape, sys, r, seg, c)
  {
    ghost var start := Snapshot(grid);
    var segmentIdx := 0;
    while segmentIdx < sys.numSegments
      invariant 0 <= segmentIdx <= sys.numSegments
      invariant Grows(start, Snapshot(grid)) && AllNoDuplicates(Snapshot(grid))
      invariant LinkedBefore(shape, grid, Snapshot(grid), r, segmentIdx * VerticesPerSegment(sys, r))
      invariant forall seg, c :: 0 <= seg < segmentIdx && 0 <= c < VerticesPerSegment(sys, r) ==> !Throws(shape, sys, r, seg, c)
    {
      ghost var before := Snapshot(grid);
      SegmentBounds(sys, r, segmentIdx);
      ok := LinkSegment(shape, sys, grid, r, segmentIdx);
      GrowsTransitive(start, before, Snapshot(grid));
      if !ok {
        return;
      }
      segmentIdx := segmentIdx + 1;
    }
    ok := true;
  }

  /**
   * The ring loop shared by `drawTriangle`, `drawSquare` and `drawPentagon`:
   * unless it throws, every vertex of every ring ends up linked to its ring
   * neighbour, and no vertex ever holds two paths between the same ends.
   */
  method LinkRings(shape: Shape, sys: GridSystem, grid: seq<seq<GridVertex>>)
    returns (ok: bool)
    requires GridOf(sys, grid)
    requires AllNoDuplicates(Snapshot(grid))
    modifies Vertices(grid)
    ensures Grows(old(Snapshot(grid)), Snapshot(grid)) && AllNoDuplicates(Snapshot(grid))
    ensures ok ==> forall r, k :: 1 <= r < |grid| && 0 <= k < |grid[r]| ==>
      Adjacent(grid, Snapshot(grid), r, k, Neighbour(shape, k, |grid[r]|))
    ensures ok <==> forall r, seg, c :: 1 <= r < |grid| && 0 <= seg < sys.numSegments && 0 <= c < VerticesPerSegment(sys, r) ==>
      !Throws(shape, sys, r, seg, c)
    ensures shape != Pentagon ==> ok
  {
    ghost var start := Snapshot(grid);
    var ringIdx := 1;
    while ringIdx < |grid|
      invariant 1 <= ringIdx <= |grid|
      invariant Grows(start, Snapshot(grid)) && AllNoDuplicates(Snapshot(grid))
      invariant LinkedBefore(shape, grid, Snapshot(grid), ringIdx, 0)
      invariant forall r, seg, c :: 1 <= r < ringIdx && 0 <= seg < sys.numSegments && 0 <= c < VerticesPerSegment(sys, r) ==>
        !Throws(shape, sys, r, seg, c)
    {
      ghost var before := Snapshot(grid);
      ok := LinkRing(shape, sys, grid, ringIdx);
      GrowsTransitive(start, before, Snapshot(grid));
      if !ok {
        return;
      }
      ringIdx := ringIdx + 1;
    }
    ok := true;
  }

  /**
   * `drawTriangle`, `drawSquare` or `drawPentagon` without the drawing: lay
   * out the rings, then link them. Unless the pentagon's re-link throws,
   * every ring vertex is linked both ways to its ring neighbour, and no
   * vertex holds two paths between the same ends.
   */
  method Draw(shape: Shape, sys: GridSystem, depth: nat) returns (vertices: seq<seq<GridVertex>>, ok: bool)
    requires SystemValid(sys)
    ensures GridOf(sys, vertices) && |vertices| == depth + 1
    ensures AllNoDuplicates(Snapshot(vertices))
    ensures ok ==> forall r, k :: 1 <= r < |vertices| && 0 <= k < |vertices[r]| ==>
      Adjacent(vertices, Snapshot(vertices), r, k, Neighbour(shape, k, |vertices[r]|))
    ensures ok <==> forall r, seg, c :: 1 <= r <= depth && 0 <= seg < sys.numSegments && 0 <= c < VerticesPerSegment(sys, r) ==>
      !Throws(shape, sys, r, seg, c)
    ensures shape != Pentagon ==> ok
  {
    vertices := ConstructVertices(sys, depth);
    forall v | v in Snapshot(vertices) ensures NoDuplicatePaths(Snapshot(vertices)[v]) {
      var r, k :| 0 <= r < |vertices| && 0 <= k < |vertices[r]| && vertices[r][k] == v;
      if r > 0 {
        assert NoPaths(vertices[r]);
      }
    }
    ok := LinkRings(shape, sys, vertices);
  }
}
