/**
 * The `Face` of game/models/face.py, less its GPU resources: the vertex
 * lists it assembles from the puzzle's polygons, and the two animators that
 * turn the face and make its lines glow.
 *
 * `PuzzleFace`, its polygons and nodes are not part of this model; they
 * are abstracted to the fields the face reads. `puzzle_face.rotate()` and
 * the `FACE_ROTATED` event are counted in ghost fields.
 */
module FaceModel {
  import opened Vectors
  import opened Animation
  import opened FaceCoordinates

  /** A puzzle node: the face reads only its (u, v) coordinates. */
  datatype Node = Node(uv: Uv)

  /**
   * A puzzle polygon: whether it is carved (active), its outline and the
   * node pairs it shares with inactive neighbours.
   */
  datatype Polygon = Polygon(isActive: bool, nodes: seq<Node>, inactiveNeighborLines: seq<seq<Node>>)

  datatype PuzzleFace = PuzzleFace(definition: GeneratorDefinition, polygons: seq<Polygon>)

  const RotationDuration: PositiveInt := 500
  const LuminationDuration: PositiveInt := 1000
  const LineLuminosityInactive: real := 0.5
  const LineLuminosityActive: real := 1.0

  // ---------------------------------------------------------------------
  // Which nodes go where

  /** The polygons still on the surface, in order. */
  function InactivePolygons(polygons: seq<Polygon>): seq<Polygon> {
    if |polygons| == 0 then []
    else
      var last := polygons[|polygons| - 1];
      InactivePolygons(polygons[..|polygons| - 1]) + (if last.isActive then [] else [last])
  }

  /** `puzzle_face.active_polygons`: the carved polygons, in order. */
  function ActivePolygons(polygons: seq<Polygon>): seq<Polygon> {
    if |polygons| == 0 then []
    else
      var last := polygons[|polygons| - 1];
      ActivePolygons(polygons[..|polygons| - 1]) + (if last.isActive then [last] else [])
  }

  /** The nodes of all the polygons, polygon by polygon. */
  function AllNodes(polygons: seq<Polygon>): seq<Node> {
    if |polygons| == 0 then []
    else AllNodes(polygons[..|polygons| - 1]) + polygons[|polygons| - 1].nodes
  }

  /** The inactive-neighbour lines of all the polygons, polygon by polygon. */
  function AllLines(polygons: seq<Polygon>): seq<seq<Node>> {
    if |polygons| == 0 then []
    else AllLines(polygons[..|polygons| - 1]) + polygons[|polygons| - 1].inactiveNeighborLines
  }

  lemma {:induction false} AllNodesAppend(a: seq<Polygon>, b: seq<Polygon>)
    ensures AllNodes(a + b) == AllNodes(a) + AllNodes(b)
    decreases |b|
  {
    if |b| > 0 {
      var b' := b[..|b| - 1];
      assert (a + b)[..|a + b| - 1] == a + b';
      AllNodesAppend(a, b');
    } else {
      assert a + b == a;
    }
  }

  /**
   * The terrain nodes and the carved nodes together are exactly the nodes of
   * all the polygons, each as often as it occurs there: nothing is dropped or
   * drawn twice.
   */
  lemma {:induction false} NodesArePartitioned(polygons: seq<Polygon>)
    ensures multiset(AllNodes(InactivePolygons(polygons))) + multiset(AllNodes(ActivePolygons(polygons)))
         == multiset(AllNodes(polygons))
    ensures |AllNodes(InactivePolygons(polygons))| + |AllNodes(ActivePolygons(polygons))| == |AllNodes(polygons)|
  {
    if |polygons| > 0 {
      var init := polygons[..|polygons| - 1];
      var last := polygons[|polygons| - 1];
      NodesArePartitioned(init);
      if last.isActive {
        AllNodesAppend(ActivePolygons(init), [last]);
        assert InactivePolygons(polygons) == InactivePolygons(init);
      } else {
        AllNodesAppend(InactivePolygons(init), [last]);
        assert ActivePolygons(polygons) == ActivePolygons(init);
      }
      assert AllNodes([last]) == last.nodes by {
        assert [last][..0] == [];
      }
    }
  }

  /** A polygon is listed as active exactly when it is one of the polygons and is active. */
  lemma {:induction false} ActivePolygonsMembers(polygons: seq<Polygon>)
    ensures forall q :: q in ActivePolygons(polygons) <==> q in polygons && q.isActive
  {
    if |polygons| > 0 {
      var init := polygons[..|polygons| - 1];
      ActivePolygonsMembers(init);
      assert polygons == init + [polygons[|polygons| - 1]];
    }
  }

  /** A polygon is listed as inactive exactly when it is one of the polygons and is not active. */
  lemma {:induction false} InactivePolygonsMembers(polygons: seq<Polygon>)
    ensures forall q :: q in InactivePolygons(polygons) <==> q in polygons && !q.isActive
  {
    if |polygons| > 0 {
      var init := polygons[..|polygons| - 1];
      InactivePolygonsMembers(init);
      assert polygons == init + [polygons[|polygons| - 1]];
    }
  }

  // ---------------------------------------------------------------------
  // Vertex lists

  /** The face points of `nodes` at the given depth, in node order. */
  function FacePoints(cs: CoordinateSystem, nodes: seq<Node>, sinkDepth: real): seq<Vec3> {
    if |nodes| == 0 then []
    else FacePoints(cs, nodes[..|nodes| - 1], sinkDepth) + [UvToFace(cs, nodes[|nodes| - 1].uv, sinkDepth)]
  }

  /** The (u, v) coordinates of `nodes`, in node order. */
  function NodeUvs(nodes: seq<Node>): seq<Uv> {
    if |nodes| == 0 then [] else NodeUvs(nodes[..|nodes| - 1]) + [nodes[|nodes| - 1].uv]
  }

  /** One face point per node: point `i` is node `i` placed on the face at the given depth. */
  lemma {:induction false} FacePointsAt(cs: CoordinateSystem, nodes: seq<Node>, sinkDepth: real)
    ensures |FacePoints(cs, nodes, sinkDepth)| == |nodes|
    ensures forall i :: 0 <= i < |nodes| ==> FacePoints(cs, nodes, sinkDepth)[i] == UvToFace(cs, nodes[i].uv, sinkDepth)
  {
    if |nodes| > 0 {
      FacePointsAt(cs, nodes[..|nodes| - 1], sinkDepth);
    }
  }

  /** One (u, v) pair per node: entry `i` is node `i`'s coordinates. */
  lemma {:induction false} NodeUvsAt(nodes: seq<Node>)
    ensures |NodeUvs(nodes)| == |nodes|
    ensures forall i :: 0 <= i < |nodes| ==> NodeUvs(nodes)[i] == nodes[i].uv
  {
    if |nodes| > 0 {
      NodeUvsAt(nodes[..|nodes| - 1]);
    }
  }

  /**
   * A point sunk to any depth is the surface point of the same node moved
   * towards the centre: the basin is the terrain of the same nodes, sunk.
   */
  lemma SunkPointsFollowSurface(cs: CoordinateSystem, nodes: seq<Node>, sinkDepth: real)
    ensures |FacePoints(cs, nodes, sinkDepth)| == |FacePoints(cs, nodes, 0.0)| == |nodes|
    ensures forall i :: 0 <= i < |nodes| ==>
      FacePoints(cs, nodes, sinkDepth)[i] == SinkVector(FacePoints(cs, nodes, 0.0)[i], sinkDepth)
  {
    FacePointsAt(cs, nodes, sinkDepth);
    FacePointsAt(cs, nodes, 0.0);
    forall i | 0 <= i < |nodes|
      ensures FacePoints(cs, nodes, sinkDepth)[i] == SinkVector(FacePoints(cs, nodes, 0.0)[i], sinkDepth)
    {
      UvToFaceSinks(cs, nodes[i].uv, sinkDepth);
    }
  }

  lemma {:induction false} FacePointsAppend(cs: CoordinateSystem, a: seq<Node>, b: seq<Node>, sinkDepth: real)
    ensures FacePoints(cs, a + b, sinkDepth) == FacePoints(cs, a, sinkDepth) + FacePoints(cs, b, sinkDepth)
    decreases |b|
  {
    if |b| > 0 {
      var b' := b[..|b| - 1];
      assert (a + b)[..|a + b| - 1] == a + b';
      FacePointsAppend(cs, a, b', sinkDepth);
    } else {
      assert a + b == a;
    }
  }

  lemma {:induction false} NodeUvsAppend(a: seq<Node>, b: seq<Node>)
    ensures NodeUvs(a + b) == NodeUvs(a) + NodeUvs(b)
    decreases |b|
  {
    if |b| > 0 {
      var b' := b[..|b| - 1];
      assert (a + b)[..|a + b| - 1] == a + b';
      NodeUvsAppend(a, b');
    } else {
      assert a + b == a;
    }
  }

  /** Every line the walls are built from names at least its two end nodes. */
  ghost predicate LinesHaveEnds(lines: seq<seq<Node>>) {
    forall l :: l in lines ==> |l| >= 2
  }

  /** What the source demands of a polygon list before it builds walls: every active polygon's lines have two ends. */
  ghost predicate WallLinesWellFormed(polygons: seq<Polygon>) {
    forall q :: q in polygons && q.isActive ==> LinesHaveEnds(q.inactiveNeighborLines)
  }

  /**
   * The two triangles of the wall under one inactive-neighbour line: the
   * terrain end points t0, t1 and the same points sunk to the carve depth.
   */
  function WallQuad(cs: CoordinateSystem, line: seq<Node>): seq<Vec3>
    requires |line| >= 2
  {
    var t0 := UvToFace(cs, line[0].uv, 0.0);
    var t1 := UvToFace(cs, line[1].uv, 0.0);
    var c0 := SinkVector(t0, CarveDepth);
    var c1 := SinkVector(t1, CarveDepth);
    [t0, t1, c0, c1, c0, t1]
  }

  /** The wall triangles of a list of lines, six vertices per line. */
  function Walls(cs: CoordinateSystem, lines: seq<seq<Node>>): seq<Vec3>
    requires LinesHaveEnds(lines)
  {
    if |lines| == 0 then []
    else Walls(cs, lines[..|lines| - 1]) + WallQuad(cs, lines[|lines| - 1])
  }

  /** The walls hold six vertices per line, and line `k`'s quad sits at 6k. */
  lemma {:induction false} WallsLayout(cs: CoordinateSystem, lines: seq<seq<Node>>)
    requires LinesHaveEnds(lines)
    ensures |Walls(cs, lines)| == 6 * |lines|
    ensures forall k :: 0 <= k < |lines| ==> Walls(cs, lines)[6 * k .. 6 * k + 6] == WallQuad(cs, lines[k])
  {
    if |lines| > 0 {
      var init := lines[..|lines| - 1];
      WallsLayout(cs, init);
      var w := Walls(cs, lines);
      assert w == Walls(cs, init) + WallQuad(cs, lines[|lines| - 1]);
      forall k | 0 <= k < |lines|
        ensures w[6 * k .. 6 * k + 6] == WallQuad(cs, lines[k])
      {
        if k < |lines| - 1 {
          assert w[6 * k .. 6 * k + 6] == Walls(cs, init)[6 * k .. 6 * k + 6];
        }
      }
    }
  }

  /**
   * The foot of each wall meets the basin exactly: its lower corners are the
   * points the basin draws for the same two nodes.
   */
  lemma WallFootMeetsBasin(cs: CoordinateSystem, line: seq<Node>)
    requires |line| >= 2
    ensures WallQuad(cs, line)[2] == UvToFace(cs, line[0].uv, CarveDepth)
    ensures WallQuad(cs, line)[3] == UvToFace(cs, line[1].uv, CarveDepth)
    ensures WallQuad(cs, line)[0] == UvToFace(cs, line[0].uv, 0.0)
    ensures WallQuad(cs, line)[1] == UvToFace(cs, line[1].uv, 0.0)
  {
    UvToFaceSinks(cs, line[0].uv, CarveDepth);
    UvToFaceSinks(cs, line[1].uv, CarveDepth);
  }

  lemma {:induction false} WallsAppend(cs: CoordinateSystem, a: seq<seq<Node>>, b: seq<seq<Node>>)
    requires LinesHaveEnds(a) && LinesHaveEnds(b)
    ensures LinesHaveEnds(a + b)
    ensures Walls(cs, a + b) == Walls(cs, a) + Walls(cs, b)
    decreases |b|
  {
    if |b| > 0 {
      var b' := b[..|b| - 1];
      assert (a + b)[..|a + b| - 1] == a + b';
      WallsAppend(cs, a, b');
    } else {
      assert a + b == a;
    }
  }

  /** The polygon loop of `__make_terrain_vertices`, for one inactive polygon. */
  method AppendTerrainNodes(cs: CoordinateSystem, vertices: seq<Vec3>, uvs: seq<Uv>, nodes: seq<Node>)
    returns (vertices': seq<Vec3>, uvs': seq<Uv>)
    ensures vertices' == vertices + FacePoints(cs, nodes, 0.0)
    ensures uvs' == uvs + NodeUvs(nodes)
  {
    vertices', uvs' := vertices, uvs;
    var k := 0;
    while k < |nodes|
      invariant 0 <= k <= |nodes|
      invariant vertices' == vertices + FacePoints(cs, nodes[..k], 0.0)
      invariant uvs' == uvs + NodeUvs(nodes[..k])
    {
      vertices' := vertices' + [UvToFace(cs, nodes[k].uv, 0.0)];
      uvs' := uvs' + [nodes[k].uv];
      assert nodes[..k + 1][..k] == nodes[..k];
      k := k + 1;
    }
    assert nodes[..k] == nodes;
  }

  /**
   * `__make_terrain_vertices`: one unsunk vertex per node of each inactive
   * polygon, in order, with the node's (u, v) alongside.
   */
  method MakeTerrainVertices(cs: CoordinateSystem, polygons: seq<Polygon>)
    returns (vertices: seq<Vec3>, uvs: seq<Uv>)
    ensures vertices == FacePoints(cs, AllNodes(InactivePolygons(polygons)), 0.0)
    ensures uvs == NodeUvs(AllNodes(InactivePolygons(polygons)))
    ensures |vertices| == |uvs|
    ensures forall i :: 0 <= i < |vertices| ==> vertices[i] == UvToFace(cs, uvs[i], 0.0)
  {
    vertices, uvs := [], [];
    var p := 0;
    while p < |polygons|
      invariant 0 <= p <= |polygons|
      invariant vertices == FacePoints(cs, AllNodes(InactivePolygons(polygons[..p])), 0.0)
      invariant uvs == NodeUvs(AllNodes(InactivePolygons(polygons[..p])))
    {
      var polygon := polygons[p];
      ghost var done := InactivePolygons(polygons[..p]);
      assert polygons[..p + 1][..p] == polygons[..p];
      if polygon.isActive {
        assert InactivePolygons(polygons[..p + 1]) == done;
        p := p + 1;
        continue;
      }
      assert InactivePolygons(polygons[..p + 1]) == done + [polygon];
      vertices, uvs := AppendTerrainNodes(cs, vertices, uvs, polygon.nodes);
      AllNodesAppend(done, [polygon]);
      assert AllNodes([polygon]) == polygon.nodes by {
        assert [polygon][..0] == [];
      }
      FacePointsAppend(cs, AllNodes(done), polygon.nodes, 0.0);
      NodeUvsAppend(AllNodes(done), polygon.nodes);
      p := p + 1;
    }
    assert polygons[..p] == polygons;
    FacePointsAt(cs, AllNodes(InactivePolygons(polygons)), 0.0);
    NodeUvsAt(AllNodes(InactivePolygons(polygons)));
  }

  /** The basin loop of `__make_carve_vertices`, for one active polygon. */
  method AppendBasinNodes(cs: CoordinateSystem, carve: seq<Vec3>, nodes: seq<Node>) returns (carve': seq<Vec3>)
    ensures carve' == carve + FacePoints(cs, nodes, CarveDepth)
  {
    carve' := carve;
    var k := 0;
    while k < |nodes|
      invariant 0 <= k <= |nodes|
      invariant carve' == carve + FacePoints(cs, nodes[..k], CarveDepth)
    {
      carve' := carve' + [UvToFace(cs, nodes[k].uv, CarveDepth)];
      assert nodes[..k + 1][..k] == nodes[..k];
      k := k + 1;
    }
    assert nodes[..k] == nodes;
  }

  /** The wall loop of `__make_carve_vertices`, for one active polygon. */
  method AppendWalls(cs: CoordinateSystem, walls: seq<Vec3>, lines: seq<seq<Node>>) returns (walls': seq<Vec3>)
    requires LinesHaveEnds(lines)
    ensures walls' == walls + Walls(cs, lines)
  {
    walls' := walls;
    var j := 0;
    while j < |lines|
      invariant 0 <= j <= |lines|
      invariant LinesHaveEnds(lines[..j])
      invariant walls' == walls + Walls(cs, lines[..j])
    {
      var line := lines[j];
      assert line in lines;
      var terrainCoordinates := seq(|line|, i requires 0 <= i < |line| => UvToFace(cs, line[i].uv, 0.0));
      var carveCoordinates :=
        seq(|line|, i requires 0 <= i < |line| => SinkVector(terrainCoordinates[i], CarveDepth));
      var quadTriangles := [
        terrainCoordinates[0], terrainCoordinates[1], carveCoordinates[0],
        carveCoordinates[1], carveCoordinates[0], terrainCoordinates[1]];
      assert quadTriangles == WallQuad(cs, line);
      assert lines[..j + 1][..j] == lines[..j];
      walls' := walls' + quadTriangles;
      j := j + 1;
    }
    assert lines[..j] == lines;
  }

  /** The active polygons of a well-formed polygon list have two-ended lines. */
  lemma ActiveLinesHaveEnds(polygons: seq<Polygon>)
    requires WallLinesWellFormed(polygons)
    ensures forall i :: 0 <= i < |ActivePolygons(polygons)| ==>
      LinesHaveEnds(ActivePolygons(polygons)[i].inactiveNeighborLines)
  {
    ActivePolygonsMembers(polygons);
    forall i | 0 <= i < |ActivePolygons(polygons)|
      ensures LinesHaveEnds(ActivePolygons(polygons)[i].inactiveNeighborLines)
    {
      assert ActivePolygons(polygons)[i] in ActivePolygons(polygons);
    }
  }

  /** Taking one more polygon into the basin and walls appends its share. */
  lemma CarvePrefixStep(cs: CoordinateSystem, active: seq<Polygon>, p: nat)
    requires p < |active|
    requires LinesHaveEnds(AllLines(active[..p])) && LinesHaveEnds(active[p].inactiveNeighborLines)
    ensures FacePoints(cs, AllNodes(active[..p + 1]), CarveDepth)
         == FacePoints(cs, AllNodes(active[..p]), CarveDepth) + FacePoints(cs, active[p].nodes, CarveDepth)
    ensures LinesHaveEnds(AllLines(active[..p + 1]))
    ensures Walls(cs, AllLines(active[..p + 1]))
         == Walls(cs, AllLines(active[..p])) + Walls(cs, active[p].inactiveNeighborLines)
  {
    var done := active[..p];
    assert active[..p + 1][..p] == done;
    FacePointsAppend(cs, AllNodes(done), active[p].nodes, CarveDepth);
    WallsAppend(cs, AllLines(done), active[p].inactiveNeighborLines);
  }

  /**
   * `__make_carve_vertices`: the basin holds one vertex per node of each
   * active polygon, sunk to the carve depth; the walls hold one quad per
   * inactive-neighbour line of each active polygon.
   */
  method MakeCarveVertices(cs: CoordinateSystem, polygons: seq<Polygon>)
    returns (carve: seq<Vec3>, walls: seq<Vec3>)
    requires WallLinesWellFormed(polygons)
    ensures carve == FacePoints(cs, AllNodes(ActivePolygons(polygons)), CarveDepth)
    ensures LinesHaveEnds(AllLines(ActivePolygons(polygons)))
    ensures walls == Walls(cs, AllLines(ActivePolygons(polygons)))
  {
    var active := ActivePolygons(polygons);
    ActiveLinesHaveEnds(polygons);
    carve, walls := [], [];
    var p := 0;
    while p < |active|
      invariant 0 <= p <= |active|
      invariant carve == FacePoints(cs, AllNodes(active[..p]), CarveDepth)
      invariant LinesHaveEnds(AllLines(active[..p]))
      invariant walls == Walls(cs, AllLines(active[..p]))
    {
      var polygon := active[p];
      carve := AppendBasinNodes(cs, carve, polygon.nodes);
      walls := AppendWalls(cs, walls, polygon.inactiveNeighborLines);
      CarvePrefixStep(cs, active, p);
      p := p + 1;
    }
    assert active[..p] == active;
  }

  /** The four vertex lists a face draws. */
  datatype Mesh = Mesh(terrainVertices: seq<Vec3>, terrainUvs: seq<Uv>, carveVertices: seq<Vec3>, wallVertices: seq<Vec3>)

  /** `mesh` holds the vertex lists `__make_terrain_vertices` and `__make_carve_vertices` build. */
  ghost predicate IsMeshOf(mesh: Mesh, cs: CoordinateSystem, polygons: seq<Polygon>) {
    && mesh.terrainVertices == FacePoints(cs, AllNodes(InactivePolygons(polygons)), 0.0)
    && mesh.terrainUvs == NodeUvs(AllNodes(InactivePolygons(polygons)))
    && mesh.carveVertices == FacePoints(cs, AllNodes(ActivePolygons(polygons)), CarveDepth)
    && LinesHaveEnds(AllLines(ActivePolygons(polygons)))
    && mesh.wallVertices == Walls(cs, AllLines(ActivePolygons(polygons)))
  }

  /** The vertex-list half of `Face.__init__`: terrain, then basin and walls. */
  method BuildMesh(cs: CoordinateSystem, polygons: seq<Polygon>) returns (mesh: Mesh)
    requires WallLinesWellFormed(polygons)
    ensures IsMeshOf(mesh, cs, polygons)
  {
    var tv, tu := MakeTerrainVertices(cs, polygons);
    var cv, wv := MakeCarveVertices(cs, polygons);
    mesh := Mesh(tv, tu, cv, wv);
  }

  // ---------------------------------------------------------------------
  // The face

  class Face {
    const cs: CoordinateSystem
    const puzzleFace: PuzzleFace
    /** The vertex lists the GPU buffers are filled from. */
    const mesh: Mesh
    const rotationAnimator: Animator
    const resonanceAnimator: Animator
    /** The angle, in degrees about the face normal, the transform was last built from. */
    var matrixAngle: real
    /** The factor the line colour is the base colour scaled by. */
    var lineLuminosity: real
    /** Calls of `puzzle_face.rotate()`. */
    ghost var puzzleRotations: nat
    /** `FACE_ROTATED` events emitted. */
    ghost var faceRotatedEvents: nat

    ghost predicate Valid()
      reads this, rotationAnimator, resonanceAnimator
    {
      && rotationAnimator != resonanceAnimator
      && RotationValid()
      && ResonanceValid()
    }

    /**
     * The committed angle counts the committed puzzle rotations, a turn
     * under way is always one segment long, and at rest the transform shows
     * the committed angle.
     */
    ghost predicate RotationValid()
      reads this, rotationAnimator
    {
      && rotationAnimator.Valid()
      && rotationAnimator.lerper == Lerper(EaseInOut, RotationDuration)
      && rotationAnimator.currentValue == puzzleRotations as real * cs.rotationAngle
      && faceRotatedEvents == puzzleRotations
      && (rotationAnimator.isAnimating ==>
            rotationAnimator.targetValue == rotationAnimator.currentValue + cs.rotationAngle)
      && (!rotationAnimator.isAnimating ==> matrixAngle == rotationAnimator.currentValue)
    }

    /** The lines glow between their inactive and their active brightness. */
    ghost predicate ResonanceValid()
      reads this, resonanceAnimator
    {
      && resonanceAnimator.Valid()
      && resonanceAnimator.lerper == Lerper(Linear, LuminationDuration)
      && IsLuminosity(resonanceAnimator.currentValue)
      && IsLuminosity(resonanceAnimator.targetValue)
      && LineLuminosityInactive <= lineLuminosity <= LineLuminosityActive
      && (!resonanceAnimator.isAnimating ==> lineLuminosity == resonanceAnimator.currentValue)
    }

    /**
     * The field half of `Face.__init__`: the geometry is built by `NewFace`,
     * both animators start at rest, the transform at angle 0 and the lines at
     * their inactive brightness.
     */
    constructor (cs: CoordinateSystem, mesh: Mesh, puzzleFace: PuzzleFace)
      ensures Valid()
      ensures this.cs == cs && this.mesh == mesh && this.puzzleFace == puzzleFace
      ensures fresh(rotationAnimator) && fresh(resonanceAnimator)
      ensures matrixAngle == 0.0 && lineLuminosity == LineLuminosityInactive
      ensures !rotationAnimator.isAnimating && !resonanceAnimator.isAnimating
      ensures puzzleRotations == 0 && faceRotatedEvents == 0
    {
      this.cs := cs;
      this.puzzleFace := puzzleFace;
      this.mesh := mesh;
      rotationAnimator := new Animator(Lerper(EaseInOut, RotationDuration), 0.0);
      resonanceAnimator := new Animator(Lerper(Linear, LuminationDuration), LineLuminosityInactive);
      lineLuminosity := LineLuminosityInactive;
      matrixAngle := 0.0;
      puzzleRotations, faceRotatedEvents := 0, 0;
    }

    /**
     * `rotate`: turn by one segment from the last committed angle. A call
     * while a turn is under way restarts that same turn: it does not queue
     * a second one.
     */
    method Rotate()
      requires Valid()
      modifies rotationAnimator
      ensures Valid()
      ensures rotationAnimator.isAnimating && rotationAnimator.timeElapsed == 0
      ensures rotationAnimator.targetValue == old(rotationAnimator.currentValue) + cs.rotationAngle
      ensures old(rotationAnimator.isAnimating) ==> rotationAnimator.targetValue == old(rotationAnimator.targetValue)
      ensures rotationAnimator.currentValue == old(rotationAnimator.currentValue)
    {
      rotationAnimator.Start(rotationAnimator.currentValue + cs.rotationAngle);
    }

    /** `set_is_resonant`: glow towards full or half brightness. */
    method SetIsResonant(isResonant: bool)
      requires Valid()
      modifies resonanceAnimator
      ensures Valid()
      ensures resonanceAnimator.isAnimating && resonanceAnimator.timeElapsed == 0
      ensures resonanceAnimator.targetValue == if isResonant then LineLuminosityActive else LineLuminosityInactive
      ensures resonanceAnimator.currentValue == old(resonanceAnimator.currentValue)
    {
      resonanceAnimator.Start(if isResonant then LineLuminosityActive else LineLuminosityInactive);
    }

    /** `__animate_rotate`, the rotation's `on_frame`: only the transform moves. */
    method AnimateRotate(rotationAngle: real)
      modifies this
      ensures matrixAngle == rotationAngle
      ensures lineLuminosity == old(lineLuminosity)
      ensures puzzleRotations == old(puzzleRotations) && faceRotatedEvents == old(faceRotatedEvents)
    {
      matrixAngle := rotationAngle;
    }

    /** `__stop_rotation`, the rotation's `on_stop`: commit the turn to the puzzle and announce it. */
    method StopRotation(rotationAngle: real)
      modifies this
      ensures matrixAngle == rotationAngle
      ensures lineLuminosity == old(lineLuminosity)
      ensures puzzleRotations == old(puzzleRotations) + 1
      ensures faceRotatedEvents == old(faceRotatedEvents) + 1
    {
      matrixAngle := rotationAngle;
      puzzleRotations := puzzleRotations + 1;
      faceRotatedEvents := faceRotatedEvents + 1;
    }

    /** `__animate_resonance`, both callbacks of the resonance animator. */
    method AnimateResonance(newValue: real)
      modifies this
      ensures lineLuminosity == newValue
      ensures matrixAngle == old(matrixAngle)
      ensures puzzleRotations == old(puzzleRotations) && faceRotatedEvents == old(faceRotatedEvents)
    {
      lineLuminosity := newValue;
    }

    /**
     * The rotation frame of `renderFace` and the callback it fires: an
     * intermediate frame only moves the transform; the frame that completes
     * the turn commits it to the puzzle once.
     */
    method RenderRotation(deltaTime: nat)
      requires RotationValid()
      modifies this, rotationAnimator
      ensures RotationValid()
      ensures lineLuminosity == old(lineLuminosity)
      ensures old(rotationAnimator.isAnimating) && rotationAnimator.isAnimating ==>
        && matrixAngle == old(rotationAnimator.currentValue)
             + Interpolate(rotationAnimator.lerper, rotationAnimator.timeElapsed) * cs.rotationAngle
        && puzzleRotations == old(puzzleRotations)
      ensures old(rotationAnimator.isAnimating) && !rotationAnimator.isAnimating ==>
        && matrixAngle == old(rotationAnimator.targetValue)
        && puzzleRotations == old(puzzleRotations) + 1
      ensures !old(rotationAnimator.isAnimating) ==>
        && matrixAngle == old(matrixAngle)
        && puzzleRotations == old(puzzleRotations)
        && !rotationAnimator.isAnimating
      ensures old(rotationAnimator.isAnimating) ==>
        && rotationAnimator.timeElapsed == old(rotationAnimator.timeElapsed) + deltaTime
        && (rotationAnimator.isAnimating <==> rotationAnimator.timeElapsed < rotationAnimator.lerper.durationMs)
      ensures !old(rotationAnimator.isAnimating) ==> rotationAnimator.timeElapsed == old(rotationAnimator.timeElapsed)
    {
      ghost var step := rotationAnimator.difference;
      assert rotationAnimator.isAnimating ==> step == cs.rotationAngle;
      var rotation := rotationAnimator.Frame(deltaTime);
      match rotation {
        case Idle =>
        case Moving(value) =>
          AnimateRotate(value);
        case Finished(_, finalValue) =>
          assert finalValue == puzzleRotations as real * cs.rotationAngle + cs.rotationAngle;
          assert finalValue == (puzzleRotations + 1) as real * cs.rotationAngle;
          StopRotation(finalValue);
      }
    }

    /** The resonance frame of `renderFace` and the callback it fires. */
    method RenderResonance(deltaTime: nat)
      requires ResonanceValid()
      modifies this, resonanceAnimator
      ensures ResonanceValid()
      ensures matrixAngle == old(matrixAngle)
      ensures puzzleRotations == old(puzzleRotations) && faceRotatedEvents == old(faceRotatedEvents)
      ensures old(resonanceAnimator.isAnimating) && resonanceAnimator.isAnimating ==>
        && resonanceAnimator.timeElapsed == old(resonanceAnimator.timeElapsed) + deltaTime
        && lineLuminosity == old(resonanceAnimator.currentValue)
             + Interpolate(resonanceAnimator.lerper, resonanceAnimator.timeElapsed) * old(resonanceAnimator.difference)
        && resonanceAnimator.currentValue == old(resonanceAnimator.currentValue)
        && resonanceAnimator.targetValue == old(resonanceAnimator.targetValue)
      ensures old(resonanceAnimator.isAnimating) && !resonanceAnimator.isAnimating ==>
        lineLuminosity == old(resonanceAnimator.targetValue)
      ensures !old(resonanceAnimator.isAnimating) ==>
        && lineLuminosity == old(lineLuminosity)
        && !resonanceAnimator.isAnimating
      ensures old(resonanceAnimator.isAnimating) ==>
        && resonanceAnimator.timeElapsed == old(resonanceAnimator.timeElapsed) + deltaTime
        && (resonanceAnimator.isAnimating <==> resonanceAnimator.timeElapsed < resonanceAnimator.lerper.durationMs)
      ensures !old(resonanceAnimator.isAnimating) ==> resonanceAnimator.timeElapsed == old(resonanceAnimator.timeElapsed)
    {
      ghost var from, to := resonanceAnimator.currentValue, resonanceAnimator.targetValue;
      var resonance := resonanceAnimator.Frame(deltaTime);
      match resonance {
        case Idle =>
        case Moving(value) =>
          ResonanceStaysInRange(resonanceAnimator.lerper, resonanceAnimator.timeElapsed, from, to, value);
          AnimateResonance(value);
        case Finished(_, finalValue) =>
          AnimateResonance(finalValue);
      }
    }

    /** The animator half of `renderFace`: the rotation's frame, then the resonance's. */
    method RenderFrame(deltaTime: nat)
      requires Valid()
      modifies this, rotationAnimator, resonanceAnimator
      ensures Valid()
      ensures old(rotationAnimator.isAnimating) && rotationAnimator.isAnimating ==>
        && matrixAngle == old(rotationAnimator.currentValue)
             + Interpolate(rotationAnimator.lerper, rotationAnimator.timeElapsed) * cs.rotationAngle
        && puzzleRotations == old(puzzleRotations)
      ensures old(rotationAnimator.isAnimating) && !rotationAnimator.isAnimating ==>
        && matrixAngle == old(rotationAnimator.targetValue)
        && puzzleRotations == old(puzzleRotations) + 1
      ensures !old(rotationAnimator.isAnimating) ==>
        && matrixAngle == old(matrixAngle)
        && puzzleRotations == old(puzzleRotations)
        && !rotationAnimator.isAnimating
      ensures old(rotationAnimator.isAnimating) ==>
        && rotationAnimator.timeElapsed == old(rotationAnimator.timeElapsed) + deltaTime
        && (rotationAnimator.isAnimating <==> rotationAnimator.timeElapsed < rotationAnimator.lerper.durationMs)
      ensures !old(rotationAnimator.isAnimating) ==> rotationAnimator.timeElapsed == old(rotationAnimator.timeElapsed)
      ensures old(resonanceAnimator.isAnimating) && resonanceAnimator.isAnimating ==>
        && lineLuminosity == old(resonanceAnimator.currentValue)
             + Interpolate(resonanceAnimator.lerper, resonanceAnimator.timeElapsed) * old(resonanceAnimator.difference)
        && resonanceAnimator.currentValue == old(resonanceAnimator.currentValue)
        && resonanceAnimator.targetValue == old(resonanceAnimator.targetValue)
      ensures old(resonanceAnimator.isAnimating) && !resonanceAnimator.isAnimating ==>
        lineLuminosity == old(resonanceAnimator.targetValue)
      ensures !old(resonanceAnimator.isAnimating) ==>
        lineLuminosity == old(lineLuminosity) && !resonanceAnimator.isAnimating
      ensures old(resonanceAnimator.isAnimating) ==>
        && resonanceAnimator.timeElapsed == old(resonanceAnimator.timeElapsed) + deltaTime
        && (resonanceAnimator.isAnimating <==> resonanceAnimator.timeElapsed < resonanceAnimator.lerper.durationMs)
      ensures !old(resonanceAnimator.isAnimating) ==> resonanceAnimator.timeElapsed == old(resonanceAnimator.timeElapsed)
    {
      RenderRotation(deltaTime);
      RenderResonance(deltaTime);
    }
  }

  /**
   * `Face.__init__` without its GPU buffers: the coordinate system of the
   * face's vertices, the vertex lists of its polygons, then the face itself.
   * `faceVertices` is the source's triple of vertices.
   */
  method NewFace(faceVertices: seq<Vec3>, puzzleFace: PuzzleFace, normalize: Vec3 -> Vec3) returns (face: Face)
    requires |faceVertices| == 3 && puzzleFace.definition.numSegments != 0
    requires WallLinesWellFormed(puzzleFace.polygons)
    ensures fresh(face) && fresh(face.rotationAnimator) && fresh(face.resonanceAnimator)
    ensures face.Valid()
    ensures IsSystemOf(face.cs, puzzleFace.definition, faceVertices, normalize)
    ensures IsMeshOf(face.mesh, face.cs, puzzleFace.polygons)
    ensures face.matrixAngle == 0.0 && face.lineLuminosity == LineLuminosityInactive
    ensures !face.rotationAnimator.isAnimating && !face.resonanceAnimator.isAnimating
    ensures face.puzzleRotations == 0 && face.faceRotatedEvents == 0
  {
    var system := NewCoordinateSystem(puzzleFace.definition, faceVertices, normalize);
    var m := BuildMesh(system, puzzleFace.polygons);
    face := new Face(system, m, puzzleFace);
  }

  /** Whether `v` is one of the two brightness levels the lines rest at. */
  predicate IsLuminosity(v: real) {
    v == LineLuminosityInactive || v == LineLuminosityActive
  }

  /** A value part-way along a run between two brightness levels lies between them. */
  lemma ResonanceStaysInRange(l: Lerper, t: nat, from: real, to: real, value: real)
    requires IsLuminosity(from) && IsLuminosity(to)
    requires value == from + Interpolate(l, t) * (to - from)
    ensures LineLuminosityInactive <= value <= LineLuminosityActive
  {
    InterpolateInUnitInterval(l, t);
  }
}
