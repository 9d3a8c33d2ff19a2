/**
 * `FaceCoordinateSystem` of game/models/face.py: the frame that maps a
 * point given in a face's own (u, v) basis onto the face in model space,
 * the planes that bound the face, and the sinking of a point towards the
 * centre of the solid.
 *
 * `normalize_vector` lives in a module that is not part of this model; it
 * is taken as a function parameter `normalize`.
 */
module FaceCoordinates {
  import opened Reals
  import opened Vectors
  import opened Wrappers

  /**
   * The distance from the centre of the solid to the plane of a face: the
   * shortest decimal that reads back as the double nearest sqrt(1/3).
   */
  const FaceNormalDistance: real := 0.5773502691896257

  /** How far the basins of active polygons are carved into the face. */
  const CarveDepth: real := 0.05

  /** The part of a `FaceGeneratorDefinition` the coordinate system reads. */
  datatype GeneratorDefinition = GeneratorDefinition(numSegments: int)

  datatype CoordinateSystem = CoordinateSystem(
    definition: GeneratorDefinition,
    vertexVectors: seq<Vec3>,
    origin: Vec3,
    uVector: Vec3,
    segmentVectors: seq<Vec3>,
    clipPlaneNormals: seq<Vec3>,
    normalVector: Vec3,
    vVector: Vec3,
    rotationAngle: real)

  /** The index of the vertex after `i`, wrapping from the last to the first. */
  function NextIndex(i: nat, n: nat): (r: nat)
    requires i < n
    ensures r < n
    ensures r == (i + 1) % n
  {
    if i < n - 1 then i + 1 else 0
  }

  /** The normalized direction of the edge leaving vertex `i`. */
  function SegmentVector(vertices: seq<Vec3>, i: nat, normalize: Vec3 -> Vec3): Vec3
    requires i < |vertices|
  {
    normalize(Sub(vertices[NextIndex(i, |vertices|)], vertices[i]))
  }

  /** The normal of the plane through the centre and the edge leaving vertex `i`. */
  function ClipPlaneNormal(vertices: seq<Vec3>, i: nat): Vec3
    requires i < |vertices|
  {
    Cross(vertices[i], vertices[NextIndex(i, |vertices|)])
  }

  /** `cs` is the coordinate system the constructor builds from these inputs. */
  ghost predicate IsSystemOf(
    cs: CoordinateSystem, definition: GeneratorDefinition, vertices: seq<Vec3>, normalize: Vec3 -> Vec3)
    requires |vertices| >= 2 && definition.numSegments != 0
  {
    && cs.definition == definition
    && cs.vertexVectors == vertices
    && cs.origin == vertices[0]
    && cs.uVector == Sub(vertices[1], vertices[0])
    && |cs.segmentVectors| == |vertices|
    && (forall i :: 0 <= i < |vertices| ==> cs.segmentVectors[i] == SegmentVector(vertices, i, normalize))
    && |cs.clipPlaneNormals| == |vertices|
    && (forall i :: 0 <= i < |vertices| ==> cs.clipPlaneNormals[i] == ClipPlaneNormal(vertices, i))
    && cs.normalVector == normalize(Cross(cs.segmentVectors[0], cs.segmentVectors[1]))
    && cs.vVector == normalize(Cross(cs.normalVector, cs.uVector))
    && cs.rotationAngle == 360.0 / definition.numSegments as real
  }

  /**
   * `FaceCoordinateSystem.__init__`. The source indexes the second vertex
   * and the second segment, and divides by the number of segments, so it
   * needs two vertices and a non-zero segment count.
   */
  method NewCoordinateSystem(definition: GeneratorDefinition, vertices: seq<Vec3>, normalize: Vec3 -> Vec3)
    returns (cs: CoordinateSystem)
    requires |vertices| >= 2 && definition.numSegments != 0
    ensures IsSystemOf(cs, definition, vertices, normalize)
  {
    var n := |vertices|;
    var uVector := Sub(vertices[1], vertices[0]);
    var segmentVectors: seq<Vec3> := [];
    var clipPlaneNormals: seq<Vec3> := [];
    var ix := 0;
    while ix < n
      invariant 0 <= ix <= n
      invariant |segmentVectors| == ix && |clipPlaneNormals| == ix
      invariant forall i :: 0 <= i < ix ==> segmentVectors[i] == SegmentVector(vertices, i, normalize)
      invariant forall i :: 0 <= i < ix ==> clipPlaneNormals[i] == ClipPlaneNormal(vertices, i)
    {
      var nextIx := if ix < n - 1 then ix + 1 else 0;
      var next := vertices[nextIx];
      segmentVectors := segmentVectors + [normalize(Sub(next, vertices[ix]))];
      clipPlaneNormals := clipPlaneNormals + [Cross(vertices[ix], next)];
      ix := ix + 1;
    }
    var normalVector := normalize(Cross(segmentVectors[0], segmentVectors[1]));
    var vVector := normalize(Cross(normalVector, uVector));
    cs := CoordinateSystem(definition, vertices, vertices[0], uVector, segmentVectors, clipPlaneNormals,
                           normalVector, vVector, 360.0 / definition.numSegments as real);
  }

  /** `numSegments` rotations by the rotation angle make one full turn. */
  lemma RotationsMakeFullTurn(
    cs: CoordinateSystem, definition: GeneratorDefinition, vertices: seq<Vec3>, normalize: Vec3 -> Vec3)
    requires |vertices| >= 2 && definition.numSegments != 0
    requires IsSystemOf(cs, definition, vertices, normalize)
    ensures cs.rotationAngle * definition.numSegments as real == 360.0
  {
  }

  /** The cross product is orthogonal to both of its factors. */
  lemma CrossOrthogonal(a: Vec3, b: Vec3)
    ensures Dot(Cross(a, b), a) == 0.0
    ensures Dot(Cross(a, b), b) == 0.0
  {
    assert (a.y * b.z - a.z * b.y) * a.x == a.x * a.y * b.z - a.x * a.z * b.y;
    assert (a.z * b.x - a.x * b.z) * a.y == a.y * a.z * b.x - a.x * a.y * b.z;
    assert (a.x * b.y - a.y * b.x) * a.z == a.x * a.z * b.y - a.y * a.z * b.x;
    assert (a.y * b.z - a.z * b.y) * b.x == a.y * b.x * b.z - a.z * b.x * b.y;
    assert (a.z * b.x - a.x * b.z) * b.y == a.z * b.x * b.y - a.x * b.y * b.z;
    assert (a.x * b.y - a.y * b.x) * b.z == a.x * b.y * b.z - a.y * b.x * b.z;
  }

  /**
   * Every clip plane passes through both ends of its edge, so neither end is
   * on the outer side of it.
   */
  lemma EdgeEndsLieOnClipPlane(
    cs: CoordinateSystem, definition: GeneratorDefinition, vertices: seq<Vec3>, normalize: Vec3 -> Vec3, i: nat)
    requires |vertices| >= 2 && definition.numSegments != 0
    requires IsSystemOf(cs, definition, vertices, normalize)
    requires i < |vertices|
    ensures Dot(cs.clipPlaneNormals[i], vertices[i]) == 0.0
    ensures Dot(cs.clipPlaneNormals[i], vertices[NextIndex(i, |vertices|)]) == 0.0
  {
    CrossOrthogonal(vertices[i], vertices[NextIndex(i, |vertices|)]);
  }

  /**
   * `_vector_outside_clip_bounds`: the first plane the vector lies strictly
   * outside of, or `None` when it is inside or on all of them.
   */
  method VectorOutsideClipBounds(cs: CoordinateSystem, vector: Vec3) returns (r: Option<nat>)
    ensures r.Some? ==> r.value < |cs.clipPlaneNormals| && Dot(cs.clipPlaneNormals[r.value], vector) > 0.0
    ensures r.Some? ==> forall j :: 0 <= j < r.value ==> Dot(cs.clipPlaneNormals[j], vector) <= 0.0
    ensures r.None? <==> forall j :: 0 <= j < |cs.clipPlaneNormals| ==> Dot(cs.clipPlaneNormals[j], vector) <= 0.0
  {
    var planeIx := 0;
    while planeIx < |cs.clipPlaneNormals|
      invariant 0 <= planeIx <= |cs.clipPlaneNormals|
      invariant forall j :: 0 <= j < planeIx ==> Dot(cs.clipPlaneNormals[j], vector) <= 0.0
    {
      var planeNormal := cs.clipPlaneNormals[planeIx];
      var res := planeNormal.x * vector.x + planeNormal.y * vector.y + planeNormal.z * vector.z;
      assert res == Dot(planeNormal, vector);
      if res > 0.0 {
        return Some(planeIx);
      }
      planeIx := planeIx + 1;
    }
    return None;
  }

  /** The factor `sink_vector` scales by: 1 at depth 0, 0 at the centre. */
  function SinkMultiplier(sinkDepth: real): real {
    (FaceNormalDistance - sinkDepth) / FaceNormalDistance
  }

  /** `sink_vector`: moves a point along its ray towards the centre of the solid. */
  function SinkVector(vector: Vec3, sinkDepth: real): (w: Vec3)
    ensures Cross(w, vector) == Zero
  {
    var k := SinkMultiplier(sinkDepth);
    assert k * vector.y * vector.z == k * vector.z * vector.y;
    assert k * vector.z * vector.x == k * vector.x * vector.z;
    assert k * vector.x * vector.y == k * vector.y * vector.x;
    Scale(k, vector)
  }

  /**
   * `uv_coordinates_to_face_coordinates`: unsunk, the point lies on the
   * plane through the origin vertex spanned by the u and v vectors.
   */
  function UvToFace(cs: CoordinateSystem, uv: Uv, sinkDepth: real): (w: Vec3)
    ensures sinkDepth == 0.0 ==> Dot(Sub(w, cs.origin), Cross(cs.uVector, cs.vVector)) == 0.0
  {
    var step := Add(Scale(uv.u, cs.uVector), Scale(uv.v, cs.vVector));
    var local := Add(cs.origin, step);
    if sinkDepth != 0.0 then SinkVector(local, sinkDepth)
    else
      assert Sub(local, cs.origin) == step;
      DotLinear(uv.u, cs.uVector, uv.v, cs.vVector, Cross(cs.uVector, cs.vVector));
      CrossOrthogonal(cs.uVector, cs.vVector);
      local
  }

  /** Sinking by nothing leaves a point where it is. */
  lemma SinkByZeroIsIdentity(vector: Vec3)
    ensures SinkVector(vector, 0.0) == vector
  {
  }

  /**
   * The `sink_depth != 0` guard only saves work: every point comes out as the
   * unsunk point sunk by the requested depth.
   */
  lemma UvToFaceSinks(cs: CoordinateSystem, uv: Uv, sinkDepth: real)
    ensures UvToFace(cs, uv, sinkDepth) == SinkVector(UvToFace(cs, uv, 0.0), sinkDepth)
  {
    if sinkDepth == 0.0 {
      SinkByZeroIsIdentity(UvToFace(cs, uv, 0.0));
    }
  }

  /**
   * Sinking by a depth between 0 and the face's distance from the centre
   * never moves a point away from the centre, and a positive depth moves
   * any point other than the centre strictly closer.
   */
  lemma SinkShortensVector(vector: Vec3, sinkDepth: real)
    requires 0.0 <= sinkDepth <= FaceNormalDistance
    ensures NormSq(SinkVector(vector, sinkDepth)) <= NormSq(vector)
    ensures 0.0 < sinkDepth && NormSq(vector) > 0.0 ==> NormSq(SinkVector(vector, sinkDepth)) < NormSq(vector)
    ensures sinkDepth < FaceNormalDistance ==> SinkMultiplier(sinkDepth) > 0.0
  {
    var k := SinkMultiplier(sinkDepth);
    assert 0.0 <= k <= 1.0;
    NormSqScale(k, vector);
    NormSqNonNegative(vector);
    MulAtMost(k, k);
    assert k * k <= 1.0;
    var kk := k * k;
    MulAtMost(kk, NormSq(vector));
    if 0.0 < sinkDepth && NormSq(vector) > 0.0 {
      assert k < 1.0;
      assert kk < 1.0 by {
        MulMonotone(k, 1.0, k, 1.0);
        if kk == 1.0 {
          MulMonotone(k, k, k, 1.0);
        }
      }
      assert (1.0 - kk) * NormSq(vector) > 0.0;
    }
  }

  /** A deeper sink leaves a point no farther from the centre than a shallower one. */
  lemma SinkDepthMonotone(d1: real, d2: real)
    requires d1 <= d2
    ensures SinkMultiplier(d2) <= SinkMultiplier(d1)
  {
  }

  /** The (u, v) origin is the first vertex and one step along u is the second. */
  lemma UvBasisHitsFirstVertices(
    cs: CoordinateSystem, definition: GeneratorDefinition, vertices: seq<Vec3>, normalize: Vec3 -> Vec3)
    requires |vertices| >= 2 && definition.numSegments != 0
    requires IsSystemOf(cs, definition, vertices, normalize)
    ensures UvToFace(cs, Uv(0.0, 0.0), 0.0) == vertices[0]
    ensures UvToFace(cs, Uv(1.0, 0.0), 0.0) == vertices[1]
  {
    var o, U, V := cs.origin, cs.uVector, cs.vVector;
    assert o == vertices[0] && U == Sub(vertices[1], vertices[0]);
    assert Scale(0.0, U) == Zero && Scale(0.0, V) == Zero && Scale(1.0, U) == U;
    assert UvToFace(cs, Uv(0.0, 0.0), 0.0) == Add(o, Add(Zero, Zero));
    assert UvToFace(cs, Uv(1.0, 0.0), 0.0) == Add(o, Add(U, Zero));
  }

  /**
   * The map from (u, v) to the face is affine: the step between two points
   * depends only on the difference of their coordinates.
   */
  lemma UvToFaceAffine(cs: CoordinateSystem, a: Uv, b: Uv)
    ensures Sub(UvToFace(cs, a, 0.0), UvToFace(cs, b, 0.0))
         == Add(Scale(a.u - b.u, cs.uVector), Scale(a.v - b.v, cs.vVector))
  {
    var U, V := cs.uVector, cs.vVector;
    assert (a.u - b.u) * U.x == a.u * U.x - b.u * U.x;
    assert (a.u - b.u) * U.y == a.u * U.y - b.u * U.y;
    assert (a.u - b.u) * U.z == a.u * U.z - b.u * U.z;
    assert (a.v - b.v) * V.x == a.v * V.x - b.v * V.x;
    assert (a.v - b.v) * V.y == a.v * V.y - b.v * V.y;
    assert (a.v - b.v) * V.z == a.v * V.z - b.v * V.z;
  }

  /**
   * The inverse of `UvToFace` on an unsunk face, reading a point's (u, v)
   * coordinates off its projections on the two basis vectors.
   */
  function FaceToUv(cs: CoordinateSystem, p: Vec3): Uv
    requires NormSq(cs.uVector) > 0.0 && NormSq(cs.vVector) > 0.0
  {
    var local := Sub(p, cs.origin);
    Uv(Dot(local, cs.uVector) / NormSq(cs.uVector), Dot(local, cs.vVector) / NormSq(cs.vVector))
  }

  /**
   * When the two basis vectors are orthogonal and non-zero, as the cross
   * product construction of v makes them, distinct (u, v) coordinates land
   * on distinct points of the face: `FaceToUv` undoes `UvToFace`.
   */
  lemma UvRoundTrip(cs: CoordinateSystem, uv: Uv)
    requires NormSq(cs.uVector) > 0.0 && NormSq(cs.vVector) > 0.0
    requires Dot(cs.uVector, cs.vVector) == 0.0
    ensures FaceToUv(cs, UvToFace(cs, uv, 0.0)) == uv
  {
    var U, V := cs.uVector, cs.vVector;
    var p := UvToFace(cs, uv, 0.0);
    var local := Add(Scale(uv.u, U), Scale(uv.v, V));
    assert Sub(p, cs.origin) == local;
    DotLinear(uv.u, U, uv.v, V, U);
    DotLinear(uv.u, U, uv.v, V, V);
    assert Dot(V, U) == 0.0;
    assert Dot(local, U) == uv.u * NormSq(U);
    assert Dot(local, V) == uv.v * NormSq(V);
  }
}
