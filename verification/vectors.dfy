/**
 * Three-dimensional vectors and two-dimensional face coordinates over the
 * reals, standing for the numpy arrays and `(u, v)` tuples of the face code.
 */
module Vectors {
  import opened Reals

  datatype Vec3 = Vec3(x: real, y: real, z: real)

  /** A point of a face in its own (u, v) basis. */
  datatype Uv = Uv(u: real, v: real)

  const Zero: Vec3 := Vec3(0.0, 0.0, 0.0)

  function Add(a: Vec3, b: Vec3): Vec3 {
    Vec3(a.x + b.x, a.y + b.y, a.z + b.z)
  }

  function Sub(a: Vec3, b: Vec3): Vec3 {
    Vec3(a.x - b.x, a.y - b.y, a.z - b.z)
  }

  function Scale(k: real, a: Vec3): Vec3 {
    Vec3(k * a.x, k * a.y, k * a.z)
  }

  function Dot(a: Vec3, b: Vec3): real {
    a.x * b.x + a.y * b.y + a.z * b.z
  }

  function Cross(a: Vec3, b: Vec3): Vec3 {
    Vec3(a.y * b.z - a.z * b.y, a.z * b.x - a.x * b.z, a.x * b.y - a.y * b.x)
  }

  /** The squared Euclidean length; the length itself needs a square root. */
  function NormSq(a: Vec3): real {
    Dot(a, a)
  }

  lemma NormSqNonNegative(a: Vec3)
    ensures NormSq(a) >= 0.0
  {
    SquareNonNegative(a.x);
    SquareNonNegative(a.y);
    SquareNonNegative(a.z);
  }

  lemma NormSqScale(k: real, a: Vec3)
    ensures NormSq(Scale(k, a)) == k * k * NormSq(a)
  {
    assert (k * a.x) * (k * a.x) == k * k * (a.x * a.x);
    assert (k * a.y) * (k * a.y) == k * k * (a.y * a.y);
    assert (k * a.z) * (k * a.z) == k * k * (a.z * a.z);
  }

  /** The dot product is linear in its first argument. */
  lemma DotLinear(s: real, a: Vec3, t: real, b: Vec3, c: Vec3)
    ensures Dot(Add(Scale(s, a), Scale(t, b)), c) == s * Dot(a, c) + t * Dot(b, c)
  {
    assert (s * a.x + t * b.x) * c.x == s * (a.x * c.x) + t * (b.x * c.x);
    assert (s * a.y + t * b.y) * c.y == s * (a.y * c.y) + t * (b.y * c.y);
    assert (s * a.z + t * b.z) * c.z == s * (a.z * c.z) + t * (b.z * c.z);
  }
}
