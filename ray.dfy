/** A ray: an origin and a direction, and the points along it. */
module Rays {
  import opened Vectors

  /** The struct keeps both vectors by value and checks nothing: a zero direction is allowed. */
  datatype Ray = Ray(orig: Vec3, dir: Vec3)

  /** `Ray::new`. */
  function New(origin: Vec3, direction: Vec3): Ray {
    Ray(origin, direction)
  }

  /** The getter `origin()`. */
  function Origin(r: Ray): Vec3 {
    r.orig
  }

  /** The getter `direction()`. */
  function Direction(r: Ray): Vec3 {
    r.dir
  }

  /** `at(t) = origin + direction * t`, for any `t`, negative ones included. */
  function At(r: Ray, t: real): Vec3 {
    Add(Origin(r), Mul(Direction(r), t))
  }

  /** The getters give back exactly what `new` was given, and a ray is rebuilt from its getters. */
  lemma GettersReturnArguments(origin: Vec3, direction: Vec3, r: Ray)
    ensures Origin(New(origin, direction)) == origin
    ensures Direction(New(origin, direction)) == direction
    ensures New(Origin(r), Direction(r)) == r
  {
  }

  /** The ray starts at its origin and reaches `origin + direction` at parameter 1. */
  lemma AtEndpoints(r: Ray)
    ensures At(r, 0.0) == Origin(r)
    ensures At(r, 1.0) == Add(Origin(r), Direction(r))
  {
  }

  /** `at` is affine: the step between two parameters is the direction scaled by their difference. */
  lemma AtAffine(r: Ray, s: real, t: real)
    ensures Sub(At(r, s), At(r, t)) == Mul(Direction(r), s - t)
  {
    var o, d := Origin(r), Direction(r);
    assert d.x * s - d.x * t == d.x * (s - t);
    assert d.y * s - d.y * t == d.y * (s - t);
    assert d.z * s - d.z * t == d.z * (s - t);
  }

  /** With a zero direction every parameter gives the origin. */
  lemma AtZeroDirection(origin: Vec3, t: real)
    ensures At(New(origin, Zero), t) == origin
  {
  }
}
