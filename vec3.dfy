/** Three-component vectors, used alike for points, directions and colours.
    Components are idealised as reals: the renderer's `f64` rounding is not modelled. */
module Vectors {

  /** The tuple struct `Vec3(x, y, z)`. The datatype constructor plays the part of
      `Vec3::new` and the destructors `.x`, `.y`, `.z` the getters. */
  datatype Vec3 = Vec3(x: real, y: real, z: real)

  const Zero: Vec3 := Vec3(0.0, 0.0, 0.0)

  /** `a + b`, component by component. */
  function Add(a: Vec3, b: Vec3): Vec3 {
    Vec3(a.x + b.x, a.y + b.y, a.z + b.z)
  }

  /** `a + t` for a scalar `t`: the scalar is added to every component. */
  function AddScalar(a: Vec3, t: real): Vec3 {
    Vec3(a.x + t, a.y + t, a.z + t)
  }

  /** `a - b`, component by component. */
  function Sub(a: Vec3, b: Vec3): Vec3 {
    Vec3(a.x - b.x, a.y - b.y, a.z - b.z)
  }

  /** `a * t` for a scalar `t`. */
  function Mul(a: Vec3, t: real): Vec3 {
    Vec3(a.x * t, a.y * t, a.z * t)
  }

  /** `a / t` for a scalar `t`; a zero divisor has no real-valued meaning. */
  function Div(a: Vec3, t: real): Vec3
    requires t != 0.0
  {
    Vec3(a.x / t, a.y / t, a.z / t)
  }

  /** `-a`. */
  function Neg(a: Vec3): Vec3 {
    Vec3(-a.x, -a.y, -a.z)
  }

  function Dot(a: Vec3, b: Vec3): real {
    a.x * b.x + a.y * b.y + a.z * b.z
  }

  /** The right-handed cross product. */
  function Cross(a: Vec3, b: Vec3): Vec3 {
    Vec3(a.y * b.z - a.z * b.y,
         a.z * b.x - a.x * b.z,
         a.x * b.y - a.y * b.x)
  }

  /** `length`: despite its name, the SQUARED magnitude `dot(a, a)`; no square root is taken. */
  function Length(a: Vec3): (l: real)
    ensures l >= 0.0
    ensures l == 0.0 <==> a == Zero
  {
    DotSelfPositiveDefinite(a);
    Dot(a, a)
  }

  /** `unit_vector`: the zero vector is returned unchanged, any other vector is divided by its
      `length`, i.e. by its squared magnitude (see `UnitVectorScales`). */
  function UnitVector(a: Vec3): (u: Vec3)
    ensures a == Zero ==> u == a
  {
    var len := Length(a);
    if len == 0.0 then a else Div(a, len)
  }

  // ---------------------------------------------------------------------------
  // Algebraic facts about the operators

  lemma AddCommutative(a: Vec3, b: Vec3)
    ensures Add(a, b) == Add(b, a)
    ensures Add(a, b).x == a.x + b.x && Add(a, b).y == a.y + b.y && Add(a, b).z == a.z + b.z
  {
  }

  /** Subtraction undoes addition, and a vector minus itself is zero. */
  lemma AddSubCancel(a: Vec3, b: Vec3)
    ensures Sub(Add(a, b), b) == a
    ensures Sub(a, a) == Zero
  {
  }

  /** Adding a scalar is adding the vector with that scalar in every component. */
  lemma AddScalarIsAddSplat(a: Vec3, t: real)
    ensures AddScalar(a, t) == Add(a, Vec3(t, t, t))
    ensures Sub(AddScalar(a, t), Vec3(t, t, t)) == a
  {
  }

  /** Negation is an involution and coincides with scaling by -1. */
  lemma NegInvolutive(a: Vec3)
    ensures Neg(Neg(a)) == a
    ensures Neg(a) == Mul(a, -1.0)
    ensures Add(a, Neg(a)) == Zero
  {
  }

  /** Scaling by a nonzero scalar undoes dividing by it. */
  lemma DivMulCancel(a: Vec3, t: real)
    requires t != 0.0
    ensures Mul(Div(a, t), t) == a
  {
    CancelFactor(a.x, t);
    CancelFactor(a.y, t);
    CancelFactor(a.z, t);
  }

  lemma CancelFactor(r: real, t: real)
    requires t != 0.0
    ensures (r / t) * t == r
  {
  }

  lemma DotSymmetric(a: Vec3, b: Vec3)
    ensures Dot(a, b) == Dot(b, a)
  {
  }

  /** `dot(a, a)` is never negative, and it is zero exactly for the zero vector. */
  lemma DotSelfPositiveDefinite(a: Vec3)
    ensures Dot(a, a) >= 0.0
    ensures Dot(a, a) == 0.0 <==> a == Zero
  {
    SquareNonNegative(a.x);
    SquareNonNegative(a.y);
    SquareNonNegative(a.z);
    SquareZero(a.x);
    SquareZero(a.y);
    SquareZero(a.z);
  }

  lemma SquareNonNegative(r: real)
    ensures r * r >= 0.0
  {
    if r < 0.0 {
      assert r * r == (-r) * (-r);
    }
  }

  lemma SquareZero(r: real)
    ensures r * r == 0.0 ==> r == 0.0
  {
    if r != 0.0 {
      var inv := 1.0 / r;
      assert r * inv == 1.0;
      assert (r * r) * inv == r * (r * inv);
    }
  }

  /** `cross(a, b) == -cross(b, a)`; in particular `cross(a, a)` is zero. */
  lemma CrossAntiCommutative(a: Vec3, b: Vec3)
    ensures Cross(a, b) == Neg(Cross(b, a))
    ensures Cross(a, a) == Zero
  {
  }

  /** The cross product is orthogonal to both of its operands. */
  lemma CrossOrthogonal(a: Vec3, b: Vec3)
    ensures Dot(a, Cross(a, b)) == 0.0
    ensures Dot(b, Cross(a, b)) == 0.0
  {
  }

  /** `length` is quadratic in the vector, as a squared magnitude is: scaling by `k`
      multiplies it by `k * k`, not by `|k|`. */
  lemma LengthIsSquaredMagnitude(a: Vec3, k: real)
    ensures Length(Mul(a, k)) == k * k * Length(a)
    ensures Length(Vec3(3.0, 4.0, 0.0)) == 25.0
  {
  }

  /** For a nonzero vector `unit_vector` returns a positive multiple of it, scaled by the reciprocal
      of its squared magnitude, so the result's squared magnitude is that reciprocal: unit length
      only when `a` already has it. */
  lemma UnitVectorScales(a: Vec3)
    requires a != Zero
    ensures 1.0 / Length(a) > 0.0
    ensures UnitVector(a) == Mul(a, 1.0 / Length(a))
    ensures Dot(UnitVector(a), UnitVector(a)) * Length(a) == 1.0
  {
    var len := Length(a);
    var u := UnitVector(a);
    assert u == Div(a, len);
    assert Dot(u, u) == (a.x * a.x + a.y * a.y + a.z * a.z) / (len * len);
    assert Dot(u, u) == len / (len * len);
  }

  /** `unit_vector` fixes the vectors whose magnitude is already one. */
  lemma UnitVectorFixesUnitLength(a: Vec3)
    requires Dot(a, a) == 1.0
    ensures UnitVector(a) == a
  {
  }

  /** Any other nonzero vector is only scaled: `(2, 0, 0)` becomes `(0.5, 0, 0)`, whose
      magnitude is 0.5, not 1. */
  lemma UnitVectorNotNormalising()
    ensures UnitVector(Vec3(2.0, 0.0, 0.0)) == Vec3(0.5, 0.0, 0.0)
    ensures Length(UnitVector(Vec3(2.0, 0.0, 0.0))) == 0.25
  {
    var two := Vec3(2.0, 0.0, 0.0);
    assert Length(two) == 4.0;
  }
}
