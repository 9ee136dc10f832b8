/** The 3D joint angle used by the world-landmark analysis: the arc cosine of
    the dot product of the two legs over the product of their lengths, with a
    small positive constant added to the denominator instead of a zero guard. */
module MathUtils {
  import opened RealMath

  /** The stabilising constant added to the product of the leg lengths (1e-8). */
  const Epsilon: real := 0.00000001

  function Sub(a: Vec3, b: Vec3): Vec3
  {
    Vec3(a.x - b.x, a.y - b.y, a.z - b.z)
  }

  function Dot3(u: Vec3, w: Vec3): real
  {
    u.x * w.x + u.y * w.y + u.z * w.z
  }

  function Norm(m: Libm, v: Vec3): real
  {
    m.norm3(v.x, v.y, v.z)
  }

  /** The stabilised denominator for the legs v1 and v2. */
  function Denominator(m: Libm, v1: Vec3, v2: Vec3): real
  {
    Norm(m, v1) * Norm(m, v2) + Epsilon
  }

  /** The arc cosine, in degrees, of dot / denominator clamped to [-1, 1]. */
  function AngleFromCosine(m: Libm, dot: real, denominator: real): real
    requires 0.0 < denominator
  {
    m.acosDegrees(Clamp(dot / denominator, -1.0, 1.0))
  }

  /** The angle at p2 between the legs towards p1 and p3, in degrees; always
      within [0, 180]. (The lengths of a sound library are never negative, so
      the denominator is positive; see DenominatorPositive.) */
  function CalculateAngle3D(m: Libm, p1: Vec3, p2: Vec3, p3: Vec3): (r: real)
    requires Sound(m)
    ensures 0.0 <= r <= 180.0
  {
    var v1, v2 := Sub(p1, p2), Sub(p3, p2);
    DenominatorPositive(m, v1, v2);
    AngleFromCosine(m, Dot3(v1, v2), Denominator(m, v1, v2))
  }

  /** The denominator is strictly positive for every pair of legs, so the
      quotient is always defined. */
  lemma DenominatorPositive(m: Libm, v1: Vec3, v2: Vec3)
    requires Sound(m)
    ensures Denominator(m, v1, v2) >= Epsilon > 0.0
  {
    var n1, n2 := Norm(m, v1), Norm(m, v2);
    assert 0.0 <= n1 && 0.0 <= n2;
    NonNegativeProduct(n1, n2);
  }

  lemma NonNegativeProduct(a: real, b: real)
    requires 0.0 <= a && 0.0 <= b
    ensures 0.0 <= a * b
  {
  }

  /** A zero dot product gives a cosine of 0, hence 90 degrees. */
  lemma AngleOfZeroDot(m: Libm, dot: real, denominator: real)
    requires Sound(m) && 0.0 < denominator && dot == 0.0
    ensures AngleFromCosine(m, dot, denominator) == 90.0
  {
    assert dot / denominator == 0.0;
  }

  /** Perpendicular legs form a right angle; no zero guard is needed because of
      the positive denominator. */
  lemma AngleRight3D(m: Libm, p1: Vec3, p2: Vec3, p3: Vec3)
    requires Sound(m) && Dot3(Sub(p1, p2), Sub(p3, p2)) == 0.0
    ensures CalculateAngle3D(m, p1, p2, p3) == 90.0
  {
    var v1, v2 := Sub(p1, p2), Sub(p3, p2);
    DenominatorPositive(m, v1, v2);
    AngleOfZeroDot(m, Dot3(v1, v2), Denominator(m, v1, v2));
  }

  /** A leg of length zero (p1 or p3 on top of p2) gives 90 degrees, unlike the
      2D angle, which returns 0 in that case. */
  lemma AngleZeroLeg3D(m: Libm, p1: Vec3, p2: Vec3, p3: Vec3)
    requires Sound(m) && (p1 == p2 || p3 == p2)
    ensures CalculateAngle3D(m, p1, p2, p3) == 90.0
  {
    var v1, v2 := Sub(p1, p2), Sub(p3, p2);
    assert v1 == Vec3(0.0, 0.0, 0.0) || v2 == Vec3(0.0, 0.0, 0.0);
    assert Dot3(v1, v2) == 0.0;
    AngleRight3D(m, p1, p2, p3);
  }

  /** Exchanging the two outer points leaves the angle unchanged. */
  lemma AngleSymmetric3D(m: Libm, p1: Vec3, p2: Vec3, p3: Vec3)
    requires Sound(m)
    ensures CalculateAngle3D(m, p1, p2, p3) == CalculateAngle3D(m, p3, p2, p1)
  {
    var v1, v2 := Sub(p1, p2), Sub(p3, p2);
    assert Dot3(v1, v2) == Dot3(v2, v1);
    var n1, n2 := Norm(m, v1), Norm(m, v2);
    assert n1 * n2 == n2 * n1;
    assert Denominator(m, v1, v2) == Denominator(m, v2, v1);
  }

  /** Moving all three points by the same offset leaves the angle unchanged. */
  lemma AngleTranslationInvariant3D(m: Libm, p1: Vec3, p2: Vec3, p3: Vec3, d: Vec3)
    requires Sound(m)
    ensures CalculateAngle3D(m, p1, p2, p3)
         == CalculateAngle3D(m, Add(p1, d), Add(p2, d), Add(p3, d))
  {
    assert Sub(Add(p1, d), Add(p2, d)) == Sub(p1, p2);
    assert Sub(Add(p3, d), Add(p2, d)) == Sub(p3, p2);
  }

  function Add(a: Vec3, b: Vec3): Vec3
  {
    Vec3(a.x + b.x, a.y + b.y, a.z + b.z)
  }
}
