/** Real arithmetic shared by the metric modules: absolute value, maximum,
    clamping, 3-vectors, and the two floating-point library routines the source
    calls (a square root, behind `math.hypot` and `np.linalg.norm`, and `acos`
    followed by the conversion to degrees). */
module RealMath {

  datatype Vec3 = Vec3(x: real, y: real, z: real)

  /** The math library as a value: the model never computes a length or an arc
      cosine itself, it asks these functions (`math.hypot`, `np.linalg.norm`,
      and `acos` followed by the conversion to degrees). */
  datatype Libm = Libm(hypot: (real, real) -> real, norm3: (real, real, real) -> real, acosDegrees: real -> real)

  /** Everything the model assumes about the math library: both lengths are
      non-negative and zero exactly at the zero vector, the plane length squared
      is the sum of the squared components, and `acos` in degrees maps [-1, 1]
      into [0, 180], sending 1, 0 and -1 to 0, 90 and 180 degrees. */
  ghost predicate Sound(m: Libm)
  {
    && (forall a, b {:trigger m.hypot(a, b)} ::
          && 0.0 <= m.hypot(a, b)
          && (m.hypot(a, b) == 0.0 <==> a == 0.0 && b == 0.0)
          && m.hypot(a, b) * m.hypot(a, b) == a * a + b * b)
    && (forall a, b, c {:trigger m.norm3(a, b, c)} ::
          && 0.0 <= m.norm3(a, b, c)
          && (m.norm3(a, b, c) == 0.0 <==> a == 0.0 && b == 0.0 && c == 0.0))
    && (forall c {:trigger m.acosDegrees(c)} :: -1.0 <= c <= 1.0 ==> 0.0 <= m.acosDegrees(c) <= 180.0)
    && m.acosDegrees(1.0) == 0.0
    && m.acosDegrees(0.0) == 90.0
    && m.acosDegrees(-1.0) == 180.0
  }

  function Abs(v: real): (r: real)
    ensures 0.0 <= r && (r == v || r == -v)
  {
    if v < 0.0 then -v else v
  }

  function Max(a: real, b: real): (r: real)
    ensures a <= r && b <= r && (r == a || r == b)
  {
    if a < b then b else a
  }

  /** `max(min(v, hi), lo)`, as the source writes its clamps. */
  function Clamp(v: real, lo: real, hi: real): (r: real)
    requires lo <= hi
    ensures lo <= r <= hi
    ensures lo <= v <= hi ==> r == v
  {
    if v < lo then lo else if hi < v then hi else v
  }

  /** Squaring is strictly increasing on the non-negative reals. */
  lemma SquareMonotone(a: real, b: real)
    requires 0.0 <= a && 0.0 <= b
    ensures a < b <==> a * a < b * b
  {
    var aa, ab, bb := a * a, a * b, b * b;
    if a < b {
      assert aa <= ab && ab < bb;
    } else {
      assert bb <= ab && ab <= aa;
    }
  }

  /** Two non-negative numbers with the same square are equal. */
  lemma SquareInjective(a: real, b: real)
    requires 0.0 <= a && 0.0 <= b && a * a == b * b
    ensures a == b
  {
    SquareMonotone(a, b);
    SquareMonotone(b, a);
  }

  lemma PositiveProduct(a: real, b: real)
    requires 0.0 < a && 0.0 < b
    ensures 0.0 < a * b
  {
  }
}
