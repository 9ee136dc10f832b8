/** Per-frame biomechanical metrics on one pose frame (a sequence of 33
    landmarks): hip centring, the 2D angle at a joint, the four joint angles,
    two horizontal distances, angular velocity of an angle series and the
    left/right symmetry of two angles. */
module Metrics {
  import opened Options
  import opened RealMath
  import opened Tables

  /** A fully defined landmark, as the metric functions receive it. */
  datatype Point = Point(x: real, y: real, z: real, visibility: real)

  // Anatomical landmark indices of the 33-point pose model.
  const LeftShoulder := 11
  const RightShoulder := 12
  const LeftElbow := 13
  const RightElbow := 14
  const LeftWrist := 15
  const RightWrist := 16
  const LeftHip := 23
  const RightHip := 24
  const LeftKnee := 25
  const RightKnee := 26
  const LeftAnkle := 27
  const RightAnkle := 28

  /** Hip centring: a translation of x and y that puts the midpoint of the two
      hips at the origin. Differences between points are kept, z and visibility
      are untouched, and the two hips end up symmetric about the origin. */
  function NormalizeLandmarks(lms: seq<Point>): (r: seq<Point>)
    requires RightHip < |lms|
    ensures |r| == |lms|
    ensures forall i :: 0 <= i < |r| ==> r[i].z == lms[i].z && r[i].visibility == lms[i].visibility
    ensures forall i, j :: 0 <= i < |r| && 0 <= j < |r| ==>
              r[i].x - r[j].x == lms[i].x - lms[j].x && r[i].y - r[j].y == lms[i].y - lms[j].y
    ensures r[LeftHip].x + r[RightHip].x == 0.0 && r[LeftHip].y + r[RightHip].y == 0.0
  {
    var cx := (lms[LeftHip].x + lms[RightHip].x) / 2.0;
    var cy := (lms[LeftHip].y + lms[RightHip].y) / 2.0;
    seq(|lms|, i requires 0 <= i < |lms| => Point(lms[i].x - cx, lms[i].y - cy, lms[i].z, lms[i].visibility))
  }

  /** Centring an already centred frame changes nothing. */
  lemma NormalizeIdempotent(lms: seq<Point>)
    requires RightHip < |lms|
    ensures NormalizeLandmarks(NormalizeLandmarks(lms)) == NormalizeLandmarks(lms)
  {
    var n := NormalizeLandmarks(lms);
    var nn := NormalizeLandmarks(n);
    assert (n[LeftHip].x + n[RightHip].x) / 2.0 == 0.0;
    assert (n[LeftHip].y + n[RightHip].y) / 2.0 == 0.0;
    assert forall i :: 0 <= i < |n| ==> nn[i] == n[i];
  }

  function Dot2(ux: real, uy: real, wx: real, wy: real): real
  {
    ux * wx + uy * wy
  }

  /** Whether one of the two legs of the angle p1-p2-p3 has zero length in the plane. */
  predicate ZeroLeg(p1: Point, p2: Point, p3: Point)
  {
    (p1.x == p2.x && p1.y == p2.y) || (p3.x == p2.x && p3.y == p2.y)
  }

  /** The angle, in degrees, whose cosine is dot / prod, where prod is the
      product of the two leg lengths: 0 when that product is zero, otherwise the
      arc cosine of the quotient clamped to [-1, 1]. */
  function AngleFromDot(m: Libm, dot: real, prod: real): real
  {
    if prod == 0.0 then 0.0 else m.acosDegrees(Clamp(dot / prod, -1.0, 1.0))
  }

  /** The angle, in degrees, between two plane vectors. */
  function LegAngle(m: Libm, v1x: real, v1y: real, v2x: real, v2y: real): real
  {
    AngleFromDot(m, Dot2(v1x, v1y, v2x, v2y), m.hypot(v1x, v1y) * m.hypot(v2x, v2y))
  }

  /** The planar angle, in degrees, at p2 between the legs towards p1 and p3;
      always within [0, 180]. */
  function CalculateAngle(m: Libm, p1: Point, p2: Point, p3: Point): (r: real)
    ensures Sound(m) ==> 0.0 <= r <= 180.0
  {
    LegAngle(m, p1.x - p2.x, p1.y - p2.y, p3.x - p2.x, p3.y - p2.y)
  }

  /** A leg of length zero in the plane gives 0 degrees, and only then is the
      zero guard taken: otherwise the product of the leg lengths is positive. */
  lemma AngleZeroLegGuard(m: Libm, p1: Point, p2: Point, p3: Point)
    requires Sound(m)
    ensures ZeroLeg(p1, p2, p3) ==> CalculateAngle(m, p1, p2, p3) == 0.0
    ensures !ZeroLeg(p1, p2, p3) ==>
              m.hypot(p1.x - p2.x, p1.y - p2.y) * m.hypot(p3.x - p2.x, p3.y - p2.y) > 0.0
  {
    var mag1, mag2 := m.hypot(p1.x - p2.x, p1.y - p2.y), m.hypot(p3.x - p2.x, p3.y - p2.y);
    if !ZeroLeg(p1, p2, p3) {
      PositiveProduct(mag1, mag2);
    }
  }

  /** Straight angle, first half: the legs (a, b) and -k*(a, b), k > 0, of
      three collinear points with the joint strictly between the other two have
      a positive length product whose negation is their dot product. */
  lemma StraightLegs(m: Libm, ax: real, ay: real, k: real)
    requires Sound(m)
    requires !(ax == 0.0 && ay == 0.0) && 0.0 < k
    ensures 0.0 < m.hypot(ax, ay) * m.hypot(-k * ax, -k * ay)
    ensures Dot2(ax, ay, -k * ax, -k * ay) == -(m.hypot(ax, ay) * m.hypot(-k * ax, -k * ay))
  {
    var mag1 := m.hypot(ax, ay);
    var mag2 := m.hypot(-k * ax, -k * ay);
    assert 0.0 < mag1 && mag1 * mag1 == ax * ax + ay * ay;
    assert 0.0 <= mag2 && mag2 * mag2 == (-k * ax) * (-k * ax) + (-k * ay) * (-k * ay);
    StraightCosineOfLegs(ax, ay, k, mag1, mag2);
  }

  /** Straight angle, second half: a positive length product whose negation is
      the dot product (a cosine of -1) gives 180 degrees. */
  lemma AngleFromOppositeDot(m: Libm, dot: real, prod: real)
    requires m.acosDegrees(-1.0) == 180.0
    requires 0.0 < prod && dot == -prod
    ensures AngleFromDot(m, dot, prod) == 180.0
  {
    assert dot / prod == -1.0;
  }

  /** With the lengths of (a, b) and of -k*(a, b) given, their cosine is -1. */
  lemma StraightCosineOfLegs(ax: real, ay: real, k: real, mag1: real, mag2: real)
    requires 0.0 < k && 0.0 < mag1 && mag1 * mag1 == ax * ax + ay * ay
    requires 0.0 <= mag2 && mag2 * mag2 == (-k * ax) * (-k * ax) + (-k * ay) * (-k * ay)
    ensures 0.0 < mag1 * mag2
    ensures Dot2(ax, ay, -k * ax, -k * ay) == -(mag1 * mag2)
  {
    OppositeLeg(mag1, mag2, ax, ay, k);
    PositiveProduct(mag1, mag2);
  }

  /** The leg -k*(a, b) is k times as long as (a, b), and its dot product with
      (a, b) is -k times the squared length of (a, b). */
  lemma OppositeLeg(h: real, g: real, a: real, b: real, k: real)
    requires 0.0 < h && 0.0 <= g && 0.0 < k
    requires h * h == a * a + b * b && g * g == (-k * a) * (-k * a) + (-k * b) * (-k * b)
    ensures g == k * h
    ensures Dot2(a, b, -k * a, -k * b) == -k * (h * h)
  {
    assert g * g == k * k * (h * h);
    assert (k * h) * (k * h) == k * k * (h * h);
    PositiveProduct(k, h);
    SquareInjective(g, k * h);
  }

  /** Two non-degenerate perpendicular legs form a right angle. */
  lemma AngleRight(m: Libm, p1: Point, p2: Point, p3: Point)
    requires Sound(m) && !ZeroLeg(p1, p2, p3)
    requires Dot2(p1.x - p2.x, p1.y - p2.y, p3.x - p2.x, p3.y - p2.y) == 0.0
    ensures CalculateAngle(m, p1, p2, p3) == 90.0
  {
    AngleZeroLegGuard(m, p1, p2, p3);
  }

  /** Exchanging the two outer points leaves the angle unchanged. */
  lemma AngleSymmetric(m: Libm, p1: Point, p2: Point, p3: Point)
    ensures CalculateAngle(m, p1, p2, p3) == CalculateAngle(m, p3, p2, p1)
  {
    var v1x, v1y := p1.x - p2.x, p1.y - p2.y;
    var v2x, v2y := p3.x - p2.x, p3.y - p2.y;
    assert Dot2(v1x, v1y, v2x, v2y) == Dot2(v2x, v2y, v1x, v1y);
    var mag1, mag2 := m.hypot(v1x, v1y), m.hypot(v2x, v2y);
    assert mag1 * mag2 == mag2 * mag1;
  }

  /** Moving all three points by the same offset in the plane leaves the angle unchanged. */
  lemma AngleTranslationInvariant(m: Libm, p1: Point, p2: Point, p3: Point, dx: real, dy: real)
    ensures CalculateAngle(m, p1, p2, p3)
         == CalculateAngle(m, p1.(x := p1.x + dx, y := p1.y + dy), p2.(x := p2.x + dx, y := p2.y + dy),
                           p3.(x := p3.x + dx, y := p3.y + dy))
  {
  }

  /** The four joint angles of one frame, in degrees. */
  datatype JointAngles = JointAngles(kneeLeft: real, kneeRight: real, elbowLeft: real, elbowRight: real)

  /** Knee angles are hip-knee-ankle and elbow angles shoulder-elbow-wrist, each
      side on its own landmarks; every angle lies in [0, 180]. */
  function ExtractJointAngles(m: Libm, lms: seq<Point>): (r: JointAngles)
    requires RightAnkle < |lms|
    ensures Sound(m) ==> 0.0 <= r.kneeLeft <= 180.0 && 0.0 <= r.kneeRight <= 180.0
    ensures Sound(m) ==> 0.0 <= r.elbowLeft <= 180.0 && 0.0 <= r.elbowRight <= 180.0
  {
    JointAngles(
      CalculateAngle(m, lms[LeftHip], lms[LeftKnee], lms[LeftAnkle]),
      CalculateAngle(m, lms[RightHip], lms[RightKnee], lms[RightAnkle]),
      CalculateAngle(m, lms[LeftShoulder], lms[LeftElbow], lms[LeftWrist]),
      CalculateAngle(m, lms[RightShoulder], lms[RightElbow], lms[RightWrist]))
  }

  /** The angle depends on the two legs only, not on where the joint is. */
  lemma AngleOfEqualLegs(m: Libm, p1: Point, p2: Point, p3: Point, q1: Point, q2: Point, q3: Point)
    requires p1.x - p2.x == q1.x - q2.x && p1.y - p2.y == q1.y - q2.y
    requires p3.x - p2.x == q3.x - q2.x && p3.y - p2.y == q3.y - q2.y
    ensures CalculateAngle(m, p1, p2, p3) == CalculateAngle(m, q1, q2, q3)
  {
  }

  /** Hip centring does not change any joint angle. */
  lemma JointAnglesUnchangedByNormalize(m: Libm, lms: seq<Point>)
    requires RightAnkle < |lms|
    ensures ExtractJointAngles(m, NormalizeLandmarks(lms)) == ExtractJointAngles(m, lms)
  {
    var n := NormalizeLandmarks(lms);
    AngleOfEqualLegs(m, n[LeftHip], n[LeftKnee], n[LeftAnkle], lms[LeftHip], lms[LeftKnee], lms[LeftAnkle]);
    AngleOfEqualLegs(m, n[RightHip], n[RightKnee], n[RightAnkle], lms[RightHip], lms[RightKnee], lms[RightAnkle]);
    AngleOfEqualLegs(m, n[LeftShoulder], n[LeftElbow], n[LeftWrist], lms[LeftShoulder], lms[LeftElbow], lms[LeftWrist]);
    AngleOfEqualLegs(m, n[RightShoulder], n[RightElbow], n[RightWrist], lms[RightShoulder], lms[RightElbow], lms[RightWrist]);
  }

  /** Shoulder width and foot separation, in normalised horizontal units. */
  datatype Distances = Distances(shoulderWidth: real, feetSeparation: real)

  /** Horizontal distances between the shoulders and between the ankles; never negative. */
  function CalculateDistances(lms: seq<Point>): (r: Distances)
    requires RightAnkle < |lms|
    ensures 0.0 <= r.shoulderWidth && 0.0 <= r.feetSeparation
    ensures r.shoulderWidth == lms[RightShoulder].x - lms[LeftShoulder].x
         || r.shoulderWidth == lms[LeftShoulder].x - lms[RightShoulder].x
  {
    Distances(Abs(lms[RightShoulder].x - lms[LeftShoulder].x), Abs(lms[RightAnkle].x - lms[LeftAnkle].x))
  }

  /** Hip centring does not change either distance. */
  lemma DistancesUnchangedByNormalize(lms: seq<Point>)
    requires RightAnkle < |lms|
    ensures CalculateDistances(NormalizeLandmarks(lms)) == CalculateDistances(lms)
  {
    var n := NormalizeLandmarks(lms);
    assert n[RightShoulder].x - n[LeftShoulder].x == lms[RightShoulder].x - lms[LeftShoulder].x;
    assert n[RightAnkle].x - n[LeftAnkle].x == lms[RightAnkle].x - lms[LeftAnkle].x;
  }

  /** The absolute change between two consecutive samples per second at `fps`
      frames per second; undefined when either sample is. */
  function Speed(previous: Option<real>, current: Option<real>, fps: real): Option<real>
  {
    if previous.Some? && current.Some? then Some(Abs(current.value - previous.value) * fps) else None
  }

  /** Entry i of the angular velocity of `angles`: all zeros when fps is zero,
      zero for the first sample, and otherwise the speed from the previous sample. */
  function VelocityAt(angles: Column, fps: real, i: int): Option<real>
    requires 0 <= i < |angles|
  {
    if fps == 0.0 || i == 0 then Some(0.0) else Speed(angles[i - 1], angles[i], fps)
  }

  /** The angular velocity is never negative at a positive frame rate, is zero
      everywhere at frame rate zero, and has no gaps where the angles have none. */
  lemma VelocityProperties(angles: Column, fps: real, i: int)
    requires 0 <= i < |angles|
    ensures 0.0 < fps && VelocityAt(angles, fps, i).Some? ==> 0.0 <= VelocityAt(angles, fps, i).value
    ensures fps == 0.0 ==> VelocityAt(angles, fps, i) == Some(0.0)
    ensures Defined(angles) ==> VelocityAt(angles, fps, i).Some?
  {
    if 0.0 < fps && 0 < i && angles[i - 1].Some? && angles[i].Some? {
      var d := Abs(angles[i].value - angles[i - 1].value);
      assert 0.0 <= d * fps;
    }
  }

  /** The angular velocity of an angle series, one entry per sample, built by
      appending as the source does; the step time is 1/fps. */
  method CalculateAngularVelocity(angles: Column, fps: real) returns (v: Column)
    ensures |v| == |angles|
    ensures forall i :: 0 <= i < |angles| ==> v[i] == VelocityAt(angles, fps, i)
  {
    if |angles| == 0 || fps == 0.0 {
      v := seq(|angles|, _ => Some(0.0));
      return;
    }
    v := [Some(0.0)];
    var dt := 1.0 / fps;
    for i := 1 to |angles|
      invariant |v| == i
      invariant forall j :: 0 <= j < i ==> v[j] == VelocityAt(angles, fps, j)
    {
      var step: Option<real> := None;
      if angles[i].Some? && angles[i - 1].Some? {
        var d := Abs(angles[i].value - angles[i - 1].value);
        assert d / dt == d * fps;
        step := Some(d / dt);
        assert VelocityAt(angles, fps, i).value == d * fps;
      }
      v := v + [step];
    }
  }

  predicate SameSign(a: real, b: real)
  {
    (0.0 <= a && 0.0 <= b) || (a <= 0.0 && b <= 0.0)
  }

  /** Left/right symmetry of two angles: undefined if either angle is; 1 when
      both are zero or equal; never above 1; within [0, 1] when both angles have
      the same sign, and negative for opposite signs of very different size. */
  function CalculateSymmetry(left: Option<real>, right: Option<real>): (r: Option<real>)
    ensures r.None? <==> left.None? || right.None?
    ensures r.Some? ==> r.value <= 1.0
    ensures r.Some? && left.value == right.value ==> r.value == 1.0
    ensures r.Some? && SameSign(left.value, right.value) ==> 0.0 <= r.value
  {
    if left.None? || right.None? then None
    else
      var maxAngle := Max(Abs(left.value), Abs(right.value));
      if maxAngle == 0.0 then Some(1.0)
      else
        var diff := Abs(left.value - right.value);
        assert 0.0 <= diff / maxAngle;
        assert SameSign(left.value, right.value) ==> diff <= maxAngle;
        DivAtMostOne(diff, maxAngle);
        Some(1.0 - diff / maxAngle)
  }

  lemma DivAtMostOne(a: real, b: real)
    requires 0.0 < b
    ensures a <= b ==> a / b <= 1.0
  {
    if a <= b {
      assert a / b == a * (1.0 / b);
    }
  }

  /** Symmetry does not depend on which side is called left. */
  lemma SymmetryCommutes(left: Option<real>, right: Option<real>)
    ensures CalculateSymmetry(left, right) == CalculateSymmetry(right, left)
  {
  }

  /** The score is not clamped: opposite angles of equal size score -1. */
  lemma SymmetryNotClamped(a: real)
    requires a != 0.0
    ensures CalculateSymmetry(Some(a), Some(-a)) == Some(-1.0)
  {
    var maxAngle := Max(Abs(a), Abs(-a));
    assert maxAngle == Abs(a) && Abs(a - -a) == 2.0 * Abs(a);
    assert 2.0 * Abs(a) / Abs(a) == 2.0;
  }
}
