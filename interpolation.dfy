/** One-dimensional piecewise-linear interpolation as `np.interp` does it:
    the value at a knot is the knot's value, between two knots the value lies
    on the segment joining them, and outside the knots it is flat at the
    nearest end value. */
module Interpolation {

  /** Knot positions strictly increase. */
  predicate StrictlyIncreasing(xs: seq<nat>)
  {
    forall j, k :: 0 <= j < k < |xs| ==> xs[j] < xs[k]
  }

  /** The point at position t on the segment from (x0, y0) to (x1, y1). */
  function Segment(t: nat, x0: nat, x1: nat, y0: real, y1: real): real
    requires x0 < x1
  {
    y0 + (t - x0) as real * (y1 - y0) / (x1 - x0) as real
  }

  /** Within its span, a segment never leaves the range of its two end values. */
  lemma SegmentWithinEnds(t: nat, x0: nat, x1: nat, y0: real, y1: real)
    requires x0 <= t <= x1 && x0 < x1
    ensures y0 <= y1 ==> y0 <= Segment(t, x0, x1, y0, y1) <= y1
    ensures y1 <= y0 ==> y1 <= Segment(t, x0, x1, y0, y1) <= y0
  {
    var num, den := (t - x0) as real, (x1 - x0) as real;
    var frac := num / den;
    assert 0.0 <= frac <= 1.0;
    assert num * (y1 - y0) / den == frac * (y1 - y0);
    assert Segment(t, x0, x1, y0, y1) == y0 + num * (y1 - y0) / den;
    FractionOfGap(frac, y0, y1);
  }

  lemma FractionOfGap(frac: real, y0: real, y1: real)
    requires 0.0 <= frac <= 1.0
    ensures y0 <= y1 ==> y0 <= y0 + frac * (y1 - y0) <= y1
    ensures y1 <= y0 ==> y1 <= y0 + frac * (y1 - y0) <= y0
  {
    var g := y1 - y0;
    assert (1.0 - frac) * g == g - frac * g;
    if 0.0 <= g {
      ProductNonNegative(frac, g);
      ProductNonNegative(1.0 - frac, g);
    } else {
      ProductNonNegative(frac, -g);
      ProductNonNegative(1.0 - frac, -g);
    }
  }

  lemma ProductNonNegative(a: real, b: real)
    requires 0.0 <= a && 0.0 <= b
    ensures 0.0 <= a * b
  {
  }

  /** `np.interp(t, xs, ys)` for one position t. */
  function Interp(t: nat, xs: seq<nat>, ys: seq<real>): real
    requires 0 < |xs| == |ys|
    decreases |xs|
  {
    if |xs| == 1 || t <= xs[0] then ys[0]
    else if t < xs[1] then Segment(t, xs[0], xs[1], ys[0], ys[1])
    else Interp(t, xs[1..], ys[1..])
  }

  /** At or before the first knot the value is the first knot's value. */
  lemma InterpBeforeFirst(t: nat, xs: seq<nat>, ys: seq<real>)
    requires 0 < |xs| == |ys| && t <= xs[0]
    ensures Interp(t, xs, ys) == ys[0]
  {
  }

  /** At or after the last knot the value is the last knot's value. */
  lemma {:induction false} InterpAfterLast(t: nat, xs: seq<nat>, ys: seq<real>)
    requires 0 < |xs| == |ys| && StrictlyIncreasing(xs) && xs[|xs| - 1] <= t
    ensures Interp(t, xs, ys) == ys[|ys| - 1]
    decreases |xs|
  {
    if |xs| > 1 {
      assert xs[0] < xs[1] <= xs[|xs| - 1];
      InterpAfterLast(t, xs[1..], ys[1..]);
    }
  }

  /** At a knot the value is that knot's value. */
  lemma {:induction false} InterpAtKnot(k: nat, xs: seq<nat>, ys: seq<real>)
    requires 0 < |xs| == |ys| && StrictlyIncreasing(xs) && k < |xs|
    ensures Interp(xs[k], xs, ys) == ys[k]
    decreases k
  {
    if k > 0 {
      assert xs[0] < xs[1] <= xs[k];
      InterpAtKnot(k - 1, xs[1..], ys[1..]);
    }
  }

  /** Strictly between knots k and k + 1 the value is on the segment that
      joins them. */
  lemma {:induction false} InterpBetween(t: nat, k: nat, xs: seq<nat>, ys: seq<real>)
    requires 0 < |xs| == |ys| && StrictlyIncreasing(xs) && k + 1 < |xs| && xs[k] < t < xs[k + 1]
    ensures Interp(t, xs, ys) == Segment(t, xs[k], xs[k + 1], ys[k], ys[k + 1])
    decreases k
  {
    if k > 0 {
      assert xs[0] < xs[1] <= xs[k];
      InterpBetween(t, k - 1, xs[1..], ys[1..]);
    }
  }

  /** Interpolating a constant gives that constant everywhere. */
  lemma {:induction false} InterpConstant(t: nat, xs: seq<nat>, ys: seq<real>, c: real)
    requires 0 < |xs| == |ys| && forall k :: 0 <= k < |ys| ==> ys[k] == c
    ensures Interp(t, xs, ys) == c
    decreases |xs|
  {
    if |xs| > 1 && xs[0] < t {
      if t < xs[1] {
        assert ys[1] - ys[0] == 0.0;
        assert Segment(t, xs[0], xs[1], ys[0], ys[1]) == c;
      } else {
        InterpConstant(t, xs[1..], ys[1..], c);
      }
    }
  }

  /** Interpolation never overshoots: values within [lo, hi] at the knots
      give a value within [lo, hi] everywhere. */
  lemma {:induction false} InterpBounded(t: nat, xs: seq<nat>, ys: seq<real>, lo: real, hi: real)
    requires 0 < |xs| == |ys| && forall k :: 0 <= k < |ys| ==> lo <= ys[k] <= hi
    ensures lo <= Interp(t, xs, ys) <= hi
    decreases |xs|
  {
    if |xs| > 1 && xs[0] < t {
      if t < xs[1] {
        SegmentWithinEnds(t, xs[0], xs[1], ys[0], ys[1]);
      } else {
        InterpBounded(t, xs[1..], ys[1..], lo, hi);
      }
    }
  }
}
