/** The world-landmark analysis: per-frame 3D knee and hip angles, and a
    hysteresis repetition counter over the left-knee angle that also records a
    depth fault for every repetition whose lowest angle stayed too high. */
module Analysis3D {
  import opened Options
  import opened RealMath
  import opened Tables
  import opened MathUtils
  import Interpolation

  // Indices of the landmarks the 3D metrics use, in the 33-point pose model.
  const LeftShoulder := 11
  const LeftHip := 23
  const LeftKnee := 25
  const LeftAnkle := 27
  const PoseLandmarkCount := 33

  /** One row of the 3D metrics table. */
  datatype Row3D = Row3D(frameIdx: nat, timeS: real, kneeAngle: real, hipAngle: real, hipHeight: real)

  /** Whether an estimation result has world landmarks (a missing or empty
      list has none, and the frame is skipped). */
  predicate HasLandmarks(result: Option<seq<Vec3>>)
  {
    result.Some? && |result.value| > 0
  }

  /** Whether processing a frame raises: looking up the 33 named landmarks
      fails on a shorter list, and the frame time divides by fps. */
  predicate Raises(result: Option<seq<Vec3>>, fps: real)
  {
    HasLandmarks(result) && (|result.value| < PoseLandmarkCount || fps == 0.0)
  }

  /** The time of frame `frameIdx` in seconds at `fps` frames per second. */
  function FrameTime(frameIdx: nat, fps: real): (t: real)
    requires fps != 0.0
    ensures t * fps == frameIdx as real
  {
    frameIdx as real / fps
  }

  /** The row of frame `frameIdx`: its time in seconds, the knee angle
      (hip-knee-ankle), the hip angle (shoulder-hip-knee), and the hip height. */
  function MakeRow(m: Libm, frameIdx: nat, lms: seq<Vec3>, fps: real): (r: Row3D)
    requires Sound(m) && PoseLandmarkCount <= |lms| && fps != 0.0
    ensures r.frameIdx == frameIdx && r.timeS * fps == frameIdx as real
    ensures 0.0 <= r.kneeAngle <= 180.0 && 0.0 <= r.hipAngle <= 180.0
  {
    Row3D(frameIdx, FrameTime(frameIdx, fps),
          CalculateAngle3D(m, lms[LeftHip], lms[LeftKnee], lms[LeftAnkle]),
          CalculateAngle3D(m, lms[LeftShoulder], lms[LeftHip], lms[LeftKnee]),
          lms[LeftHip].y)
  }

  /** Whether frame i yields a row: it has landmarks and does not raise. */
  predicate Yields(results: seq<Option<seq<Vec3>>>, fps: real, i: int)
    requires 0 <= i < |results|
  {
    HasLandmarks(results[i]) && !Raises(results[i], fps)
  }

  /** The frames of `results` that `calculate_3d_metrics` turns into rows, in
      order, or None when processing raises. */
  function FrameIndices(results: seq<Option<seq<Vec3>>>, fps: real): (r: Option<seq<nat>>)
    ensures r.Some? ==> forall k :: 0 <= k < |r.value| ==> r.value[k] < |results| && Yields(results, fps, r.value[k])
  {
    if |results| == 0 then Some([])
    else
      var n := |results| - 1;
      assert forall i :: 0 <= i < n ==> results[..n][i] == results[i];
      match FrameIndices(results[..n], fps)
      case None => None
      case Some(idxs) =>
        if !HasLandmarks(results[n]) then Some(idxs)
        else if Raises(results[n], fps) then None
        else Some(idxs + [n])
  }

  /** The rows of the given frames, each made from its own frame. */
  function RowsOf(m: Libm, results: seq<Option<seq<Vec3>>>, fps: real, idxs: seq<nat>): (r: seq<Row3D>)
    requires Sound(m)
    requires forall k :: 0 <= k < |idxs| ==> idxs[k] < |results| && Yields(results, fps, idxs[k])
    ensures |r| == |idxs|
  {
    if |idxs| == 0 then []
    else
      var n := |idxs| - 1;
      assert forall k :: 0 <= k < n ==> idxs[..n][k] == idxs[k];
      assert Yields(results, fps, idxs[n]);
      RowsOf(m, results, fps, idxs[..n]) + [MakeRow(m, idxs[n], results[idxs[n]].value, fps)]
  }

  /** The rows `calculate_3d_metrics` produces for `results`, or None when
      processing raises. */
  function Rows3D(m: Libm, results: seq<Option<seq<Vec3>>>, fps: real): Option<seq<Row3D>>
    requires Sound(m)
  {
    match FrameIndices(results, fps)
    case None => None
    case Some(idxs) => Some(RowsOf(m, results, fps, idxs))
  }

  /** Once a prefix raises, so does the whole list. */
  lemma {:induction false} RaiseSticks(results: seq<Option<seq<Vec3>>>, fps: real, k: nat)
    requires k <= |results| && FrameIndices(results[..k], fps).None?
    ensures FrameIndices(results, fps).None?
    decreases |results| - k
  {
    if k < |results| {
      var n := |results| - 1;
      assert results[..n][..k] == results[..k];
      RaiseSticks(results[..n], fps, k);
    } else {
      assert results[..k] == results;
    }
  }

  /** Taking one more frame extends the frames of the shorter prefix. */
  lemma FrameIndicesStep(results: seq<Option<seq<Vec3>>>, fps: real, n: nat)
    requires n < |results|
    ensures FrameIndices(results[..n], fps).Some? && !HasLandmarks(results[n]) ==>
              FrameIndices(results[..n + 1], fps) == FrameIndices(results[..n], fps)
    ensures FrameIndices(results[..n], fps).Some? && Raises(results[n], fps) ==>
              FrameIndices(results[..n + 1], fps).None?
    ensures FrameIndices(results[..n], fps).Some? && HasLandmarks(results[n]) && !Raises(results[n], fps) ==>
              FrameIndices(results[..n + 1], fps) == Some(FrameIndices(results[..n], fps).value + [n])
  {
    assert results[..n + 1][..n] == results[..n];
  }

  /** Appending frame i to the frames already made adds its row. */
  lemma RowsOfAppend(m: Libm, results: seq<Option<seq<Vec3>>>, fps: real, idxs: seq<nat>, i: nat)
    requires Sound(m) && i < |results| && Yields(results, fps, i)
    requires forall k :: 0 <= k < |idxs| ==> idxs[k] < |results| && Yields(results, fps, idxs[k])
    ensures RowsOf(m, results, fps, idxs + [i]) == RowsOf(m, results, fps, idxs) + [MakeRow(m, i, results[i].value, fps)]
  {
    assert (idxs + [i])[..|idxs|] == idxs;
  }

  /** A frame that yields extends both the frames and the rows of the prefix
      before it by itself and its row. */
  lemma YieldingFrame(m: Libm, results: seq<Option<seq<Vec3>>>, fps: real, idxs: seq<nat>, i: nat)
    requires Sound(m) && i < |results| && Yields(results, fps, i)
    requires FrameIndices(results[..i], fps) == Some(idxs)
    requires forall k :: 0 <= k < |idxs| ==> idxs[k] < i && Yields(results, fps, idxs[k])
    ensures FrameIndices(results[..i + 1], fps) == Some(idxs + [i])
    ensures forall k :: 0 <= k < |idxs + [i]| ==> (idxs + [i])[k] < i + 1 && Yields(results, fps, (idxs + [i])[k])
    ensures RowsOf(m, results, fps, idxs + [i]) == RowsOf(m, results, fps, idxs) + [MakeRow(m, i, results[i].value, fps)]
  {
    FrameIndicesStep(results, fps, i);
    RowsOfAppend(m, results, fps, idxs, i);
  }

  /** `calculate_3d_metrics`: one row per frame with world landmarks, in
      frame order; None where the source raises. */
  method Calculate3DMetrics(m: Libm, results: seq<Option<seq<Vec3>>>, fps: real) returns (table: Option<seq<Row3D>>)
    requires Sound(m)
    ensures table == Rows3D(m, results, fps)
  {
    var metricsList: seq<Row3D> := [];
    ghost var idxs: seq<nat> := [];
    for frameIdx := 0 to |results|
      invariant FrameIndices(results[..frameIdx], fps) == Some(idxs)
      invariant forall k :: 0 <= k < |idxs| ==> idxs[k] < frameIdx && Yields(results, fps, idxs[k])
      invariant metricsList == RowsOf(m, results, fps, idxs)
    {
      var result := results[frameIdx];
      if !HasLandmarks(result) {
        FrameIndicesStep(results, fps, frameIdx);
        continue;
      }
      var lms := result.value;
      if |lms| < PoseLandmarkCount || fps == 0.0 {
        FrameIndicesStep(results, fps, frameIdx);
        RaiseSticks(results, fps, frameIdx + 1);
        return None;
      }
      var kneeAngle := CalculateAngle3D(m, lms[LeftHip], lms[LeftKnee], lms[LeftAnkle]);
      var hipAngle := CalculateAngle3D(m, lms[LeftShoulder], lms[LeftHip], lms[LeftKnee]);
      var hipHeight := lms[LeftHip].y;
      var row := Row3D(frameIdx, FrameTime(frameIdx, fps), kneeAngle, hipAngle, hipHeight);
      YieldingFrame(m, results, fps, idxs, frameIdx);
      metricsList := metricsList + [row];
      idxs := idxs + [frameIdx];
    }
    assert results[..|results|] == results;
    return Some(metricsList);
  }

  /** `calculate_3d_metrics` raises exactly when some frame with landmarks
      has fewer than 33 of them or fps is 0. */
  lemma {:induction false} Rows3DRaisesIff(m: Libm, results: seq<Option<seq<Vec3>>>, fps: real)
    requires Sound(m)
    ensures Rows3D(m, results, fps).None? <==> exists i :: 0 <= i < |results| && Raises(results[i], fps)
  {
    FrameIndicesRaisesIff(results, fps);
  }

  lemma {:induction false} FrameIndicesRaisesIff(results: seq<Option<seq<Vec3>>>, fps: real)
    ensures FrameIndices(results, fps).None? <==> exists i :: 0 <= i < |results| && Raises(results[i], fps)
  {
    if |results| > 0 {
      var n := |results| - 1;
      var prefix := results[..n];
      FrameIndicesRaisesIff(prefix, fps);
      assert forall i :: 0 <= i < n ==> prefix[i] == results[i];
    }
  }

  /** The frames that yield rows are strictly increasing. */
  lemma {:induction false} FrameIndicesIncreasing(results: seq<Option<seq<Vec3>>>, fps: real)
    ensures FrameIndices(results, fps).Some? ==> Interpolation.StrictlyIncreasing(FrameIndices(results, fps).value)
  {
    if |results| > 0 && FrameIndices(results, fps).Some? {
      var n := |results| - 1;
      FrameIndicesIncreasing(results[..n], fps);
      assert FrameIndices(results[..n], fps).Some?;
      var idxs := FrameIndices(results[..n], fps).value;
      assert Interpolation.StrictlyIncreasing(idxs);
      assert forall k :: 0 <= k < |idxs| ==> idxs[k] < n;
    }
  }

  /** Every frame with landmarks yields a row. */
  lemma {:induction false} FrameIndicesComplete(results: seq<Option<seq<Vec3>>>, fps: real)
    ensures FrameIndices(results, fps).Some? ==>
              forall i :: 0 <= i < |results| && HasLandmarks(results[i]) ==> i in FrameIndices(results, fps).value
  {
    if |results| > 0 && FrameIndices(results, fps).Some? {
      var n := |results| - 1;
      var prefix := results[..n];
      FrameIndicesComplete(prefix, fps);
      assert FrameIndices(prefix, fps).Some?;
      var idxs := FrameIndices(prefix, fps).value;
      var idxs' := FrameIndices(results, fps).value;
      assert idxs' == if HasLandmarks(results[n]) then idxs + [n] else idxs;
      forall i | 0 <= i < |results| && HasLandmarks(results[i]) ensures i in idxs' {
        if i < n {
          assert prefix[i] == results[i];
        }
      }
    }
  }

  /** Row k of the rows of some frames is the row of the k-th frame. */
  lemma {:induction false} RowsOfAt(m: Libm, results: seq<Option<seq<Vec3>>>, fps: real, idxs: seq<nat>, k: int)
    requires Sound(m)
    requires forall j :: 0 <= j < |idxs| ==> idxs[j] < |results| && Yields(results, fps, idxs[j])
    requires 0 <= k < |idxs|
    ensures RowsOf(m, results, fps, idxs)[k] == MakeRow(m, idxs[k], results[idxs[k]].value, fps)
    decreases |idxs|
  {
    var n := |idxs| - 1;
    if k < n {
      RowsOfAt(m, results, fps, idxs[..n], k);
    }
  }

  /** Row k of the rows of some frames belongs to the k-th frame. */
  lemma RowsOfFrameIdx(m: Libm, results: seq<Option<seq<Vec3>>>, fps: real, idxs: seq<nat>, k: int)
    requires Sound(m)
    requires forall j :: 0 <= j < |idxs| ==> idxs[j] < |results| && Yields(results, fps, idxs[j])
    requires 0 <= k < |idxs|
    ensures RowsOf(m, results, fps, idxs)[k].frameIdx == idxs[k]
  {
    RowsOfAt(m, results, fps, idxs, k);
  }

  /** Every row comes from a frame with landmarks that does not raise, at its
      own index and time frameIdx / fps, with that frame's angles. */
  lemma Rows3DRowsFromFrames(m: Libm, results: seq<Option<seq<Vec3>>>, fps: real)
    requires Sound(m)
    ensures Rows3D(m, results, fps).Some? ==>
              var rows := Rows3D(m, results, fps).value;
              forall k :: 0 <= k < |rows| ==>
                && rows[k].frameIdx < |results| && Yields(results, fps, rows[k].frameIdx)
                && rows[k] == MakeRow(m, rows[k].frameIdx, results[rows[k].frameIdx].value, fps)
  {
    if Rows3D(m, results, fps).Some? {
      var idxs := FrameIndices(results, fps).value;
      var rows := Rows3D(m, results, fps).value;
      forall k | 0 <= k < |rows|
        ensures rows[k].frameIdx < |results| && Yields(results, fps, rows[k].frameIdx)
        ensures rows[k] == MakeRow(m, rows[k].frameIdx, results[rows[k].frameIdx].value, fps)
      {
        RowsOfAt(m, results, fps, idxs, k);
      }
    }
  }

  /** Rows made from increasing frames are in increasing frame order. */
  lemma RowsOfIncreasing(m: Libm, results: seq<Option<seq<Vec3>>>, fps: real, idxs: seq<nat>)
    requires Sound(m)
    requires forall j :: 0 <= j < |idxs| ==> idxs[j] < |results| && Yields(results, fps, idxs[j])
    requires Interpolation.StrictlyIncreasing(idxs)
    ensures var rows := RowsOf(m, results, fps, idxs);
            forall j, k :: 0 <= j < k < |rows| ==> rows[j].frameIdx < rows[k].frameIdx
  {
    var rows := RowsOf(m, results, fps, idxs);
    forall j, k | 0 <= j < k < |rows| ensures rows[j].frameIdx < rows[k].frameIdx {
      RowsOfFrameIdx(m, results, fps, idxs, j);
      RowsOfFrameIdx(m, results, fps, idxs, k);
    }
  }

  /** The rows are in strictly increasing frame order. */
  lemma Rows3DIncreasing(m: Libm, results: seq<Option<seq<Vec3>>>, fps: real)
    requires Sound(m)
    ensures Rows3D(m, results, fps).Some? ==>
              var rows := Rows3D(m, results, fps).value;
              forall j, k :: 0 <= j < k < |rows| ==> rows[j].frameIdx < rows[k].frameIdx
  {
    if FrameIndices(results, fps).Some? {
      var idxs := FrameIndices(results, fps).value;
      FrameIndicesIncreasing(results, fps);
      assert forall j :: 0 <= j < |idxs| ==> idxs[j] < |results| && Yields(results, fps, idxs[j]);
      RowsOfIncreasing(m, results, fps, idxs);
      assert Rows3D(m, results, fps) == Some(RowsOf(m, results, fps, idxs));
    }
  }

  /** Rows made from frames that include frame i include a row of frame i. */
  lemma RowsOfContains(m: Libm, results: seq<Option<seq<Vec3>>>, fps: real, idxs: seq<nat>, i: nat)
    requires Sound(m)
    requires forall j :: 0 <= j < |idxs| ==> idxs[j] < |results| && Yields(results, fps, idxs[j])
    requires i in idxs
    ensures var rows := RowsOf(m, results, fps, idxs);
            exists k :: 0 <= k < |rows| && rows[k].frameIdx == i
  {
    var k :| 0 <= k < |idxs| && idxs[k] == i;
    RowsOfFrameIdx(m, results, fps, idxs, k);
  }

  /** Every frame with landmarks has a row, and there is no row at all exactly
      when no frame has landmarks. */
  lemma Rows3DComplete(m: Libm, results: seq<Option<seq<Vec3>>>, fps: real)
    requires Sound(m)
    ensures Rows3D(m, results, fps).Some? ==>
              var rows := Rows3D(m, results, fps).value;
              && (forall i :: 0 <= i < |results| && HasLandmarks(results[i]) ==>
                    exists k :: 0 <= k < |rows| && rows[k].frameIdx == i)
              && (rows == [] <==> forall i :: 0 <= i < |results| ==> !HasLandmarks(results[i]))
  {
    if FrameIndices(results, fps).Some? {
      var idxs := FrameIndices(results, fps).value;
      FrameIndicesComplete(results, fps);
      assert forall j :: 0 <= j < |idxs| ==> idxs[j] < |results| && Yields(results, fps, idxs[j]);
      var rows := RowsOf(m, results, fps, idxs);
      assert Rows3D(m, results, fps) == Some(rows);
      forall i | 0 <= i < |results| && HasLandmarks(results[i])
        ensures exists k :: 0 <= k < |rows| && rows[k].frameIdx == i
      {
        RowsOfContains(m, results, fps, idxs, i);
      }
      if |idxs| > 0 {
        assert HasLandmarks(results[idxs[0]]);
      }
    }
  }

  /** The counter's two states. */
  datatype Phase = Up | Down

  /** One depth fault: the repetition it belongs to, its kind, the lowest
      angle reached in that repetition and the threshold it failed. (The
      source formats the last two into a message; the model keeps the numbers.) */
  datatype Fault = Fault(rep: nat, kind: string, minAngle: real, depthFailThresh: real)

  const ShallowDepth := "Poca Profundidad"

  /** The left-knee column the counter reads. */
  const KneeColumn := "rodilla_izq"

  /** The counter's state after some rows: phase, repetitions, the running
      minimum of the current repetition and the faults so far. */
  datatype Scan = Scan(phase: Phase, reps: nat, minAngle: real, faults: seq<Fault>)

  /** Before any row: up, no repetition, minimum 180, no fault. */
  const InitialScan := Scan(Up, 0, 180.0, [])

  /** One row of the scan. Up and below `down`: go down and start the minimum
      at this angle. Down: lower the minimum, then, above `up`, count a
      repetition, go up, and record a fault if the minimum stayed above
      `depthFail`. Anything else leaves the state alone. */
  function Step(s: Scan, angle: real, up: real, down: real, depthFail: real): Scan
  {
    if s.phase == Up && angle < down then
      s.(phase := Down, minAngle := angle)
    else if s.phase == Down then
      var low := if angle < s.minAngle then angle else s.minAngle;
      if angle > up then
        var reps := s.reps + 1;
        Scan(Up, reps, low,
             s.faults + if low > depthFail then [Fault(reps, ShallowDepth, low, depthFail)] else [])
      else
        s.(minAngle := low)
    else
      s
  }

  /** The state after scanning `angles`, in order, from state s. */
  function RunFrom(s: Scan, angles: seq<real>, up: real, down: real, depthFail: real): Scan
    decreases |angles|
  {
    if |angles| == 0 then s
    else RunFrom(Step(s, angles[0], up, down, depthFail), angles[1..], up, down, depthFail)
  }

  /** The state after scanning all of `angles` from the initial state. */
  function Run(angles: seq<real>, up: real, down: real, depthFail: real): Scan
  {
    RunFrom(InitialScan, angles, up, down, depthFail)
  }

  /** Scanning a concatenation scans the first part, then the second. */
  lemma {:induction false} RunFromAppend(s: Scan, a: seq<real>, b: seq<real>, up: real, down: real, depthFail: real)
    ensures RunFrom(s, a + b, up, down, depthFail) == RunFrom(RunFrom(s, a, up, down, depthFail), b, up, down, depthFail)
    decreases |a|
  {
    if |a| > 0 {
      assert (a + b)[0] == a[0] && (a + b)[1..] == a[1..] + b;
      RunFromAppend(Step(s, a[0], up, down, depthFail), a[1..], b, up, down, depthFail);
    } else {
      assert a + b == b;
    }
  }

  /** The rule of one row: only an up state goes down, and only on an angle
      strictly below `down`; only a down state goes up, and only on an angle
      strictly above `up`; only going up counts, by exactly one, and only
      going up can add a fault, carrying the new count; a row never does both
      transitions. While down, the minimum becomes the smaller of itself and
      the angle, and going up records a fault exactly when that minimum is
      above `depthFail`. */
  lemma StepTransitions(s: Scan, angle: real, up: real, down: real, depthFail: real)
    ensures var t := Step(s, angle, up, down, depthFail);
            && (s.phase == Up && t.phase == Down <==> s.phase == Up && angle < down)
            && (s.phase == Down && t.phase == Up <==> s.phase == Down && angle > up)
            && t.reps == (if s.phase == Down && t.phase == Up then s.reps + 1 else s.reps)
            && (s.phase == Down && t.phase == Up ==>
                  t.faults == s.faults || t.faults == s.faults + [Fault(t.reps, ShallowDepth, t.minAngle, depthFail)])
            && (!(s.phase == Down && t.phase == Up) ==> t.faults == s.faults)
            && (s.phase == Up && t.phase == Down ==> t.minAngle == angle)
            && (s.phase == Down ==> t.minAngle == (if angle < s.minAngle then angle else s.minAngle))
            && (s.phase == Down && t.phase == Up ==>
                  && (t.faults == s.faults + [Fault(t.reps, ShallowDepth, t.minAngle, depthFail)] <==> t.minAngle > depthFail)
                  && (t.minAngle <= depthFail ==> t.faults == s.faults))
  {
  }

  /** What holds of every reachable state: a down state's minimum is below
      `down`; every fault is of the shallow-depth kind, carries a repetition
      number in 1..reps and a minimum above `depthFail` and below `down`, and
      the repetition numbers strictly increase. */
  predicate ScanInvariant(s: Scan, down: real, depthFail: real)
  {
    && (s.phase == Down ==> s.minAngle < down)
    && |s.faults| <= s.reps
    && (forall k :: 0 <= k < |s.faults| ==>
          && 1 <= s.faults[k].rep <= s.reps
          && s.faults[k].kind == ShallowDepth
          && depthFail < s.faults[k].minAngle < down
          && s.faults[k].depthFailThresh == depthFail)
    && (forall j, k :: 0 <= j < k < |s.faults| ==> s.faults[j].rep < s.faults[k].rep)
    && (down <= depthFail ==> s.faults == [])
  }

  lemma StepPreservesInvariant(s: Scan, angle: real, up: real, down: real, depthFail: real)
    requires ScanInvariant(s, down, depthFail)
    ensures ScanInvariant(Step(s, angle, up, down, depthFail), down, depthFail)
  {
  }

  /** Two rows per counted repetition, plus one for a pending descent. */
  function RowsUsed(s: Scan): nat
  {
    2 * s.reps + if s.phase == Down then 1 else 0
  }

  /** Scanning keeps the invariant, never lowers the count, and uses at most
      one row of budget per row scanned. */
  lemma {:induction false} RunFromInvariant(s: Scan, angles: seq<real>, up: real, down: real, depthFail: real)
    requires ScanInvariant(s, down, depthFail)
    ensures ScanInvariant(RunFrom(s, angles, up, down, depthFail), down, depthFail)
    ensures s.reps <= RunFrom(s, angles, up, down, depthFail).reps
    ensures RowsUsed(RunFrom(s, angles, up, down, depthFail)) <= RowsUsed(s) + |angles|
    decreases |angles|
  {
    if |angles| > 0 {
      var t := Step(s, angles[0], up, down, depthFail);
      StepPreservesInvariant(s, angles[0], up, down, depthFail);
      RunFromInvariant(t, angles[1..], up, down, depthFail);
    }
  }

  /** Every state the scan reaches satisfies the invariant, and it has used at
      least two rows per counted repetition plus one if it is down. */
  lemma RunInvariant(angles: seq<real>, up: real, down: real, depthFail: real)
    ensures ScanInvariant(Run(angles, up, down, depthFail), down, depthFail)
    ensures RowsUsed(Run(angles, up, down, depthFail)) <= |angles|
  {
    RunFromInvariant(InitialScan, angles, up, down, depthFail);
  }

  /** The count never decreases as rows are added. */
  lemma RunRepsMonotone(angles: seq<real>, n: nat, up: real, down: real, depthFail: real)
    requires n <= |angles|
    ensures Run(angles[..n], up, down, depthFail).reps <= Run(angles, up, down, depthFail).reps
  {
    assert angles == angles[..n] + angles[n..];
    RunFromAppend(InitialScan, angles[..n], angles[n..], up, down, depthFail);
    RunInvariant(angles[..n], up, down, depthFail);
    RunFromInvariant(Run(angles[..n], up, down, depthFail), angles[n..], up, down, depthFail);
  }

  /** With `depthFail` at or above `down` no fault is ever recorded: the
      minimum at every counting transition is below `down`. */
  lemma NoFaultsWhenDepthFailAtLeastDown(angles: seq<real>, up: real, down: real, depthFail: real)
    requires down <= depthFail
    ensures Run(angles, up, down, depthFail).faults == []
  {
    RunInvariant(angles, up, down, depthFail);
  }

  /** The same scan seen repetition by repetition, without any fault rule:
      the phase, the running minimum, and the lowest angle of each counted
      repetition's down phase, in order. */
  datatype Cycle = Cycle(phase: Phase, minAngle: real, minima: seq<real>)

  /** One row: the same transitions as the counter, keeping the minimum of
      each repetition when it is counted. */
  function CycleStep(c: Cycle, angle: real, up: real, down: real): Cycle
  {
    if c.phase == Up && angle < down then
      c.(phase := Down, minAngle := angle)
    else if c.phase == Down then
      var low := if angle < c.minAngle then angle else c.minAngle;
      if angle > up then Cycle(Up, low, c.minima + [low]) else c.(minAngle := low)
    else
      c
  }

  function CyclesFrom(c: Cycle, angles: seq<real>, up: real, down: real): Cycle
    decreases |angles|
  {
    if |angles| == 0 then c else CyclesFrom(CycleStep(c, angles[0], up, down), angles[1..], up, down)
  }

  /** The lowest angle reached in each counted repetition of `angles`. */
  function RepMinima(angles: seq<real>, up: real, down: real): seq<real>
  {
    CyclesFrom(Cycle(Up, 180.0, []), angles, up, down).minima
  }

  /** The faults the depth rule gives repetition minima `m`: repetition n
      (from 1) has one exactly when its minimum is above `depthFail`. */
  function ShallowFaults(m: seq<real>, depthFail: real): seq<Fault>
    decreases |m|
  {
    if |m| == 0 then []
    else
      ShallowFaults(m[..|m| - 1], depthFail)
      + if m[|m| - 1] > depthFail then [Fault(|m|, ShallowDepth, m[|m| - 1], depthFail)] else []
  }

  /** Every fault of `ShallowFaults(m, depthFail)` names a repetition of `m`,
      carries that repetition's minimum and has it above `depthFail`; every
      repetition whose minimum is above `depthFail` has its fault. */
  lemma {:induction false} ShallowFaultsExact(m: seq<real>, depthFail: real)
    ensures forall f :: f in ShallowFaults(m, depthFail) ==>
              && 1 <= f.rep <= |m|
              && f == Fault(f.rep, ShallowDepth, m[f.rep - 1], depthFail)
              && depthFail < m[f.rep - 1]
    ensures forall k :: 0 <= k < |m| && depthFail < m[k] ==>
              Fault(k + 1, ShallowDepth, m[k], depthFail) in ShallowFaults(m, depthFail)
    decreases |m|
  {
    if |m| > 0 {
      var init := m[..|m| - 1];
      ShallowFaultsExact(init, depthFail);
      forall k | 0 <= k < |init|
        ensures init[k] == m[k]
      {
      }
    }
  }

  /** The counter and the repetition view agree: same phase and minimum, one
      repetition per recorded minimum, and the faults the depth rule gives. */
  predicate Agrees(s: Scan, c: Cycle, depthFail: real)
  {
    && s.phase == c.phase
    && s.minAngle == c.minAngle
    && s.reps == |c.minima|
    && s.faults == ShallowFaults(c.minima, depthFail)
  }

  lemma StepAgrees(s: Scan, c: Cycle, angle: real, up: real, down: real, depthFail: real)
    requires Agrees(s, c, depthFail)
    ensures Agrees(Step(s, angle, up, down, depthFail), CycleStep(c, angle, up, down), depthFail)
  {
    if s.phase == Down && angle > up {
      var low := if angle < c.minAngle then angle else c.minAngle;
      assert (c.minima + [low])[..|c.minima|] == c.minima;
    }
  }

  lemma {:induction false} RunFromAgrees(s: Scan, c: Cycle, angles: seq<real>, up: real, down: real, depthFail: real)
    requires Agrees(s, c, depthFail)
    ensures Agrees(RunFrom(s, angles, up, down, depthFail), CyclesFrom(c, angles, up, down), depthFail)
    decreases |angles|
  {
    if |angles| > 0 {
      StepAgrees(s, c, angles[0], up, down, depthFail);
      RunFromAgrees(Step(s, angles[0], up, down, depthFail), CycleStep(c, angles[0], up, down),
                    angles[1..], up, down, depthFail);
    }
  }

  /** The counter counts one repetition per repetition minimum and records
      exactly the faults the depth rule gives those minima: the k-th
      repetition has a fault, carrying its minimum, exactly when that minimum
      is above `depthFail`. */
  lemma RunFaultsFromMinima(angles: seq<real>, up: real, down: real, depthFail: real)
    ensures var s := Run(angles, up, down, depthFail);
            var m := RepMinima(angles, up, down);
            && s.reps == |m|
            && s.faults == ShallowFaults(m, depthFail)
            && (forall k :: 0 <= k < |m| ==>
                  (Fault(k + 1, ShallowDepth, m[k], depthFail) in s.faults <==> depthFail < m[k]))
            && (forall f :: f in s.faults ==>
                  1 <= f.rep <= |m| && f == Fault(f.rep, ShallowDepth, m[f.rep - 1], depthFail))
  {
    assert Agrees(InitialScan, Cycle(Up, 180.0, []), depthFail);
    RunFromAgrees(InitialScan, Cycle(Up, 180.0, []), angles, up, down, depthFail);
    ShallowFaultsExact(RepMinima(angles, up, down), depthFail);
  }

  /** The depth threshold decides faults only: the count is the same for
      every `depthFail`. */
  lemma RepsIndependentOfDepthFail(angles: seq<real>, up: real, down: real, depthFail1: real, depthFail2: real)
    ensures Run(angles, up, down, depthFail1).reps == Run(angles, up, down, depthFail2).reps
  {
    RunFaultsFromMinima(angles, up, down, depthFail1);
    RunFaultsFromMinima(angles, up, down, depthFail2);
  }

  /** Each repetition minimum is one of the scanned angles and lies below
      `down` (a repetition starts only on an angle below it). */
  lemma {:induction false} CyclesFromMinima(c: Cycle, seen: seq<real>, angles: seq<real>, up: real, down: real)
    requires c.phase == Down ==> c.minAngle < down && c.minAngle in seen
    requires forall x :: x in c.minima ==> x < down && x in seen
    ensures var d := CyclesFrom(c, angles, up, down);
            forall x :: x in d.minima ==> x < down && x in seen + angles
    decreases |angles|
  {
    if |angles| > 0 {
      var c' := CycleStep(c, angles[0], up, down);
      var seen' := seen + [angles[0]];
      assert angles[0] in seen';
      assert forall x :: x in seen ==> x in seen';
      assert c'.phase == Down ==> c'.minAngle < down && c'.minAngle in seen';
      assert forall x :: x in c'.minima ==> x in c.minima || x == c'.minAngle;
      assert seen' + angles[1..] == seen + angles;
      CyclesFromMinima(c', seen', angles[1..], up, down);
      assert CyclesFrom(c, angles, up, down) == CyclesFrom(c', angles[1..], up, down);
    } else {
      assert seen + angles == seen;
    }
  }

  lemma RepMinimaBounds(angles: seq<real>, up: real, down: real)
    ensures forall x :: x in RepMinima(angles, up, down) ==> x < down && x in angles
  {
    var none: seq<real> := [];
    var start := Cycle(Up, 180.0, none);
    CyclesFromMinima(start, none, angles, up, down);
    assert none + angles == angles;
    assert RepMinima(angles, up, down) == CyclesFrom(start, angles, up, down).minima;
  }

  /** The result of `count_reps_3d`: (0, []) for an empty table or one without
      the left-knee column; otherwise the scan of the column's defined values,
      in order. */
  function CountReps3DSpec(df: Table, up: real, down: real, depthFail: real): (nat, seq<Fault>)
  {
    if IsEmpty(df) || KneeColumn !in df.columns then (0, [])
    else
      var s := Run(DefinedValues(df.columns[KneeColumn]), up, down, depthFail);
      (s.reps, s.faults)
  }

  /** `count_reps_3d`: drops the rows with an undefined knee angle, then scans
      the rest in order. */
  method CountReps3D(df: Table, upThresh: real, downThresh: real, depthFailThresh: real)
    returns (reps: nat, faults: seq<Fault>)
    ensures (reps, faults) == CountReps3DSpec(df, upThresh, downThresh, depthFailThresh)
  {
    if IsEmpty(df) || KneeColumn !in df.columns {
      return 0, [];
    }
    var angles := DefinedValues(df.columns[KneeColumn]);
    if |angles| == 0 {
      return 0, [];
    }
    reps, faults := 0, [];
    var phase := Up;
    var minAngleInRep := 180.0;
    for i := 0 to |angles|
      invariant RunFrom(Scan(phase, reps, minAngleInRep, faults), angles[i..], upThresh, downThresh, depthFailThresh)
             == Run(angles, upThresh, downThresh, depthFailThresh)
    {
      assert angles[i..][1..] == angles[i + 1..];
      ghost var before := Scan(phase, reps, minAngleInRep, faults);
      var angle := angles[i];
      if phase == Up && angle < downThresh {
        phase := Down;
        minAngleInRep := angle;
      } else if phase == Down {
        if angle < minAngleInRep {
          minAngleInRep := angle;
        }
        if angle > upThresh {
          reps := reps + 1;
          phase := Up;
          if minAngleInRep > depthFailThresh {
            faults := faults + [Fault(reps, ShallowDepth, minAngleInRep, depthFailThresh)];
          }
        }
      }
      assert Scan(phase, reps, minAngleInRep, faults) == Step(before, angle, upThresh, downThresh, depthFailThresh);
    }
  }

  /** An empty table, a table without the knee column, or a knee column
      without any defined value gives (0, []). */
  lemma CountReps3DGuards(df: Table, up: real, down: real, depthFail: real)
    ensures IsEmpty(df) ==> CountReps3DSpec(df, up, down, depthFail) == (0, [])
    ensures KneeColumn !in df.columns ==> CountReps3DSpec(df, up, down, depthFail) == (0, [])
    ensures KneeColumn in df.columns && Undefined(df.columns[KneeColumn]) ==>
              CountReps3DSpec(df, up, down, depthFail) == (0, [])
  {
    if KneeColumn in df.columns && Undefined(df.columns[KneeColumn]) {
      DefinedValuesOfUndefined(df.columns[KneeColumn]);
    }
  }

  /** Rows with an undefined knee angle play no part: inserting one anywhere
      in the column changes nothing. */
  lemma UndefinedRowIgnored(df: Table, before: Column, after: Column, up: real, down: real, depthFail: real)
    requires !IsEmpty(df) && KneeColumn in df.columns && df.columns[KneeColumn] == before + after
    ensures CountReps3DSpec(df.(columns := df.columns[KneeColumn := before + [None] + after], height := df.height + 1),
                            up, down, depthFail)
         == CountReps3DSpec(df, up, down, depthFail)
  {
    var df' := df.(columns := df.columns[KneeColumn := before + [None] + after], height := df.height + 1);
    DefinedValuesAppend(before, after);
    DefinedValuesAppend(before + [None], after);
    DefinedValuesAppend(before, [None]);
    assert DefinedValues([None]) == [];
    assert DefinedValues(df'.columns[KneeColumn]) == DefinedValues(df.columns[KneeColumn]);
    assert KneeColumn in df'.columns && |df'.columns| > 0 && df'.height > 0;
  }

  /** The counter's results: at most one repetition per two defined rows,
      fewer faults than repetitions, fault repetition numbers strictly
      increasing within 1..reps, and no fault at all when `depthFail` is at
      least `down`. */
  lemma CountReps3DBounds(df: Table, up: real, down: real, depthFail: real)
    ensures var (reps, faults) := CountReps3DSpec(df, up, down, depthFail);
            && (KneeColumn in df.columns ==> 2 * reps <= |DefinedValues(df.columns[KneeColumn])|)
            && |faults| <= reps
            && (forall k :: 0 <= k < |faults| ==> 1 <= faults[k].rep <= reps && depthFail < faults[k].minAngle)
            && (forall j, k :: 0 <= j < k < |faults| ==> faults[j].rep < faults[k].rep)
            && (down <= depthFail ==> faults == [])
  {
    if !(IsEmpty(df) || KneeColumn !in df.columns) {
      var angles := DefinedValues(df.columns[KneeColumn]);
      RunInvariant(angles, up, down, depthFail);
      if down <= depthFail {
        NoFaultsWhenDepthFailAtLeastDown(angles, up, down, depthFail);
      }
    }
  }

  /** The counter's faults, from the table: the k-th counted repetition of
      the knee column has a fault exactly when the lowest knee angle of its
      down phase is above `depthFail`, and that fault carries that angle. */
  lemma CountReps3DFaultIff(df: Table, up: real, down: real, depthFail: real)
    requires !IsEmpty(df) && KneeColumn in df.columns
    ensures var (reps, faults) := CountReps3DSpec(df, up, down, depthFail);
            var m := RepMinima(DefinedValues(df.columns[KneeColumn]), up, down);
            && reps == |m|
            && faults == ShallowFaults(m, depthFail)
            && (forall k :: 0 <= k < reps ==>
                  (Fault(k + 1, ShallowDepth, m[k], depthFail) in faults <==> depthFail < m[k]))
            && (forall f :: f in faults ==>
                  1 <= f.rep <= reps && f == Fault(f.rep, ShallowDepth, m[f.rep - 1], depthFail))
  {
    RunFaultsFromMinima(DefinedValues(df.columns[KneeColumn]), up, down, depthFail);
  }

  // The repetition counts the test suite pins for this rule, with its low
  // threshold as `down` and its high threshold as `up`; the depth threshold
  // plays no part in the count.

  /** Two full repetitions count 2 (thresholds 90 and 160). */
  lemma TwoRepsVector()
    ensures Run([170.0, 165.0, 150.0, 130.0, 100.0, 60.0, 80.0, 120.0, 150.0, 170.0, 165.0, 150.0, 130.0, 100.0, 50.0, 70.0, 120.0, 150.0, 170.0],
                160.0, 90.0, 90.0).reps == 2
  {
    var c0 := [170.0, 165.0, 150.0, 130.0, 100.0, 60.0];
    var c1 := [80.0, 120.0, 150.0, 170.0, 165.0, 150.0];
    var c2 := [130.0, 100.0, 50.0, 70.0, 120.0, 150.0];
    var c3 := [170.0];
    assert [170.0, 165.0, 150.0, 130.0, 100.0, 60.0, 80.0, 120.0, 150.0, 170.0, 165.0, 150.0, 130.0, 100.0, 50.0, 70.0, 120.0, 150.0, 170.0] == c0 + c1 + c2 + c3;
    assert RunFrom(InitialScan, c0, 160.0, 90.0, 90.0) == Scan(Down, 0, 60.0, []);
    assert RunFrom(Scan(Down, 0, 60.0, []), c1, 160.0, 90.0, 90.0) == Scan(Up, 1, 60.0, []);
    assert RunFrom(Scan(Up, 1, 60.0, []), c2, 160.0, 90.0, 90.0) == Scan(Down, 1, 50.0, []);
    assert RunFrom(Scan(Down, 1, 50.0, []), c3, 160.0, 90.0, 90.0) == Scan(Up, 2, 50.0, []);
    RunFromAppend(InitialScan, c0, c1, 160.0, 90.0, 90.0);
    RunFromAppend(InitialScan, c0 + c1, c2, 160.0, 90.0, 90.0);
    RunFromAppend(InitialScan, c0 + c1 + c2, c3, 160.0, 90.0, 90.0);
  }

  /** An angle that never drops below 90 counts nothing. */
  lemma NeverDownVector()
    ensures Run([170.0, 165.0, 160.0, 155.0, 150.0, 145.0],
                160.0, 90.0, 90.0).reps == 0
  {
    var c0 := [170.0, 165.0, 160.0, 155.0, 150.0, 145.0];
    assert [170.0, 165.0, 160.0, 155.0, 150.0, 145.0] == c0;
    assert RunFrom(InitialScan, c0, 160.0, 90.0, 90.0) == Scan(Up, 0, 180.0, []);
  }

  /** An angle that drops below 90 but never rises above 160 again counts nothing. */
  lemma NeverUpVector()
    ensures Run([170.0, 165.0, 150.0, 130.0, 100.0, 60.0, 80.0, 120.0, 150.0, 155.0, 158.0],
                160.0, 90.0, 90.0).reps == 0
  {
    var c0 := [170.0, 165.0, 150.0, 130.0, 100.0, 60.0];
    var c1 := [80.0, 120.0, 150.0, 155.0, 158.0];
    assert [170.0, 165.0, 150.0, 130.0, 100.0, 60.0, 80.0, 120.0, 150.0, 155.0, 158.0] == c0 + c1;
    assert RunFrom(InitialScan, c0, 160.0, 90.0, 90.0) == Scan(Down, 0, 60.0, []);
    assert RunFrom(Scan(Down, 0, 60.0, []), c1, 160.0, 90.0, 90.0) == Scan(Down, 0, 60.0, []);
    RunFromAppend(InitialScan, c0, c1, 160.0, 90.0, 90.0);
  }

  /** A descent that does not come back up before descending again counts once, when it finally rises above 160. */
  lemma PartialCycleVector()
    ensures Run([170.0, 165.0, 130.0, 80.0, 85.0, 100.0, 120.0, 130.0, 150.0, 155.0, 158.0, 150.0, 130.0, 80.0, 50.0, 90.0, 150.0, 170.0],
                160.0, 90.0, 90.0).reps == 1
  {
    var c0 := [170.0, 165.0, 130.0, 80.0, 85.0, 100.0];
    var c1 := [120.0, 130.0, 150.0, 155.0, 158.0, 150.0];
    var c2 := [130.0, 80.0, 50.0, 90.0, 150.0, 170.0];
    assert [170.0, 165.0, 130.0, 80.0, 85.0, 100.0, 120.0, 130.0, 150.0, 155.0, 158.0, 150.0, 130.0, 80.0, 50.0, 90.0, 150.0, 170.0] == c0 + c1 + c2;
    assert RunFrom(InitialScan, c0, 160.0, 90.0, 90.0) == Scan(Down, 0, 80.0, []);
    assert RunFrom(Scan(Down, 0, 80.0, []), c1, 160.0, 90.0, 90.0) == Scan(Down, 0, 80.0, []);
    assert RunFrom(Scan(Down, 0, 80.0, []), c2, 160.0, 90.0, 90.0) == Scan(Up, 1, 50.0, []);
    RunFromAppend(InitialScan, c0, c1, 160.0, 90.0, 90.0);
    RunFromAppend(InitialScan, c0 + c1, c2, 160.0, 90.0, 90.0);
  }

  /** Thresholds 100 and 140 count two repetitions. */
  lemma CustomThresholdsVector()
    ensures Run([150.0, 145.0, 140.0, 120.0, 95.0, 105.0, 130.0, 145.0, 150.0, 145.0, 140.0, 120.0, 90.0, 110.0, 130.0, 145.0],
                140.0, 100.0, 90.0).reps == 2
  {
    var c0 := [150.0, 145.0, 140.0, 120.0, 95.0, 105.0];
    var c1 := [130.0, 145.0, 150.0, 145.0, 140.0, 120.0];
    var c2 := [90.0, 110.0, 130.0, 145.0];
    assert [150.0, 145.0, 140.0, 120.0, 95.0, 105.0, 130.0, 145.0, 150.0, 145.0, 140.0, 120.0, 90.0, 110.0, 130.0, 145.0] == c0 + c1 + c2;
    assert RunFrom(InitialScan, c0, 140.0, 100.0, 90.0) == Scan(Down, 0, 95.0, []);
    assert RunFrom(Scan(Down, 0, 95.0, []), c1, 140.0, 100.0, 90.0) == Scan(Up, 1, 95.0, [Fault(1, ShallowDepth, 95.0, 90.0)]);
    assert RunFrom(Scan(Up, 1, 95.0, [Fault(1, ShallowDepth, 95.0, 90.0)]), c2, 140.0, 100.0, 90.0) == Scan(Up, 2, 90.0, [Fault(1, ShallowDepth, 95.0, 90.0)]);
    RunFromAppend(InitialScan, c0, c1, 140.0, 100.0, 90.0);
    RunFromAppend(InitialScan, c0 + c1, c2, 140.0, 100.0, 90.0);
  }


  /** A repetition that only reaches 95 degrees is shallow for a 90-degree
      depth threshold; one that reaches 70 is not. */
  lemma FaultExamples()
    ensures Run([170.0, 95.0, 170.0], 160.0, 100.0, 90.0)
         == Scan(Up, 1, 95.0, [Fault(1, ShallowDepth, 95.0, 90.0)])
    ensures Run([170.0, 70.0, 170.0], 160.0, 100.0, 90.0) == Scan(Up, 1, 70.0, [])
  {
  }
}
