/** From raw per-frame landmark rows to a clean landmark sequence, and from a
    landmark sequence to the per-frame metrics table. Filtering keeps a
    landmark sample only when its visibility is defined and at least the
    confidence threshold, then fills each landmark's coordinates over all
    frames by linear interpolation between the kept samples. */
module Processing {
  import opened Options
  import opened RealMath
  import opened Tables
  import opened Metrics
  import opened Interpolation

  /** Landmarks per frame in the pose model. */
  const LandmarkCount := 33

  /** One landmark of a raw row: its coordinates and its visibility, None
      when the visibility cell is NaN or the column is absent. */
  datatype RawLandmark = RawLandmark(x: real, y: real, z: real, visibility: Option<real>)

  datatype CropBox = CropBox(x1: real, y1: real, x2: real, y2: real)

  /** One raw row: its landmarks in index order and its crop box cells. */
  datatype RawRow = RawRow(landmarks: seq<RawLandmark>, crop: Option<CropBox>)

  /** The raw landmark table: its rows, and whether it has the crop columns. */
  datatype RawTable = RawTable(rows: seq<RawRow>, hasCropColumns: bool)

  /** A landmark of the filtered sequence: its position (None when its
      coordinates are NaN) and its visibility (0 where it was not kept). */
  datatype TrackedLandmark = TrackedLandmark(pos: Option<Vec3>, visibility: real)

  /** Landmark i of row t; a landmark beyond the row's columns reads as
      having no visibility. */
  function RawAt(raw: RawTable, t: int, i: int): RawLandmark
    requires 0 <= t < |raw.rows|
  {
    if 0 <= i < |raw.rows[t].landmarks| then raw.rows[t].landmarks[i] else RawLandmark(0.0, 0.0, 0.0, None)
  }

  /** Whether sample (t, i) passes the visibility filter. */
  predicate Kept(raw: RawTable, minConfidence: real, t: int, i: int)
    requires 0 <= t < |raw.rows|
  {
    var v := RawAt(raw, t, i).visibility;
    v.Some? && v.value >= minConfidence
  }

  /** Field j of a raw landmark: x, y, z, then visibility. */
  function Field(lm: RawLandmark, j: int): real
    requires 0 <= j < 4 && (j == 3 ==> lm.visibility.Some?)
  {
    if j == 0 then lm.x else if j == 1 then lm.y else if j == 2 then lm.z else lm.visibility.value
  }

  /** Cell (t, i, j) of the working array after the visibility filter: the
      raw field for a kept sample, NaN otherwise. */
  function FilteredCell(raw: RawTable, minConfidence: real, t: int, i: int, j: int): Option<real>
    requires 0 <= t < |raw.rows| && 0 <= j < 4
  {
    if Kept(raw, minConfidence, t, i) then Some(Field(RawAt(raw, t, i), j)) else None
  }

  /** The kept frames of landmark i among the first n rows, in order. */
  function KeptIndices(raw: RawTable, minConfidence: real, i: int, n: int): seq<nat>
    requires 0 <= n <= |raw.rows|
  {
    if n == 0 then []
    else KeptIndices(raw, minConfidence, i, n - 1) + if Kept(raw, minConfidence, n - 1, i) then [n - 1] else []
  }

  /** The kept frames of landmark i: strictly increasing, kept, and every
      kept frame below n among them. */
  lemma {:induction false} KeptIndicesSpec(raw: RawTable, minConfidence: real, i: int, n: int)
    requires 0 <= n <= |raw.rows|
    ensures var ks := KeptIndices(raw, minConfidence, i, n);
            && StrictlyIncreasing(ks)
            && (forall k :: 0 <= k < |ks| ==> ks[k] < n && Kept(raw, minConfidence, ks[k], i))
            && (forall t :: 0 <= t < n && Kept(raw, minConfidence, t, i) ==> exists k :: 0 <= k < |ks| && ks[k] == t)
  {
    if n > 0 {
      KeptIndicesSpec(raw, minConfidence, i, n - 1);
      var ks := KeptIndices(raw, minConfidence, i, n);
      var prev := KeptIndices(raw, minConfidence, i, n - 1);
      assert forall k :: 0 <= k < |prev| ==> ks[k] == prev[k];
      if Kept(raw, minConfidence, n - 1, i) {
        assert ks[|prev|] == n - 1;
      }
    }
  }

  /** The kept frames of landmark i over the whole table: increasing frame
      numbers of the table, each a kept sample. */
  function KeptFrames(raw: RawTable, minConfidence: real, i: int): (r: seq<nat>)
    ensures StrictlyIncreasing(r)
    ensures forall k :: 0 <= k < |r| ==> r[k] < |raw.rows| && Kept(raw, minConfidence, r[k], i)
  {
    KeptIndicesSpec(raw, minConfidence, i, |raw.rows|);
    KeptIndices(raw, minConfidence, i, |raw.rows|)
  }

  /** Field j of landmark i at each of its kept frames. */
  function KeptValues(raw: RawTable, minConfidence: real, i: int, j: int): (r: seq<real>)
    requires 0 <= j < 4
    ensures |r| == |KeptFrames(raw, minConfidence, i)|
  {
    var ks := KeptFrames(raw, minConfidence, i);
    KeptIndicesSpec(raw, minConfidence, i, |raw.rows|);
    seq(|ks|, k requires 0 <= k < |ks| => Field(RawAt(raw, ks[k], i), j))
  }

  /** Cell (t, i, j) of the working array after interpolation: coordinates
      of a landmark with more than one kept frame are interpolated over all
      frames; everything else stays as filtered. */
  function InterpolatedCell(raw: RawTable, minConfidence: real, t: int, i: int, j: int): Option<real>
    requires 0 <= t < |raw.rows| && 0 <= j < 4
  {
    var ks := KeptFrames(raw, minConfidence, i);
    if 0 <= j < 3 && |ks| > 1 then Some(Interp(t, ks, KeptValues(raw, minConfidence, i, j)))
    else FilteredCell(raw, minConfidence, t, i, j)
  }

  /** Landmark i of frame t in the filtered sequence: interpolated position
      when the landmark has more than one kept frame, otherwise the raw
      position at a kept frame and no position elsewhere; the raw visibility
      at a kept frame and 0 elsewhere. */
  function FilteredLandmark(raw: RawTable, minConfidence: real, t: int, i: int): TrackedLandmark
    requires 0 <= t < |raw.rows|
  {
    var ks := KeptFrames(raw, minConfidence, i);
    var lm := RawAt(raw, t, i);
    var kept := Kept(raw, minConfidence, t, i);
    TrackedLandmark(
      if |ks| > 1 then
        Some(Vec3(Interp(t, ks, KeptValues(raw, minConfidence, i, 0)),
                  Interp(t, ks, KeptValues(raw, minConfidence, i, 1)),
                  Interp(t, ks, KeptValues(raw, minConfidence, i, 2))))
      else if kept then Some(Vec3(lm.x, lm.y, lm.z))
      else None,
      if kept then lm.visibility.value else 0.0)
  }

  /** The crop columns, row for row. */
  function CropColumn(raw: RawTable): seq<Option<CropBox>>
  {
    seq(|raw.rows|, t requires 0 <= t < |raw.rows| => raw.rows[t].crop)
  }

  /** Whether the working array has the shape of the raw table: a row per
      frame, a column per landmark, and x, y, z, visibility per cell. */
  predicate Shaped(arr: array3<Option<real>>, raw: RawTable)
  {
    arr.Length0 == |raw.rows| && arr.Length1 == LandmarkCount && arr.Length2 == 4
  }

  /** Whether cell (t', i', j') comes before the cursor (t, i, j) in the order
      interpolation visits cells: landmark, then field, then frame. */
  predicate Before(t': int, i': int, j': int, t: int, i: int, j: int)
  {
    i' < i || (i' == i && j' < j) || (i' == i && j' == j && t' < t)
  }

  /** The working array while interpolation is at cursor (t, i, j): cells
      before the cursor hold their interpolated value, the others their
      filtered value. */
  predicate Cells(arr: array3<Option<real>>, raw: RawTable, minConfidence: real, t: int, i: int, j: int)
    reads arr
  {
    && Shaped(arr, raw)
    && forall t', i', j' :: 0 <= t' < arr.Length0 && 0 <= i' < LandmarkCount && 0 <= j' < 4 ==>
         arr[t', i', j'] == if Before(t', i', j', t, i, j) then InterpolatedCell(raw, minConfidence, t', i', j')
                            else FilteredCell(raw, minConfidence, t', i', j')
  }

  /** The visibility filter: a working array holding every kept sample's
      fields and NaN elsewhere. */
  method FilterByVisibility(raw: RawTable, minConfidence: real) returns (arr: array3<Option<real>>)
    ensures fresh(arr)
    ensures Cells(arr, raw, minConfidence, 0, 0, 0)
  {
    var n := |raw.rows|;
    arr := new Option<real>[n, LandmarkCount, 4]((_, _, _) => None);
    for t := 0 to n
      invariant forall t', i, j :: 0 <= t' < n && 0 <= i < LandmarkCount && 0 <= j < 4 ==>
                  arr[t', i, j] == if t' < t then FilteredCell(raw, minConfidence, t', i, j) else None
    {
      for i := 0 to LandmarkCount
        invariant forall t', i', j :: 0 <= t' < n && 0 <= i' < LandmarkCount && 0 <= j < 4 ==>
                    arr[t', i', j] == if t' < t || (t' == t && i' < i) then FilteredCell(raw, minConfidence, t', i', j) else None
      {
        var lm := RawAt(raw, t, i);
        if lm.visibility.Some? && lm.visibility.value >= minConfidence {
          arr[t, i, 0], arr[t, i, 1], arr[t, i, 2], arr[t, i, 3] := Some(lm.x), Some(lm.y), Some(lm.z), lm.visibility;
        }
      }
    }
  }

  /** The frames at which landmark i has a defined x, read off a working
      array that is still filtered for landmark i: its kept frames. */
  method ValidFrames(arr: array3<Option<real>>, raw: RawTable, minConfidence: real, i: int) returns (valid: seq<nat>)
    requires 0 <= i < LandmarkCount && Cells(arr, raw, minConfidence, 0, i, 0)
    ensures valid == KeptFrames(raw, minConfidence, i)
  {
    valid := [];
    for t := 0 to arr.Length0
      invariant valid == KeptIndices(raw, minConfidence, i, t)
    {
      if arr[t, i, 0].Some? {
        valid := valid + [t];
      }
    }
  }

  /** Field j of landmark i gathered at its kept frames. */
  method GatherValues(arr: array3<Option<real>>, raw: RawTable, minConfidence: real, i: int, j: int, valid: seq<nat>)
    returns (values: seq<real>)
    requires 0 <= i < LandmarkCount && 0 <= j < 4 && Cells(arr, raw, minConfidence, 0, i, j)
    requires valid == KeptFrames(raw, minConfidence, i)
    ensures values == KeptValues(raw, minConfidence, i, j)
  {
    KeptIndicesSpec(raw, minConfidence, i, |raw.rows|);
    values := [];
    for k := 0 to |valid|
      invariant values == KeptValues(raw, minConfidence, i, j)[..k]
    {
      values := values + [arr[valid[k], i, j].value];
    }
  }

  /** Overwrites field j of landmark i in every frame with its interpolation
      over the kept frames. */
  method InterpolateField(arr: array3<Option<real>>, raw: RawTable, minConfidence: real, i: int, j: int, valid: seq<nat>)
    requires 0 <= i < LandmarkCount && 0 <= j < 3 && Cells(arr, raw, minConfidence, 0, i, j)
    requires valid == KeptFrames(raw, minConfidence, i) && |valid| > 1
    modifies arr
    ensures Cells(arr, raw, minConfidence, 0, i, j + 1)
  {
    var values := GatherValues(arr, raw, minConfidence, i, j, valid);
    for t := 0 to arr.Length0
      invariant Cells(arr, raw, minConfidence, t, i, j)
    {
      arr[t, i, j] := Some(Interp(t, valid, values));
    }
  }

  /** Interpolates landmark i's coordinates when it has more than one kept
      frame; a landmark with fewer is left as filtered. */
  method InterpolateLandmark(arr: array3<Option<real>>, raw: RawTable, minConfidence: real, i: int)
    requires 0 <= i < LandmarkCount && Cells(arr, raw, minConfidence, 0, i, 0)
    modifies arr
    ensures Cells(arr, raw, minConfidence, 0, i + 1, 0)
  {
    var valid := ValidFrames(arr, raw, minConfidence, i);
    if |valid| > 1 {
      for j := 0 to 3
        invariant Cells(arr, raw, minConfidence, 0, i, j)
      {
        InterpolateField(arr, raw, minConfidence, i, j, valid);
      }
    }
  }

  /** Landmark i of frame t read off the finished working array. */
  lemma LandmarkOfCells(raw: RawTable, minConfidence: real, t: int, i: int)
    requires 0 <= t < |raw.rows|
    ensures var x, y, z, v := InterpolatedCell(raw, minConfidence, t, i, 0), InterpolatedCell(raw, minConfidence, t, i, 1),
                              InterpolatedCell(raw, minConfidence, t, i, 2), InterpolatedCell(raw, minConfidence, t, i, 3);
            && (x.Some? ==> y.Some? && z.Some?)
            && FilteredLandmark(raw, minConfidence, t, i)
               == TrackedLandmark(if x.Some? then Some(Vec3(x.value, y.value, z.value)) else None,
                                  if v.Some? then v.value else 0.0)
  {
  }

  /** The frames of the finished working array, NaN visibility read as 0. */
  method Frames(arr: array3<Option<real>>, raw: RawTable, minConfidence: real) returns (sequence: seq<seq<TrackedLandmark>>)
    requires Cells(arr, raw, minConfidence, 0, LandmarkCount, 0)
    ensures |sequence| == |raw.rows|
    ensures forall t :: 0 <= t < |sequence| ==> |sequence[t]| == LandmarkCount
    ensures forall t, i :: 0 <= t < |sequence| && 0 <= i < LandmarkCount ==>
              sequence[t][i] == FilteredLandmark(raw, minConfidence, t, i)
  {
    sequence := [];
    for t := 0 to arr.Length0
      invariant |sequence| == t
      invariant forall t' :: 0 <= t' < t ==> |sequence[t']| == LandmarkCount
      invariant forall t', i :: 0 <= t' < t && 0 <= i < LandmarkCount ==>
                  sequence[t'][i] == FilteredLandmark(raw, minConfidence, t', i)
    {
      var frame: seq<TrackedLandmark> := [];
      for i := 0 to LandmarkCount
        invariant |frame| == i
        invariant forall i' :: 0 <= i' < i ==> frame[i'] == FilteredLandmark(raw, minConfidence, t, i')
      {
        LandmarkOfCells(raw, minConfidence, t, i);
        var pos := if arr[t, i, 0].Some? then Some(Vec3(arr[t, i, 0].value, arr[t, i, 1].value, arr[t, i, 2].value)) else None;
        var visibility := if arr[t, i, 3].Some? then arr[t, i, 3].value else 0.0;
        frame := frame + [TrackedLandmark(pos, visibility)];
      }
      sequence := sequence + [frame];
    }
  }

  /** `filter_and_interpolate_landmarks`: one frame of 33 landmarks per raw
      row, each as FilteredLandmark describes; the crop columns when the raw
      table has them. */
  method FilterAndInterpolateLandmarks(raw: RawTable, minConfidence: real)
    returns (sequence: seq<seq<TrackedLandmark>>, crops: Option<seq<Option<CropBox>>>)
    ensures |sequence| == |raw.rows|
    ensures forall t :: 0 <= t < |sequence| ==> |sequence[t]| == LandmarkCount
    ensures forall t, i :: 0 <= t < |sequence| && 0 <= i < LandmarkCount ==>
              sequence[t][i] == FilteredLandmark(raw, minConfidence, t, i)
    ensures crops == if raw.hasCropColumns then Some(CropColumn(raw)) else None
  {
    var arr := FilterByVisibility(raw, minConfidence);
    for i := 0 to LandmarkCount
      invariant Cells(arr, raw, minConfidence, 0, i, 0)
    {
      InterpolateLandmark(arr, raw, minConfidence, i);
    }
    sequence := Frames(arr, raw, minConfidence);
    crops := if raw.hasCropColumns then Some(CropColumn(raw)) else None;
  }

  /** A kept sample comes through unchanged: its raw position and its
      visibility, whether or not its landmark is interpolated. */
  lemma FilterKeepsKeptSamples(raw: RawTable, minConfidence: real, t: int, i: int)
    requires 0 <= t < |raw.rows| && Kept(raw, minConfidence, t, i)
    ensures var lm := RawAt(raw, t, i);
            FilteredLandmark(raw, minConfidence, t, i) == TrackedLandmark(Some(Vec3(lm.x, lm.y, lm.z)), lm.visibility.value)
  {
    var ks := KeptFrames(raw, minConfidence, i);
    if |ks| > 1 {
      KeptIndicesSpec(raw, minConfidence, i, |raw.rows|);
      var k :| 0 <= k < |ks| && ks[k] == t;
      InterpAtKnot(k, ks, KeptValues(raw, minConfidence, i, 0));
      InterpAtKnot(k, ks, KeptValues(raw, minConfidence, i, 1));
      InterpAtKnot(k, ks, KeptValues(raw, minConfidence, i, 2));
    }
  }

  /** A dropped sample has visibility 0, and it has a position exactly when
      its landmark has more than one kept frame to interpolate between. */
  lemma FilterDropsUnkeptSamples(raw: RawTable, minConfidence: real, t: int, i: int)
    requires 0 <= t < |raw.rows| && !Kept(raw, minConfidence, t, i)
    ensures FilteredLandmark(raw, minConfidence, t, i).visibility == 0.0
    ensures FilteredLandmark(raw, minConfidence, t, i).pos.Some? <==> |KeptFrames(raw, minConfidence, i)| > 1
  {
  }

  /** Before the first kept frame the position is held at the first kept
      sample, and after the last kept frame at the last one. */
  lemma FilterHoldsEnds(raw: RawTable, minConfidence: real, t: int, i: int)
    requires 0 <= t < |raw.rows| && |KeptFrames(raw, minConfidence, i)| > 1
    ensures var ks := KeptFrames(raw, minConfidence, i);
            var first := RawAt(raw, ks[0], i);
            t <= ks[0] ==> FilteredLandmark(raw, minConfidence, t, i).pos == Some(Vec3(first.x, first.y, first.z))
    ensures var ks := KeptFrames(raw, minConfidence, i);
            var last := RawAt(raw, ks[|ks| - 1], i);
            ks[|ks| - 1] <= t ==> FilteredLandmark(raw, minConfidence, t, i).pos == Some(Vec3(last.x, last.y, last.z))
  {
    var ks := KeptFrames(raw, minConfidence, i);
    if ks[|ks| - 1] <= t {
      InterpAfterLast(t, ks, KeptValues(raw, minConfidence, i, 0));
      InterpAfterLast(t, ks, KeptValues(raw, minConfidence, i, 1));
      InterpAfterLast(t, ks, KeptValues(raw, minConfidence, i, 2));
    }
  }

  /** Between two consecutive kept frames the position lies on the segments
      joining the two kept samples. */
  lemma FilterBetweenKeptFrames(raw: RawTable, minConfidence: real, t: int, i: int, k: nat)
    requires 0 <= t < |raw.rows|
    requires var ks := KeptFrames(raw, minConfidence, i); k + 1 < |ks| && ks[k] < t < ks[k + 1]
    ensures var ks := KeptFrames(raw, minConfidence, i);
            var a, b := RawAt(raw, ks[k], i), RawAt(raw, ks[k + 1], i);
            FilteredLandmark(raw, minConfidence, t, i).pos
              == Some(Vec3(Segment(t, ks[k], ks[k + 1], a.x, b.x),
                           Segment(t, ks[k], ks[k + 1], a.y, b.y),
                           Segment(t, ks[k], ks[k + 1], a.z, b.z)))
  {
    var ks := KeptFrames(raw, minConfidence, i);
    InterpBetween(t, k, ks, KeptValues(raw, minConfidence, i, 0));
    InterpBetween(t, k, ks, KeptValues(raw, minConfidence, i, 1));
    InterpBetween(t, k, ks, KeptValues(raw, minConfidence, i, 2));
  }

  /** Filling never leaves the range of the kept samples: when every kept x
      of a landmark lies in [xLo, xHi] and every kept y in [yLo, yHi], so does
      every filtered position. */
  lemma FilterStaysWithinKeptRange(raw: RawTable, minConfidence: real, t: int, i: int,
                                   xLo: real, xHi: real, yLo: real, yHi: real)
    requires 0 <= t < |raw.rows|
    requires forall s :: 0 <= s < |raw.rows| && Kept(raw, minConfidence, s, i) ==>
               xLo <= RawAt(raw, s, i).x <= xHi && yLo <= RawAt(raw, s, i).y <= yHi
    ensures var p := FilteredLandmark(raw, minConfidence, t, i).pos;
            p.Some? ==> xLo <= p.value.x <= xHi && yLo <= p.value.y <= yHi
  {
    var ks := KeptFrames(raw, minConfidence, i);
    if |ks| > 1 {
      InterpBounded(t, ks, KeptValues(raw, minConfidence, i, 0), xLo, xHi);
      InterpBounded(t, ks, KeptValues(raw, minConfidence, i, 1), yLo, yHi);
    }
  }

  /** The metrics of one frame whose landmarks all have a position. */
  datatype FrameRow = FrameRow(angles: JointAngles, distances: Distances)

  /** Whether every landmark of a frame has a position (no NaN x). */
  predicate Positioned(frame: seq<TrackedLandmark>)
  {
    forall k :: 0 <= k < |frame| ==> frame[k].pos.Some?
  }

  /** A positioned frame as the points the metric functions read. */
  function ToPoints(frame: seq<TrackedLandmark>): (r: seq<Point>)
    requires Positioned(frame)
    ensures |r| == |frame|
  {
    seq(|frame|, k requires 0 <= k < |frame| && frame[k].pos.Some? =>
      Point(frame[k].pos.value.x, frame[k].pos.value.y, frame[k].pos.value.z, frame[k].visibility))
  }

  /** Whether every frame present reaches the right ankle, the highest landmark
      a metric reads. */
  predicate WellFormed(sequence: seq<Option<seq<TrackedLandmark>>>)
  {
    forall k :: 0 <= k < |sequence| && sequence[k].Some? ==> RightAnkle < |sequence[k].value|
  }

  /** The metrics of one frame: none for a missing frame or a frame with a
      NaN x, otherwise angles and distances of the hip-centred landmarks. */
  function FrameMetrics(m: Libm, frame: Option<seq<TrackedLandmark>>): Option<FrameRow>
    requires frame.Some? ==> RightAnkle < |frame.value|
  {
    if frame.None? || !Positioned(frame.value) then None
    else
      var norm := NormalizeLandmarks(ToPoints(frame.value));
      Some(FrameRow(ExtractJointAngles(m, norm), CalculateDistances(norm)))
  }

  function FrameRows(m: Libm, sequence: seq<Option<seq<TrackedLandmark>>>): (r: seq<Option<FrameRow>>)
    requires WellFormed(sequence)
    ensures |r| == |sequence|
  {
    seq(|sequence|, k requires 0 <= k < |sequence| => FrameMetrics(m, sequence[k]))
  }

  /** One metric over all frames, NaN where the frame has no metrics. */
  function MetricColumn(rows: seq<Option<FrameRow>>, metric: FrameRow -> real): (r: Column)
    ensures |r| == |rows|
  {
    seq(|rows|, k requires 0 <= k < |rows| => if rows[k].Some? then Some(metric(rows[k].value)) else None)
  }

  function FrameIndexColumn(n: nat): (r: Column)
    ensures |r| == n
  {
    seq(n, k => Some(k as real))
  }

  /** The angle columns whose angular velocity the table carries. */
  const AngleColumns: seq<string> := ["rodilla_izq", "rodilla_der", "codo_izq", "codo_der"]

  /** The frame index and the six per-frame metric columns. */
  function BaseColumns(rows: seq<Option<FrameRow>>): map<string, Column>
  {
    map["frame_idx" := FrameIndexColumn(|rows|),
        "rodilla_izq" := MetricColumn(rows, (r: FrameRow) => r.angles.kneeLeft),
        "rodilla_der" := MetricColumn(rows, (r: FrameRow) => r.angles.kneeRight),
        "codo_izq" := MetricColumn(rows, (r: FrameRow) => r.angles.elbowLeft),
        "codo_der" := MetricColumn(rows, (r: FrameRow) => r.angles.elbowRight),
        "anchura_hombros" := MetricColumn(rows, (r: FrameRow) => r.distances.shoulderWidth),
        "separacion_pies" := MetricColumn(rows, (r: FrameRow) => r.distances.feetSeparation)]
  }

  /** The angular velocity of a whole column. */
  function VelocityColumn(angles: Column, fps: real): (r: Column)
    ensures |r| == |angles|
  {
    seq(|angles|, i requires 0 <= i < |angles| => VelocityAt(angles, fps, i))
  }

  /** A `vel_ang_` column per named column, each the angular velocity of the
      filled column. */
  function VelocityColumns(base: map<string, Column>, fps: real, names: seq<string>): map<string, Column>
    requires forall k :: 0 <= k < |names| ==> names[k] in base
  {
    if |names| == 0 then map[]
    else
      var last := names[|names| - 1];
      VelocityColumns(base, fps, names[..|names| - 1])["vel_ang_" + last := VelocityColumn(Fill(base[last]), fps)]
  }

  /** Row-wise symmetry of two columns. */
  function SymmetryColumn(left: Column, right: Column): (r: Column)
    requires |left| == |right|
    ensures |r| == |left|
  {
    seq(|left|, k requires 0 <= k < |left| => CalculateSymmetry(left[k], right[k]))
  }

  /** The columns of a non-empty metrics table: the base columns, the
      velocities of the filled angle columns, and the knee and elbow symmetry
      of the unfilled ones. */
  function AssembleColumns(base: map<string, Column>, fps: real): map<string, Column>
    requires forall k :: 0 <= k < |AngleColumns| ==> AngleColumns[k] in base
    requires "rodilla_izq" in base && "rodilla_der" in base && "codo_izq" in base && "codo_der" in base
    requires |base["rodilla_izq"]| == |base["rodilla_der"]| && |base["codo_izq"]| == |base["codo_der"]|
  {
    (base + VelocityColumns(base, fps, AngleColumns))
      ["sim_rodilla" := SymmetryColumn(base["rodilla_izq"], base["rodilla_der"])]
      ["sim_codo" := SymmetryColumn(base["codo_izq"], base["codo_der"])]
  }

  /** The metrics table of a landmark sequence: no columns for no frames,
      the assembled columns otherwise. */
  function MetricsTable(m: Libm, sequence: seq<Option<seq<TrackedLandmark>>>, fps: real): Table
    requires WellFormed(sequence)
  {
    var rows := FrameRows(m, sequence);
    if |rows| == 0 then Table(map[], 0)
    else Table(AssembleColumns(BaseColumns(rows), fps), |rows|)
  }

  /** The per-frame loop of `calculate_metrics_from_sequence`. */
  method ComputeFrameRows(m: Libm, sequence: seq<Option<seq<TrackedLandmark>>>) returns (rows: seq<Option<FrameRow>>)
    requires WellFormed(sequence)
    ensures rows == FrameRows(m, sequence)
  {
    ghost var all := FrameRows(m, sequence);
    rows := [];
    for idx := 0 to |sequence|
      invariant rows == all[..idx]
    {
      var frame := sequence[idx];
      var row: Option<FrameRow>;
      if frame.None? || exists k :: 0 <= k < |frame.value| && frame.value[k].pos.None? {
        row := None;
      } else {
        var norm := NormalizeLandmarks(ToPoints(frame.value));
        row := Some(FrameRow(ExtractJointAngles(m, norm), CalculateDistances(norm)));
      }
      assert all[..idx + 1] == all[..idx] + [all[idx]];
      rows := rows + [row];
    }
    assert all[..|sequence|] == all;
  }

  /** A column that agrees with the angular velocity everywhere is the
      velocity column. */
  lemma VelocityColumnOf(angles: Column, fps: real, v: Column)
    requires |v| == |angles| && forall i :: 0 <= i < |angles| ==> v[i] == VelocityAt(angles, fps, i)
    ensures v == VelocityColumn(angles, fps)
  {
  }

  /** Adding the velocity column of one more name, on top of any base. */
  lemma VelocityColumnsSnoc(base: map<string, Column>, fps: real, names: seq<string>, k: int)
    requires forall j :: 0 <= j < |names| ==> names[j] in base
    requires 0 <= k < |names|
    ensures base + VelocityColumns(base, fps, names[..k + 1]) ==
            (base + VelocityColumns(base, fps, names[..k]))["vel_ang_" + names[k] := VelocityColumn(Fill(base[names[k]]), fps)]
  {
    assert names[..k + 1][..k] == names[..k];
  }

  /** The velocity loop: adds a `vel_ang_` column per angle column. */
  method AddVelocities(base: map<string, Column>, fps: real) returns (columns: map<string, Column>)
    requires forall k :: 0 <= k < |AngleColumns| ==> AngleColumns[k] in base
    ensures columns == base + VelocityColumns(base, fps, AngleColumns)
  {
    columns := base;
    for k := 0 to |AngleColumns|
      invariant columns == base + VelocityColumns(base, fps, AngleColumns[..k])
    {
      var name := AngleColumns[k];
      var velocities := CalculateAngularVelocity(Fill(base[name]), fps);
      VelocityColumnOf(Fill(base[name]), fps, velocities);
      VelocityColumnsSnoc(base, fps, AngleColumns, k);
      columns := columns["vel_ang_" + name := velocities];
    }
    assert AngleColumns[..|AngleColumns|] == AngleColumns;
  }

  /** `calculate_metrics_from_sequence`: the metrics table of the sequence,
      built frame by frame and then column by column. */
  method CalculateMetricsFromSequence(m: Libm, sequence: seq<Option<seq<TrackedLandmark>>>, fps: real)
    returns (dfm: Table)
    requires WellFormed(sequence)
    ensures dfm == MetricsTable(m, sequence, fps)
  {
    var rows := ComputeFrameRows(m, sequence);
    if |rows| == 0 {
      return Table(map[], 0);
    }
    var base := BaseColumns(rows);
    BaseColumnsShape(rows);
    var columns := AddVelocities(base, fps);
    columns := columns["sim_rodilla" := SymmetryColumn(base["rodilla_izq"], base["rodilla_der"])];
    columns := columns["sim_codo" := SymmetryColumn(base["codo_izq"], base["codo_der"])];
    dfm := Table(columns, |rows|);
  }

  /** The velocity columns are named `vel_ang_` after each named column. */
  lemma VelocityColumnsKeys(base: map<string, Column>, fps: real, names: seq<string>)
    requires forall k :: 0 <= k < |names| ==> names[k] in base
    ensures forall name :: name in VelocityColumns(base, fps, names) <==>
              exists k :: 0 <= k < |names| && name == "vel_ang_" + names[k]
    ensures forall name :: name in VelocityColumns(base, fps, names) ==> 0 < |name| && name[0] == 'v'
  {
    VelocityColumnsNamed(base, fps, names);
    VelocityColumnsPresent(base, fps, names);
    forall name | name in VelocityColumns(base, fps, names) ensures 0 < |name| && name[0] == 'v' {
      var k :| 0 <= k < |names| && name == "vel_ang_" + names[k];
    }
  }

  /** Every velocity column is named after some named column. */
  lemma {:induction false} VelocityColumnsNamed(base: map<string, Column>, fps: real, names: seq<string>)
    requires forall k :: 0 <= k < |names| ==> names[k] in base
    ensures forall name :: name in VelocityColumns(base, fps, names) ==>
              exists k :: 0 <= k < |names| && name == "vel_ang_" + names[k]
  {
    if |names| > 0 {
      var init := names[..|names| - 1];
      VelocityColumnsNamed(base, fps, init);
      var prev := VelocityColumns(base, fps, init);
      var r := VelocityColumns(base, fps, names);
      assert r.Keys == prev.Keys + {"vel_ang_" + names[|names| - 1]};
      forall name | name in r
        ensures exists k :: 0 <= k < |names| && name == "vel_ang_" + names[k]
      {
        if name in prev {
          var k :| 0 <= k < |init| && name == "vel_ang_" + init[k];
          assert init[k] == names[k];
        } else {
          assert name == "vel_ang_" + names[|names| - 1];
        }
      }
    }
  }

  /** Every named column has its velocity column. */
  lemma {:induction false} VelocityColumnsPresent(base: map<string, Column>, fps: real, names: seq<string>)
    requires forall k :: 0 <= k < |names| ==> names[k] in base
    ensures forall k :: 0 <= k < |names| ==> "vel_ang_" + names[k] in VelocityColumns(base, fps, names)
  {
    if |names| > 0 {
      var init := names[..|names| - 1];
      VelocityColumnsPresent(base, fps, init);
      var r := VelocityColumns(base, fps, names);
      assert r.Keys == VelocityColumns(base, fps, init).Keys + {"vel_ang_" + names[|names| - 1]};
      forall k | 0 <= k < |names| ensures "vel_ang_" + names[k] in r {
        if k < |init| {
          assert init[k] == names[k];
        }
      }
    }
  }

  /** The velocity column of a named column is the angular velocity of its
      filled values, when no other name repeats it. */
  lemma {:induction false} VelocityColumnsAt(base: map<string, Column>, fps: real, names: seq<string>, k: int)
    requires forall j :: 0 <= j < |names| ==> names[j] in base
    requires 0 <= k < |names| && forall j :: 0 <= j < |names| && j != k ==> names[j] != names[k]
    ensures "vel_ang_" + names[k] in VelocityColumns(base, fps, names)
    ensures VelocityColumns(base, fps, names)["vel_ang_" + names[k]] == VelocityColumn(Fill(base[names[k]]), fps)
  {
    var n := |names|;
    if k < n - 1 {
      var init := names[..n - 1];
      VelocityColumnsAt(base, fps, init, k);
      var a, b := "vel_ang_" + names[k], "vel_ang_" + names[n - 1];
      assert a[8..] == names[k] && b[8..] == names[n - 1];
    }
  }

  /** Every base column has one cell per frame, and no base column is named
      like a velocity column. */
  lemma BaseColumnsShape(rows: seq<Option<FrameRow>>)
    ensures forall name :: name in BaseColumns(rows) ==> |BaseColumns(rows)[name]| == |rows| && 0 < |name| && name[0] != 'v'
    ensures forall k :: 0 <= k < |AngleColumns| ==> AngleColumns[k] in BaseColumns(rows)
    ensures var b := BaseColumns(rows); "rodilla_izq" in b && "rodilla_der" in b && "codo_izq" in b && "codo_der" in b
  {
  }

  /** Assembling keeps every base column and adds exactly a velocity column
      per angle column and the two symmetry columns. */
  lemma AssembleKeys(base: map<string, Column>, fps: real)
    requires forall k :: 0 <= k < |AngleColumns| ==> AngleColumns[k] in base
    requires "rodilla_izq" in base && "rodilla_der" in base && "codo_izq" in base && "codo_der" in base
    requires |base["rodilla_izq"]| == |base["rodilla_der"]| && |base["codo_izq"]| == |base["codo_der"]|
    ensures forall name :: name in AssembleColumns(base, fps) <==>
              (|| name in base || name == "sim_rodilla" || name == "sim_codo"
               || exists k :: 0 <= k < |AngleColumns| && name == "vel_ang_" + AngleColumns[k])
  {
    VelocityColumnsKeys(base, fps, AngleColumns);
  }

  /** Every velocity column has the length of the columns it is made from. */
  lemma {:induction false} VelocityColumnsLengths(base: map<string, Column>, fps: real, names: seq<string>, n: nat)
    requires forall k :: 0 <= k < |names| ==> names[k] in base && |base[names[k]]| == n
    ensures forall name :: name in VelocityColumns(base, fps, names) ==> |VelocityColumns(base, fps, names)[name]| == n
  {
    if |names| > 0 {
      var init := names[..|names| - 1];
      var last := names[|names| - 1];
      VelocityColumnsLengths(base, fps, init, n);
      FillProperties(base[last]);
      assert VelocityColumns(base, fps, names) ==
             VelocityColumns(base, fps, init)["vel_ang_" + last := VelocityColumn(Fill(base[last]), fps)];
    }
  }

  /** Every assembled column has the base columns' length. */
  lemma AssembleLengths(base: map<string, Column>, fps: real, n: nat)
    requires forall name :: name in base ==> |base[name]| == n
    requires forall k :: 0 <= k < |AngleColumns| ==> AngleColumns[k] in base
    requires "rodilla_izq" in base && "rodilla_der" in base && "codo_izq" in base && "codo_der" in base
    ensures forall name :: name in AssembleColumns(base, fps) ==> |AssembleColumns(base, fps)[name]| == n
  {
    VelocityColumnsLengths(base, fps, AngleColumns, n);
  }

  /** A non-empty metrics table holds the frame index, the six metric columns,
      a velocity column per angle column and the two symmetry columns, each
      with one cell per frame, and nothing else. */
  lemma MetricsTableShape(m: Libm, sequence: seq<Option<seq<TrackedLandmark>>>, fps: real)
    requires WellFormed(sequence)
    ensures MetricsTable(m, sequence, fps).height == |sequence|
    ensures |sequence| == 0 ==> MetricsTable(m, sequence, fps).columns == map[]
    ensures |sequence| > 0 ==>
              var c := MetricsTable(m, sequence, fps).columns;
              && (forall name :: name in c <==>
                    (|| name in BaseColumns(FrameRows(m, sequence))
                     || name == "sim_rodilla" || name == "sim_codo"
                     || exists k :: 0 <= k < |AngleColumns| && name == "vel_ang_" + AngleColumns[k]))
              && (forall name :: name in c ==> |c[name]| == |sequence|)
  {
    if |sequence| > 0 {
      var rows := FrameRows(m, sequence);
      BaseColumnsShape(rows);
      AssembleKeys(BaseColumns(rows), fps);
      AssembleLengths(BaseColumns(rows), fps, |rows|);
    }
  }

  /** Cell k of a named column; None also when the column or the row is absent. */
  function At(t: Table, name: string, k: int): Option<real>
  {
    if name in t.columns && 0 <= k < |t.columns[name]| then t.columns[name][k] else None
  }

  /** Whether frame k is present and every landmark of it has a position. */
  predicate FrameDefined(sequence: seq<Option<seq<TrackedLandmark>>>, k: int)
    requires 0 <= k < |sequence|
  {
    sequence[k].Some? && Positioned(sequence[k].value)
  }

  /** Assembling leaves a base column that is not named like a velocity or
      symmetry column as it is. */
  lemma AssembleKeepsBase(base: map<string, Column>, fps: real, name: string)
    requires forall k :: 0 <= k < |AngleColumns| ==> AngleColumns[k] in base
    requires "rodilla_izq" in base && "rodilla_der" in base && "codo_izq" in base && "codo_der" in base
    requires |base["rodilla_izq"]| == |base["rodilla_der"]| && |base["codo_izq"]| == |base["codo_der"]|
    requires name in base && 0 < |name| && name[0] != 'v' && name != "sim_rodilla" && name != "sim_codo"
    ensures name in AssembleColumns(base, fps) && AssembleColumns(base, fps)[name] == base[name]
  {
    VelocityColumnsKeys(base, fps, AngleColumns);
  }

  /** Assembling adds, for angle column j, the angular velocity of the filled column. */
  lemma AssembleVelocity(base: map<string, Column>, fps: real, j: int)
    requires forall k :: 0 <= k < |AngleColumns| ==> AngleColumns[k] in base
    requires "rodilla_izq" in base && "rodilla_der" in base && "codo_izq" in base && "codo_der" in base
    requires |base["rodilla_izq"]| == |base["rodilla_der"]| && |base["codo_izq"]| == |base["codo_der"]|
    requires 0 <= j < |AngleColumns|
    ensures var name := "vel_ang_" + AngleColumns[j];
            name in AssembleColumns(base, fps)
            && AssembleColumns(base, fps)[name] == VelocityColumn(Fill(base[AngleColumns[j]]), fps)
  {
    var name := "vel_ang_" + AngleColumns[j];
    VelocityColumnsAt(base, fps, AngleColumns, j);
    assert name[0] == 'v';
  }

  /** The base cells of row k of a non-empty metrics table are those of the
      base columns. */
  lemma MetricsCellsAreBase(m: Libm, sequence: seq<Option<seq<TrackedLandmark>>>, fps: real, k: int)
    requires WellFormed(sequence) && 0 <= k < |sequence|
    ensures var t, base := MetricsTable(m, sequence, fps), BaseColumns(FrameRows(m, sequence));
            forall name :: name in base ==> At(t, name, k) == base[name][k]
  {
    var rows := FrameRows(m, sequence);
    BaseColumnsShaped(rows);
    AssembledBaseCells(BaseColumns(rows), fps, |rows|, MetricsTable(m, sequence, fps), k);
  }

  /** In an assembled table, the cells of every base column are the base cells. */
  lemma AssembledBaseCells(base: map<string, Column>, fps: real, n: nat, t: Table, k: int)
    requires BaseShaped(base, n) && t.columns == AssembleColumns(base, fps)
    requires 0 <= k < n
    ensures forall name :: name in base ==> At(t, name, k) == base[name][k]
  {
    forall name | name in base ensures At(t, name, k) == base[name][k] {
      AssembleKeepsBase(base, fps, name);
    }
  }

  /** The metrics of a defined frame are those of its own points: hip
      centring changes none of them. */
  lemma FrameMetricsOfPoints(m: Libm, frame: seq<TrackedLandmark>)
    requires RightAnkle < |frame| && Positioned(frame)
    ensures FrameMetrics(m, Some(frame)) == Some(FrameRow(ExtractJointAngles(m, ToPoints(frame)), CalculateDistances(ToPoints(frame))))
  {
    JointAnglesUnchangedByNormalize(m, ToPoints(frame));
    DistancesUnchangedByNormalize(ToPoints(frame));
  }

  /** Row k of the metrics table: the frame index k, and the six metrics all
      defined or all NaN together, defined exactly when the frame is present
      with every landmark positioned; defined metrics equal the angles and
      distances of the frame's own points. */
  lemma MetricsRow(m: Libm, sequence: seq<Option<seq<TrackedLandmark>>>, fps: real, k: int)
    requires WellFormed(sequence) && 0 <= k < |sequence|
    ensures var t := MetricsTable(m, sequence, fps);
            && At(t, "frame_idx", k) == Some(k as real)
            && (FrameDefined(sequence, k) ==>
                  var lms := ToPoints(sequence[k].value);
                  var a, d := ExtractJointAngles(m, lms), CalculateDistances(lms);
                  && At(t, "rodilla_izq", k) == Some(a.kneeLeft)
                  && At(t, "rodilla_der", k) == Some(a.kneeRight)
                  && At(t, "codo_izq", k) == Some(a.elbowLeft)
                  && At(t, "codo_der", k) == Some(a.elbowRight)
                  && At(t, "anchura_hombros", k) == Some(d.shoulderWidth)
                  && At(t, "separacion_pies", k) == Some(d.feetSeparation))
            && (!FrameDefined(sequence, k) ==>
                  && At(t, "rodilla_izq", k).None? && At(t, "rodilla_der", k).None?
                  && At(t, "codo_izq", k).None? && At(t, "codo_der", k).None?
                  && At(t, "anchura_hombros", k).None? && At(t, "separacion_pies", k).None?)
  {
    var rows := FrameRows(m, sequence);
    var base := BaseColumns(rows);
    MetricsCellsAreBase(m, sequence, fps, k);
    assert "frame_idx" in base && "rodilla_izq" in base && "rodilla_der" in base && "codo_izq" in base
        && "codo_der" in base && "anchura_hombros" in base && "separacion_pies" in base;
    if FrameDefined(sequence, k) {
      FrameMetricsOfPoints(m, sequence[k].value);
    }
  }

  /** What assembling needs of the base columns: one cell per frame, no name
      that a velocity or symmetry column takes, and the four angle columns. */
  predicate BaseShaped(base: map<string, Column>, n: nat)
  {
    && (forall name :: name in base ==> |base[name]| == n && 0 < |name| && name[0] != 'v')
    && (forall k :: 0 <= k < |AngleColumns| ==> AngleColumns[k] in base)
    && "rodilla_izq" in base && "rodilla_der" in base && "codo_izq" in base && "codo_der" in base
    && "sim_rodilla" !in base && "sim_codo" !in base
  }

  /** The base columns of any frame rows are shaped for assembling. */
  lemma BaseColumnsShaped(rows: seq<Option<FrameRow>>)
    ensures BaseShaped(BaseColumns(rows), |rows|)
  {
    BaseColumnsShape(rows);
    BaseColumnsNoSymmetry(rows);
  }

  lemma BaseColumnsNoSymmetry(rows: seq<Option<FrameRow>>)
    ensures "sim_rodilla" !in BaseColumns(rows) && "sim_codo" !in BaseColumns(rows)
  {
  }

  /** What row k of the velocity column of angle column `name` holds in a
      table of n rows: 0 at the first row and at frame rate 0, the scaled
      absolute change between two defined consecutive angles, never negative
      at a positive frame rate, and defined as soon as the angle column has a
      defined cell. */
  predicate VelocityCellOk(t: Table, name: string, fps: real, n: nat, k: int)
  {
    var vel := At(t, "vel_ang_" + name, k);
    && (k == 0 || fps == 0.0 ==> vel == Some(0.0))
    && (0.0 < fps && vel.Some? ==> 0.0 <= vel.value)
    && (0 < k && fps != 0.0 && At(t, name, k - 1).Some? && At(t, name, k).Some? ==>
          vel == Some(Abs(At(t, name, k).value - At(t, name, k - 1).value) * fps))
    && ((exists r :: 0 <= r < n && At(t, name, r).Some?) ==> vel.Some?)
  }

  /** Every row of every velocity column of an assembled table is as
      VelocityCellOk describes. */
  lemma AssembledVelocityAt(base: map<string, Column>, fps: real, n: nat, t: Table, j: int, k: int)
    requires BaseShaped(base, n) && t.columns == AssembleColumns(base, fps)
    requires 0 <= j < |AngleColumns| && 0 <= k < n
    ensures VelocityCellOk(t, AngleColumns[j], fps, n, k)
  {
    var name := AngleColumns[j];
    AssembleVelocity(base, fps, j);
    AssembleKeepsBase(base, fps, name);
    var col := base[name];
    assert forall r :: 0 <= r < n ==> At(t, name, r) == col[r];
    FillProperties(col);
    VelocityProperties(Fill(col), fps, k);
    var vel := At(t, "vel_ang_" + name, k);
    assert vel == VelocityAt(Fill(col), fps, k);
    if 0 < k && fps != 0.0 && col[k - 1].Some? && col[k].Some? {
      assert vel == Speed(col[k - 1], col[k], fps);
    }
  }

  /** In an assembled table, the symmetry columns at row k are the symmetry of
      the row's unfilled left and right angles. */
  lemma AssembledSymmetryAt(base: map<string, Column>, fps: real, n: nat, t: Table, k: int)
    requires BaseShaped(base, n) && t.columns == AssembleColumns(base, fps) && 0 <= k < n
    ensures At(t, "sim_rodilla", k) == CalculateSymmetry(At(t, "rodilla_izq", k), At(t, "rodilla_der", k))
    ensures At(t, "sim_codo", k) == CalculateSymmetry(At(t, "codo_izq", k), At(t, "codo_der", k))
  {
    AssembleKeepsBase(base, fps, "rodilla_izq");
    AssembleKeepsBase(base, fps, "rodilla_der");
    AssembleKeepsBase(base, fps, "codo_izq");
    AssembleKeepsBase(base, fps, "codo_der");
  }

  /** The velocity column of each angle column, at every row, is as
      VelocityCellOk describes: in particular without gaps as soon as any
      frame has the angle, since the angles are filled before differencing. */
  lemma MetricsVelocity(m: Libm, sequence: seq<Option<seq<TrackedLandmark>>>, fps: real, j: int, k: int)
    requires WellFormed(sequence) && 0 <= j < |AngleColumns| && 0 <= k < |sequence|
    ensures VelocityCellOk(MetricsTable(m, sequence, fps), AngleColumns[j], fps, |sequence|, k)
  {
    var rows := FrameRows(m, sequence);
    BaseColumnsShaped(rows);
    AssembledVelocityAt(BaseColumns(rows), fps, |sequence|, MetricsTable(m, sequence, fps), j, k);
  }

  /** The symmetry columns at row k: the symmetry of the row's unfilled left
      and right angles, so defined exactly when the frame is; and, with a
      sound maths library, within [0, 1], both angles lying in [0, 180]. */
  lemma MetricsSymmetry(m: Libm, sequence: seq<Option<seq<TrackedLandmark>>>, fps: real, k: int)
    requires WellFormed(sequence) && 0 <= k < |sequence|
    ensures var t := MetricsTable(m, sequence, fps);
            && At(t, "sim_rodilla", k) == CalculateSymmetry(At(t, "rodilla_izq", k), At(t, "rodilla_der", k))
            && At(t, "sim_codo", k) == CalculateSymmetry(At(t, "codo_izq", k), At(t, "codo_der", k))
            && (At(t, "sim_rodilla", k).Some? <==> FrameDefined(sequence, k))
            && (At(t, "sim_codo", k).Some? <==> FrameDefined(sequence, k))
            && (Sound(m) && FrameDefined(sequence, k) ==>
                  && 0.0 <= At(t, "sim_rodilla", k).value <= 1.0
                  && 0.0 <= At(t, "sim_codo", k).value <= 1.0)
  {
    var rows := FrameRows(m, sequence);
    BaseColumnsShaped(rows);
    AssembledSymmetryAt(BaseColumns(rows), fps, |rows|, MetricsTable(m, sequence, fps), k);
    MetricsRow(m, sequence, fps, k);
  }

  /** Frame t of the filtered sequence. */
  function FilteredFrame(raw: RawTable, minConfidence: real, t: int): (r: seq<TrackedLandmark>)
    requires 0 <= t < |raw.rows|
    ensures |r| == LandmarkCount
  {
    seq(LandmarkCount, i => FilteredLandmark(raw, minConfidence, t, i))
  }

  /** A filtered frame reaches the metrics table as a defined row exactly when
      each of its landmarks is kept at that frame or has more than one kept
      frame to interpolate between. */
  lemma FilteredFrameDefined(raw: RawTable, minConfidence: real, t: int)
    requires 0 <= t < |raw.rows|
    ensures WellFormed([Some(FilteredFrame(raw, minConfidence, t))])
    ensures FrameDefined([Some(FilteredFrame(raw, minConfidence, t))], 0) <==>
              forall i :: 0 <= i < LandmarkCount ==>
                Kept(raw, minConfidence, t, i) || |KeptFrames(raw, minConfidence, i)| > 1
  {
    var f := FilteredFrame(raw, minConfidence, t);
    var s := [Some(f)];
    assert s[0].value == f;
    forall i | 0 <= i < LandmarkCount
      ensures f[i].pos.Some? <==> Kept(raw, minConfidence, t, i) || |KeptFrames(raw, minConfidence, i)| > 1
    {
      assert f[i] == FilteredLandmark(raw, minConfidence, t, i);
    }
  }
}
