# Squat analysis core: pose metrics, gap filling and repetition counting

This project models the analysis core of a squat-analysis application. The
application estimates body pose from video as 33 landmarks per frame. The
modelled core then does four things:

- It filters the landmark table by visibility and fills the gaps by linear
  interpolation (`filter_and_interpolate_landmarks`).
- It computes per-frame biomechanical metrics (`calculate_metrics_from_sequence`
  and the metric functions of `metrics.py`): four joint angles, two distances,
  angular velocities and left/right symmetry.
- It counts repetitions by the valleys of the knee angle (`count_reps.py`).
  It also counts them with the hysteresis counter of the world-landmark
  analysis (`analysis_3d.py`), which records a depth fault for every shallow
  repetition.
- The GUI picks a column by priority from a metrics table (`gui_utils.py`).

Modules:

- `Options`: the `Option` type. `None` stands for NaN throughout.
- `RealMath`: `Abs`, `Max` and `Clamp`. It also defines `Libm`, the math
  library as a value (`math.hypot`, `np.linalg.norm`, arc cosine in degrees),
  and `Sound`, the facts the proofs assume of that library.
- `Tables`: the pandas operations the core uses: numeric columns with NaN
  cells, `empty`, `ffill`, `bfill` and `dropna`.
- `Interpolation`: `np.interp` over strictly increasing integer knots.
- `Metrics`: `src/B_pose_estimation/metrics.py`.
- `Processing`: `src/B_pose_estimation/processing.py`. Filtering and
  interpolation run as methods over a three-dimensional working `array3`, as
  the source works on its NumPy array. The metrics table is built by the
  source's loops and is specified by `MetricsTable`.
- `MathUtils`: `src/D_modeling/math_utils.py`.
- `Analysis3D`: `src/D_modeling/analysis_3d.py`. `Calculate3DMetrics` is the
  frame loop, specified by `Rows3D`. `CountReps3D` is the counter loop,
  specified by the scan function `Run`.
- `CountReps`: `src/D_modeling/count_reps.py`. `find_peaks` is a parameter,
  described by the documented part of its contract.
- `GuiUtils`: `src/gui/gui_utils.py`.

Where a Python operation raises, the model returns `None`: `Calculate3DMetrics`
does so for an `IndexError` on a short landmark list and for a
`ZeroDivisionError` when fps is 0.

## Model

| member | source | states |
|---|---|---|
| Metrics.NormalizeLandmarks | src/B_pose_estimation/metrics.py:10-15 | Centring on the hip midpoint keeps the frame's length, every z and visibility, and every x/y difference between two landmarks; afterwards the two hips are symmetric about the origin |
| Metrics.NormalizeIdempotent | src/B_pose_estimation/metrics.py:10-15 | Centring an already centred frame changes nothing |
| Metrics.CalculateAngle | src/B_pose_estimation/metrics.py:17-22 | With a sound math library the planar joint angle lies within [0, 180] degrees |
| Metrics.AngleZeroLegGuard | src/B_pose_estimation/metrics.py:19-22 | A leg of zero length in the plane gives 0 degrees; for any other pair of legs the product of the leg lengths is positive, so the zero guard is taken only for a degenerate leg |
| Metrics.StraightLegs | src/B_pose_estimation/metrics.py:19-20 | For a joint strictly between two collinear points, the leg lengths have a positive product and the dot product is its negation, so the cosine is -1 |
| Metrics.AngleFromOppositeDot | src/B_pose_estimation/metrics.py:21-22 | A cosine of exactly -1 gives 180 degrees through the clamp and the arc cosine |
| Metrics.AngleRight | src/B_pose_estimation/metrics.py:19-22 | Two non-degenerate perpendicular legs give exactly 90 degrees |
| Metrics.AngleSymmetric | src/B_pose_estimation/metrics.py:17-22 | Exchanging the two outer points does not change the angle |
| Metrics.AngleTranslationInvariant | src/B_pose_estimation/metrics.py:17-22 | Shifting all three points by the same plane offset does not change the angle |
| Metrics.AngleOfEqualLegs | src/B_pose_estimation/metrics.py:19 | The angle depends only on the two leg vectors |
| Metrics.ExtractJointAngles | src/B_pose_estimation/metrics.py:24-31 | Each of the four joint angles (both knees, both elbows) lies within [0, 180] |
| Metrics.JointAnglesUnchangedByNormalize | src/B_pose_estimation/metrics.py:10-31 | Hip centring before angle extraction does not change any of the four angles |
| Metrics.CalculateDistances | src/B_pose_estimation/metrics.py:33-38 | Shoulder width and foot separation are non-negative, and the shoulder width is the horizontal gap between the shoulders, in one direction or the other |
| Metrics.DistancesUnchangedByNormalize | src/B_pose_estimation/metrics.py:10-38 | Hip centring does not change either distance |
| Metrics.VelocityProperties | src/B_pose_estimation/metrics.py:40-47 | The angular velocity is never negative at a positive frame rate, is 0 everywhere at frame rate 0, and has no NaN where the angles have none |
| Metrics.VelocityAt | src/B_pose_estimation/metrics.py:40-47 | Entry i of the angular velocity: 0 first and at frame rate 0, otherwise the scaled absolute change from the previous sample, NaN when either is NaN |
| Metrics.CalculateAngularVelocity | src/B_pose_estimation/metrics.py:40-47 | The loop yields one entry per sample: 0 first (and everywhere when fps is 0), then the absolute change from the previous sample divided by 1/fps, NaN when either sample is NaN |
| Metrics.CalculateSymmetry | src/B_pose_estimation/metrics.py:49-54 | NaN exactly when either angle is NaN; never above 1; exactly 1 for equal angles, including two zeros; at least 0 when both angles have the same sign |
| Metrics.SymmetryCommutes | src/B_pose_estimation/metrics.py:49-54 | Exchanging left and right does not change the score |
| Metrics.SymmetryNotClamped | src/B_pose_estimation/metrics.py:52-54 | The score is not clamped at 0: opposite non-zero angles of equal size score -1 |
| MathUtils.CalculateAngle3D | src/D_modeling/math_utils.py:5-26 | With a sound math library the 3D joint angle lies within [0, 180] degrees |
| MathUtils.DenominatorPositive | src/D_modeling/math_utils.py:16-19 | The product of the leg norms plus 1e-8 is at least 1e-8, so the division is always defined |
| MathUtils.AngleOfZeroDot | src/D_modeling/math_utils.py:22-26 | A zero dot product over a positive denominator gives 90 degrees |
| MathUtils.AngleRight3D | src/D_modeling/math_utils.py:11-26 | Perpendicular legs give exactly 90 degrees |
| MathUtils.AngleZeroLeg3D | src/D_modeling/math_utils.py:11-26 | A zero-length leg gives 90 degrees, unlike the 0 of the planar angle |
| MathUtils.AngleSymmetric3D | src/D_modeling/math_utils.py:11-19 | Exchanging the two outer points does not change the angle |
| MathUtils.AngleTranslationInvariant3D | src/D_modeling/math_utils.py:11-12 | Shifting all three points by the same offset does not change the angle |
| GuiUtils.FirstPresent | src/gui/gui_utils.py:29-32 | The name returned is a candidate that is present in the table, and no earlier candidate is present; the result is None exactly when no candidate is present |
| GuiUtils.GetFirstAvailableSeries | src/gui/gui_utils.py:16-32 | A series is returned exactly when some candidate of the logical name is a column of the table |
| GuiUtils.UnknownNameFindsNothing | src/gui/gui_utils.py:28-32 | A name that is not in the metrics map finds nothing, whatever the table holds |
| GuiUtils.EarlierCandidateWins | src/gui/gui_utils.py:28-31 | The first present candidate wins even when later candidates are present too |
| GuiUtils.KneeAnglePrefers2D | src/gui/gui_utils.py:10-31 | `knee_angle` returns `rodilla_izq` whenever that column exists |
| GuiUtils.FrameIndexPrefersFrameIdx | src/gui/gui_utils.py:12-31 | `frame_index` returns `frame_idx` whenever that column exists |
| GuiUtils.KneeAngleFallsBackTo3D | src/gui/gui_utils.py:10-31 | Without `rodilla_izq`, `knee_angle` returns `knee_angle_3d` when that column exists |
| Tables.FFillAt | src/D_modeling/count_reps.py:72 | A forward-filled cell keeps a defined value. It is NaN exactly when every cell up to it is NaN. Otherwise it holds the nearest defined cell at or above it |
| Tables.BFillAt | src/D_modeling/count_reps.py:72 | A backward-filled cell keeps a defined value. It is NaN exactly when every cell from it on is NaN. Otherwise it holds the nearest defined cell at or below it |
| Tables.FFill | src/D_modeling/count_reps.py:72 | Forward filling keeps the column's length |
| Tables.BFill | src/D_modeling/count_reps.py:72 | Backward filling keeps the column's length |
| Tables.Fill | src/B_pose_estimation/processing.py:93 | `ffill().bfill()`: forward filling followed by backward filling |
| Tables.FillProperties | src/D_modeling/count_reps.py:72 | Forward-then-backward filling keeps the length and every defined cell, leaves no NaN when any cell is defined, and leaves an all-NaN column unchanged |
| Tables.DefinedValuesAppend | src/D_modeling/analysis_3d.py:75 | Dropping NaN cells distributes over concatenation |
| Tables.DefinedValuesOfDefined | src/D_modeling/analysis_3d.py:75 | A column without NaN drops to its values, in place |
| Tables.DefinedValuesOfUndefined | src/D_modeling/analysis_3d.py:75-77 | An all-NaN column drops to nothing |
| Tables.DefinedValues | src/D_modeling/analysis_3d.py:75 | `dropna`: the defined values of a column, in order, never more than the column's cells |
| Tables.IsEmpty | src/D_modeling/analysis_3d.py:72 | `df.empty`: a table without rows or without columns |
| Interpolation.SegmentWithinEnds | src/B_pose_estimation/processing.py:64 | Between two knots the interpolated value stays between the two knot values |
| Interpolation.InterpBeforeFirst | src/B_pose_estimation/processing.py:64 | At or before the first knot, `np.interp` gives the first knot value |
| Interpolation.InterpAfterLast | src/B_pose_estimation/processing.py:64 | At or after the last knot it gives the last knot value |
| Interpolation.InterpAtKnot | src/B_pose_estimation/processing.py:64 | At a knot it gives that knot's value |
| Interpolation.InterpBetween | src/B_pose_estimation/processing.py:64 | Strictly between two neighbouring knots it gives the point on the segment joining them |
| Interpolation.InterpConstant | src/B_pose_estimation/processing.py:64 | Constant knot values interpolate to that constant everywhere |
| Interpolation.InterpBounded | src/B_pose_estimation/processing.py:64 | Knot values within [lo, hi] interpolate to values within [lo, hi] |
| Interpolation.Interp | src/B_pose_estimation/processing.py:62-64 | `np.interp` over strictly increasing knots: the first value before the first knot, the last after the last, the straight line between neighbouring knots |
| Processing.KeptIndicesSpec | src/B_pose_estimation/processing.py:52-60 | The valid frames of a landmark strictly increase, are exactly the frames that pass the visibility filter, and each lies within the table |
| Processing.KeptFrames | src/B_pose_estimation/processing.py:59-60 | The valid indices strictly increase and each passes the visibility filter |
| Processing.FilterByVisibility | src/B_pose_estimation/processing.py:49-56 | The working array is new. It holds x, y, z and the visibility of every sample whose visibility is defined and at least the threshold, and NaN in every other cell |
| Processing.ValidFrames | src/B_pose_estimation/processing.py:59-60 | Reading the non-NaN x cells of a landmark off the working array gives exactly its kept frames |
| Processing.GatherValues | src/B_pose_estimation/processing.py:64 | Gathering a field at the valid indices gives that field's kept values |
| Processing.InterpolateField | src/B_pose_estimation/processing.py:62-64 | Overwriting one coordinate column with its interpolation advances the array's invariant by one field and changes nothing else |
| Processing.InterpolateLandmark | src/B_pose_estimation/processing.py:58-64 | A landmark with more than one valid frame has x, y and z interpolated over every frame; one with at most one valid frame is left as filtered |
| Processing.Frames | src/B_pose_estimation/processing.py:66-69 | The finished array becomes one frame of 33 landmarks per row, and a NaN visibility becomes 0 |
| Processing.FilterAndInterpolateLandmarks | src/B_pose_estimation/processing.py:46-72 | One frame of 33 landmarks per raw row, each landmark as specified by `FilteredLandmark`; the crop boxes row for row when the crop columns exist, otherwise none |
| Processing.FilteredLandmark | src/B_pose_estimation/processing.py:46-72 | What the filter gives one landmark of one frame: its kept sample, or its interpolated position and visibility 0, or NaN |
| Processing.FilterKeepsKeptSamples | src/B_pose_estimation/processing.py:55-68 | A sample that passes the filter comes through with its raw position and visibility, whether or not its landmark is interpolated |
| Processing.FilterDropsUnkeptSamples | src/B_pose_estimation/processing.py:55-68 | A dropped sample has visibility 0. It has a position exactly when its landmark has more than one valid frame |
| Processing.FilterHoldsEnds | src/B_pose_estimation/processing.py:61-64 | Before the first valid frame the position is that of the first kept sample; after the last valid frame it is that of the last kept sample |
| Processing.FilterBetweenKeptFrames | src/B_pose_estimation/processing.py:61-64 | Between two neighbouring valid frames the position lies on the straight line between the two kept samples |
| Processing.FilterStaysWithinKeptRange | src/B_pose_estimation/processing.py:58-64 | Filling never takes x or y outside the range of the landmark's kept samples |
| Processing.FilteredFrameDefined | src/B_pose_estimation/processing.py:66-80 | A filtered frame reaches the metrics with defined values exactly when each of its landmarks either passed the filter or has more than one valid frame |
| Processing.ComputeFrameRows | src/B_pose_estimation/processing.py:77-87 | The per-frame loop gives, for each frame, no metrics when the frame is missing or has a NaN x, and otherwise the angles and distances of the hip-centred frame |
| Processing.FrameMetrics | src/B_pose_estimation/processing.py:78-87 | No metrics for a missing frame or a NaN x; otherwise the angles and distances of the hip-centred frame |
| Processing.AddVelocities | src/B_pose_estimation/processing.py:93-95 | The velocity loop adds, to the columns it is given, one `vel_ang_` column per angle column: the angular velocity of that column after forward and backward filling |
| Processing.CalculateMetricsFromSequence | src/B_pose_estimation/processing.py:74-99 | The method builds exactly the metrics table `MetricsTable` of the sequence, whose properties are the lemmas below |
| Processing.MetricsTable | src/B_pose_estimation/processing.py:74-99 | The metrics table: empty without frames, otherwise the per-frame columns with the velocity and symmetry columns added |
| Processing.MetricsTableShape | src/B_pose_estimation/processing.py:89-98 | No frames give an empty table. Otherwise the table has the frame index, the six metric columns, four `vel_ang_` columns and two symmetry columns, and no other column; each has one cell per frame |
| Processing.MetricsRow | src/B_pose_estimation/processing.py:78-87 | Row k has frame index k. Its six metrics are all NaN together, exactly when frame k is missing or has a NaN x; otherwise they are the angles and distances of the frame's own points |
| Processing.MetricsVelocity | src/B_pose_estimation/processing.py:93-95 | Every velocity cell is 0 in the first row and at frame rate 0. It is never negative at a positive frame rate, is the scaled absolute change between two defined consecutive angles, and has no NaN once the angle column has a defined cell |
| Processing.MetricsSymmetry | src/B_pose_estimation/processing.py:97-98 | The symmetry cells of each row are the symmetry of that row's unfilled left and right angles. They are defined exactly when the frame is, and then lie within [0, 1] |
| Processing.VelocityColumnsKeys | src/B_pose_estimation/processing.py:94-95 | The velocity columns are named exactly `vel_ang_` plus each angle column name |
| Processing.VelocityColumnsAt | src/B_pose_estimation/processing.py:93-95 | The velocity column of an angle column is the angular velocity of its filled column |
| Processing.AssembleKeepsBase | src/B_pose_estimation/processing.py:94-98 | Adding the velocity and symmetry columns leaves every per-frame column unchanged |
| Processing.FrameMetricsOfPoints | src/B_pose_estimation/processing.py:82-86 | The metrics of a frame are those of its own points: hip centring does not affect them |
| Analysis3D.FrameTime | src/D_modeling/analysis_3d.py:52 | The time of a frame in seconds, multiplied by the (real) frame rate, gives the frame index |
| Analysis3D.MakeRow | src/D_modeling/analysis_3d.py:42-56 | A row carries its frame index, a time that multiplied by fps gives the frame index, and knee and hip angles within [0, 180] |
| Analysis3D.FrameIndices | src/D_modeling/analysis_3d.py:31-56 | Every frame that yields a row is within the input, has landmarks and does not raise |
| Analysis3D.Calculate3DMetrics | src/D_modeling/analysis_3d.py:21-62 | The frame loop returns exactly `Rows3D`: the rows of the frames with landmarks, or None when processing raises |
| Analysis3D.Rows3DRaisesIff | src/D_modeling/analysis_3d.py:35-52 | Processing raises exactly when some frame with landmarks has fewer than 33 of them, or fps is 0 and some frame has landmarks |
| Analysis3D.Rows3DRowsFromFrames | src/D_modeling/analysis_3d.py:31-56 | Every row is made from its own frame, which has landmarks |
| Analysis3D.Rows3DIncreasing | src/D_modeling/analysis_3d.py:31-51 | The rows are in strictly increasing frame order |
| Analysis3D.Rows3DComplete | src/D_modeling/analysis_3d.py:31-60 | Every frame with landmarks has a row. There are no rows at all exactly when no frame has landmarks |
| Analysis3D.RowsOf | src/D_modeling/analysis_3d.py:50-56 | One row per yielding frame, in the order given, each made by `MakeRow` from its frame |
| Analysis3D.Rows3D | src/D_modeling/analysis_3d.py:21-62 | The result of `calculate_3d_metrics`: None when some frame raises, otherwise the rows of the frames with landmarks |
| Analysis3D.RowsOfAt | src/D_modeling/analysis_3d.py:50-56 | Row k is the row made from the k-th yielding frame |
| Analysis3D.Step | src/D_modeling/analysis_3d.py:85-105 | One row of the hysteresis counter: its phase change, count and depth-fault rule |
| Analysis3D.RunFrom | src/D_modeling/analysis_3d.py:84-105 | The counter state after scanning a run of angles in order from a given state |
| Analysis3D.Run | src/D_modeling/analysis_3d.py:79-105 | The counter state after scanning all angles from up, no repetition, minimum 180 and no fault |
| Analysis3D.RunFromAppend | src/D_modeling/analysis_3d.py:84-105 | Scanning two runs of angles one after the other equals scanning their concatenation |
| Analysis3D.StepTransitions | src/D_modeling/analysis_3d.py:85-105 | Only an up state goes down, exactly on an angle below `down`. Only a down state goes up, exactly on an angle above `up`. Only going up counts, by one, and only it can record a fault, numbered with the new count. While down the minimum becomes the smaller of itself and the angle, and going up records a fault exactly when that minimum is above `depthFail` |
| Analysis3D.StepPreservesInvariant | src/D_modeling/analysis_3d.py:85-105 | One row keeps the scan invariant: a down state's minimum is below `down`; the faults are shallow-depth faults with minima between `depthFail` and `down`, strictly increasing repetition numbers within 1..reps, and no faults when `depthFail` is at least `down` |
| Analysis3D.RunFromInvariant | src/D_modeling/analysis_3d.py:84-105 | Scanning keeps the invariant, never lowers the count, and needs two rows per repetition |
| Analysis3D.RunInvariant | src/D_modeling/analysis_3d.py:79-105 | From the initial state the invariant holds after any rows, and there are at least twice as many rows as repetitions |
| Analysis3D.RunRepsMonotone | src/D_modeling/analysis_3d.py:84-97 | Adding rows never lowers the count |
| Analysis3D.NoFaultsWhenDepthFailAtLeastDown | src/D_modeling/analysis_3d.py:87-105 | When `depthFail` is at least `down`, no fault is ever recorded |
| Analysis3D.ShallowFaultsExact | src/D_modeling/analysis_3d.py:99-105 | Every fault the depth rule gives repetition minima names one of the repetitions, carries its minimum and has it above `depthFail`; every repetition whose minimum is above `depthFail` has its fault |
| Analysis3D.RunFaultsFromMinima | src/D_modeling/analysis_3d.py:79-105 | The counter counts one repetition per minimum of the fault-free repetition scan `RepMinima` and records exactly the faults of those minima: the k-th repetition has a fault, carrying its minimum, exactly when its minimum is above `depthFail` |
| Analysis3D.RepsIndependentOfDepthFail | src/D_modeling/analysis_3d.py:84-105 | The depth threshold decides faults only: every threshold gives the same count |
| Analysis3D.RepMinimaBounds | src/D_modeling/analysis_3d.py:87-93 | Each repetition minimum is one of the scanned angles and lies below `down` |
| Analysis3D.CountReps3DSpec | src/D_modeling/analysis_3d.py:65-108 | The result of `count_reps_3d`: (0, []) for an empty table or no knee column, otherwise the count and faults of scanning the defined knee angles |
| Analysis3D.CountReps3D | src/D_modeling/analysis_3d.py:65-108 | The counter loop returns exactly `CountReps3DSpec`: the count and faults of scanning the defined knee angles in order, and (0, []) for an empty table or no knee column. What that result means is stated by `CountReps3DFaultIff` and `CountReps3DBounds` |
| Analysis3D.CountReps3DGuards | src/D_modeling/analysis_3d.py:72-77 | An empty table, a missing knee column or an all-NaN knee column gives (0, []) |
| Analysis3D.UndefinedRowIgnored | src/D_modeling/analysis_3d.py:75 | Inserting a NaN knee angle anywhere changes neither the count nor the faults |
| Analysis3D.CountReps3DBounds | src/D_modeling/analysis_3d.py:79-108 | At most one repetition per two defined angles; no more faults than repetitions; fault repetition numbers strictly increase within 1..reps, each minimum above `depthFail`; no faults when `depthFail` is at least `down` |
| Analysis3D.CountReps3DFaultIff | src/D_modeling/analysis_3d.py:65-108 | For a non-empty table with the knee column, the count is the number of repetition minima of the defined knee angles, the k-th repetition has a shallow-depth fault exactly when its lowest angle is above `depthFail`, and every fault is such a repetition's, carrying that angle |
| Analysis3D.TwoRepsVector | tests/test_count_reps.py:16-21 | The two-repetition sequence with thresholds 90/160 counts 2 |
| Analysis3D.NeverDownVector | tests/test_count_reps.py:31-32 | A sequence that never drops below 90 counts 0 |
| Analysis3D.NeverUpVector | tests/test_count_reps.py:35-37 | A sequence that drops below 90 but never rises above 160 counts 0 |
| Analysis3D.PartialCycleVector | tests/test_count_reps.py:47-55 | The partial-cycle sequence counts 1 |
| Analysis3D.CustomThresholdsVector | tests/test_count_reps.py:64-69 | With thresholds 100/140 the sequence counts 2 |
| Analysis3D.FaultExamples | src/D_modeling/analysis_3d.py:99-105 | A repetition whose lowest angle is 95 is a shallow-depth fault at threshold 90; one reaching 70 is not |
| CountReps.NoPeaksMeetsContract | src/D_modeling/count_reps.py:45-50 | The assumed peak-finder contract can be met |
| CountReps.Negate | src/D_modeling/count_reps.py:39 | The negated signal has the same length, and each entry is the negated angle |
| CountReps.Valleys | src/D_modeling/count_reps.py:39-50 | The valleys are the peaks `find_peaks` finds in the negated signal, at height `-height_thresh` |
| CountReps.CountRepsByValleys | src/D_modeling/count_reps.py:16-54 | The count is the number of valleys |
| CountReps.ValleysAreLowLocalMinima | src/D_modeling/count_reps.py:39-50 | Every counted valley is an interior local minimum of the angle signal at or below the height threshold, and neighbouring valleys are at least `distance` frames apart |
| CountReps.ValleysSeparated | src/D_modeling/count_reps.py:45-50 | Any two valleys, not only neighbours, are in order and at least `distance` frames apart |
| CountReps.CountBounds | src/D_modeling/count_reps.py:45-54 | A positive count n leaves at least n + 2 samples, and at least 1 + distance * (n - 1) interior samples |
| CountReps.CountRepetitionsFromDf | src/D_modeling/count_reps.py:57-83 | 0 for an empty table, a missing column or a column with no defined angle after filling; otherwise the valley count of the filled column with prominence 10 and distance 15 |
| CountReps.CountFromDfGuards | src/D_modeling/count_reps.py:66-75 | An empty table, a missing column or an all-NaN column counts 0 |
| CountReps.CountFromDfOfFilled | src/D_modeling/count_reps.py:57-83 | Otherwise the count is that of the valleys of the filled column, which keeps the column's length and every defined angle; each counted valley is at or below `low_thresh`, and any two are at least 15 frames apart |

## Left out

- `extract_landmarks_from_frames` (src/B_pose_estimation/processing.py:11-44) runs the pose estimator on video frames. It is I/O and a foreign call, so it is not modelled. Its output enters the model as the raw table `RawTable`.
- The fallback of `analysis_3d.py` when the pose library cannot be imported (lines 12-16 and 25-27) is environment-dependent. The model assumes the library is present.
- `Analysis3D.Calculate3DMetrics`: the `else` branch after the check of the four named landmarks (analysis_3d.py:46-47) is unreachable, because the landmark objects are always truthy. It is not modelled.
- CountReps.CountRepsByValleys: `find_peaks` is a parameter. The model states only its height, local-maximum and distance guarantees. The prominence filter is not modelled, so the count is bounded rather than computed.
- Floating point is modelled as real arithmetic. `math.hypot`, `np.linalg.norm` and the arc cosine in degrees are the fields of a `Libm` value. The proofs assume only `Sound` of it: lengths are non-negative square roots, the arc cosine maps [-1, 1] into [0, 180], and `acos(0)`, `acos(-1)` are 90 and 180 degrees. NaN is `None`. Overflow, rounding and the exact 1e-8 perturbation of the 3D quotient are not modelled.
- Metrics.CalculateAngle: its range contract needs `Sound`, as the range of the library's arc cosine is not part of the model otherwise.
- Metrics.StraightLegs: the straight angle (180 degrees) of three collinear points is proved in two halves. `StraightLegs` shows that the cosine of the two legs is -1, and `AngleFromOppositeDot` shows that a cosine of -1 gives 180 degrees. The two halves are not composed into one lemma about `CalculateAngle`.
- Analysis3D.Fault: the source formats the minimum angle and the threshold into a message string. The model keeps the two numbers.
- `count_reps_from_angles`, the function the repetition tests call, does not exist in `src/D_modeling/count_reps.py`. The test sequences are instead checked against the hysteresis rule of `count_reps_3d`, with the tests' low threshold as `down` and high threshold as `up`. That rule produces the counts the tests expect.
- The visibility filter reads raw columns named `v{i}`. The estimator output elsewhere in the application names them `vis{i}`, which would make the filter drop every sample. The model follows the filter's own reading: a `None` visibility is a missing `v{i}`.
- Processing.FilterByVisibility: a sample with a defined visibility is assumed to have defined x, y and z. The model does not represent a NaN coordinate next to a defined visibility.
- Processing.Positioned: a landmark's position is `Option<Vec3>`, and `None` stands for the NaN x that the metrics loop tests (processing.py:80).
- Processing.WellFormed: every frame that is present must reach the right ankle (index 28), or the source's indexing raises. The filter always produces 33 landmarks.
- The configuration constants (thresholds, `min_confidence`, fps) are parameters. The Python defaults of the optional arguments (`min_confidence=0.5`, `angle_column='rodilla_izq'`) are not modelled: callers pass every argument. The frame rate is a real number, since callers pass rates such as 29.97. Logging is not modelled.

Behaviour that follows the code, where the design text might suggest otherwise:

- The degenerate planar angle (a zero-length leg) is 0 degrees (metrics.py:21). The degenerate 3D angle is 90 degrees (`MathUtils.AngleZeroLeg3D`), because the 3D code adds 1e-8 to the denominator instead of guarding it.
- On going down, the hysteresis counter resets the running minimum to the entering angle (analysis_3d.py:89). The minimum therefore belongs to the current repetition only.
- A landmark with exactly one valid frame is not interpolated. Its single kept sample stays, and all its other frames keep a NaN position (processing.py:61).
- The symmetry columns are computed from the unfilled angles, so they are NaN where the frame is undefined. The velocity columns are computed from the filled angles.
- The symmetry score is not clamped at 0 (`Metrics.SymmetryNotClamped`).
- A column without any defined value stays all NaN after filling. The model counts 0 repetitions for it, which is what `find_peaks` gives on an all-NaN signal.
