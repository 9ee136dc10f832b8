/** Column lookup by priority: a logical metric name maps to an ordered list
    of candidate column names, and the first candidate present in the table
    is the one returned. */
module GuiUtils {
  import opened Options
  import opened Tables

  /** The logical names and their candidate columns, highest priority first. */
  const MetricsMap: map<string, seq<string>> := map[
    "knee_angle" := ["rodilla_izq", "knee_angle_3d"],
    "hip_angle" := ["cadera_izq", "hip_angle_3d"],
    "frame_index" := ["frame_idx", "frame"],
    "knee_symmetry" := ["sim_rodilla"]
  ]

  /** The candidates of a logical name; an unknown name has none. */
  function Candidates(logicalName: string): seq<string>
  {
    if logicalName in MetricsMap then MetricsMap[logicalName] else []
  }

  /** The first of the candidates that names a column of df: it is a
      candidate present in df, and no earlier candidate is present; None
      exactly when no candidate is present. */
  function FirstPresent(candidates: seq<string>, df: Table): (r: Option<string>)
    ensures r.None? <==> forall k :: 0 <= k < |candidates| ==> candidates[k] !in df.columns
    ensures r.Some? ==> exists k :: 0 <= k < |candidates| && candidates[k] == r.value && r.value in df.columns
                                 && forall j :: 0 <= j < k ==> candidates[j] !in df.columns
  {
    if |candidates| == 0 then None
    else if candidates[0] in df.columns then Some(candidates[0])
    else
      var rest := FirstPresent(candidates[1..], df);
      assert forall k :: 1 <= k < |candidates| ==> candidates[k] == candidates[1..][k - 1];
      rest
  }

  /** `get_first_available_series`: the column of the first present candidate,
      or None. */
  function GetFirstAvailableSeries(df: Table, logicalName: string): (r: Option<Column>)
    ensures r.Some? <==> exists k :: 0 <= k < |Candidates(logicalName)| && Candidates(logicalName)[k] in df.columns
  {
    match FirstPresent(Candidates(logicalName), df)
    case None => None
    case Some(name) => Some(df.columns[name])
  }

  /** An unknown logical name finds nothing, whatever the table holds. */
  lemma UnknownNameFindsNothing(df: Table, logicalName: string)
    requires logicalName !in MetricsMap
    ensures GetFirstAvailableSeries(df, logicalName) == None
  {
  }

  /** Whichever candidate comes first in the list and is present wins, even
      when later candidates are present too. */
  lemma EarlierCandidateWins(df: Table, logicalName: string, k: int)
    requires 0 <= k < |Candidates(logicalName)|
    requires Candidates(logicalName)[k] in df.columns
    requires forall j :: 0 <= j < k ==> Candidates(logicalName)[j] !in df.columns
    ensures GetFirstAvailableSeries(df, logicalName) == Some(df.columns[Candidates(logicalName)[k]])
  {
    var cs := Candidates(logicalName);
    var r := FirstPresent(cs, df);
    var i :| 0 <= i < |cs| && cs[i] == r.value && r.value in df.columns
             && forall j :: 0 <= j < i ==> cs[j] !in df.columns;
    assert i == k;
  }

  /** The left knee angle of the 2D pipeline is preferred over the 3D one. */
  lemma KneeAnglePrefers2D(df: Table)
    requires "rodilla_izq" in df.columns
    ensures GetFirstAvailableSeries(df, "knee_angle") == Some(df.columns["rodilla_izq"])
  {
    EarlierCandidateWins(df, "knee_angle", 0);
  }

  /** `frame_idx` is preferred over `frame`. */
  lemma FrameIndexPrefersFrameIdx(df: Table)
    requires "frame_idx" in df.columns
    ensures GetFirstAvailableSeries(df, "frame_index") == Some(df.columns["frame_idx"])
  {
    EarlierCandidateWins(df, "frame_index", 0);
  }

  /** Without `rodilla_izq`, the 3D knee angle is used when present. */
  lemma KneeAngleFallsBackTo3D(df: Table)
    requires "rodilla_izq" !in df.columns && "knee_angle_3d" in df.columns
    ensures GetFirstAvailableSeries(df, "knee_angle") == Some(df.columns["knee_angle_3d"])
  {
    EarlierCandidateWins(df, "knee_angle", 1);
  }
}
