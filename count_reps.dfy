/** Repetition counting by valleys: the angle signal and the height threshold
    are negated so that valleys become peaks, and scipy's `find_peaks` picks
    them. The peak finder is a parameter described by the documented part of
    its contract (height, local maximum, minimal distance); its prominence
    filter is not modelled. */
module CountReps {
  import opened Options
  import opened Tables

  /** `find_peaks(x, height, prominence, distance)`, reduced to the peak indices. */
  type PeakFinder = (seq<real>, real, real, nat) -> seq<nat>

  /** The default prominence and distance of `count_reps_by_valleys`. */
  const DefaultProminence: real := 10.0
  const DefaultDistance: nat := 15

  /** What `find_peaks` promises about the indices ps it returns for signal x,
      height h and distance d: increasing, interior, at least h high, local
      maxima, and neighbouring peaks at least d samples apart. */
  predicate PeaksOk(x: seq<real>, h: real, d: nat, ps: seq<nat>)
  {
    && (forall k :: 0 <= k < |ps| ==> 0 < ps[k] < |x| - 1)
    && (forall k :: 0 <= k < |ps| ==> h <= x[ps[k]])
    && (forall k :: 0 <= k < |ps| ==> x[ps[k] - 1] <= x[ps[k]] && x[ps[k] + 1] <= x[ps[k]])
    && (forall k :: 0 < k < |ps| ==> ps[k - 1] < ps[k] && ps[k - 1] + d <= ps[k])
  }

  ghost predicate MeetsPeakContract(f: PeakFinder)
  {
    forall x, h, prom, d :: PeaksOk(x, h, d, f(x, h, prom, d))
  }

  /** A peak finder that never reports a peak meets the contract, so the
      contract can be met. */
  lemma NoPeaksMeetsContract()
    ensures MeetsPeakContract((x: seq<real>, h: real, prom: real, d: nat) => [])
  {
  }

  function Negate(s: seq<real>): (r: seq<real>)
    ensures |r| == |s| && forall i :: 0 <= i < |s| ==> r[i] == -s[i]
  {
    seq(|s|, i requires 0 <= i < |s| => -s[i])
  }

  /** The valley indices of an angle signal: the peaks of the negated signal
      above the negated threshold. */
  function Valleys(f: PeakFinder, angles: seq<real>, heightThresh: real, prominence: real, distance: nat): seq<nat>
  {
    f(Negate(angles), -heightThresh, prominence, distance)
  }

  /** `count_reps_by_valleys`: the number of valleys. */
  function CountRepsByValleys(f: PeakFinder, angles: seq<real>, heightThresh: real, prominence: real, distance: nat): nat
  {
    |Valleys(f, angles, heightThresh, prominence, distance)|
  }

  /** Every valley is an interior local minimum of the angle signal at or
      below the height threshold, and neighbouring valleys are at least
      `distance` frames apart. */
  lemma ValleysAreLowLocalMinima(f: PeakFinder, angles: seq<real>, heightThresh: real, prominence: real, distance: nat)
    requires MeetsPeakContract(f)
    ensures var vs := Valleys(f, angles, heightThresh, prominence, distance);
            && (forall k :: 0 <= k < |vs| ==> 0 < vs[k] < |angles| - 1)
            && (forall k :: 0 <= k < |vs| ==> angles[vs[k]] <= heightThresh)
            && (forall k :: 0 <= k < |vs| ==>
                  angles[vs[k]] <= angles[vs[k] - 1] && angles[vs[k]] <= angles[vs[k] + 1])
            && (forall k :: 0 < k < |vs| ==> vs[k - 1] < vs[k] && vs[k - 1] + distance <= vs[k])
  {
    var vs := Valleys(f, angles, heightThresh, prominence, distance);
    var neg := Negate(angles);
    assert PeaksOk(neg, -heightThresh, distance, vs);
    forall k | 0 <= k < |vs|
      ensures angles[vs[k]] <= heightThresh
      ensures angles[vs[k]] <= angles[vs[k] - 1] && angles[vs[k]] <= angles[vs[k] + 1]
    {
      assert -heightThresh <= neg[vs[k]];
      assert neg[vs[k] - 1] <= neg[vs[k]] && neg[vs[k] + 1] <= neg[vs[k]];
    }
  }

  /** Indices increasing by at least d between neighbours are at least
      d * (j - i) apart for any i <= j. */
  lemma {:induction false} SpreadOfSeparated(vs: seq<nat>, d: nat, i: int, j: int)
    requires forall k :: 0 < k < |vs| ==> vs[k - 1] < vs[k] && vs[k - 1] + d <= vs[k]
    requires 0 <= i <= j < |vs|
    ensures vs[i] + d * (j - i) <= vs[j]
    ensures vs[i] + (j - i) <= vs[j]
    decreases j - i
  {
    if i < j {
      SpreadOfSeparated(vs, d, i, j - 1);
      assert d * (j - i) == d * (j - 1 - i) + d;
    }
  }

  /** Any two valleys are at least `distance` frames apart. */
  lemma ValleysSeparated(f: PeakFinder, angles: seq<real>, heightThresh: real, prominence: real, distance: nat)
    requires MeetsPeakContract(f)
    ensures var vs := Valleys(f, angles, heightThresh, prominence, distance);
            forall i, j :: 0 <= i < j < |vs| ==> vs[i] < vs[j] && vs[i] + distance <= vs[j]
  {
    var vs := Valleys(f, angles, heightThresh, prominence, distance);
    ValleysAreLowLocalMinima(f, angles, heightThresh, prominence, distance);
    forall i, j | 0 <= i < j < |vs| ensures vs[i] < vs[j] && vs[i] + distance <= vs[j] {
      SpreadOfSeparated(vs, distance, i, j);
      AtLeastOnce(distance, j - i);
    }
  }

  lemma AtLeastOnce(d: nat, n: int)
    requires 1 <= n
    ensures d <= d * n
  {
  }

  /** A positive count is bounded both by the interior length of the signal
      (so it is below the signal's length) and by how many `distance`-spaced
      frames fit in it. */
  lemma CountBounds(f: PeakFinder, angles: seq<real>, heightThresh: real, prominence: real, distance: nat)
    requires MeetsPeakContract(f)
    ensures var n := CountRepsByValleys(f, angles, heightThresh, prominence, distance);
            0 < n ==> n + 2 <= |angles|
    ensures var n := CountRepsByValleys(f, angles, heightThresh, prominence, distance);
            0 < n ==> 1 + distance * (n - 1) <= |angles| - 2
  {
    var vs := Valleys(f, angles, heightThresh, prominence, distance);
    ValleysAreLowLocalMinima(f, angles, heightThresh, prominence, distance);
    var n := |vs|;
    if 0 < n {
      var last := n - 1;
      SpreadOfSeparated(vs, distance, 0, last);
      assert vs[0] + distance * (last - 0) <= vs[last];
      assert 0 < vs[0] && vs[last] < |angles| - 1;
      assert last - 0 == n - 1;
    }
  }

  /** `count_repetitions_from_df`: 0 for an empty table or a missing column;
      otherwise the column is forward- then backward-filled and its valleys
      are counted with `low_thresh` as the height threshold and the default
      prominence and distance. A column with no defined value stays all NaN,
      in which `find_peaks` finds no peak. */
  function CountRepetitionsFromDf(f: PeakFinder, df: Table, angleColumn: string, lowThresh: real): nat
  {
    if IsEmpty(df) || angleColumn !in df.columns then 0
    else
      var angles := Fill(df.columns[angleColumn]);
      if |angles| == 0 || !Defined(angles) then 0
      else CountRepsByValleys(f, DefinedValues(angles), lowThresh, DefaultProminence, DefaultDistance)
  }

  /** The guards: an empty table, a missing column or a column without any
      defined angle counts nothing. */
  lemma CountFromDfGuards(f: PeakFinder, df: Table, angleColumn: string, lowThresh: real)
    ensures IsEmpty(df) ==> CountRepetitionsFromDf(f, df, angleColumn, lowThresh) == 0
    ensures angleColumn !in df.columns ==> CountRepetitionsFromDf(f, df, angleColumn, lowThresh) == 0
    ensures angleColumn in df.columns && Undefined(df.columns[angleColumn]) ==>
              CountRepetitionsFromDf(f, df, angleColumn, lowThresh) == 0
  {
    if angleColumn in df.columns && Undefined(df.columns[angleColumn]) {
      var col := df.columns[angleColumn];
      FillProperties(col);
      if 0 < |col| {
        assert Fill(col)[0].None?;
      }
    }
  }

  /** Otherwise the count is that of the valleys of the filled column, which
      has the column's length, keeps every defined angle and has no gap; each
      counted valley is at or below `low_thresh` and any two are at least 15
      frames apart. */
  lemma CountFromDfOfFilled(f: PeakFinder, df: Table, angleColumn: string, lowThresh: real)
    requires MeetsPeakContract(f)
    requires !IsEmpty(df) && angleColumn in df.columns
    requires exists i :: 0 <= i < |df.columns[angleColumn]| && df.columns[angleColumn][i].Some?
    ensures var col := df.columns[angleColumn];
            var angles := DefinedValues(Fill(col));
            var vs := Valleys(f, angles, lowThresh, DefaultProminence, DefaultDistance);
            && |angles| == |col|
            && (forall i :: 0 <= i < |col| && col[i].Some? ==> angles[i] == col[i].value)
            && CountRepetitionsFromDf(f, df, angleColumn, lowThresh) == |vs|
            && (forall k :: 0 <= k < |vs| ==> angles[vs[k]] <= lowThresh)
            && (forall i, j :: 0 <= i < j < |vs| ==> vs[i] + DefaultDistance <= vs[j])
  {
    var col := df.columns[angleColumn];
    FillProperties(col);
    DefinedValuesOfDefined(Fill(col));
    var angles := DefinedValues(Fill(col));
    ValleysAreLowLocalMinima(f, angles, lowThresh, DefaultProminence, DefaultDistance);
    ValleysSeparated(f, angles, lowThresh, DefaultProminence, DefaultDistance);
  }
}
