/** The table operations the core borrows from pandas: a table of numeric
    columns, the `empty` test, `ffill`, `bfill` and `dropna` on one column. */
module Tables {
  import opened Options

  /** One numeric column; `None` is a NaN cell. */
  type Column = seq<Option<real>>

  /** A DataFrame of numeric columns: the columns by name and the row count. */
  datatype Table = Table(columns: map<string, Column>, height: nat)

  /** `df.empty`: true when either axis has length zero. */
  predicate IsEmpty(df: Table)
  {
    df.height == 0 || |df.columns| == 0
  }

  predicate Defined(s: Column)
  {
    forall i :: 0 <= i < |s| ==> s[i].Some?
  }

  predicate Undefined(s: Column)
  {
    forall i :: 0 <= i < |s| ==> s[i].None?
  }

  /** `Series.ffill()`: every undefined cell takes the value of the nearest
      defined cell above it (see FFillAt). */
  function FFill(s: Column): (r: Column)
    ensures |r| == |s|
  {
    if |s| == 0 then []
    else
      var n := |s| - 1;
      var p := FFill(s[..n]);
      p + [if s[n].Some? || n == 0 then s[n] else p[n - 1]]
  }

  /** `Series.bfill()`: every undefined cell takes the value of the nearest
      defined cell below it (see BFillAt). */
  function BFill(s: Column): (r: Column)
    ensures |r| == |s|
  {
    if |s| == 0 then []
    else
      var q := BFill(s[1..]);
      [if s[0].Some? || |q| == 0 then s[0] else q[0]] + q
  }

  /** A forward-filled cell keeps a defined value, is undefined exactly when no
      cell at or above it is defined, and otherwise holds the value of the
      nearest defined cell above it. */
  lemma FFillAt(s: Column, i: int)
    requires 0 <= i < |s|
    ensures s[i].Some? ==> FFill(s)[i] == s[i]
    ensures FFill(s)[i].None? <==> forall j :: 0 <= j <= i ==> s[j].None?
    ensures FFill(s)[i].Some? ==>
              exists j :: 0 <= j <= i && FFill(s)[i] == s[j] && forall k :: j < k <= i ==> s[k].None?
  {
    FFillUndefined(s, i);
    FFillSource(s, i);
  }

  /** A forward-filled cell is undefined exactly when no cell at or above it is. */
  lemma {:induction false} FFillUndefined(s: Column, i: int)
    requires 0 <= i < |s|
    ensures FFill(s)[i].None? <==> forall j :: 0 <= j <= i ==> s[j].None?
  {
    var n := |s| - 1;
    var p := FFill(s[..n]);
    assert FFill(s) == p + [if s[n].Some? || n == 0 then s[n] else p[n - 1]];
    if i < n {
      FFillUndefined(s[..n], i);
      assert FFill(s)[i] == p[i];
      assert forall j :: 0 <= j <= i ==> s[..n][j] == s[j];
    } else if s[n].None? && n > 0 {
      FFillUndefined(s[..n], n - 1);
      assert FFill(s)[i] == p[n - 1];
      assert forall j :: 0 <= j < n ==> s[..n][j] == s[j];
    }
  }

  /** A forward-filled cell that is defined holds the nearest defined cell at
      or above it (itself, when it is defined). */
  lemma {:induction false} FFillSource(s: Column, i: int)
    requires 0 <= i < |s|
    ensures s[i].Some? ==> FFill(s)[i] == s[i]
    ensures FFill(s)[i].Some? ==>
              exists j :: 0 <= j <= i && FFill(s)[i] == s[j] && forall k :: j < k <= i ==> s[k].None?
  {
    var n := |s| - 1;
    var p := FFill(s[..n]);
    assert FFill(s) == p + [if s[n].Some? || n == 0 then s[n] else p[n - 1]];
    if i < n {
      FFillSource(s[..n], i);
      assert FFill(s)[i] == p[i];
      assert forall j :: 0 <= j <= i ==> s[..n][j] == s[j];
    } else if s[n].None? && n > 0 {
      FFillSource(s[..n], n - 1);
      assert FFill(s)[i] == p[n - 1];
      assert forall j :: 0 <= j < n ==> s[..n][j] == s[j];
    }
  }

  /** A backward-filled cell keeps a defined value, is undefined exactly when no
      cell at or below it is defined, and otherwise holds the value of the
      nearest defined cell below it. */
  lemma {:induction false} BFillAt(s: Column, i: int)
    requires 0 <= i < |s|
    ensures s[i].Some? ==> BFill(s)[i] == s[i]
    ensures BFill(s)[i].None? <==> forall j :: i <= j < |s| ==> s[j].None?
    ensures BFill(s)[i].Some? ==>
              exists j :: i <= j < |s| && BFill(s)[i] == s[j] && forall k :: i <= k < j ==> s[k].None?
  {
    var q := BFill(s[1..]);
    assert BFill(s) == [if s[0].Some? || |q| == 0 then s[0] else q[0]] + q;
    if i > 0 {
      BFillAt(s[1..], i - 1);
      assert forall j :: i <= j < |s| ==> s[1..][j - 1] == s[j];
    } else if s[0].None? && |q| > 0 {
      BFillAt(s[1..], 0);
      assert forall j :: 1 <= j < |s| ==> s[1..][j - 1] == s[j];
    }
  }

  /** `ffill().bfill()`, the gap filling the core applies to an angle column. */
  function Fill(s: Column): Column
  {
    BFill(FFill(s))
  }

  /** Filling keeps the length and every defined cell, and removes every gap
      unless the column has no defined cell at all, in which case it is unchanged. */
  lemma FillProperties(s: Column)
    ensures |Fill(s)| == |s|
    ensures forall i :: 0 <= i < |s| && s[i].Some? ==> Fill(s)[i] == s[i]
    ensures (exists i :: 0 <= i < |s| && s[i].Some?) ==> Defined(Fill(s))
    ensures Undefined(s) ==> Fill(s) == s
  {
    var f := FFill(s);
    var r := BFill(f);
    forall t | 0 <= t < |s| && s[t].Some? ensures r[t] == s[t] {
      FFillAt(s, t);
      BFillAt(f, t);
    }
    if i :| 0 <= i < |s| && s[i].Some? {
      forall t | 0 <= t < |s| ensures r[t].Some? {
        if t < i {
          FFillAt(s, i);
          BFillAt(f, t);
        } else {
          FFillAt(s, t);
          BFillAt(f, t);
        }
      }
    }
    if Undefined(s) {
      forall t | 0 <= t < |s| ensures f[t].None? {
        FFillAt(s, t);
      }
      forall t | 0 <= t < |s| ensures r[t] == s[t] {
        BFillAt(f, t);
      }
    }
  }

  /** `dropna()`: the defined values of a column, in order. */
  function DefinedValues(s: Column): (r: seq<real>)
    ensures |r| <= |s|
  {
    if |s| == 0 then []
    else DefinedValues(s[..|s| - 1]) + (if s[|s| - 1].Some? then [s[|s| - 1].value] else [])
  }

  /** Dropping undefined cells distributes over concatenation. */
  lemma {:induction false} DefinedValuesAppend(a: Column, b: Column)
    ensures DefinedValues(a + b) == DefinedValues(a) + DefinedValues(b)
    decreases |b|
  {
    if |b| == 0 {
      assert a + b == a;
    } else {
      var b' := b[..|b| - 1];
      assert (a + b)[..|a + b| - 1] == a + b';
      DefinedValuesAppend(a, b');
    }
  }

  /** On a column without gaps, dropping undefined cells keeps every value in place. */
  lemma {:induction false} DefinedValuesOfDefined(s: Column)
    requires Defined(s)
    ensures |DefinedValues(s)| == |s|
    ensures forall i :: 0 <= i < |s| ==> DefinedValues(s)[i] == s[i].value
  {
    if |s| > 0 {
      DefinedValuesOfDefined(s[..|s| - 1]);
    }
  }

  /** A column with no defined cell drops to nothing. */
  lemma {:induction false} DefinedValuesOfUndefined(s: Column)
    requires Undefined(s)
    ensures DefinedValues(s) == []
  {
    if |s| > 0 {
      DefinedValuesOfUndefined(s[..|s| - 1]);
    }
  }
}
