/**
 * `check_missing_values`: `df.isnull().sum()` per column, and the section of
 * the summary that reports the columns with at least one missing cell.
 */
module MissingValues {
  import opened Text
  import opened Tables

  /** `df.isnull().sum()[j]`. */
  function MissingCount(t: Table, j: nat): (n: nat)
    requires WellFormed(t) && j < |t.header|
    ensures n <= |t.rows|
  {
    Occurrences(Column(t, j), Missing)
  }

  /** A column counts no missing cell exactly when none of its cells is missing. */
  lemma MissingCountZero(t: Table, j: nat)
    requires WellFormed(t) && j < |t.header|
    ensures MissingCount(t, j) == 0 <==> forall i :: 0 <= i < |t.rows| ==> !t.rows[i][j].Missing?
  {
    var c := Column(t, j);
    assert Missing in c <==> exists i :: 0 <= i < |t.rows| && t.rows[i][j] == Missing;
  }

  /** `missing.any()`: some cell of the table is missing. */
  predicate AnyMissing(t: Table)
    requires WellFormed(t)
  {
    exists j :: 0 <= j < |t.header| && MissingCount(t, j) > 0
  }

  const MissingTitle: Line := [Lit("\nMissing Values Analysis:")]

  /** `f"{col}: {count} missing values ({percentage:.1f}%)"`. */
  function MissingLine(t: Table, j: nat): Line
    requires WellFormed(t) && j < |t.header|
  {
    var n := MissingCount(t, j);
    [ Lit(t.header[j] + ": " + Decimal(n) + " missing values ("),
      Number(Percent(n as real, |t.rows| as real), OneDecimal),
      Lit("%)") ]
  }

  /** `missing > 0`: which columns have a missing cell, in header order. */
  function MissingFlags(t: Table): (marks: seq<bool>)
    requires WellFormed(t)
    ensures |marks| == |t.header|
    ensures forall j :: 0 <= j < |marks| ==> marks[j] == (MissingCount(t, j) > 0)
  {
    seq(|t.header|, j requires 0 <= j < |t.header| => MissingCount(t, j) > 0)
  }

  /** `missing[missing > 0].index`: the columns with a missing cell. */
  function MissingColumns(t: Table): (cols: seq<nat>)
    requires WellFormed(t)
    ensures forall k :: 0 <= k < |cols| ==> cols[k] < |t.header|
  {
    Marked(MissingFlags(t))
  }

  /** They are listed in header order, and they are exactly the columns with a missing cell. */
  lemma MissingColumnsSpec(t: Table)
    requires WellFormed(t)
    ensures forall k, l :: 0 <= k < l < |MissingColumns(t)| ==> MissingColumns(t)[k] < MissingColumns(t)[l]
    ensures forall j: nat :: j in MissingColumns(t) <==> j < |t.header| && MissingCount(t, j) > 0
  {
    var marks := MissingFlags(t);
    assert MissingColumns(t) == Marked(marks);
    MarkedOrdered(marks);
    MarkedMembers(marks);
  }

  /** One report line per listed column, in the listed order. */
  function LinesFor(t: Table, cols: seq<nat>): (lines: seq<Line>)
    requires WellFormed(t)
    requires forall k :: 0 <= k < |cols| ==> cols[k] < |t.header|
    ensures |lines| == |cols|
    ensures forall k :: 0 <= k < |cols| ==> lines[k] == MissingLine(t, cols[k])
  {
    if cols == [] then []
    else
      var init := cols[..|cols| - 1];
      assert forall k :: 0 <= k < |init| ==> init[k] == cols[k];
      LinesFor(t, init) + [MissingLine(t, cols[|cols| - 1])]
  }

  /** Everything `check_missing_values` appends once the data is loaded. */
  function MissingSection(t: Table): seq<Line>
    requires WellFormed(t)
  {
    if AnyMissing(t) then [MissingTitle] + LinesFor(t, MissingColumns(t)) else []
  }

  /** The scan is silent exactly when no cell is missing. */
  lemma MissingSectionSilent(t: Table)
    requires WellFormed(t)
    ensures MissingSection(t) == [] <==>
              forall i, j :: 0 <= i < |t.rows| && 0 <= j < |t.header| ==> !t.rows[i][j].Missing?
  {
    if !AnyMissing(t) {
      forall i, j | 0 <= i < |t.rows| && 0 <= j < |t.header| ensures !t.rows[i][j].Missing? {
        assert MissingCount(t, j) == 0;
        MissingCountZero(t, j);
      }
    } else {
      var j :| 0 <= j < |t.header| && MissingCount(t, j) > 0;
      MissingCountZero(t, j);
      var i :| 0 <= i < |t.rows| && t.rows[i][j].Missing?;
    }
  }

  /**
   * Otherwise it is the title, then one line per column with a missing cell;
   * `MissingColumns` lists exactly those columns, in column order.
   */
  lemma MissingSectionLines(t: Table)
    requires WellFormed(t) && AnyMissing(t)
    ensures var s := MissingSection(t); var cols := MissingColumns(t);
      && |s| == 1 + |cols| && s[0] == MissingTitle
      && (forall k :: 1 <= k < |s| ==> s[k] == MissingLine(t, cols[k - 1]))
  {
    var cols := MissingColumns(t);
    var lines := LinesFor(t, cols);
    assert MissingSection(t) == [MissingTitle] + lines;
    Prepended(MissingTitle, lines);
  }

  /** Each reported percentage is the share of rows missing that column: above 0 and at most 100. */
  lemma MissingPercentBounds(t: Table, j: nat)
    requires WellFormed(t) && j < |t.header| && MissingCount(t, j) > 0
    ensures var p := Percent(MissingCount(t, j) as real, |t.rows| as real);
      p.Finite? && p.v * (|t.rows| as real) == 100.0 * (MissingCount(t, j) as real)
      && 0.0 < p.v <= 100.0
  {
    PercentBounds(MissingCount(t, j) as real, |t.rows| as real);
    PercentProduct(MissingCount(t, j) as real, |t.rows| as real);
  }

  lemma Prepended<T>(x: T, s: seq<T>)
    ensures ([x] + s)[0] == x
    ensures forall k :: 1 <= k < 1 + |s| ==> ([x] + s)[k] == s[k - 1]
  {
  }

  /** Writing the report line of one more listed column. */
  lemma LinesForStep(t: Table, cols: seq<nat>, k: nat)
    requires WellFormed(t) && k < |cols|
    requires forall i :: 0 <= i < |cols| ==> cols[i] < |t.header|
    ensures LinesFor(t, cols[..k + 1]) == LinesFor(t, cols[..k]) + [MissingLine(t, cols[k])]
  {
    assert cols[..k + 1][..k] == cols[..k];
  }

  /** The loop of `check_missing_values` over `missing[missing > 0].items()`. */
  method CollectMissing(t: Table) returns (lines: seq<Line>)
    requires WellFormed(t)
    ensures lines == MissingSection(t)
  {
    lines := [];
    if AnyMissing(t) {
      var cols := MissingColumns(t);
      var body := [];
      var k := 0;
      while k < |cols|
        invariant 0 <= k <= |cols|
        invariant body == LinesFor(t, cols[..k])
      {
        LinesForStep(t, cols, k);
        body := body + [MissingLine(t, cols[k])];
        k := k + 1;
      }
      assert cols[..|cols|] == cols;
      lines := [MissingTitle] + body;
    }
  }
}
