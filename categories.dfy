/**
 * `analyze_categories`: for every text (`object`) column, `value_counts()` in
 * descending order, the six most frequent values with their count and share
 * of the rows, and a line for the values not shown.
 */
module Categories {
  import opened Text
  import opened Tables
  import opened Sorting

  /** One entry of `value_counts()`: a value and how many cells hold it. */
  datatype Tally = Tally(value: Cell, count: nat)

  function CountOf(e: Tally): real { e.count as real }

  function TallyOf(cells: seq<Cell>, vs: seq<Cell>): (es: seq<Tally>)
    ensures |es| == |vs|
    ensures forall k :: 0 <= k < |vs| ==> es[k] == Tally(vs[k], Occurrences(cells, vs[k]))
  {
    if vs == [] then [] else [Tally(vs[0], Occurrences(cells, vs[0]))] + TallyOf(cells, vs[1..])
  }

  /** `value_counts()`: the non-missing values with their counts, most frequent first. */
  function ValueCounts(cells: seq<Cell>): seq<Tally>
  {
    SortDesc(TallyOf(cells, Distinct(cells)), CountOf)
  }

  /** How many values `head(6)` keeps. */
  const Head: nat := 6

  /** `f"{value}: {count} ({percentage:.1f}%)"`, the share taken over every row of the table. */
  function ValueLine(e: Tally, rows: nat): Line
  {
    [Shown(e.value), Lit(": " + Decimal(e.count) + " ("), Number(Percent(e.count as real, rows as real), OneDecimal), Lit("%)")]
  }

  function ValueLines(es: seq<Tally>, rows: nat): (lines: seq<Line>)
    ensures |lines| == |es|
    ensures forall k :: 0 <= k < |es| ==> lines[k] == ValueLine(es[k], rows)
  {
    if es == [] then [] else ValueLines(es[..|es| - 1], rows) + [ValueLine(es[|es| - 1], rows)]
  }

  /** `f"... and {len(value_counts) - 6} more unique values"`. */
  function MoreLine(distinct: nat): Line
    requires distinct > 5
  {
    [Lit("... and " + Decimal(distinct - Head) + " more unique values")]
  }

  /** The closing line, written once there are more than five distinct values. */
  function MoreLines(distinct: nat): (lines: seq<Line>)
  {
    if distinct > 5 then [MoreLine(distinct)] else []
  }

  function DistributionTitle(name: string): Line
  {
    [Lit("\nDistribution for " + name + ":")]
  }

  /** The lines written for column `j`. */
  function Distribution(t: Table, j: nat): (lines: seq<Line>)
    requires WellFormed(t) && j < |t.header|
  {
    var counts := ValueCounts(Column(t, j));
    [DistributionTitle(t.header[j])] + ValueLines(Take(counts, Head), |t.rows|) + MoreLines(|counts|)
  }

  /** `select_dtypes(include=['object', 'category']).columns` among the first `n` columns, in order. */
  function ObjectColumnsUpTo(t: Table, n: nat): (cols: seq<nat>)
    requires WellFormed(t) && n <= |t.header|
    ensures forall k :: 0 <= k < |cols| ==> cols[k] < n
    ensures forall k, l :: 0 <= k < l < |cols| ==> cols[k] < cols[l]
    ensures forall j: nat :: j in cols <==> j < n && IsObjectColumn(t, j)
  {
    if n == 0 then []
    else
      var earlier := ObjectColumnsUpTo(t, n - 1);
      if IsObjectColumn(t, n - 1) then earlier + [n - 1] else earlier
  }

  /** The distributions of the listed columns, one after the other. */
  function Distributions(t: Table, cols: seq<nat>): seq<Line>
    requires WellFormed(t)
    requires forall k :: 0 <= k < |cols| ==> cols[k] < |t.header|
  {
    if cols == [] then []
    else Distributions(t, cols[..|cols| - 1]) + Distribution(t, cols[|cols| - 1])
  }

  /** Everything `analyze_categories` appends once the data is loaded. */
  function CategoriesSection(t: Table): seq<Line>
    requires WellFormed(t)
  {
    Distributions(t, ObjectColumnsUpTo(t, |t.header|))
  }

  // ---------------------------------------------------------------------------
  // What `value_counts()` holds

  /** Each entry of the counts is a value of the column with the number of cells holding it. */
  lemma {:induction false} ValueCountsEntry(cells: seq<Cell>, k: nat)
    requires k < |ValueCounts(cells)|
    ensures var e := ValueCounts(cells)[k];
      e.value in cells && !e.value.Missing? && e.count == Occurrences(cells, e.value) && e.count > 0
  {
    var es := TallyOf(cells, Distinct(cells));
    var vc := ValueCounts(cells);
    assert vc[k] in multiset(es);
    var l :| 0 <= l < |es| && es[l] == vc[k];
  }

  /** Every value of the column has an entry in the counts. */
  lemma {:induction false} ValueCountsIndex(cells: seq<Cell>, v: Cell) returns (k: nat)
    requires v in cells && !v.Missing?
    ensures k < |ValueCounts(cells)| && ValueCounts(cells)[k].value == v
  {
    var ds := Distinct(cells);
    var es := TallyOf(cells, ds);
    var vc := ValueCounts(cells);
    var l :| 0 <= l < |ds| && ds[l] == v;
    assert es[l] in multiset(vc);
    k :| 0 <= k < |vc| && vc[k] == es[l];
  }

  /**
   * The counts list every non-missing value once, with the number of cells
   * holding it, most frequent first.
   */
  lemma {:induction false} ValueCountsSpec(cells: seq<Cell>)
    ensures var vc := ValueCounts(cells);
      && NonIncreasing(vc, CountOf)
      && |vc| == |Distinct(cells)|
      && (forall k :: 0 <= k < |vc| ==> vc[k].value in cells && !vc[k].value.Missing? && vc[k].count == Occurrences(cells, vc[k].value))
      && (forall v :: v in cells && !v.Missing? ==> exists k :: 0 <= k < |vc| && vc[k].value == v)
  {
    var vc := ValueCounts(cells);
    forall k | 0 <= k < |vc|
      ensures vc[k].value in cells && !vc[k].value.Missing? && vc[k].count == Occurrences(cells, vc[k].value)
    {
      ValueCountsEntry(cells, k);
    }
    forall v | v in cells && !v.Missing? ensures exists k :: 0 <= k < |vc| && vc[k].value == v {
      var k := ValueCountsIndex(cells, v);
    }
  }

  /**
   * The six values shown are the most frequent ones: a value of the column
   * that is not shown occurs no more often than any value that is.
   */
  lemma {:induction false} ShownAreMostFrequent(cells: seq<Cell>, v: Cell)
    requires v in cells && !v.Missing?
    requires forall k :: 0 <= k < |Take(ValueCounts(cells), Head)| ==> Take(ValueCounts(cells), Head)[k].value != v
    ensures forall k :: 0 <= k < |Take(ValueCounts(cells), Head)| ==>
      Take(ValueCounts(cells), Head)[k].count >= Occurrences(cells, v)
  {
    var vc := ValueCounts(cells);
    var top := Take(vc, Head);
    var l := ValueCountsIndex(cells, v);
    ValueCountsEntry(cells, l);
    assert l >= |top|;
    forall k | 0 <= k < |top| ensures top[k].count >= Occurrences(cells, v) {
      TakeKeepsLargest(vc, CountOf, Head, k, l);
    }
  }

  /** The counts have one entry per distinct non-missing value. */
  lemma ValueCountsLength(cells: seq<Cell>)
    ensures |ValueCounts(cells)| == |Distinct(cells)|
  {
    assert |TallyOf(cells, Distinct(cells))| == |Distinct(cells)|;
  }

  /**
   * A column's section is its title, one line for each of the first six
   * entries of the counts (which `ValueCountsSpec` orders by count), and a
   * closing line exactly when there are more than five distinct values,
   * reporting that number less six.
   */
  lemma {:induction false} DistributionShape(t: Table, j: nat)
    requires WellFormed(t) && j < |t.header|
    ensures var lines := Distribution(t, j);
      var vc := ValueCounts(Column(t, j));
      var shown := |Take(vc, Head)|;
      && shown == (if |vc| < Head then |vc| else Head)
      && |lines| == 1 + shown + (if |vc| > 5 then 1 else 0)
      && lines[0] == DistributionTitle(t.header[j])
      && (forall k :: 0 <= k < shown ==> lines[k + 1] == ValueLine(vc[k], |t.rows|))
      && (|vc| > 5 ==> lines[|lines| - 1] == MoreLine(|vc|))
  {
    SectionShape(DistributionTitle(t.header[j]), ValueCounts(Column(t, j)), |t.rows|, Distribution(t, j));
  }

  /** A title, the lines of the first six entries, and the closing line when there are more than five. */
  lemma SectionShape(title: Line, vc: seq<Tally>, rows: nat, lines: seq<Line>)
    requires lines == [title] + ValueLines(Take(vc, Head), rows) + MoreLines(|vc|)
    ensures |lines| == 1 + |Take(vc, Head)| + (if |vc| > 5 then 1 else 0)
    ensures lines[0] == title
    ensures forall k :: 0 <= k < |Take(vc, Head)| ==> lines[k + 1] == ValueLine(vc[k], rows)
    ensures |vc| > 5 ==> lines[|lines| - 1] == MoreLine(|vc|)
  {
    var top := Take(vc, Head);
    var values := ValueLines(top, rows);
    var more := MoreLines(|vc|);
    assert |more| == if |vc| > 5 then 1 else 0;
    forall k | 0 <= k < |top| ensures lines[k + 1] == ValueLine(vc[k], rows) {
      assert lines[k + 1] == values[k];
      assert top[k] == vc[k];
    }
    if |vc| > 5 {
      assert lines[|lines| - 1] == more[0];
    }
  }

  /** With exactly six distinct values the closing line reports zero more values. */
  lemma {:induction false} SixDistinct(t: Table, j: nat)
    requires WellFormed(t) && j < |t.header| && |Distinct(Column(t, j))| == 6
    ensures var lines := Distribution(t, j);
      |lines| == 8 && lines[7] == [Lit("... and 0 more unique values")]
  {
    DistributionShape(t, j);
    ValueCountsLength(Column(t, j));
    ZeroMore();
  }

  /** The closing line for six distinct values, spelled out. */
  lemma ZeroMore()
    ensures MoreLine(6) == [Lit("... and 0 more unique values")]
  {
    assert Decimal(6 - Head) == "0";
    assert "... and " + "0" + " more unique values" == "... and 0 more unique values";
  }

  /** The share of each shown value is a percentage of the rows: above 0 and at most 100. */
  lemma {:induction false} ValueShareBounds(cells: seq<Cell>, e: Tally)
    requires e in ValueCounts(cells)
    ensures var p := Percent(e.count as real, |cells| as real); p.Finite? && 0.0 < p.v <= 100.0
  {
    var vc := ValueCounts(cells);
    var k :| 0 <= k < |vc| && vc[k] == e;
    ValueCountsEntry(cells, k);
    PercentBounds(e.count as real, |cells| as real);
  }

  /** Writing the line of one more shown value. */
  lemma ValueLinesStep(es: seq<Tally>, m: nat, rows: nat)
    requires m < |es|
    ensures ValueLines(es[..m + 1], rows) == ValueLines(es[..m], rows) + [ValueLine(es[m], rows)]
  {
    assert es[..m + 1][..m] == es[..m];
  }

  /** Writing the distribution of one more column. */
  lemma DistributionsStep(t: Table, cols: seq<nat>, k: nat)
    requires WellFormed(t) && k < |cols|
    requires forall i :: 0 <= i < |cols| ==> cols[i] < |t.header|
    ensures Distributions(t, cols[..k + 1]) == Distributions(t, cols[..k]) + Distribution(t, cols[k])
  {
    assert cols[..k + 1][..k] == cols[..k];
  }

  /** The loop of `analyze_categories`: each text column, then its six most frequent values. */
  method CollectDistributions(t: Table) returns (lines: seq<Line>)
    requires WellFormed(t)
    ensures lines == CategoriesSection(t)
  {
    var cols := ObjectColumnsUpTo(t, |t.header|);
    lines := [];
    var k := 0;
    while k < |cols|
      invariant 0 <= k <= |cols|
      invariant lines == Distributions(t, cols[..k])
    {
      var j := cols[k];
      var counts := ValueCounts(Column(t, j));
      var top := Take(counts, Head);
      var values := [];
      var m := 0;
      while m < |top|
        invariant 0 <= m <= |top|
        invariant values == ValueLines(top[..m], |t.rows|)
      {
        ValueLinesStep(top, m, |t.rows|);
        values := values + [ValueLine(top[m], |t.rows|)];
        m := m + 1;
      }
      assert top[..|top|] == top;
      DistributionsStep(t, cols, k);
      lines := lines + ([DistributionTitle(t.header[j])] + values + MoreLines(|counts|));
      k := k + 1;
    }
    assert cols[..|cols|] == cols;
  }
}
