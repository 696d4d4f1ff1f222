/**
 * `generate_basic_stats`: what `Series.describe()` reports for the Price
 * column (mean, minimum, maximum, standard deviation, median; every one of
 * them skips empty cells) and the share of rows priced above the mean.
 */
module PriceStats {
  import opened Text
  import opened Tables
  import opened Sorting

  /** The numbers among `cells`, in order: what pandas aggregates once NaN is skipped. */
  function Numbers(cells: seq<Cell>): (xs: seq<real>)
    ensures |xs| <= |cells|
    ensures forall x :: x in xs <==> Num(x) in cells
  {
    if cells == [] then []
    else
      assert cells == [cells[0]] + cells[1..];
      (if cells[0].Num? then [cells[0].x] else []) + Numbers(cells[1..])
  }

  /** Every number is kept as often as it occurs among the cells, so the statistics see each priced row. */
  lemma {:induction false} NumbersCount(cells: seq<Cell>)
    ensures forall x :: multiset(Numbers(cells))[x] == Occurrences(cells, Num(x))
  {
    if cells != [] {
      NumbersCount(cells[1..]);
      forall x ensures multiset(Numbers(cells))[x] == Occurrences(cells, Num(x)) {
        OccurrencesFront(cells, Num(x));
      }
    }
  }

  function Sum(xs: seq<real>): real
  {
    if xs == [] then 0.0 else xs[0] + Sum(xs[1..])
  }

  /** `mean()`: NaN when there is no number to average. */
  function Mean(xs: seq<real>): (m: Float)
    ensures m.Finite? <==> xs != []
  {
    Divide(Sum(xs), |xs| as real)
  }

  /** The mean times the count is the sum. */
  lemma MeanProduct(xs: seq<real>)
    ensures Mean(xs).Finite? ==> Mean(xs).v * (|xs| as real) == Sum(xs)
  {
    DivideProduct(Sum(xs), |xs| as real);
  }

  /** The smallest of the numbers. */
  function Smallest(xs: seq<real>): (r: real)
    requires xs != []
    ensures r in xs && forall x :: x in xs ==> r <= x
  {
    if |xs| == 1 then xs[0]
    else
      var m := Smallest(xs[1..]);
      assert xs == [xs[0]] + xs[1..];
      if xs[0] <= m then xs[0] else m
  }

  /** The largest of the numbers. */
  function Largest(xs: seq<real>): (r: real)
    requires xs != []
    ensures r in xs && forall x :: x in xs ==> x <= r
  {
    if |xs| == 1 then xs[0]
    else
      var m := Largest(xs[1..]);
      assert xs == [xs[0]] + xs[1..];
      if xs[0] >= m then xs[0] else m
  }

  /** `describe()['min']` and `describe()['max']`: NaN for a column without numbers. */
  function Minimum(xs: seq<real>): Float
  {
    if xs == [] then NaN else Finite(Smallest(xs))
  }

  function Maximum(xs: seq<real>): Float
  {
    if xs == [] then NaN else Finite(Largest(xs))
  }

  function SumOfSquares(xs: seq<real>, m: real): real
  {
    if xs == [] then 0.0 else (xs[0] - m) * (xs[0] - m) + SumOfSquares(xs[1..], m)
  }

  /** The sample variance (`ddof=1`) whose square root `describe()['std']` is; NaN below two numbers. */
  function Variance(xs: seq<real>): Float
  {
    if xs == [] then NaN
    else Divide(SumOfSquares(xs, Sum(xs) / (|xs| as real)), (|xs| - 1) as real)
  }

  function Identity(x: real): real { x }

  /** `describe()['50%']`: the middle number, or the mean of the two middle ones. */
  function Median(xs: seq<real>): Float
  {
    if xs == [] then NaN
    else
      var r := SortDesc(xs, Identity);
      var n := |r|;
      if n % 2 == 1 then Finite(r[n / 2]) else Finite((r[n / 2 - 1] + r[n / 2]) / 2.0)
  }

  /** `len(df[df['Price'] > mean])`: a comparison with an empty cell or with a NaN mean is false. */
  function CountAbove(cells: seq<Cell>, m: Float): (n: nat)
    ensures n <= |Numbers(cells)|
    ensures !m.Finite? ==> n == 0
  {
    if cells == [] then 0
    else
      (if cells[0].Num? && m.Finite? && cells[0].x > m.v then 1 else 0) + CountAbove(cells[1..], m)
  }

  const PriceMissing: Line := [Lit("\nError: Price column not found in the dataset.")]
  const PriceTitle: Line := [Lit("\nPrice Analysis:")]

  const AverageCaption: string := "Average Price: $"
  const MinimumCaption: string := "Minimum Price: $"
  const MaximumCaption: string := "Maximum Price: $"
  const StdCaption: string := "Standard Deviation: $"
  const MedianCaption: string := "Median Price: $"
  const DistributionTitle: Line := [Lit("\nPrice Distribution:")]
  const AboveCaption: string := "% of items are above the average price"

  /** The five `describe()` figures of the numbers, one line each. */
  function Described(xs: seq<real>): (lines: seq<Line>)
    ensures |lines| == 5
  {
    [ [Lit(AverageCaption), Number(Mean(xs), Money)],
      [Lit(MinimumCaption), Number(Minimum(xs), Money)],
      [Lit(MaximumCaption), Number(Maximum(xs), Money)],
      [Lit(StdCaption), RootOf(Variance(xs), Money)],
      [Lit(MedianCaption), Number(Median(xs), Money)] ]
  }

  /** The eight lines written for a numeric Price column (`Column(t, j)`). */
  function PriceLines(t: Table, j: nat): (lines: seq<Line>)
    requires WellFormed(t) && j < |t.header| && |t.rows| > 0
    ensures |lines| == 8 && lines[0] == PriceTitle && lines[1..6] == Described(Numbers(Column(t, j)))
  {
    var cells := Column(t, j);
    var xs := Numbers(cells);
    var share := Percent(CountAbove(cells, Mean(xs)) as real, |t.rows| as real);
    [PriceTitle] + Described(xs) + [DistributionTitle, [Number(share, OneDecimal), Lit(AboveCaption)]]
  }

  /**
   * The whole step on a loaded table. Without a Price column it writes one
   * error line and stops. A Price column of strings (or of a file without
   * data rows, which pandas types as strings) has no `mean` in its
   * `describe()`: the section title is written, then the lookup raises.
   */
  function PriceSection(t: Table): (r: Outcome)
    requires WellFormed(t)
    ensures "Price" !in t.header ==> r == Outcome([PriceMissing], false)
    ensures "Price" in t.header ==> r.lines != [] && r.lines[0] == PriceTitle
    ensures r.raised <==> "Price" in t.header && IsObjectColumn(t, IndexOf(t.header, "Price").value)
    ensures r.raised ==> |r.lines| == 1
    ensures "Price" in t.header && !r.raised ==> |r.lines| == 8 && |t.rows| > 0
  {
    match IndexOf(t.header, "Price")
    case None => Outcome([PriceMissing], false)
    case Some(j) =>
      if IsObjectColumn(t, j) then Outcome([PriceTitle], true)
      else Outcome(PriceLines(t, j), false)
  }

  // ---------------------------------------------------------------------------
  // What the reported numbers mean

  /** A bound below every number is below their mean ... */
  lemma MeanAbove(n: real, lo: real, s: real, m: real)
    requires n > 0.0 && n * lo <= s && m * n == s
    ensures lo <= m
  {
    assert n * (lo - m) == n * lo - n * m;
  }

  /** ... and a bound above every number is above it. */
  lemma MeanBelow(n: real, hi: real, s: real, m: real)
    requires n > 0.0 && s <= n * hi && m * n == s
    ensures m <= hi
  {
    assert n * (m - hi) == n * m - n * hi;
  }

  /** Numbers bounded below by `lo` add up to at least `lo` that many times. */
  lemma {:induction false} SumAtLeast(xs: seq<real>, lo: real)
    requires forall x :: x in xs ==> lo <= x
    ensures (|xs| as real) * lo <= Sum(xs)
  {
    if xs != [] {
      var tail := xs[1..];
      assert forall x :: x in tail ==> x in xs;
      SumAtLeast(tail, lo);
      assert (|xs| as real) * lo == (|tail| as real) * lo + lo;
      assert xs[0] in xs;
    }
  }

  /** Numbers bounded above by `hi` add up to at most `hi` that many times. */
  lemma {:induction false} SumAtMost(xs: seq<real>, hi: real)
    requires forall x :: x in xs ==> x <= hi
    ensures Sum(xs) <= (|xs| as real) * hi
  {
    if xs != [] {
      var tail := xs[1..];
      assert forall x :: x in tail ==> x in xs;
      SumAtMost(tail, hi);
      assert (|xs| as real) * hi == (|tail| as real) * hi + hi;
      assert xs[0] in xs;
    }
  }

  /** Numbers all strictly above `m` add up to more than `m` that many times. */
  lemma {:induction false} SumAbove(xs: seq<real>, m: real)
    requires xs != [] && forall x :: x in xs ==> m < x
    ensures (|xs| as real) * m < Sum(xs)
  {
    var tail := xs[1..];
    assert forall x :: x in tail ==> x in xs;
    assert xs[0] in xs;
    if tail != [] {
      SumAbove(tail, m);
      assert (|xs| as real) * m == (|tail| as real) * m + m;
    }
  }

  /** A value that is the numbers' sum divided by their count is at least the smallest of them ... */
  lemma {:induction false} AverageAtLeastSmallest(xs: seq<real>, m: real)
    requires xs != [] && m * (|xs| as real) == Sum(xs)
    ensures Smallest(xs) <= m
  {
    SumAtLeast(xs, Smallest(xs));
    MeanAbove(|xs| as real, Smallest(xs), Sum(xs), m);
  }

  /** ... and at most the largest. */
  lemma {:induction false} AverageAtMostLargest(xs: seq<real>, m: real)
    requires xs != [] && m * (|xs| as real) == Sum(xs)
    ensures m <= Largest(xs)
  {
    SumAtMost(xs, Largest(xs));
    MeanBelow(|xs| as real, Largest(xs), Sum(xs), m);
  }

  /** The mean lies between the smallest and the largest price. */
  lemma {:induction false} MeanWithinRange(xs: seq<real>)
    requires xs != []
    ensures var m := Mean(xs); m.Finite? && Smallest(xs) <= m.v <= Largest(xs)
  {
    MeanProduct(xs);
    AverageAtLeastSmallest(xs, Mean(xs).v);
    AverageAtMostLargest(xs, Mean(xs).v);
  }

  /** Every row counts as above `m` only when every number of the column is above it. */
  lemma {:induction false} AllAbove(cells: seq<Cell>, m: real)
    requires CountAbove(cells, Finite(m)) == |Numbers(cells)|
    ensures forall x :: x in Numbers(cells) ==> m < x
  {
    if cells != [] {
      var rest := cells[1..];
      assert CountAbove(rest, Finite(m)) <= |Numbers(rest)|;
      AllAbove(rest, m);
      if cells[0].Num? {
        assert Numbers(cells) == [cells[0].x] + Numbers(rest);
      } else {
        assert Numbers(cells) == Numbers(rest);
      }
    }
  }

  /** Not every price is above the mean: some number is at most the mean. */
  lemma {:induction false} NotAllAboveMean(cells: seq<Cell>)
    requires Numbers(cells) != []
    ensures CountAbove(cells, Mean(Numbers(cells))) < |Numbers(cells)|
  {
    var xs := Numbers(cells);
    var m := Mean(xs).v;
    MeanProduct(xs);
    SomeAtMost(xs, m);
    if CountAbove(cells, Mean(xs)) == |xs| {
      AllAbove(cells, m);
      assert false;
    }
  }

  /** Some number is at most any value that, times their count, gives their sum. */
  lemma SomeAtMost(xs: seq<real>, m: real)
    requires xs != [] && m * (|xs| as real) == Sum(xs)
    ensures exists x :: x in xs && x <= m
  {
    var n := |xs| as real;
    assert n * m == Sum(xs);
    if forall x :: x in xs ==> m < x {
      SumAbove(xs, m);
      assert false;
    }
  }

  /** The section a numeric Price column gets, line by line. */
  lemma PriceSectionIs(t: Table)
    requires WellFormed(t) && "Price" in t.header && !PriceSection(t).raised
    ensures var j := IndexOf(t.header, "Price").value;
      j < |t.header| && |t.rows| > 0 && PriceSection(t).lines == PriceLines(t, j)
  {
  }

  /**
   * The distribution line of a numeric Price column reports the number of
   * rows priced strictly above the mean, over the row count, times 100; it is
   * below 100, since some price is never above the mean.
   */
  lemma {:induction false} PriceShare(t: Table)
    requires WellFormed(t) && "Price" in t.header
    requires !PriceSection(t).raised
    ensures var j := IndexOf(t.header, "Price").value;
      var cells := Column(t, j);
      var above := CountAbove(cells, Mean(Numbers(cells)));
      var p := PriceSection(t).lines[7][0];
      && p == Number(Percent(above as real, |t.rows| as real), OneDecimal)
      && p.x.Finite? && 0.0 <= p.x.v < 100.0
  {
    PriceSectionIs(t);
    var j := IndexOf(t.header, "Price").value;
    var cells := Column(t, j);
    var xs := Numbers(cells);
    var above := CountAbove(cells, Mean(xs));
    if xs != [] {
      NotAllAboveMean(cells);
    }
    assert above < |t.rows| by {
      assert above <= |xs| <= |cells| == |t.rows|;
      assert xs == [] ==> above == 0;
    }
    PercentBounds(above as real, |t.rows| as real);
  }

  /** The average lies between the minimum and the maximum, and all three are NaN together. */
  lemma {:induction false} PriceExtremes(t: Table)
    requires WellFormed(t) && "Price" in t.header
    requires !PriceSection(t).raised
    ensures var lines := PriceSection(t).lines;
      && lines[1][1].Number? && lines[2][1].Number? && lines[3][1].Number?
      && var mean, lo, hi := lines[1][1].x, lines[2][1].x, lines[3][1].x;
      && (mean.Finite? <==> lo.Finite?) && (lo.Finite? <==> hi.Finite?)
      && (mean.Finite? ==> lo.v <= mean.v <= hi.v)
  {
    PriceSectionIs(t);
    var j := IndexOf(t.header, "Price").value;
    var xs := Numbers(Column(t, j));
    var lines := PriceLines(t, j);
    assert lines[1] == Described(xs)[0] && lines[2] == Described(xs)[1] && lines[3] == Described(xs)[2] by {
      assert lines[1..6] == Described(xs);
    }
    DescribedFigures(xs);
    ExtremesOrdered(xs);
  }

  /** Mean, minimum and maximum of the same numbers: all NaN together, otherwise ordered. */
  lemma ExtremesOrdered(xs: seq<real>)
    ensures var mean, lo, hi := Mean(xs), Minimum(xs), Maximum(xs);
      && (mean.Finite? <==> lo.Finite?) && (lo.Finite? <==> hi.Finite?)
      && (mean.Finite? ==> lo.v <= mean.v <= hi.v)
  {
    if xs != [] {
      MeanWithinRange(xs);
    }
  }

  /** The first three `describe()` lines report the mean, the minimum and the maximum. */
  lemma DescribedFigures(xs: seq<real>)
    ensures var lines := Described(xs);
      && lines[0][1] == Number(Mean(xs), Money)
      && lines[1][1] == Number(Minimum(xs), Money)
      && lines[2][1] == Number(Maximum(xs), Money)
  {
  }
}
