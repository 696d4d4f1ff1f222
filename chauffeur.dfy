/**
 * `analyze_chauffer_earnings`: `groupby('Chauffer')` with the count, mean and
 * sum of Price per chauffeur, ranked by sum, with the company-wide figures,
 * the top earner and the top three's share of the total.
 *
 * pandas drops the rows whose Chauffer cell is empty from the grouping, and
 * `count`, `mean` and `sum` skip empty Price cells; the model does the same.
 */
module ChaufferEarnings {
  import opened Text
  import opened Tables
  import opened Sorting
  import opened PriceStats

  /** One row as the grouping sees it: its Chauffer cell and its Price cell. */
  datatype Trip = Trip(driver: Cell, price: Cell)

  function Trips(t: Table, c: nat, p: nat): (trips: seq<Trip>)
    requires WellFormed(t) && c < |t.header| && p < |t.header|
    ensures |trips| == |t.rows|
    ensures forall i :: 0 <= i < |trips| ==> trips[i] == Trip(t.rows[i][c], t.rows[i][p])
  {
    seq(|t.rows|, i requires 0 <= i < |t.rows| => Trip(t.rows[i][c], t.rows[i][p]))
  }

  function DriverCells(trips: seq<Trip>): (cells: seq<Cell>)
    ensures |cells| == |trips|
    ensures forall i :: 0 <= i < |trips| ==> cells[i] == trips[i].driver
  {
    seq(|trips|, i requires 0 <= i < |trips| => trips[i].driver)
  }

  /** The group keys: every chauffeur named in some row, once each. */
  function Drivers(trips: seq<Trip>): (ds: seq<Cell>)
    ensures forall d :: d in ds <==> !d.Missing? && exists i :: 0 <= i < |trips| && trips[i].driver == d
    ensures forall k, l :: 0 <= k < l < |ds| ==> ds[k] != ds[l]
  {
    var cells := DriverCells(trips);
    var ds := Distinct(cells);
    assert forall d :: d in cells <==> exists i :: 0 <= i < |trips| && trips[i].driver == d by {
      forall d | d in cells ensures exists i :: 0 <= i < |trips| && trips[i].driver == d {
        var i :| 0 <= i < |cells| && cells[i] == d;
      }
    }
    ds
  }

  /** The prices of chauffeur `d`'s rows that hold a number, in row order. */
  function PricesOf(trips: seq<Trip>, d: Cell): (xs: seq<real>)
  {
    if trips == [] then []
    else
      var last := trips[|trips| - 1];
      PricesOf(trips[..|trips| - 1], d) + if last.driver == d && last.price.Num? then [last.price.x] else []
  }

  /** One row of the aggregated frame: Total_Bookings and Total_Earning for a chauffeur. */
  datatype Earnings = Earnings(driver: Cell, bookings: nat, total: real)

  /** `count` and `sum` of Price over the chauffeur's rows. */
  function Group(trips: seq<Trip>, d: Cell): (e: Earnings)
    ensures e.driver == d
  {
    var xs := PricesOf(trips, d);
    Earnings(d, |xs|, Sum(xs))
  }

  /** Average_Earning: `mean` of the same prices, NaN for a chauffeur without a priced row. */
  function Average(e: Earnings): Float
  {
    Divide(e.total, e.bookings as real)
  }

  function TotalOf(e: Earnings): real { e.total }

  function GroupsOf(trips: seq<Trip>, ds: seq<Cell>): (gs: seq<Earnings>)
    ensures |gs| == |ds|
    ensures forall k :: 0 <= k < |ds| ==> gs[k] == Group(trips, ds[k])
  {
    if ds == [] then [] else [Group(trips, ds[0])] + GroupsOf(trips, ds[1..])
  }

  /** `sort_values('Total_Earning', ascending=False)` of the aggregated frame. */
  function Ranking(trips: seq<Trip>): seq<Earnings>
  {
    SortDesc(GroupsOf(trips, Drivers(trips)), TotalOf)
  }

  const ColumnsMissing: Line := [Lit("\nError: Required columns (Chauffer or Price) not found in the dataset.")]
  const EarningsTitle: Line := [Lit("\nChauffer Earnings Analysis:")]
  const PerformanceTitle: Line := [Lit("\nIndividual Chauffer Performance:")]
  const TotalCaption: string := "Total Company Earnings: $"
  const AverageCaption: string := "Average Earnings per Chauffer: $"
  const TopCaption: string := "Top earning chauffer: "

  /** The four lines written for one chauffeur. */
  function Block(e: Earnings): (lines: seq<Line>)
    ensures |lines| == 4
  {
    [ [Lit("\nChauffer: "), Shown(e.driver)],
      [Lit("Total Bookings: "), Number(Finite(e.bookings as real), Repr)],
      [Lit("Average Earning per Booking: $"), Number(Average(e), Money)],
      [Lit("Total Earnings: $"), Number(Finite(e.total), Money)] ]
  }

  /** The blocks of the listed chauffeurs, in the listed order. */
  function Blocks(es: seq<Earnings>): (lines: seq<Line>)
    ensures |lines| == 4 * |es|
    ensures forall k, m :: 0 <= k < |es| && 0 <= m < 4 ==> lines[4 * k + m] == Block(es[k])[m]
  {
    if es == [] then []
    else
      var init := Blocks(es[..|es| - 1]);
      var lines := init + Block(es[|es| - 1]);
      assert forall k :: 0 <= k < |es| - 1 ==> es[..|es| - 1][k] == es[k];
      lines
  }

  /** The company total, the average per chauffeur and the five lines that open the section. */
  function Opening(total: real, drivers: nat): (lines: seq<Line>)
    ensures |lines| == 5 && lines[0] == EarningsTitle && lines[4] == PerformanceTitle
  {
    [ EarningsTitle,
      [Lit("\nCompany-wide Statistics:")],
      [Lit(TotalCaption), Number(Finite(total), Money)],
      [Lit(AverageCaption), Number(Divide(total, drivers as real), Money)],
      PerformanceTitle ]
  }

  /** The opening for the ranked chauffeurs. */
  function OpeningOf(ranked: seq<Earnings>): seq<Line>
  {
    Opening(KeySum(ranked, TotalOf), |ranked|)
  }

  /** `chauffer_stats['Total_Earning'].head(3).sum()`. */
  function TopThree(ranked: seq<Earnings>): real
  {
    KeySum(Take(ranked, 3), TotalOf)
  }

  /**
   * The closing lines: the top earner and the top three's share; or, when no
   * chauffeur was grouped, the `IndexError` of `index[0]`, which the step catches.
   */
  function Closing(ranked: seq<Earnings>): (lines: seq<Line>)
    ensures |lines| == if ranked == [] then 1 else 3
  {
    if ranked == [] then [[Lit("\nError analyzing chauffer earnings: "), Error(EmptyIndex)]]
    else
      var top := ranked[0];
      [ [Lit("\nPerformance Insights:")],
        [Lit(TopCaption), Shown(top.driver), Lit(" ($"), Number(Finite(top.total), Money), Lit(")")],
        [Lit("Top 3 chauffers account for "), Number(Percent(TopThree(ranked), KeySum(ranked, TotalOf)), OneDecimal),
         Lit("% of total earnings")] ]
  }

  function EarningsLines(trips: seq<Trip>): seq<Line>
  {
    var ranked := Ranking(trips);
    OpeningOf(ranked) + Blocks(ranked) + Closing(ranked)
  }

  /**
   * The whole step on a loaded table; every failure inside it is caught and
   * becomes one line. A Price column of strings makes the `mean` aggregation
   * raise `TypeError`.
   */
  function EarningsSection(t: Table): (lines: seq<Line>)
    requires WellFormed(t)
    ensures "Chauffer" !in t.header || "Price" !in t.header ==> lines == [ColumnsMissing]
    ensures |lines| >= 1
  {
    match (IndexOf(t.header, "Chauffer"), IndexOf(t.header, "Price"))
    case (Some(c), Some(p)) =>
      if HasText(t, p) then [[Lit("\nError analyzing chauffer earnings: "), Error(NonNumericAggregation)]]
      else EarningsLines(Trips(t, c, p))
    case _ => [ColumnsMissing]
  }

  // ---------------------------------------------------------------------------
  // The ranking

  /** Listing the chauffeurs ranks them by total, and lists each grouped chauffeur with its own figures. */
  lemma {:induction false} RankingSpec(trips: seq<Trip>)
    ensures var r := Ranking(trips);
      && NonIncreasing(r, TotalOf)
      && |r| == |Drivers(trips)|
      && (forall k :: 0 <= k < |r| ==> r[k] == Group(trips, r[k].driver) && r[k].driver in Drivers(trips))
      && (forall d :: d in Drivers(trips) ==> Group(trips, d) in r)
  {
    var ds := Drivers(trips);
    var gs := GroupsOf(trips, ds);
    var r := Ranking(trips);
    assert multiset(r) == multiset(gs);
    forall k | 0 <= k < |r| ensures r[k] == Group(trips, r[k].driver) && r[k].driver in ds {
      assert r[k] in multiset(gs);
      var l :| 0 <= l < |gs| && gs[l] == r[k];
    }
    forall d | d in ds ensures Group(trips, d) in r {
      var l :| 0 <= l < |ds| && ds[l] == d;
      assert gs[l] in multiset(r);
    }
  }

  /** The reported top earner has the largest total of every chauffeur in the file. */
  lemma {:induction false} TopEarner(trips: seq<Trip>, i: nat)
    requires i < |trips| && !trips[i].driver.Missing?
    ensures var r := Ranking(trips);
      r != [] && r[0].total >= Group(trips, trips[i].driver).total
  {
    var d := trips[i].driver;
    RankingSpec(trips);
    SortDescFirstIsMax(GroupsOf(trips, Drivers(trips)), TotalOf, Group(trips, d));
  }

  // ---------------------------------------------------------------------------
  // The company total is the sum of every price a chauffeur is named for

  /** The numeric prices of the rows whose chauffeur is one of `ds`, in row order. */
  function PricedFor(trips: seq<Trip>, ds: seq<Cell>): seq<real>
  {
    if trips == [] then []
    else
      var last := trips[|trips| - 1];
      PricedFor(trips[..|trips| - 1], ds) + if last.driver in ds && last.price.Num? then [last.price.x] else []
  }

  /** The numeric prices of the rows that name a chauffeur: what the grouping adds up. */
  function AssignedPrices(trips: seq<Trip>): seq<real>
  {
    if trips == [] then []
    else
      var last := trips[|trips| - 1];
      AssignedPrices(trips[..|trips| - 1]) + if !last.driver.Missing? && last.price.Num? then [last.price.x] else []
  }

  lemma {:induction false} SumAppend(xs: seq<real>, ys: seq<real>)
    ensures Sum(xs + ys) == Sum(xs) + Sum(ys)
  {
    if xs != [] {
      assert (xs + ys)[1..] == xs[1..] + ys;
      SumAppend(xs[1..], ys);
    } else {
      assert xs + ys == ys;
    }
  }

  /** What the last row adds to one chauffeur's total. */
  lemma GroupGrows(trips: seq<Trip>, d: Cell)
    requires trips != []
    ensures var last := trips[|trips| - 1];
      Group(trips, d).total
        == Group(trips[..|trips| - 1], d).total + if last.driver == d && last.price.Num? then last.price.x else 0.0
  {
    var last := trips[|trips| - 1];
    SumAppend(PricesOf(trips[..|trips| - 1], d), if last.driver == d && last.price.Num? then [last.price.x] else []);
  }

  /** What the last row adds to the group totals of the distinct chauffeurs `ds`. */
  lemma {:induction false} GroupsGrow(trips: seq<Trip>, ds: seq<Cell>)
    requires trips != []
    requires forall k, l :: 0 <= k < l < |ds| ==> ds[k] != ds[l]
    ensures var last := trips[|trips| - 1];
      KeySum(GroupsOf(trips, ds), TotalOf)
        == KeySum(GroupsOf(trips[..|trips| - 1], ds), TotalOf)
           + if last.driver in ds && last.price.Num? then last.price.x else 0.0
  {
    if ds != [] {
      var init := trips[..|trips| - 1];
      var last := trips[|trips| - 1];
      var d, rest := ds[0], ds[1..];
      var x := if last.price.Num? then last.price.x else 0.0;
      var a, b := Group(trips, d).total, Group(init, d).total;
      var sa, sb := KeySum(GroupsOf(trips, rest), TotalOf), KeySum(GroupsOf(init, rest), TotalOf);
      assert sa == sb + (if last.driver in rest && last.price.Num? then x else 0.0) by {
        assert forall k, l :: 0 <= k < l < |rest| ==> rest[k] == ds[k + 1] && rest[l] == ds[l + 1];
        GroupsGrow(trips, rest);
      }
      assert a == b + (if last.driver == d && last.price.Num? then x else 0.0) by {
        GroupGrows(trips, d);
      }
      assert KeySum(GroupsOf(trips, ds), TotalOf) == a + sa by {
        assert GroupsOf(trips, ds)[1..] == GroupsOf(trips, rest);
      }
      assert KeySum(GroupsOf(init, ds), TotalOf) == b + sb by {
        assert GroupsOf(init, ds)[1..] == GroupsOf(init, rest);
      }
      assert d !in rest by {
        assert forall l :: 0 <= l < |rest| ==> rest[l] == ds[l + 1];
      }
      assert last.driver in ds <==> last.driver == d || last.driver in rest;
    }
  }

  /** The group totals of the distinct chauffeurs `ds` add up to the prices of their rows. */
  lemma {:induction false} GroupsAddUp(trips: seq<Trip>, ds: seq<Cell>)
    requires forall k, l :: 0 <= k < l < |ds| ==> ds[k] != ds[l]
    ensures KeySum(GroupsOf(trips, ds), TotalOf) == Sum(PricedFor(trips, ds))
  {
    if trips == [] {
      GroupsEmpty(ds);
    } else {
      var init := trips[..|trips| - 1];
      var last := trips[|trips| - 1];
      GroupsAddUp(init, ds);
      GroupsGrow(trips, ds);
      SumAppend(PricedFor(init, ds), if last.driver in ds && last.price.Num? then [last.price.x] else []);
    }
  }

  lemma {:induction false} GroupsEmpty(ds: seq<Cell>)
    ensures KeySum(GroupsOf([], ds), TotalOf) == 0.0
  {
    if ds != [] {
      assert GroupsOf([], ds)[1..] == GroupsOf([], ds[1..]);
      GroupsEmpty(ds[1..]);
    }
  }

  /** When `ds` names exactly the chauffeurs of the rows, its prices are all the assigned prices. */
  lemma {:induction false} PricedForAll(trips: seq<Trip>, ds: seq<Cell>)
    requires forall d :: d in ds <==> !d.Missing? && exists i :: 0 <= i < |trips| && trips[i].driver == d
    ensures PricedFor(trips, ds) == AssignedPrices(trips)
  {
    if trips != [] {
      var init := trips[..|trips| - 1];
      var last := trips[|trips| - 1];
      forall d ensures d in ds && (exists i :: 0 <= i < |init| && init[i].driver == d) ==> !d.Missing? {
      }
      PricedForCover(init, ds);
      assert last.driver in ds <==> !last.driver.Missing?;
    }
  }

  lemma {:induction false} PricedForCover(trips: seq<Trip>, ds: seq<Cell>)
    requires forall i :: 0 <= i < |trips| && !trips[i].driver.Missing? ==> trips[i].driver in ds
    requires forall d :: d in ds ==> !d.Missing?
    ensures PricedFor(trips, ds) == AssignedPrices(trips)
  {
    if trips != [] {
      var init := trips[..|trips| - 1];
      PricedForCover(init, ds);
    }
  }

  /**
   * Total Company Earnings, the sum of the ranked totals, is the sum of every
   * numeric price on a row that names a chauffeur.
   */
  lemma {:induction false} CompanyTotal(trips: seq<Trip>)
    ensures KeySum(Ranking(trips), TotalOf) == Sum(AssignedPrices(trips))
  {
    var ds := Drivers(trips);
    var groups := GroupsOf(trips, ds);
    forall i | 0 <= i < |trips| && !trips[i].driver.Missing? ensures trips[i].driver in ds {
      assert exists j :: 0 <= j < |trips| && trips[j].driver == trips[i].driver;
    }
    PricedForCover(trips, ds);
    GroupsAddUp(trips, ds);
    SortDescKeySum(groups, TotalOf);
    calc {
      KeySum(Ranking(trips), TotalOf);
      KeySum(groups, TotalOf);
      Sum(PricedFor(trips, ds));
      Sum(AssignedPrices(trips));
    }
  }

  // ---------------------------------------------------------------------------
  // The top three's share

  lemma {:induction false} KeySumAppend(a: seq<Earnings>, b: seq<Earnings>)
    ensures KeySum(a + b, TotalOf) == KeySum(a, TotalOf) + KeySum(b, TotalOf)
  {
    if a != [] {
      assert (a + b)[1..] == a[1..] + b;
      KeySumAppend(a[1..], b);
    } else {
      assert a + b == b;
    }
  }

  lemma {:induction false} KeySumNonNegative(es: seq<Earnings>)
    requires forall k :: 0 <= k < |es| ==> es[k].total >= 0.0
    ensures KeySum(es, TotalOf) >= 0.0
  {
    if es != [] {
      KeySumNonNegative(es[1..]);
    }
  }

  lemma {:induction false} SumNonNegative(xs: seq<real>)
    requires forall k :: 0 <= k < |xs| ==> xs[k] >= 0.0
    ensures Sum(xs) >= 0.0
  {
    if xs != [] {
      SumNonNegative(xs[1..]);
    }
  }

  lemma {:induction false} PricesOfFrom(trips: seq<Trip>, d: Cell, x: real)
    requires x in PricesOf(trips, d)
    ensures exists i :: 0 <= i < |trips| && trips[i].price == Num(x)
  {
    var init := trips[..|trips| - 1];
    if x in PricesOf(init, d) {
      PricesOfFrom(init, d, x);
      var i :| 0 <= i < |init| && init[i].price == Num(x);
      assert trips[i] == init[i];
    }
  }

  /**
   * With no negative price, the top three's share is a percentage of the
   * company total: between 0 and 100.
   */
  lemma {:induction false} TopThreeShare(trips: seq<Trip>)
    requires forall i :: 0 <= i < |trips| && trips[i].price.Num? ==> trips[i].price.x >= 0.0
    requires KeySum(Ranking(trips), TotalOf) > 0.0
    ensures var r := Ranking(trips);
      var p := Percent(TopThree(r), KeySum(r, TotalOf));
      p.Finite? && 0.0 <= p.v <= 100.0
  {
    var r := Ranking(trips);
    RankingNonNegative(trips);
    TakenShare(r);
  }

  /** With no negative price, no chauffeur's total is negative. */
  lemma RankingNonNegative(trips: seq<Trip>)
    requires forall i :: 0 <= i < |trips| && trips[i].price.Num? ==> trips[i].price.x >= 0.0
    ensures forall k :: 0 <= k < |Ranking(trips)| ==> Ranking(trips)[k].total >= 0.0
  {
    var r := Ranking(trips);
    RankingSpec(trips);
    forall k | 0 <= k < |r| ensures r[k].total >= 0.0 {
      var xs := PricesOf(trips, r[k].driver);
      forall l | 0 <= l < |xs| ensures xs[l] >= 0.0 {
        PricesOfFrom(trips, r[k].driver, xs[l]);
      }
      SumNonNegative(xs);
    }
  }

  lemma TakenShare(r: seq<Earnings>)
    requires forall k :: 0 <= k < |r| ==> r[k].total >= 0.0
    requires KeySum(r, TotalOf) > 0.0
    ensures var p := Percent(TopThree(r), KeySum(r, TotalOf));
      p.Finite? && 0.0 <= p.v <= 100.0
  {
    var top := Take(r, 3);
    var rest := r[|top|..];
    assert r == top + rest;
    KeySumAppend(top, rest);
    KeySumNonNegative(top);
    KeySumNonNegative(rest);
    PercentBounds(TopThree(r), KeySum(r, TotalOf));
  }

  /** With at most three chauffeurs, they account for all of a non-zero total. */
  lemma {:induction false} TopThreeAll(trips: seq<Trip>)
    requires |Ranking(trips)| <= 3 && KeySum(Ranking(trips), TotalOf) != 0.0
    ensures Percent(TopThree(Ranking(trips)), KeySum(Ranking(trips), TotalOf)) == Finite(100.0)
  {
    var r := Ranking(trips);
    assert Take(r, 3) == r;
    WholeShare(KeySum(r, TotalOf));
  }

  /** With at most three drivers and a zero total, the share is `0 / 0`, which prints `nan`. */
  lemma {:induction false} TopThreeNoTotal(trips: seq<Trip>)
    requires |Ranking(trips)| <= 3 && KeySum(Ranking(trips), TotalOf) == 0.0
    ensures Percent(TopThree(Ranking(trips)), KeySum(Ranking(trips), TotalOf)) == NaN
  {
    var r := Ranking(trips);
    assert Take(r, 3) == r;
  }

  lemma WholeShare(n: real)
    requires n != 0.0
    ensures Percent(n, n) == Finite(100.0)
  {
    assert n / n == 1.0;
  }

  // ---------------------------------------------------------------------------
  // The section, line by line

  /**
   * The section's opening: the company total is the sum of every price on a
   * row naming a chauffeur, and the average divides it by the number of
   * chauffeurs.
   */
  lemma {:induction false} EarningsTotals(trips: seq<Trip>)
    ensures var r := Ranking(trips);
      var lines := EarningsLines(trips);
      var total := Sum(AssignedPrices(trips));
      && |lines| >= 5
      && lines[2] == [Lit(TotalCaption), Number(Finite(total), Money)]
      && lines[3] == [Lit(AverageCaption), Number(Divide(total, |r| as real), Money)]
  {
    var r := Ranking(trips);
    EarningsOpening(trips);
    CompanyTotal(trips);
    OpeningFigures(KeySum(r, TotalOf), |r|);
  }

  /** The opening's company total and its average over the chauffeurs. */
  lemma OpeningFigures(total: real, drivers: nat)
    ensures Opening(total, drivers)[2] == [Lit(TotalCaption), Number(Finite(total), Money)]
    ensures Opening(total, drivers)[3] == [Lit(AverageCaption), Number(Divide(total, drivers as real), Money)]
  {
  }

  /** The section starts with its opening lines. */
  lemma EarningsOpening(trips: seq<Trip>)
    ensures var lines := EarningsLines(trips);
      |lines| >= 5 && lines[..5] == OpeningOf(Ranking(trips))
  {
    var r := Ranking(trips);
    assert EarningsLines(trips) == OpeningOf(r) + (Blocks(r) + Closing(r));
  }

  /** After the opening come the chauffeurs' blocks, in ranking order. */
  lemma {:induction false} EarningsBlocks(trips: seq<Trip>)
    ensures var r := Ranking(trips);
      var lines := EarningsLines(trips);
      |lines| >= 5 + 4 * |r|
      && forall k, m :: 0 <= k < |r| && 0 <= m < 4 ==> lines[5 + 4 * k + m] == Block(r[k])[m]
  {
    var r := Ranking(trips);
    assert EarningsLines(trips) == OpeningOf(r) + Blocks(r) + Closing(r);
    BlocksWithin(OpeningOf(r), r, Closing(r));
  }

  lemma BlocksWithin(opening: seq<Line>, es: seq<Earnings>, closing: seq<Line>)
    requires |opening| == 5
    ensures var lines := opening + Blocks(es) + closing;
      |lines| >= 5 + 4 * |es|
      && forall k, m :: 0 <= k < |es| && 0 <= m < 4 ==> lines[5 + 4 * k + m] == Block(es[k])[m]
  {
    var blocks := Blocks(es);
    var lines := opening + blocks + closing;
    forall k, m | 0 <= k < |es| && 0 <= m < 4 ensures lines[5 + 4 * k + m] == Block(es[k])[m] {
      assert lines[5 + 4 * k + m] == blocks[4 * k + m];
    }
  }

  /**
   * The section closes with the first-ranked chauffeur as top earner; when no
   * row names a chauffeur, `index[0]` fails instead and its error closes it.
   */
  lemma {:induction false} EarningsClosing(trips: seq<Trip>)
    ensures var r := Ranking(trips);
      var lines := EarningsLines(trips);
      && |lines| == 5 + 4 * |r| + (if r == [] then 1 else 3)
      && (r == [] <==> forall i :: 0 <= i < |trips| ==> trips[i].driver.Missing?)
      && (r == [] ==> lines[5] == [Lit("\nError analyzing chauffer earnings: "), Error(EmptyIndex)])
      && (r != [] ==>
            lines[5 + 4 * |r| + 1] ==
            [Lit(TopCaption), Shown(r[0].driver), Lit(" ($"), Number(Finite(r[0].total), Money), Lit(")")])
      && (r != [] ==>
            lines[5 + 4 * |r| + 2] ==
            [Lit("Top 3 chauffers account for "), Number(Percent(TopThree(r), Sum(AssignedPrices(trips))), OneDecimal),
             Lit("% of total earnings")])
  {
    var r := Ranking(trips);
    var closing := Closing(r);
    var lines := EarningsLines(trips);
    assert lines == OpeningOf(r) + Blocks(r) + closing;
    RankingSpec(trips);
    if r == [] {
      assert lines[5] == closing[0];
    } else {
      assert lines[5 + 4 * |r| + 1] == closing[1];
      assert lines[5 + 4 * |r| + 2] == closing[2];
      assert r[0].driver in Drivers(trips);
      CompanyTotal(trips);
    }
  }

  /** The rows of the worked example: (A, 100), (B, 50), (A, 200). */
  const ExampleTrips: seq<Trip> := [Trip(Str("A"), Num(100.0)), Trip(Str("B"), Num(50.0)), Trip(Str("A"), Num(200.0))]

  lemma ExampleDrivers()
    ensures Drivers(ExampleTrips) == [Str("A"), Str("B")]
  {
    assert DriverCells(ExampleTrips) == [Str("A"), Str("B"), Str("A")];
    ExampleDistinct(Str("A"), Str("B"));
  }

  lemma ExampleDistinct(a: Cell, b: Cell)
    requires !a.Missing? && !b.Missing? && a != b
    ensures Distinct([a, b, a]) == [a, b]
  {
    DistinctPair(a, b);
    DistinctStep([a, b], a);
    assert [a, b] + [a] == [a, b, a];
    assert a in [a, b];
  }

  lemma DistinctPair(a: Cell, b: Cell)
    requires !a.Missing? && !b.Missing? && a != b
    ensures Distinct([a, b]) == [a, b]
  {
    DistinctSingle(a);
    DistinctStep([a], b);
    assert [a] + [b] == [a, b];
    assert b !in [a];
  }

  lemma DistinctSingle(a: Cell)
    requires !a.Missing?
    ensures Distinct([a]) == [a]
  {
    DistinctStep([], a);
    assert [] + [a] == [a];
  }

  lemma DistinctStep(cells: seq<Cell>, c: Cell)
    ensures var d := Distinct(cells);
      Distinct(cells + [c]) == if c.Missing? || c in d then d else d + [c]
  {
    assert (cells + [c])[..|cells|] == cells;
  }

  lemma ExamplePrices()
    ensures PricesOf(ExampleTrips, Str("A")) == [100.0, 200.0]
    ensures PricesOf(ExampleTrips, Str("B")) == [50.0]
  {
    var trips := ExampleTrips;
    assert trips[..1][..0] == [];
    assert trips[..2][..1] == trips[..1];
    assert trips[..|trips| - 1] == trips[..2];
    assert PricesOf(trips[..1], Str("A")) == [100.0];
    assert PricesOf(trips[..2], Str("A")) == [100.0];
    assert PricesOf(trips[..1], Str("B")) == [];
    assert PricesOf(trips[..2], Str("B")) == [50.0];
  }

  lemma ExampleRanking()
    ensures Ranking(ExampleTrips) == [Earnings(Str("A"), 2, 300.0), Earnings(Str("B"), 1, 50.0)]
  {
    var a, b := Str("A"), Str("B");
    ExampleDrivers();
    ExamplePrices();
    assert Sum([100.0, 200.0]) == 300.0 by {
      assert [100.0, 200.0][1..] == [200.0];
    }
    assert Sum([50.0]) == 50.0;
    var ea, eb := Earnings(a, 2, 300.0), Earnings(b, 1, 50.0);
    assert GroupsOf(ExampleTrips, [a, b]) == [ea, eb];
    assert SortDesc([eb], TotalOf) == [eb] by {
      assert [eb][1..] == [];
    }
    assert SortDesc([ea, eb], TotalOf) == [ea, eb] by {
      assert [ea, eb][1..] == [eb];
      assert Insert(ea, [eb], TotalOf) == [ea, eb];
    }
  }

  /**
   * The worked example: A has two bookings worth 300 (150 on average) and
   * ranks above B's one booking worth 50; the company total is 350 and the
   * top three hold all of it.
   */
  lemma Example()
    ensures var r := Ranking(ExampleTrips);
      && r == [Earnings(Str("A"), 2, 300.0), Earnings(Str("B"), 1, 50.0)]
      && Average(r[0]) == Finite(150.0) && Average(r[1]) == Finite(50.0)
      && KeySum(r, TotalOf) == 350.0
      && Percent(TopThree(r), KeySum(r, TotalOf)) == Finite(100.0)
  {
    ExampleRanking();
    ExampleFigures();
  }

  lemma ExampleFigures()
    ensures var r := [Earnings(Str("A"), 2, 300.0), Earnings(Str("B"), 1, 50.0)];
      && Average(r[0]) == Finite(150.0) && Average(r[1]) == Finite(50.0)
      && KeySum(r, TotalOf) == 350.0
      && Percent(TopThree(r), KeySum(r, TotalOf)) == Finite(100.0)
  {
    var r := [Earnings(Str("A"), 2, 300.0), Earnings(Str("B"), 1, 50.0)];
    assert KeySum(r, TotalOf) == 350.0 by {
      assert r[1..][1..] == [];
    }
    assert Take(r, 3) == r;
    WholeShare(350.0);
  }

  /** Writing the block of one more chauffeur. */
  lemma BlocksStep(es: seq<Earnings>, k: nat)
    requires k < |es|
    ensures Blocks(es[..k + 1]) == Blocks(es[..k]) + Block(es[k])
  {
    assert es[..k + 1][..k] == es[..k];
  }

  /** The step's lines, the chauffeurs' blocks written one by one in ranking order. */
  method CollectEarnings(t: Table) returns (lines: seq<Line>)
    requires WellFormed(t)
    ensures lines == EarningsSection(t)
  {
    var c := IndexOf(t.header, "Chauffer");
    var p := IndexOf(t.header, "Price");
    if c.None? || p.None? {
      return [ColumnsMissing];
    }
    if HasText(t, p.value) {
      return [[Lit("\nError analyzing chauffer earnings: "), Error(NonNumericAggregation)]];
    }
    var ranked := Ranking(Trips(t, c.value, p.value));
    var blocks := [];
    var k := 0;
    while k < |ranked|
      invariant 0 <= k <= |ranked|
      invariant blocks == Blocks(ranked[..k])
    {
      BlocksStep(ranked, k);
      blocks := blocks + Block(ranked[k]);
      k := k + 1;
    }
    assert ranked[..|ranked|] == ranked;
    lines := OpeningOf(ranked) + blocks + Closing(ranked);
  }
}
