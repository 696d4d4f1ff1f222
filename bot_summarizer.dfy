/**
 * The stand-alone chatbot's `DataSummarizer`: the same analyses as the web
 * application's, without column standardization and without the notes step.
 * Its steps do not guard against a table that was never loaded: each then
 * fails on `self.df` being `None`, and only the chauffeur step catches that.
 */
module BotSummarizer {
  import opened Wrappers
  import opened Text
  import opened Tables
  import opened MissingValues
  import opened PriceStats
  import opened ChaufferEarnings
  import opened Categories

  /** The three lines `load_data` appends after reading `t` from `path`. */
  function LoadLines(path: string, t: Table): seq<Line>
  {
    [ [Lit("Successfully loaded data from: " + path)],
      [Lit("Dataset contains " + Decimal(|t.rows|) + " total bookings/rides.")],
      [Lit("Columns present: " + Join(t.header, ", ") + "\n")] ]
  }

  /** The four analyses of a loaded table, stopping after a Price step that raises. */
  function Analyses(t: Table): Outcome
    requires WellFormed(t)
  {
    var price := PriceSection(t);
    if price.raised then Outcome(MissingSection(t) + price.lines, true)
    else Outcome(MissingSection(t) + price.lines + EarningsSection(t) + CategoriesSection(t), false)
  }

  /** What the steps after the heading write, and whether one of them raises. */
  function Steps(path: string, read: Option<Table>): (r: Outcome)
    requires read.Some? ==> WellFormed(read.value)
    ensures r.lines != []
  {
    match read
    case None => Outcome([ReadFailed], true)
    case Some(t) =>
      var rest := Analyses(t);
      Outcome(LoadLines(path, t) + rest.lines, rest.raised)
  }

  /** The summary `generate_summary` builds, and whether it raises. */
  function Report(path: string, timestamp: string, read: Option<Table>): Outcome
    requires read.Some? ==> WellFormed(read.value)
  {
    var steps := Steps(path, read);
    Outcome(Heading(timestamp) + steps.lines, steps.raised)
  }

  class DataSummarizer {
    const csvPath: string
    var df: Option<Table>
    var summary: seq<Line>

    ghost predicate Valid()
      reads this
    {
      df.Some? ==> WellFormed(df.value)
    }

    constructor (csvPath: string)
      ensures Valid()
      ensures this.csvPath == csvPath && df == None && summary == []
    {
      this.csvPath := csvPath;
      df := None;
      summary := [];
    }

    /** `load_data`: on a read failure, one error line and the exception goes on. */
    method LoadData(read: Option<Table>) returns (raised: bool)
      requires Valid() && (read.Some? ==> WellFormed(read.value))
      modifies this
      ensures Valid()
      ensures raised <==> read.None?
      ensures read.None? ==> df == old(df) && summary == old(summary) + [ReadFailed]
      ensures read.Some? ==> df == read && summary == old(summary) + LoadLines(csvPath, read.value)
    {
      if read.None? {
        summary := summary + [ReadFailed];
        return true;
      }
      df := read;
      summary := summary + [[Lit("Successfully loaded data from: " + csvPath)]];
      summary := summary + [[Lit("Dataset contains " + Decimal(|read.value.rows|) + " total bookings/rides.")]];
      summary := summary + [[Lit("Columns present: " + Join(read.value.header, ", ") + "\n")]];
      return false;
    }

    /** `check_missing_values`; before loading, `self.df.isnull()` raises. */
    method CheckMissingValues() returns (raised: bool)
      requires Valid()
      modifies this
      ensures Valid() && df == old(df)
      ensures raised <==> df.None?
      ensures df.None? ==> summary == old(summary)
      ensures df.Some? ==> summary == old(summary) + MissingSection(df.value)
    {
      if df.None? {
        return true;
      }
      var lines := CollectMissing(df.value);
      summary := summary + lines;
      return false;
    }

    /**
     * `generate_basic_stats`; before loading, the column check's failure is
     * swallowed and `self.df['Price']` then raises.
     */
    method GenerateBasicStats() returns (raised: bool)
      requires Valid()
      modifies this
      ensures Valid() && df == old(df)
      ensures df.None? ==> summary == old(summary) && raised
      ensures df.Some? ==> summary == old(summary) + PriceSection(df.value).lines
      ensures df.Some? ==> raised == PriceSection(df.value).raised
    {
      if df.None? {
        return true;
      }
      var r := PriceSection(df.value);
      summary := summary + r.lines;
      raised := r.raised;
    }

    /** `analyze_chauffer_earnings`; it catches every failure, a missing table included. */
    method AnalyzeChaufferEarnings()
      requires Valid()
      modifies this
      ensures Valid() && df == old(df)
      ensures df.None? ==> summary == old(summary) + [[Lit("\nError analyzing chauffer earnings: "), Error(NoFrame)]]
      ensures df.Some? ==> summary == old(summary) + EarningsSection(df.value)
    {
      if df.None? {
        summary := summary + [[Lit("\nError analyzing chauffer earnings: "), Error(NoFrame)]];
        return;
      }
      var lines := CollectEarnings(df.value);
      summary := summary + lines;
    }

    /** `analyze_categories`; before loading, `self.df.select_dtypes` raises. */
    method AnalyzeCategories() returns (raised: bool)
      requires Valid()
      modifies this
      ensures Valid() && df == old(df)
      ensures raised <==> df.None?
      ensures df.None? ==> summary == old(summary)
      ensures df.Some? ==> summary == old(summary) + CategoriesSection(df.value)
    {
      if df.None? {
        return true;
      }
      var lines := CollectDistributions(df.value);
      summary := summary + lines;
      return false;
    }

    /**
     * `generate_summary` up to the file write: a fresh summary, then every
     * step in order, stopping at the first that raises.
     */
    method GenerateSummary(timestamp: string, read: Option<Table>) returns (raised: bool)
      requires Valid() && (read.Some? ==> WellFormed(read.value))
      modifies this
      ensures Valid()
      ensures summary == Report(csvPath, timestamp, read).lines
      ensures raised == Report(csvPath, timestamp, read).raised
      ensures read.None? ==> df == old(df)
      ensures read.Some? ==> df == read
    {
      summary := Heading(timestamp);
      raised := LoadData(read);
      if raised {
        return;
      }
      ghost var t := read.value;
      ghost var front := Heading(timestamp) + LoadLines(csvPath, t);
      raised := CheckMissingValues();
      ghost var done := MissingSection(t);
      raised := GenerateBasicStats();
      AppendAssoc(front, done, PriceSection(t).lines);
      done := done + PriceSection(t).lines;
      if raised {
        AppendAssoc(Heading(timestamp), LoadLines(csvPath, t), done);
        return;
      }
      AnalyzeChaufferEarnings();
      AppendAssoc(front, done, EarningsSection(t));
      done := done + EarningsSection(t);
      raised := AnalyzeCategories();
      AppendAssoc(front, done, CategoriesSection(t));
      done := done + CategoriesSection(t);
      AppendAssoc(Heading(timestamp), LoadLines(csvPath, t), done);
    }
  }

  // ---------------------------------------------------------------------------
  // What a summary holds

  /**
   * A run opens with the heading and, once the file is read, the path, the
   * number of rows and the column labels as they are in the file.
   */
  lemma ReportOpening(path: string, timestamp: string, t: Table)
    requires WellFormed(t)
    ensures var r := Report(path, timestamp, Some(t));
      && |r.lines| >= 5
      && r.lines[..2] == Heading(timestamp)
      && r.lines[2..5] == LoadLines(path, t)
  {
    OpensWith(Heading(timestamp), LoadLines(path, t), Analyses(t).lines);
  }

  /** A run raises exactly when the file cannot be read or its Price column is not numeric. */
  lemma ReportRaises(path: string, timestamp: string, read: Option<Table>)
    requires read.Some? ==> WellFormed(read.value)
    ensures Report(path, timestamp, read).raised <==>
      read.None? || ("Price" in read.value.header && IsObjectColumn(read.value, IndexOf(read.value.header, "Price").value))
  {
  }

  /**
   * Without a Price column the run completes, and the two Price steps each
   * write their one error line between the missing values and the
   * distributions.
   */
  lemma ReportWithoutPrice(path: string, timestamp: string, t: Table)
    requires WellFormed(t) && "Price" !in t.header
    ensures var r := Report(path, timestamp, Some(t));
      && !r.raised
      && r.lines == Heading(timestamp) +
           (LoadLines(path, t) + (MissingSection(t) + [PriceMissing] + [ColumnsMissing] + CategoriesSection(t)))
  {
    assert PriceSection(t) == Outcome([PriceMissing], false);
    assert EarningsSection(t) == [ColumnsMissing];
  }
}
