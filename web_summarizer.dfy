/**
 * The web application's `DataSummarizer`: it loads the bookings CSV, asks a
 * language model for standardized column labels, and appends the lines of
 * each analysis to its `summary` list, which `generate_summary` rebuilds from
 * scratch. The file's existence check and `read_csv` are one parameter (the
 * table read, or nothing), the model's answer another, the clock a third.
 */
module WebSummarizer {
  import opened Wrappers
  import opened Text
  import opened Tables
  import opened Sorting
  import opened HeaderParse
  import opened MissingValues
  import opened PriceStats
  import opened ChaufferEarnings
  import opened Categories
  import opened NotesDetail

  const NotLoaded: Line := [Lit("\nWarning: Attempted to generate statistics before loading data.")]
  const StandardizationFailed: Line := [Lit("Column standardization failed - using original column names")]

  /** The table `load_data` leaves behind: relabelled when the answer could be applied. */
  function Standardized(t: Table, completion: Option<string>): (s: Table)
    ensures s.rows == t.rows && |s.header| == |t.header|
    ensures WellFormed(t) ==> WellFormed(s)
    ensures Standardize(t.header, completion).None? ==> s == t
  {
    match Standardize(t.header, completion)
    case Some(labels) => Table(labels, t.rows)
    case None => t
  }

  /** The lines `load_data` appends after reading `t` from `path`. */
  function LoadLines(path: string, t: Table, completion: Option<string>): seq<Line>
  {
    match Standardize(t.header, completion)
    case Some(labels) =>
      [ [Lit("Successfully loaded data from: " + path)],
        [Lit("Dataset contains " + Decimal(|t.rows|) + " total bookings/rides/calls.")],
        [Lit("Columns standardized and present: " + Join(labels, ", ") + "\n")] ]
    case None => [StandardizationFailed]
  }

  /**
   * The five analyses of a loaded table, stopping after a Price step that
   * raises; the Notes step comes last, so its failure ends the run anyway.
   */
  function Analyses(t: Table): Outcome
    requires WellFormed(t)
  {
    var price := PriceSection(t);
    if price.raised then Outcome(MissingSection(t) + price.lines, true)
    else
      var notes := NotesSection(t);
      Outcome(MissingSection(t) + price.lines + EarningsSection(t) + CategoriesSection(t) + notes.lines, notes.raised)
  }

  /** What the steps after the heading write, and whether one of them raises. */
  function Steps(path: string, read: Option<Table>, completion: Option<string>): (r: Outcome)
    requires read.Some? ==> WellFormed(read.value)
    ensures r.lines != []
  {
    match read
    case None => Outcome([ReadFailed], true)
    case Some(raw) =>
      var rest := Analyses(Standardized(raw, completion));
      Outcome(LoadLines(path, raw, completion) + rest.lines, rest.raised)
  }

  /**
   * The summary `generate_summary` builds, and whether it raises: loading
   * failures and the Price and Notes steps can raise, which ends the run.
   */
  function Report(path: string, timestamp: string, read: Option<Table>, completion: Option<string>): Outcome
    requires read.Some? ==> WellFormed(read.value)
  {
    var steps := Steps(path, read, completion);
    Outcome(Heading(timestamp) + steps.lines, steps.raised)
  }

  class DataSummarizer {
    const csvPath: string
    var df: Option<Table>
    var summary: seq<Line>

    ghost predicate Valid()
      reads this
    {
      df.Some? ==> WellFormed(df.value)
    }

    constructor (csvPath: string)
      ensures Valid()
      ensures this.csvPath == csvPath && df == None && summary == []
    {
      this.csvPath := csvPath;
      df := None;
      summary := [];
    }

    /**
     * `load_data`: on a read failure, one error line and the exception goes
     * on; otherwise the table is kept, relabelled if the answer fits, and the
     * outcome of the relabelling is reported.
     */
    method LoadData(read: Option<Table>, completion: Option<string>) returns (raised: bool)
      requires Valid() && (read.Some? ==> WellFormed(read.value))
      modifies this
      ensures Valid()
      ensures raised <==> read.None?
      ensures read.None? ==> df == old(df) && summary == old(summary) + [ReadFailed]
      ensures read.Some? ==> df == Some(Standardized(read.value, completion))
      ensures read.Some? ==> summary == old(summary) + LoadLines(csvPath, read.value, completion)
    {
      if read.None? {
        summary := summary + [ReadFailed];
        return true;
      }
      var t := read.value;
      df := Some(t);
      var labels := Standardize(t.header, completion);
      if labels.Some? {
        df := Some(Table(labels.value, t.rows));
        summary := summary + [[Lit("Successfully loaded data from: " + csvPath)]];
        summary := summary + [[Lit("Dataset contains " + Decimal(|t.rows|) + " total bookings/rides/calls.")]];
        summary := summary + [[Lit("Columns standardized and present: " + Join(labels.value, ", ") + "\n")]];
      } else {
        summary := summary + [StandardizationFailed];
      }
      return false;
    }

    /** `check_missing_values`. */
    method CheckMissingValues()
      requires Valid()
      modifies this
      ensures Valid() && df == old(df)
      ensures df.None? ==> summary == old(summary) + [NotLoaded]
      ensures df.Some? ==> summary == old(summary) + MissingSection(df.value)
    {
      if df.None? {
        summary := summary + [NotLoaded];
        return;
      }
      var lines := CollectMissing(df.value);
      summary := summary + lines;
    }

    /** `generate_basic_stats`. */
    method GenerateBasicStats() returns (raised: bool)
      requires Valid()
      modifies this
      ensures Valid() && df == old(df)
      ensures df.None? ==> summary == old(summary) + [NotLoaded] && !raised
      ensures df.Some? ==> summary == old(summary) + PriceSection(df.value).lines
      ensures df.Some? ==> raised == PriceSection(df.value).raised
    {
      if df.None? {
        summary := summary + [NotLoaded];
        return false;
      }
      var r := PriceSection(df.value);
      summary := summary + r.lines;
      raised := r.raised;
    }

    /** `analyze_chauffer_earnings`. */
    method AnalyzeChaufferEarnings()
      requires Valid()
      modifies this
      ensures Valid() && df == old(df)
      ensures df.None? ==> summary == old(summary) + [NotLoaded]
      ensures df.Some? ==> summary == old(summary) + EarningsSection(df.value)
    {
      if df.None? {
        summary := summary + [NotLoaded];
        return;
      }
      var lines := CollectEarnings(df.value);
      summary := summary + lines;
    }

    /** `analyze_categories`. */
    method AnalyzeCategories()
      requires Valid()
      modifies this
      ensures Valid() && df == old(df)
      ensures df.None? ==> summary == old(summary) + [NotLoaded]
      ensures df.Some? ==> summary == old(summary) + CategoriesSection(df.value)
    {
      if df.None? {
        summary := summary + [NotLoaded];
        return;
      }
      var lines := CollectDistributions(df.value);
      summary := summary + lines;
    }

    /** `analyze_notes`: the lines it writes stay in the summary even when it then raises. */
    method AnalyzeNotes() returns (raised: bool)
      requires Valid()
      modifies this
      ensures Valid() && df == old(df)
      ensures df.None? ==> summary == old(summary) + [NotLoaded] && !raised
      ensures df.Some? ==> summary == old(summary) + NotesSection(df.value).lines
      ensures df.Some? ==> raised == NotesSection(df.value).raised
    {
      if df.None? {
        summary := summary + [NotLoaded];
        return false;
      }
      var r := CollectNotes(df.value);
      summary := summary + r.lines;
      raised := r.raised;
    }

    /**
     * `generate_summary` up to the file write: a fresh summary, then every
     * step in order, stopping at the first that raises.
     */
    method GenerateSummary(timestamp: string, read: Option<Table>, completion: Option<string>) returns (raised: bool)
      requires Valid() && (read.Some? ==> WellFormed(read.value))
      modifies this
      ensures Valid()
      ensures summary == Report(csvPath, timestamp, read, completion).lines
      ensures raised == Report(csvPath, timestamp, read, completion).raised
      ensures read.None? ==> df == old(df)
      ensures read.Some? ==> df == Some(Standardized(read.value, completion))
    {
      summary := Heading(timestamp);
      raised := LoadData(read, completion);
      if raised {
        return;
      }
      ghost var t := Standardized(read.value, completion);
      ghost var loaded := LoadLines(csvPath, read.value, completion);
      ghost var front := Heading(timestamp) + loaded;
      CheckMissingValues();
      ghost var done := MissingSection(t);
      raised := GenerateBasicStats();
      AppendAssoc(front, done, PriceSection(t).lines);
      done := done + PriceSection(t).lines;
      if raised {
        AppendAssoc(Heading(timestamp), loaded, done);
        return;
      }
      AnalyzeChaufferEarnings();
      AppendAssoc(front, done, EarningsSection(t));
      done := done + EarningsSection(t);
      AnalyzeCategories();
      AppendAssoc(front, done, CategoriesSection(t));
      done := done + CategoriesSection(t);
      raised := AnalyzeNotes();
      AppendAssoc(front, done, NotesSection(t).lines);
      done := done + NotesSection(t).lines;
      AppendAssoc(Heading(timestamp), loaded, done);
    }
  }

  // ---------------------------------------------------------------------------
  // What a summary holds

  /** Every summary opens with its title and the time it was generated. */
  lemma ReportHeading(path: string, timestamp: string, read: Option<Table>, completion: Option<string>)
    requires read.Some? ==> WellFormed(read.value)
    ensures var r := Report(path, timestamp, read, completion);
      |r.lines| >= 3
      && r.lines[0] == [Lit("Data Analysis Summary")]
      && r.lines[1] == [Lit("Generated on: " + timestamp + "\n")]
  {
  }

  /** A file that cannot be read leaves the heading and one error line, and the run raises. */
  lemma ReportUnreadable(path: string, timestamp: string, completion: Option<string>)
    ensures Report(path, timestamp, None, completion) == Outcome(Heading(timestamp) + [ReadFailed], true)
  {
  }

  /**
   * Without a usable answer from the model the original labels stay, and the
   * third line says so.
   */
  lemma ReportFallback(path: string, timestamp: string, raw: Table, completion: Option<string>)
    requires WellFormed(raw) && Standardize(raw.header, completion).None?
    ensures Report(path, timestamp, Some(raw), completion).lines[2] == StandardizationFailed
  {
    var rest := Analyses(Standardized(raw, completion));
    OpensWith(Heading(timestamp), [StandardizationFailed], rest.lines);
  }

  /**
   * A run raises exactly when the file cannot be read, when the Price column
   * is not numeric, or when the Notes column exists but is not text or the
   * file has no data row.
   */
  lemma ReportRaises(path: string, timestamp: string, read: Option<Table>, completion: Option<string>)
    requires read.Some? ==> WellFormed(read.value)
    ensures Report(path, timestamp, read, completion).raised <==>
      || read.None?
      || (var t := Standardized(read.value, completion);
          || ("Price" in t.header && IsObjectColumn(t, IndexOf(t.header, "Price").value))
          || ("Notes" in t.header && (|t.rows| == 0 || !IsObjectColumn(t, IndexOf(t.header, "Notes").value))))
  {
  }

  /** A file without data rows never completes once it has a Price or Notes column. */
  lemma EmptyFileRaises(path: string, timestamp: string, raw: Table, completion: Option<string>)
    requires WellFormed(raw) && |raw.rows| == 0
    requires "Price" in Standardized(raw, completion).header || "Notes" in Standardized(raw, completion).header
    ensures Report(path, timestamp, Some(raw), completion).raised
  {
    ReportRaises(path, timestamp, Some(raw), completion);
  }

  /**
   * Missing columns do not stop the run: with neither Price, Chauffer nor
   * Notes, every step writes its own error line and the run completes.
   */
  lemma ReportWithoutColumns(path: string, timestamp: string, raw: Table, completion: Option<string>)
    requires WellFormed(raw)
    requires var t := Standardized(raw, completion);
      "Price" !in t.header && "Chauffer" !in t.header && "Notes" !in t.header
    ensures var t := Standardized(raw, completion);
      var r := Report(path, timestamp, Some(raw), completion);
      && !r.raised
      && r.lines == Heading(timestamp) + (LoadLines(path, raw, completion) +
           (MissingSection(t) + [PriceMissing] + [ColumnsMissing] + CategoriesSection(t) + [NotesMissing]))
  {
    var t := Standardized(raw, completion);
    assert PriceSection(t) == Outcome([PriceMissing], false);
    assert EarningsSection(t) == [ColumnsMissing];
    assert NotesSection(t) == Outcome([NotesMissing], false);
  }
}
