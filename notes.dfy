/**
 * `analyze_notes` (web summarizer only): the rows whose Notes cell holds
 * non-blank text, how many there are and their share of the rows, then one
 * block per such row listing every column that has a value.
 */
module NotesDetail {
  import opened Wrappers
  import opened Text
  import opened Tables

  /** `notna() & (str.strip() != '')` for one Notes cell of a text column. */
  predicate HasNote(c: Cell)
  {
    c.Str? && Strip(c.s) != []
  }

  /** `pd.notna(v) and str(v).strip()`: a number always prints as something. */
  predicate Shows(c: Cell)
  {
    !c.Missing? && (c.Str? ==> Strip(c.s) != [])
  }

  /** `notes_mask`: which rows have a note in column `j`. */
  function NoteFlags(t: Table, j: nat): (marks: seq<bool>)
    requires WellFormed(t) && j < |t.header|
    ensures |marks| == |t.rows|
    ensures forall i :: 0 <= i < |marks| ==> marks[i] == HasNote(t.rows[i][j])
  {
    seq(|t.rows|, i requires 0 <= i < |t.rows| => HasNote(t.rows[i][j]))
  }

  /** `df[notes_mask]`: the rows whose column `j` has a note. */
  function NotedRows(t: Table, j: nat): (rows: seq<nat>)
    requires WellFormed(t) && j < |t.header|
    ensures forall k :: 0 <= k < |rows| ==> rows[k] < |t.rows|
  {
    Marked(NoteFlags(t, j))
  }

  /** The noted rows come in table order, and they are exactly the rows with a note. */
  lemma NotedRowsSpec(t: Table, j: nat)
    requires WellFormed(t) && j < |t.header|
    ensures forall k, l :: 0 <= k < l < |NotedRows(t, j)| ==> NotedRows(t, j)[k] < NotedRows(t, j)[l]
    ensures forall i: nat :: i in NotedRows(t, j) <==> i < |t.rows| && HasNote(t.rows[i][j])
  {
    var marks := NoteFlags(t, j);
    assert NotedRows(t, j) == Marked(marks);
    MarkedOrdered(marks);
    MarkedMembers(marks);
  }

  /** Which cells of `row` are shown in a ride block. */
  function ShownFlags(row: seq<Cell>): (marks: seq<bool>)
    ensures |marks| == |row|
    ensures forall c :: 0 <= c < |marks| ==> marks[c] == Shows(row[c])
  {
    seq(|row|, c requires 0 <= c < |row| => Shows(row[c]))
  }

  /** The columns whose cell in `row` is shown, in column order. */
  function ShownColumns(row: seq<Cell>): (cols: seq<nat>)
    ensures forall k :: 0 <= k < |cols| ==> cols[k] < |row|
  {
    Marked(ShownFlags(row))
  }

  /** `f"{column}: {row[column]}"`. */
  function CellLine(name: string, c: Cell): Line
  {
    [Lit(name + ": "), Shown(c)]
  }

  /** One line per listed column of `row`, in the listed order. */
  function CellLines(header: seq<string>, row: seq<Cell>, cols: seq<nat>): (lines: seq<Line>)
    requires |row| == |header|
    requires forall k :: 0 <= k < |cols| ==> cols[k] < |header|
    ensures |lines| == |cols|
    ensures forall k :: 0 <= k < |cols| ==> lines[k] == CellLine(header[cols[k]], row[cols[k]])
  {
    if cols == [] then []
    else CellLines(header, row, cols[..|cols| - 1]) + [CellLine(header[Last(cols)], row[Last(cols)])]
  }

  const NotesMissing: Line := [Lit("\nError: Notes column not found in the dataset.")]
  const NotesTitle: Line := [Lit("\nDetailed Notes Analysis:")]

  /** `"-" * 50`. */
  const Separator: Line := [Lit("--------------------------------------------------")]

  /** `f"\nRide Details ({idx + 1}):"` for the row with index label `i`. */
  function RideTitle(i: nat): Line
  {
    [Lit("\nRide Details (" + Decimal(i + 1) + "):")]
  }

  /** The block written for row `i`: its title, its shown cells, the separator. */
  function RideBlock(t: Table, i: nat): (block: seq<Line>)
    requires WellFormed(t) && i < |t.rows|
    ensures |block| >= 2 && block[0] == RideTitle(i)
  {
    var row := t.rows[i];
    [RideTitle(i)] + CellLines(t.header, row, ShownColumns(row)) + [Separator]
  }

  /** The blocks of the listed rows, one after the other. */
  function RideBlocks(t: Table, rows: seq<nat>): seq<Line>
    requires WellFormed(t)
    requires forall k :: 0 <= k < |rows| ==> rows[k] < |t.rows|
  {
    if rows == [] then []
    else RideBlocks(t, rows[..|rows| - 1]) + RideBlock(t, Last(rows))
  }

  /** `f"Total rides with notes: {len(notes_df)}"`. */
  function CountLine(n: nat): Line
  {
    [Lit("Total rides with notes: " + Decimal(n))]
  }

  /** `f"Percentage of rides with notes: {len(notes_df) / len(df) * 100:.1f}%\n"`. */
  function ShareLine(noted: nat, rows: nat): Line
  {
    [Lit("Percentage of rides with notes: "), Number(Percent(noted as real, rows as real), OneDecimal), Lit("%\n")]
  }

  /**
   * The whole step on a loaded table. A Notes column that is not text (all
   * cells empty, or numbers) has no `.str` accessor, so the filter raises
   * before anything is written; a file without data rows gets its title and
   * count, then the share divides by zero and raises.
   */
  function NotesSection(t: Table): (r: Outcome)
    requires WellFormed(t)
    ensures "Notes" !in t.header ==> r == Outcome([NotesMissing], false)
    ensures "Notes" in t.header && !IsObjectColumn(t, IndexOf(t.header, "Notes").value) ==> r == Outcome([], true)
    ensures r.raised <==> "Notes" in t.header && (|t.rows| == 0 || !IsObjectColumn(t, IndexOf(t.header, "Notes").value))
    ensures "Notes" in t.header && IsObjectColumn(t, IndexOf(t.header, "Notes").value) ==>
      |r.lines| >= 2 && r.lines[0] == NotesTitle
  {
    match IndexOf(t.header, "Notes")
    case None => Outcome([NotesMissing], false)
    case Some(j) =>
      if !IsObjectColumn(t, j) then Outcome([], true)
      else
        var noted := NotedRows(t, j);
        var opening := [NotesTitle, CountLine(|noted|)];
        if |t.rows| == 0 then Outcome(opening, true)
        else Outcome(opening + [ShareLine(|noted|, |t.rows|)] + RideBlocks(t, noted), false)
  }

  // ---------------------------------------------------------------------------
  // What the section says

  /** The filter keeps exactly the text cells that are not blank. */
  lemma HasNoteIff(c: Cell)
    ensures HasNote(c) <==> c.Str? && !IsBlank(c.s)
  {
    if c.Str? {
      StripBlank(c.s);
    }
  }

  /** A cell is listed in a ride block exactly when it is a number or non-blank text. */
  lemma ShowsIff(c: Cell)
    ensures Shows(c) <==> c.Num? || (c.Str? && !IsBlank(c.s))
  {
    if c.Str? {
      StripBlank(c.s);
    }
  }

  /** Different rows get different ride titles: the label identifies the row. */
  lemma RideTitleInjective(i: nat, i': nat)
    requires RideTitle(i) == RideTitle(i')
    ensures i == i'
  {
    var a := "\nRide Details (" + Decimal(i + 1) + "):";
    var b := "\nRide Details (" + Decimal(i' + 1) + "):";
    assert a == b;
    assert |Decimal(i + 1)| == |Decimal(i' + 1)|;
    assert Decimal(i + 1) == a[15..|a| - 2];
    assert Decimal(i' + 1) == b[15..|b| - 2];
    DecimalInjective(i + 1, i' + 1);
  }

  /**
   * A ride block is the row's title (its index plus one), one line per column
   * that has a value, in column order, and the separator.
   */
  lemma {:induction false} RideBlockShape(t: Table, i: nat)
    requires WellFormed(t) && i < |t.rows|
    ensures var block := RideBlock(t, i);
      var cols := ShownColumns(t.rows[i]);
      && |block| == |cols| + 2
      && block[0] == RideTitle(i)
      && block[|block| - 1] == Separator
      && (forall k :: 0 <= k < |cols| ==> block[k + 1] == CellLine(t.header[cols[k]], t.rows[i][cols[k]]))
      && (forall c: nat :: c < |t.header| ==> (c in cols <==> Shows(t.rows[i][c])))
  {
    var row := t.rows[i];
    var cols := ShownColumns(row);
    var marks := ShownFlags(row);
    assert cols == Marked(marks);
    MarkedMembers(marks);
    var cells := CellLines(t.header, row, cols);
    var block := RideBlock(t, i);
    assert block == [RideTitle(i)] + cells + [Separator];
    forall k | 0 <= k < |cols| ensures block[k + 1] == CellLine(t.header[cols[k]], row[cols[k]]) {
      assert block[k + 1] == cells[k];
    }
  }

  /** The blocks written are at least two lines per noted row, and the first one opens with its title. */
  lemma {:induction false} RideBlocksLength(t: Table, rows: seq<nat>)
    requires WellFormed(t)
    requires forall k :: 0 <= k < |rows| ==> rows[k] < |t.rows|
    ensures |RideBlocks(t, rows)| >= 2 * |rows|
    ensures rows != [] ==> RideBlocks(t, rows)[0] == RideTitle(rows[0])
  {
    if rows != [] {
      var init := rows[..|rows| - 1];
      assert forall k :: 0 <= k < |init| ==> init[k] == rows[k];
      RideBlocksLength(t, init);
      var block := RideBlock(t, Last(rows));
      assert RideBlocks(t, rows) == RideBlocks(t, init) + block;
      if init == [] {
        assert Last(rows) == rows[0];
      } else {
        assert RideBlocks(t, init)[0] == RideTitle(rows[0]);
      }
    }
  }

  /** The share of rides with notes is a percentage of the rows. */
  lemma NotesShareBounds(t: Table)
    requires WellFormed(t) && "Notes" in t.header && |t.rows| > 0
    ensures var j := IndexOf(t.header, "Notes").value;
      var p := Percent(|NotedRows(t, j)| as real, |t.rows| as real);
      p.Finite? && 0.0 <= p.v <= 100.0
  {
    var j := IndexOf(t.header, "Notes").value;
    var noted := NotedRows(t, j);
    NotedRowsSpec(t, j);
    NotedCount(noted, |t.rows|);
    PercentBounds(|noted| as real, |t.rows| as real);
  }

  /** An increasing list of indices below `n` has at most `n` entries. */
  lemma {:induction false} NotedCount(rows: seq<nat>, n: nat)
    requires forall k :: 0 <= k < |rows| ==> rows[k] < n
    requires forall k, l :: 0 <= k < l < |rows| ==> rows[k] < rows[l]
    ensures |rows| <= n
  {
    if rows != [] {
      var init := rows[..|rows| - 1];
      NotedCount(init, Last(rows));
    }
  }

  /**
   * On a table with data rows and a text Notes column, the section is the
   * title, the count, the share, then one block per noted row, in table order.
   */
  lemma NotesSectionShape(t: Table)
    requires WellFormed(t) && "Notes" in t.header && |t.rows| > 0
    requires IsObjectColumn(t, IndexOf(t.header, "Notes").value)
    ensures var j := IndexOf(t.header, "Notes").value;
      var noted := NotedRows(t, j);
      var r := NotesSection(t);
      && !r.raised
      && r.lines[..3] == [NotesTitle, CountLine(|noted|), ShareLine(|noted|, |t.rows|)]
      && r.lines[3..] == RideBlocks(t, noted)
      && |r.lines| >= 3 + 2 * |noted|
      && (noted != [] ==> r.lines[3] == RideTitle(noted[0]))
  {
    var j := IndexOf(t.header, "Notes").value;
    var noted := NotedRows(t, j);
    RideBlocksLength(t, noted);
  }

  /** A Notes column whose cells are all empty stops the whole summary, writing nothing. */
  lemma EmptyNotesRaise(t: Table)
    requires WellFormed(t) && "Notes" in t.header && |t.rows| > 0
    requires forall i :: 0 <= i < |t.rows| ==> t.rows[i][IndexOf(t.header, "Notes").value].Missing?
    ensures NotesSection(t) == Outcome([], true)
  {
    var j := IndexOf(t.header, "Notes").value;
    assert !HasText(t, j);
  }

  /** Looking at one more column of a ride's row. */
  lemma CellLinesStep(header: seq<string>, row: seq<Cell>, c: nat)
    requires |row| == |header| && c < |row|
    ensures var marks := ShownFlags(row);
      CellLines(header, row, Marked(marks[..c + 1])) ==
      CellLines(header, row, Marked(marks[..c])) + (if Shows(row[c]) then [CellLine(header[c], row[c])] else [])
  {
    var marks := ShownFlags(row);
    MarkedPrefix(marks, c);
    var cols := Marked(marks[..c]);
    if Shows(row[c]) {
      assert (cols + [c])[..|cols|] == cols;
    }
  }

  /** Writing the block of one more noted row. */
  lemma RideBlocksStep(t: Table, rows: seq<nat>, k: nat)
    requires WellFormed(t) && k < |rows|
    requires forall i :: 0 <= i < |rows| ==> rows[i] < |t.rows|
    ensures RideBlocks(t, rows[..k + 1]) == RideBlocks(t, rows[..k]) + RideBlock(t, rows[k])
  {
    assert rows[..k + 1][..k] == rows[..k];
  }

  /** The lines of one ride block, its columns looked at one by one. */
  method CollectRide(t: Table, i: nat) returns (lines: seq<Line>)
    requires WellFormed(t) && i < |t.rows|
    ensures lines == RideBlock(t, i)
  {
    var row := t.rows[i];
    ghost var marks := ShownFlags(row);
    var cells := [];
    var c := 0;
    while c < |row|
      invariant 0 <= c <= |row|
      invariant cells == CellLines(t.header, row, Marked(marks[..c]))
    {
      CellLinesStep(t.header, row, c);
      if Shows(row[c]) {
        cells := cells + [CellLine(t.header[c], row[c])];
      }
      c := c + 1;
    }
    assert marks[..|row|] == marks;
    lines := [RideTitle(i)] + cells + [Separator];
  }

  /** The step on a loaded table: its lines, and whether it raised after writing them. */
  method CollectNotes(t: Table) returns (r: Outcome)
    requires WellFormed(t)
    ensures r == NotesSection(t)
  {
    var j := IndexOf(t.header, "Notes");
    if j.None? {
      return Outcome([NotesMissing], false);
    }
    if !IsObjectColumn(t, j.value) {
      return Outcome([], true);
    }
    var noted := NotedRows(t, j.value);
    var opening := [NotesTitle, CountLine(|noted|)];
    if |t.rows| == 0 {
      return Outcome(opening, true);
    }
    var blocks := [];
    var k := 0;
    while k < |noted|
      invariant 0 <= k <= |noted|
      invariant blocks == RideBlocks(t, noted[..k])
    {
      var block := CollectRide(t, noted[k]);
      RideBlocksStep(t, noted, k);
      blocks := blocks + block;
      k := k + 1;
    }
    assert noted[..|noted|] == noted;
    return Outcome(opening + [ShareLine(|noted|, |t.rows|)] + blocks, false);
  }
}
