/**
 * The in-memory table pandas builds from the bookings CSV, the numbers its
 * statistics produce, and the pieces a summary line is made of.
 */
module Tables {
  import opened Wrappers
  import opened Text

  /** One cell as `read_csv` gives it: an empty field (NaN), a string, or a number. */
  datatype Cell = Missing | Str(s: string) | Num(x: real)

  /** A header of column labels and rows of cells, in file order. */
  datatype Table = Table(header: seq<string>, rows: seq<seq<Cell>>)

  /**
   * What `read_csv` produces: every row has one cell per label, and no column
   * holds both strings and numbers (a column is parsed as numbers only when
   * every non-empty field of it is one; otherwise every field stays a string).
   */
  predicate WellFormed(t: Table)
  {
    && (forall i :: 0 <= i < |t.rows| ==> |t.rows[i]| == |t.header|)
    && (forall i, i', j :: 0 <= i < |t.rows| && 0 <= i' < |t.rows| && 0 <= j < |t.header| && t.rows[i][j].Str?
          ==> !t.rows[i'][j].Num?)
  }

  /** Some cell of column `j` is a string. */
  predicate HasText(t: Table, j: nat)
    requires WellFormed(t) && j < |t.header|
  {
    exists i :: 0 <= i < |t.rows| && t.rows[i][j].Str?
  }

  /** The cells of column `j`, top to bottom. */
  function Column(t: Table, j: nat): (c: seq<Cell>)
    requires WellFormed(t) && j < |t.header|
    ensures |c| == |t.rows|
    ensures forall i :: 0 <= i < |c| ==> c[i] == t.rows[i][j]
  {
    seq(|t.rows|, i requires 0 <= i < |t.rows| => t.rows[i][j])
  }

  /**
   * The column's dtype is `object`: it holds a string, or the file has no data
   * row at all (`read_csv` then types every column as `object`).
   */
  predicate IsObjectColumn(t: Table, j: nat)
    requires WellFormed(t) && j < |t.header|
  {
    |t.rows| == 0 || HasText(t, j)
  }

  /** Position of the first column labelled `name`, as `df[name]` selects it. */
  function IndexOf(names: seq<string>, name: string): (r: Option<nat>)
    ensures r.None? <==> name !in names
    ensures r.Some? ==> r.value < |names| && names[r.value] == name
    ensures r.Some? ==> forall k :: 0 <= k < r.value ==> names[k] != name
  {
    if names == [] then None
    else if names[0] == name then Some(0)
    else match IndexOf(names[1..], name)
      case None => None
      case Some(k) => Some(k + 1)
  }

  /** The non-missing values of `cells`, each once, in order of first appearance. */
  function Distinct(cells: seq<Cell>): (d: seq<Cell>)
    ensures forall k :: 0 <= k < |d| ==> !d[k].Missing?
    ensures forall k, l :: 0 <= k < l < |d| ==> d[k] != d[l]
    ensures forall c :: c in d <==> c in cells && !c.Missing?
  {
    if cells == [] then []
    else
      var d := Distinct(cells[..|cells| - 1]);
      var c := cells[|cells| - 1];
      assert cells == cells[..|cells| - 1] + [c];
      if c.Missing? || c in d then d else d + [c]
  }

  /** How many of `cells` equal `v`. */
  function Occurrences(cells: seq<Cell>, v: Cell): (n: nat)
    ensures n <= |cells|
    ensures n == 0 <==> v !in cells
  {
    if cells == [] then 0
    else
      var n := Occurrences(cells[..|cells| - 1], v);
      assert cells == cells[..|cells| - 1] + [cells[|cells| - 1]];
      n + if cells[|cells| - 1] == v then 1 else 0
  }

  /** Counting from the front: the first cell, then the rest. */
  lemma {:induction false} OccurrencesFront(cells: seq<Cell>, v: Cell)
    requires cells != []
    ensures Occurrences(cells, v) == (if cells[0] == v then 1 else 0) + Occurrences(cells[1..], v)
    decreases |cells|
  {
    if |cells| > 1 {
      var init := cells[..|cells| - 1];
      OccurrencesFront(init, v);
      assert cells[1..][..|cells[1..]| - 1] == init[1..];
    }
  }

  /** A float as numpy computes it: a finite value, NaN, or an infinity. */
  datatype Float = Finite(v: real) | NaN | Infinite(positive: bool)

  /** The positions of the marked entries, in increasing order: a boolean mask's `index`. */
  function Marked(marks: seq<bool>): (ps: seq<nat>)
    ensures forall k :: 0 <= k < |ps| ==> ps[k] < |marks|
  {
    if marks == [] then []
    else
      var last := |marks| - 1;
      var earlier := Marked(marks[..last]);
      if marks[last] then earlier + [last] else earlier
  }

  /** Marking one more entry appends its position when it is marked. */
  lemma MarkedPrefix(marks: seq<bool>, n: nat)
    requires n < |marks|
    ensures Marked(marks[..n + 1]) == Marked(marks[..n]) + if marks[n] then [n] else []
  {
    assert marks[..n + 1][..n] == marks[..n];
  }

  /** The positions are listed in increasing order ... */
  lemma {:induction false} MarkedOrdered(marks: seq<bool>)
    ensures forall k, l :: 0 <= k < l < |Marked(marks)| ==> Marked(marks)[k] < Marked(marks)[l]
  {
    if marks != [] {
      var last := |marks| - 1;
      var earlier := Marked(marks[..last]);
      MarkedOrdered(marks[..last]);
      OrderedStep(earlier, Marked(marks), last, marks[last]);
    }
  }

  lemma OrderedStep(earlier: seq<nat>, ps: seq<nat>, x: nat, hit: bool)
    requires forall k, l :: 0 <= k < l < |earlier| ==> earlier[k] < earlier[l]
    requires forall k :: 0 <= k < |earlier| ==> earlier[k] < x
    requires ps == if hit then earlier + [x] else earlier
    ensures forall k, l :: 0 <= k < l < |ps| ==> ps[k] < ps[l]
  {
  }

  /** ... and they are exactly the marked positions. */
  lemma {:induction false} MarkedMembers(marks: seq<bool>)
    ensures forall p: nat :: p in Marked(marks) <==> p < |marks| && marks[p]
  {
    if marks != [] {
      var last := |marks| - 1;
      var init := marks[..last];
      MarkedMembers(init);
      ListedStep(Marked(init), Marked(marks), last, marks[last]);
      forall p: nat ensures p in Marked(marks) <==> p < |marks| && marks[p] {
        if p < last {
          assert init[p] == marks[p];
        }
      }
    }
  }

  lemma ListedStep(earlier: seq<nat>, ps: seq<nat>, x: nat, hit: bool)
    requires ps == if hit then earlier + [x] else earlier
    ensures forall p :: p in ps <==> p in earlier || (hit && p == x)
  {
  }

  /** numpy's float division: division by zero gives NaN (0/0) or a signed infinity. */
  function Divide(a: real, b: real): (r: Float)
    ensures r.Finite? <==> b != 0.0
    ensures r.NaN? <==> b == 0.0 && a == 0.0
  {
    if b != 0.0 then Finite(a / b)
    else if a == 0.0 then NaN
    else Infinite(a > 0.0)
  }

  /** A finite quotient times the divisor gives back the dividend. */
  lemma DivideProduct(a: real, b: real)
    ensures Divide(a, b).Finite? ==> Divide(a, b).v * b == a
  {
  }

  /** `(a / b) * 100` in numpy float arithmetic. */
  function Percent(a: real, b: real): (r: Float)
    ensures r.Finite? <==> b != 0.0
    ensures r.NaN? <==> b == 0.0 && a == 0.0
  {
    match Divide(a, b)
    case Finite(q) => Finite(q * 100.0)
    case other => other
  }

  /** A finite percentage times the whole gives 100 times the part. */
  lemma PercentProduct(a: real, b: real)
    ensures Percent(a, b).Finite? ==> Percent(a, b).v * b == 100.0 * a
  {
    DivideProduct(a, b);
    if b != 0.0 {
      var q := Divide(a, b).v;
      assert (q * 100.0) * b == 100.0 * (q * b);
    }
  }

  /** A part `a` of a positive whole `n`, as a percentage: between 0 and 100, at the ends only for the ends. */
  lemma PercentBounds(a: real, n: real)
    requires 0.0 <= a <= n && n > 0.0
    ensures var p := Percent(a, n);
      && p.Finite? && 0.0 <= p.v <= 100.0
      && (0.0 < a ==> 0.0 < p.v)
      && (a < n ==> p.v < 100.0)
  {
    var p := Percent(a, n);
    PercentProduct(a, n);
    assert p.v * n == 100.0 * a;
    assert (100.0 - p.v) * n == 100.0 * (n - a);
  }

  /** The format spec a number is printed with: `{x}`, `{x:,.2f}` or `{x:.1f}`. */
  datatype Format = Repr | Money | OneDecimal

  /** The exceptions whose `str(e)` lands in a summary line. */
  datatype Failure =
    | NonNumericAggregation  // `mean` of an object column in `groupby().agg`
    | EmptyIndex             // `index[0]` of an empty frame
    | NoFrame                // an attribute of `self.df` while it is still `None`
    | Unreadable             // the CSV file is missing or `read_csv` rejects it

  /**
   * A fragment of a summary line: literal text, a number with its format, the
   * square root of a number (a standard deviation), or an exception's text.
   */
  datatype Piece =
    | Lit(s: string)
    | Number(x: Float, f: Format)
    | RootOf(x: Float, f: Format)
    | Error(e: Failure)

  /** One entry of the summary list: the f-string's pieces, concatenated. */
  type Line = seq<Piece>

  /** `f"{cell}"`: a string as itself, a number as its float repr, a missing cell as `nan`. */
  function Shown(c: Cell): (p: Piece)
    ensures c.Str? ==> p == Lit(c.s)
    ensures c.Num? ==> p == Number(Finite(c.x), Repr)
    ensures c.Missing? ==> p == Number(NaN, Repr)
  {
    match c
    case Str(s) => Lit(s)
    case Num(x) => Number(Finite(x), Repr)
    case Missing => Number(NaN, Repr)
  }

  /** What a step leaves behind: the lines it appended, and whether it then raised. */
  datatype Outcome = Outcome(lines: seq<Line>, raised: bool)

  /** The two lines every summary starts with; `timestamp` is `datetime.now()` as `%Y-%m-%d %H:%M:%S`. */
  function Heading(timestamp: string): seq<Line>
  {
    [[Lit("Data Analysis Summary")], [Lit("Generated on: " + timestamp + "\n")]]
  }

  /** `f"Error loading data: {e}"` for a file that is missing or that `read_csv` rejects. */
  const ReadFailed: Line := [Lit("Error loading data: "), Error(Unreadable)]
}
