/**
 * `load_data_from_txt`: the lines of a text file become records
 * `{"id": f"vec{i}", "text": line.strip()}`, numbered from 1 by their line in
 * the file, blank lines skipped.
 */
module TextLoader {
  import opened Text

  /** One record handed to the vector index. */
  datatype Record = Record(id: string, text: string)

  /** The id of the record read from line number `i` (counted from 1). */
  function RecordId(i: nat): string
  {
    "vec" + Decimal(i)
  }

  /** The line indices (from 0) that are not blank, in file order. */
  function KeptLines(lines: seq<string>): (kept: seq<nat>)
    ensures forall k :: 0 <= k < |kept| ==> kept[k] < |lines|
    ensures forall k, l :: 0 <= k < l < |kept| ==> kept[k] < kept[l]
  {
    if lines == [] then []
    else
      var earlier := KeptLines(lines[..|lines| - 1]);
      if IsBlank(Last(lines)) then earlier else earlier + [|lines| - 1]
  }

  /** The kept indices are exactly those of the lines that are not blank. */
  lemma {:induction false} KeptLinesMembers(lines: seq<string>)
    ensures forall i: nat :: i in KeptLines(lines) <==> i < |lines| && !IsBlank(lines[i])
  {
    if lines != [] {
      var init := lines[..|lines| - 1];
      KeptLinesMembers(init);
      forall i: nat | i < |init| ensures lines[i] == init[i] { }
    }
  }

  /** The records the loader returns for `lines` (the file's `readlines()`). */
  function Records(lines: seq<string>): seq<Record>
  {
    if lines == [] then []
    else
      var earlier := Records(lines[..|lines| - 1]);
      if Strip(Last(lines)) != [] then earlier + [Record(RecordId(|lines|), Strip(Last(lines)))] else earlier
  }

  /** The loop of `load_data_from_txt` over the lines already read. */
  method LoadDataFromTxt(lines: seq<string>) returns (data: seq<Record>)
    ensures data == Records(lines)
    ensures forall k :: 0 <= k < |data| ==> data[k].text != []
  {
    data := [];
    var i := 0;
    while i < |lines|
      invariant 0 <= i <= |lines|
      invariant data == Records(lines[..i])
    {
      var line := lines[i];
      assert lines[..i + 1][..i] == lines[..i];
      if Strip(line) != [] {
        data := data + [Record(RecordId(i + 1), Strip(line))];
      }
      i := i + 1;
    }
    assert lines[..|lines|] == lines;
    RecordsNonEmpty(lines);
  }

  // ---------------------------------------------------------------------------
  // What the records hold

  /**
   * Record `k` comes from the `k`-th non-blank line: its id is that line's
   * number and its text is the line stripped.
   */
  lemma {:induction false} RecordsSpec(lines: seq<string>)
    ensures var kept := KeptLines(lines);
      var rs := Records(lines);
      && |rs| == |kept|
      && (forall k :: 0 <= k < |rs| ==> rs[k] == Record(RecordId(kept[k] + 1), Strip(lines[kept[k]])))
  {
    RecordsNumbered(lines);
  }

  lemma {:induction false} RecordsNumbered(lines: seq<string>)
    ensures Numbered(lines, KeptLines(lines), Records(lines))
  {
    if lines != [] {
      RecordsNumbered(lines[..|lines| - 1]);
      StripBlank(Last(lines));
      if IsBlank(Last(lines)) {
        RecordsSkip(lines);
      } else {
        RecordsKeep(lines);
      }
    }
  }

  /** Record `k` of `rs` comes from line `kept[k]` of `lines`. */
  ghost predicate Numbered(lines: seq<string>, kept: seq<nat>, rs: seq<Record>)
  {
    && |rs| == |kept|
    && (forall k :: 0 <= k < |rs| ==> kept[k] < |lines| && rs[k] == Record(RecordId(kept[k] + 1), Strip(lines[kept[k]])))
  }

  /** A blank last line adds no record. */
  lemma RecordsSkip(lines: seq<string>)
    requires lines != [] && IsBlank(Last(lines))
    requires var init := lines[..|lines| - 1]; Numbered(init, KeptLines(init), Records(init))
    ensures Numbered(lines, KeptLines(lines), Records(lines))
  {
    var init := lines[..|lines| - 1];
    var kept, rs := KeptLines(init), Records(init);
    StripBlank(Last(lines));
    assert KeptLines(lines) == kept && Records(lines) == rs;
    forall k | 0 <= k < |rs| ensures lines[kept[k]] == init[kept[k]] { }
  }

  /** A line that is not blank adds one record, numbered after it. */
  lemma RecordsKeep(lines: seq<string>)
    requires lines != [] && Strip(Last(lines)) != []
    requires var init := lines[..|lines| - 1]; Numbered(init, KeptLines(init), Records(init))
    ensures Numbered(lines, KeptLines(lines), Records(lines))
  {
    var init := lines[..|lines| - 1];
    var kept0, rs0 := KeptLines(init), Records(init);
    StripBlank(Last(lines));
    assert KeptLines(lines) == kept0 + [|lines| - 1];
    assert Records(lines) == rs0 + [Record(RecordId(|lines|), Strip(Last(lines)))];
    NumberedExtend(lines, kept0, rs0);
  }

  lemma NumberedExtend(lines: seq<string>, kept: seq<nat>, rs: seq<Record>)
    requires lines != [] && Numbered(lines[..|lines| - 1], kept, rs)
    ensures Numbered(lines, kept + [|lines| - 1], rs + [Record(RecordId(|lines|), Strip(Last(lines)))])
  {
    var init := lines[..|lines| - 1];
    var kept', rs' := kept + [|lines| - 1], rs + [Record(RecordId(|lines|), Strip(Last(lines)))];
    forall k | 0 <= k < |rs'|
      ensures kept'[k] < |lines| && rs'[k] == Record(RecordId(kept'[k] + 1), Strip(lines[kept'[k]]))
    {
      if k < |rs| {
        assert rs'[k] == rs[k] && kept'[k] == kept[k];
        assert lines[kept[k]] == init[kept[k]];
      }
    }
  }

  /** Every record's text is non-empty. */
  lemma {:induction false} RecordsNonEmpty(lines: seq<string>)
    ensures forall k :: 0 <= k < |Records(lines)| ==> Records(lines)[k].text != []
  {
    if lines != [] {
      RecordsNonEmpty(lines[..|lines| - 1]);
    }
  }

  /** One record per non-blank line; a file of blank lines gives none. */
  lemma RecordCount(lines: seq<string>)
    ensures |Records(lines)| <= |lines|
    ensures |Records(lines)| == 0 <==> forall i :: 0 <= i < |lines| ==> IsBlank(lines[i])
  {
    RecordsSpec(lines);
    KeptLinesMembers(lines);
    var kept := KeptLines(lines);
    KeptBound(kept, |lines|);
    if kept != [] {
      assert kept[0] in kept;
    } else {
      forall i | 0 <= i < |lines| ensures IsBlank(lines[i]) {
        assert (i as nat) !in kept;
      }
    }
  }

  /** An increasing list of indices below `n` has at most `n` entries. */
  lemma {:induction false} KeptBound(kept: seq<nat>, n: nat)
    requires forall k :: 0 <= k < |kept| ==> kept[k] < n
    requires forall k, l :: 0 <= k < l < |kept| ==> kept[k] < kept[l]
    ensures |kept| <= n
  {
    if kept != [] {
      KeptBound(kept[..|kept| - 1], Last(kept));
    }
  }

  /** The ids are pairwise different, so no record overwrites another in the index. */
  lemma IdsDistinct(lines: seq<string>, k: nat, l: nat)
    requires k < l < |Records(lines)|
    ensures Records(lines)[k].id != Records(lines)[l].id
  {
    RecordsSpec(lines);
    var kept := KeptLines(lines);
    var i, j := kept[k] + 1, kept[l] + 1;
    assert Records(lines)[k].id == RecordId(i);
    assert Records(lines)[l].id == RecordId(j);
    RecordIdsDiffer(i, j);
  }

  /** Different line numbers give different ids. */
  lemma RecordIdsDiffer(i: nat, j: nat)
    requires i != j
    ensures RecordId(i) != RecordId(j)
  {
    if RecordId(i) == RecordId(j) {
      assert RecordId(i)[3..] == Decimal(i);
      assert RecordId(j)[3..] == Decimal(j);
      DecimalInjective(i, j);
    }
  }
}
