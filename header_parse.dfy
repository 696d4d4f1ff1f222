/**
 * `DataSummarizer.parse_llm_response` of the web application: the text the
 * language model returned for the column-renaming prompt becomes a list of
 * labels, or the parse fails.
 */
module HeaderParse {
  import opened Wrappers
  import opened Text

  /** The two `ValueError`s the parser raises. */
  datatype ParseError =
    | NotAList       // "Response is not in the expected list format"
    | NoColumnNames  // "No column names found in response"

  /** `item.strip().strip('"\'')`: surrounding whitespace, then every surrounding quote, removed. */
  function CleanLabel(item: string): string
  {
    StripWhere(Strip(item), Quotes)
  }

  /** A label with no quote character at either end. */
  predicate Unquoted(l: string)
  {
    l == [] || (!IsQuote(l[0]) && !IsQuote(Last(l)))
  }

  /** Whatever the fragment was, its cleaned label neither starts nor ends with a quote. */
  lemma CleanLabelUnquoted(item: string)
    ensures Unquoted(CleanLabel(item))
  {
    var t := Strip(item);
    if CleanLabel(item) != [] {
      StripWhereFirst(t, Quotes);
      StripWhereLast(t, Quotes);
    }
  }

  /** What one fragment contributes to the parsed list: nothing when it is blank. */
  function Kept(x: string): (r: seq<string>)
    ensures |r| <= 1
  {
    if Strip(x) != [] then [CleanLabel(x)] else []
  }

  /** The list comprehension over the comma-separated fragments. */
  function Labels(items: seq<string>): (r: seq<string>)
    ensures |r| <= |items|
  {
    if items == [] then [] else Kept(items[0]) + Labels(items[1..])
  }

  /** One label per fragment exactly when no fragment is blank. */
  lemma {:induction false} LabelsKeepAll(items: seq<string>)
    ensures |Labels(items)| == |items| <==> forall k :: 0 <= k < |items| ==> Strip(items[k]) != []
  {
    if items != [] {
      var tail := items[1..];
      LabelsKeepAll(tail);
      forall k | 1 <= k < |items| ensures items[k] == tail[k - 1] { }
    }
  }

  /** No label at all exactly when every fragment is blank. */
  lemma {:induction false} LabelsNone(items: seq<string>)
    ensures Labels(items) == [] <==> forall k :: 0 <= k < |items| ==> Strip(items[k]) == []
  {
    if items != [] {
      var tail := items[1..];
      LabelsNone(tail);
      forall k | 1 <= k < |items| ensures items[k] == tail[k - 1] { }
    }
  }

  /** Every label of the list is unquoted. */
  lemma {:induction false} LabelsUnquoted(items: seq<string>)
    ensures forall k :: 0 <= k < |Labels(items)| ==> Unquoted(Labels(items)[k])
  {
    if items != [] {
      var head, rest := Kept(items[0]), Labels(items[1..]);
      LabelsUnquoted(items[1..]);
      CleanLabelUnquoted(items[0]);
      forall k | 0 <= k < |Labels(items)| ensures Unquoted(Labels(items)[k]) {
        if k >= |head| { assert Labels(items)[k] == rest[k - |head|]; }
      }
    }
  }

  /** The cleaned answer is a list literal: it opens with `[` and closes with `]`. */
  predicate IsListText(cleaned: string)
  {
    cleaned != [] && cleaned[0] == '[' && Last(cleaned) == ']'
  }

  /** `parse_llm_response`: clean the answer, check the brackets, split at commas, keep the labels. */
  function ParseLlmResponse(response: string): (r: Result<seq<string>, ParseError>)
    ensures r.Success? ==> r.value != []
  {
    var cleaned := Collapse(Strip(response));
    if !IsListText(cleaned) then Failure(NotAList)
    else
      var columns := Labels(Split(cleaned[1..|cleaned| - 1], ','));
      if columns == [] then Failure(NoColumnNames) else Success(columns)
  }

  /** Quotes are removed after the whitespace, so spaces inside them stay. */
  lemma QuotedSpacesKept()
    ensures CleanLabel("' A '") == " A "
  {
    StripWhereKeeps("' A '", Whitespace);
    assert StripWhere("' A '", Quotes) == " A ";
  }

  /** A successful parse gives only unquoted labels. */
  lemma ParseUnquoted(response: string)
    ensures var r := ParseLlmResponse(response);
      r.Success? ==> forall k :: 0 <= k < |r.value| ==> Unquoted(r.value[k])
  {
    var cleaned := Collapse(Strip(response));
    if IsListText(cleaned) {
      LabelsUnquoted(Split(cleaned[1..|cleaned| - 1], ','));
    }
  }

  /** The list body names no column exactly when every comma-separated fragment of it is blank. */
  lemma NoColumnNamesIff(response: string)
    ensures var cleaned := Collapse(Strip(response));
      ParseLlmResponse(response) == Failure(NoColumnNames) <==>
        IsListText(cleaned) &&
        var items := Split(cleaned[1..|cleaned| - 1], ',');
        forall k :: 0 <= k < |items| ==> Strip(items[k]) == []
  {
    var cleaned := Collapse(Strip(response));
    if IsListText(cleaned) {
      var items := Split(cleaned[1..|cleaned| - 1], ',');
      LabelsNone(items);
      assert ParseLlmResponse(response) == if Labels(items) == [] then Failure(NoColumnNames) else Success(Labels(items));
    } else {
      assert ParseLlmResponse(response) == Failure(NotAList);
    }
  }

  /**
   * The columns `load_data` ends up with: the parsed labels when the model
   * answered, the answer parsed, and it has one label per column (otherwise
   * `df.columns = ...` raises and the original header stays).
   */
  function Standardize(header: seq<string>, completion: Option<string>): (r: Option<seq<string>>)
    ensures r.Some? ==> |r.value| == |header| && completion.Some?
    ensures r.Some? ==> ParseLlmResponse(completion.value) == Success(r.value)
    ensures (completion.Some? && ParseLlmResponse(completion.value).Success?
             && |ParseLlmResponse(completion.value).value| == |header|) ==> r.Some?
  {
    match completion
    case None => None
    case Some(text) =>
      match ParseLlmResponse(text)
      case Failure(_) => None
      case Success(labels) => if |labels| == |header| then Some(labels) else None
  }

  // ---------------------------------------------------------------------------
  // When the list format is rejected

  /** Every character of `s[lo..hi]` is whitespace. */
  ghost predicate BlankBetween(s: string, lo: nat, hi: nat)
    requires lo <= hi <= |s|
  {
    forall k :: lo <= k < hi ==> IsSpace(s[k])
  }

  /**
   * The first non-whitespace character of `s` is `[` and the last one is `]`,
   * which is what the list check amounts to on the raw text.
   */
  ghost predicate Bracketed(s: string)
  {
    exists i, j :: 0 <= i < j < |s| && s[i] == '[' && s[j] == ']' && BlankBetween(s, 0, i) && BlankBetween(s, j + 1, |s|)
  }

  /** `strip()` of text that is not blank keeps text that starts and ends with a visible character. */
  lemma StripEnds(s: string)
    requires !IsBlank(s)
    ensures Strip(s) != [] && PrefixWhile(Strip(s), Whitespace) == 0 && SuffixWhile(Strip(s), Whitespace) == 0
    ensures !IsBlank(Strip(s))
  {
    var t := Strip(s);
    StripBlank(s);
    StripWhereFirst(s, Whitespace);
    StripWhereLast(s, Whitespace);
    assert !IsSpace(t[0]);
  }

  /** The cleaned text is empty exactly when the raw text is blank. */
  lemma CleanedBlank(s: string)
    ensures IsBlank(s) <==> Collapse(Strip(s)) == []
  {
    StripBlank(s);
    CollapseBlank(Strip(s));
    if !IsBlank(s) {
      StripEnds(s);
    }
  }

  /** The first character of the cleaned text is the first visible character of the raw text. */
  lemma CleanedFirst(s: string)
    requires !IsBlank(s)
    ensures PrefixWhile(s, Whitespace) < |s|
    ensures Collapse(Strip(s)) != [] && Collapse(Strip(s))[0] == s[PrefixWhile(s, Whitespace)]
  {
    var t := Strip(s);
    StripEnds(s);
    CollapseFirst(t);
    StripWhereFirst(s, Whitespace);
  }

  /** The last character of the cleaned text is the last visible character of the raw text. */
  lemma CleanedLast(s: string)
    requires !IsBlank(s)
    ensures SuffixWhile(s, Whitespace) < |s|
    ensures Collapse(Strip(s)) != [] && Last(Collapse(Strip(s))) == s[|s| - 1 - SuffixWhile(s, Whitespace)]
  {
    StrippedLast(s);
    TrimmedCollapseLast(Strip(s));
  }

  /** Text without trailing whitespace keeps its last character through the collapse. */
  lemma TrimmedCollapseLast(t: string)
    requires !IsBlank(t) && SuffixWhile(t, Whitespace) == 0
    ensures Collapse(t) != [] && Last(Collapse(t)) == Last(t)
  {
    CollapseLast(t);
  }

  /** `strip()` keeps the last visible character last, and leaves no trailing whitespace. */
  lemma StrippedLast(s: string)
    requires !IsBlank(s)
    ensures SuffixWhile(s, Whitespace) < |s|
    ensures Strip(s) != [] && !IsBlank(Strip(s)) && SuffixWhile(Strip(s), Whitespace) == 0
    ensures Last(Strip(s)) == s[|s| - 1 - SuffixWhile(s, Whitespace)]
  {
    StripEnds(s);
    StripWhereLast(s, Whitespace);
  }

  /** A clean list literal comes from bracketed raw text ... */
  lemma ListTextIsBracketed(s: string)
    requires IsListText(Collapse(Strip(s)))
    ensures Bracketed(s)
  {
    CleanedBlank(s);
    CleanedFirst(s);
    CleanedLast(s);
    PrefixFacts(s, Whitespace);
    SuffixFacts(s, Whitespace);
    var i, j := PrefixWhile(s, Whitespace), |s| - 1 - SuffixWhile(s, Whitespace);
    assert s[i] == '[' && s[j] == ']';
    assert i <= j by { SuffixStop(s, Whitespace); }
    assert BlankBetween(s, 0, i);
    assert BlankBetween(s, j + 1, |s|);
  }

  /** ... and bracketed raw text cleans to a list literal. */
  lemma BracketedIsListText(s: string)
    requires Bracketed(s)
    ensures IsListText(Collapse(Strip(s)))
  {
    BracketedEnds(s);
    CleanedFirst(s);
    CleanedLast(s);
  }

  /** On bracketed text the first visible character is `[` and the last one `]`. */
  lemma BracketedEnds(s: string)
    requires Bracketed(s)
    ensures !IsBlank(s)
    ensures PrefixWhile(s, Whitespace) < |s| && s[PrefixWhile(s, Whitespace)] == '['
    ensures SuffixWhile(s, Whitespace) < |s| && s[|s| - 1 - SuffixWhile(s, Whitespace)] == ']'
  {
    var i, j :| 0 <= i < j < |s| && s[i] == '[' && s[j] == ']' && BlankBetween(s, 0, i) && BlankBetween(s, j + 1, |s|);
    PrefixWhileIs(s, Whitespace, i);
    SuffixWhileIs(s, Whitespace, |s| - 1 - j);
    assert !IsBlank(s) by { assert !IsSpace(s[i]); }
  }

  /** The parser rejects the list format exactly when the raw text is not bracketed. */
  lemma NotAListIff(s: string)
    ensures ParseLlmResponse(s) == Failure(NotAList) <==> !Bracketed(s)
  {
    if IsListText(Collapse(Strip(s))) {
      ListTextIsBracketed(s);
    }
    if Bracketed(s) {
      BracketedIsListText(s);
    }
  }

  // ---------------------------------------------------------------------------
  // The list a well-behaved model writes is parsed back to its labels

  /** A label the prompt asks for: non-empty, single-spaced, no comma, no quote at either end. */
  ghost predicate PlainLabel(l: string)
  {
    l != [] && Collapsed(l) && ',' !in l && !IsQuote(l[0]) && !IsQuote(Last(l))
  }

  function Quote(l: string): string
  {
    "\"" + l + "\""
  }

  function QuoteAll(labels: seq<string>): (r: seq<string>)
    ensures |r| == |labels|
  {
    if labels == [] then [] else [Quote(labels[0])] + QuoteAll(labels[1..])
  }

  /** A list literal written the way the renaming prompt's example writes one: `["Booking", "PAX"]`. */
  function RenderList(labels: seq<string>): string
  {
    "[" + Join(QuoteAll(labels), ", ") + "]"
  }

  lemma CollapsedConcat(a: string, b: string)
    requires Collapsed(a) && Collapsed(b)
    ensures Collapsed(a + b)
  {
    var s := a + b;
    forall i | 0 <= i < |s| && IsSpace(s[i]) ensures s[i] == ' ' && 0 < i < |s| - 1 {
      if i < |a| { assert s[i] == a[i]; } else { assert s[i] == b[i - |a|]; }
    }
    forall i, j | 0 <= i < |s| && j == i + 1 && j < |s| ensures !IsSpace(s[i]) || !IsSpace(s[j]) {
      if j < |a| { assert s[i] == a[i] && s[j] == a[j]; }
      else if i >= |a| { assert s[i] == b[i - |a|] && s[j] == b[j - |a|]; }
      else { assert s[j] == b[0]; }
    }
  }

  lemma CollapsedSpaced(a: string, b: string)
    requires Collapsed(a) && Collapsed(b) && a != [] && b != []
    ensures Collapsed(a + " " + b)
  {
    var s := a + " " + b;
    assert !IsSpace(a[|a| - 1]) && !IsSpace(b[0]);
    forall i | 0 <= i < |s| && IsSpace(s[i]) ensures s[i] == ' ' && 0 < i < |s| - 1 {
      if i < |a| { assert s[i] == a[i]; } else if i > |a| { assert s[i] == b[i - |a| - 1]; }
    }
    forall i, j | 0 <= i < |s| && j == i + 1 && j < |s| ensures !IsSpace(s[i]) || !IsSpace(s[j]) {
      if j < |a| { assert s[i] == a[i] && s[j] == a[j]; }
      else if i > |a| { assert s[i] == b[i - |a| - 1] && s[j] == b[j - |a| - 1]; }
      else if j == |a| { assert s[i] == a[|a| - 1]; }
      else { assert s[j] == b[0]; }
    }
  }

  lemma CollapsedChar(c: char)
    requires !IsSpace(c)
    ensures Collapsed([c])
  {
  }

  lemma CollapsedQuote(l: string)
    requires PlainLabel(l)
    ensures Collapsed(Quote(l))
  {
    CollapsedChar('"');
    CollapsedConcat("\"", l);
    CollapsedConcat("\"" + l, "\"");
  }

  lemma {:induction false} CollapsedBody(labels: seq<string>)
    requires forall k :: 0 <= k < |labels| ==> PlainLabel(labels[k])
    ensures Collapsed(Join(QuoteAll(labels), ", "))
    ensures labels != [] ==> Join(QuoteAll(labels), ", ") != []
  {
    if labels != [] {
      var q := Quote(labels[0]);
      CollapsedQuote(labels[0]);
      if |labels| > 1 {
        var rest := Join(QuoteAll(labels[1..]), ", ");
        CollapsedBody(labels[1..]);
        CollapsedChar(',');
        CollapsedConcat(q, ",");
        CollapsedSpaced(q + ",", rest);
        assert QuoteAll(labels) == [q] + QuoteAll(labels[1..]);
        assert Join(QuoteAll(labels), ", ") == (q + ",") + " " + rest;
      } else {
        assert QuoteAll(labels) == [q];
      }
    }
  }

  lemma CollapsedRender(labels: seq<string>)
    requires forall k :: 0 <= k < |labels| ==> PlainLabel(labels[k])
    ensures Collapsed(RenderList(labels))
  {
    CollapsedBody(labels);
    CollapsedChar('[');
    CollapsedChar(']');
    CollapsedConcat("[", Join(QuoteAll(labels), ", "));
    CollapsedConcat("[" + Join(QuoteAll(labels), ", "), "]");
  }

  lemma {:induction false} SplitAt(a: string, c: char, b: string)
    requires c !in a
    ensures Split(a + [c] + b, c) == [a] + Split(b, c)
  {
    if a != [] {
      SplitAt(a[1..], c, b);
      assert (a + [c] + b)[1..] == a[1..] + [c] + b;
      assert a == [a[0]] + a[1..];
    } else {
      assert (a + [c] + b)[1..] == b;
    }
  }

  lemma {:induction false} SplitNone(a: string, c: char)
    requires c !in a
    ensures Split(a, c) == [a]
  {
    if a != [] {
      SplitNone(a[1..], c);
    }
  }

  /** A quoted plain label keeps its quotes under `strip()` ... */
  lemma StripQuoted(l: string)
    requires PlainLabel(l)
    ensures Strip(Quote(l)) == Quote(l) && Strip(" " + Quote(l)) == Quote(l)
  {
    var q := Quote(l);
    StripWhereKeeps(q, Whitespace);
    var s := " " + q;
    PrefixWhileIs(s, Whitespace, 1);
    assert s[1..] == q;
    assert SuffixWhile(q, Whitespace) == 0;
    assert q[..|q| - 0] == q;
  }

  /** ... and loses exactly them under `strip('"\'')`. */
  lemma UnquoteQuoted(l: string)
    requires PlainLabel(l)
    ensures StripWhere(Quote(l), Quotes) == l
  {
    var q := Quote(l);
    assert q[1] == l[0];
    PrefixWhileIs(q, Quotes, 1);
    var t := q[1..];
    assert t == l + "\"";
    assert t[|t| - 2] == Last(l);
    SuffixWhileIs(t, Quotes, 1);
    assert t[..|t| - 1] == l;
  }

  lemma CleanQuoted(p: string, l: string)
    requires p == "" || p == " "
    requires PlainLabel(l)
    ensures Strip(p + Quote(l)) != [] && CleanLabel(p + Quote(l)) == l
  {
    StripQuoted(l);
    UnquoteQuoted(l);
    if p == "" {
      assert p + Quote(l) == Quote(l);
    }
  }

  lemma LabelsCons(x: string, items: seq<string>)
    ensures Labels([x] + items) == Kept(x) + Labels(items)
  {
    assert ([x] + items)[1..] == items;
  }

  lemma JoinQuoteAllCons(labels: seq<string>)
    requires |labels| > 1
    ensures Join(QuoteAll(labels), ", ") == Quote(labels[0]) + ", " + Join(QuoteAll(labels[1..]), ", ")
  {
    assert QuoteAll(labels)[1..] == QuoteAll(labels[1..]);
  }

  lemma CommaFree(p: string, l: string)
    requires p == "" || p == " "
    requires ',' !in l
    ensures ',' !in p + Quote(l)
  {
  }

  /** What the parser needs of a label to give it back from either position in the list. */
  ghost predicate RoundTrips(l: string)
  {
    && ',' !in l
    && Strip(Quote(l)) != [] && CleanLabel(Quote(l)) == l
    && Strip(" " + Quote(l)) != [] && CleanLabel(" " + Quote(l)) == l
  }

  lemma PlainRoundTrips(l: string)
    requires PlainLabel(l)
    ensures RoundTrips(l)
  {
    CleanQuoted("", l);
    CleanQuoted(" ", l);
    assert "" + Quote(l) == Quote(l);
  }

  /** Splitting the list body at commas cuts off the first quoted label. */
  lemma SplitBody(p: string, labels: seq<string>)
    requires p == "" || p == " "
    requires |labels| > 1 && ',' !in labels[0]
    ensures Split(p + Join(QuoteAll(labels), ", "), ',')
         == [p + Quote(labels[0])] + Split(" " + Join(QuoteAll(labels[1..]), ", "), ',')
  {
    var q := Quote(labels[0]);
    var rest := Join(QuoteAll(labels[1..]), ", ");
    CommaFree(p, labels[0]);
    JoinQuoteAllCons(labels);
    assert p + Join(QuoteAll(labels), ", ") == (p + q) + [','] + (" " + rest);
    SplitAt(p + q, ',', " " + rest);
  }

  ghost predicate AllRoundTrip(labels: seq<string>)
  {
    labels == [] || (RoundTrips(labels[0]) && AllRoundTrip(labels[1..]))
  }

  lemma {:induction false} PlainAllRoundTrip(labels: seq<string>)
    requires forall k :: 0 <= k < |labels| ==> PlainLabel(labels[k])
    ensures AllRoundTrip(labels)
  {
    if labels != [] {
      PlainRoundTrips(labels[0]);
      assert forall k :: 0 <= k < |labels[1..]| ==> labels[1..][k] == labels[k + 1];
      PlainAllRoundTrip(labels[1..]);
    }
  }

  /** The labels the parser keeps from the fragments of a quoted list, the first one without a leading space. */
  function KeptAll(p: string, labels: seq<string>): seq<string>
    decreases labels
  {
    if labels == [] then [] else Kept(p + Quote(labels[0])) + KeptAll(" ", labels[1..])
  }

  ghost predicate NoCommas(labels: seq<string>)
  {
    forall k :: 0 <= k < |labels| ==> ',' !in labels[k]
  }

  lemma {:induction false} LabelsOfBody(p: string, labels: seq<string>)
    requires p == "" || p == " "
    requires labels != [] && NoCommas(labels)
    ensures Labels(Split(p + Join(QuoteAll(labels), ", "), ',')) == KeptAll(p, labels)
    decreases labels
  {
    var q := Quote(labels[0]);
    if |labels| == 1 {
      assert QuoteAll(labels) == [q];
      CommaFree(p, labels[0]);
      SplitNone(p + q, ',');
      LabelsCons(p + q, []);
    } else {
      var rest := labels[1..];
      assert NoCommas(rest) by { assert forall k :: 0 <= k < |rest| ==> rest[k] == labels[k + 1]; }
      LabelsOfBody(" ", rest);
      var tail := Split(" " + Join(QuoteAll(rest), ", "), ',');
      SplitBody(p, labels);
      LabelsCons(p + q, tail);
    }
  }

  lemma KeptHead(p: string, l: string)
    requires p == "" || p == " "
    requires RoundTrips(l)
    ensures Kept(p + Quote(l)) == [l]
  {
    if p == "" {
      assert p + Quote(l) == Quote(l);
    }
  }

  lemma {:induction false} KeptAllRoundTrip(p: string, labels: seq<string>)
    requires p == "" || p == " "
    requires AllRoundTrip(labels)
    ensures KeptAll(p, labels) == labels
    decreases labels
  {
    if labels != [] {
      KeptAllRoundTrip(" ", labels[1..]);
      KeptHead(p, labels[0]);
      KeptAllStep(p, labels);
    }
  }

  /** One label more: the first fragment gives back the first label. */
  lemma KeptAllStep(p: string, labels: seq<string>)
    requires p == "" || p == " "
    requires labels != [] && Kept(p + Quote(labels[0])) == [labels[0]]
    requires KeptAll(" ", labels[1..]) == labels[1..]
    ensures KeptAll(p, labels) == labels
  {
    KeptAllCons(p, labels);
    assert [labels[0]] + labels[1..] == labels;
  }

  lemma KeptAllCons(p: string, labels: seq<string>)
    requires labels != []
    ensures KeptAll(p, labels) == Kept(p + Quote(labels[0])) + KeptAll(" ", labels[1..])
  {
  }

  lemma {:induction false} PlainNoCommas(labels: seq<string>)
    requires forall k :: 0 <= k < |labels| ==> PlainLabel(labels[k])
    ensures NoCommas(labels)
  {
    forall k | 0 <= k < |labels| ensures ',' !in labels[k] {
      assert PlainLabel(labels[k]);
    }
  }

  /** A list written as the prompt asks is parsed back to exactly its labels. */
  lemma ParseRenderList(labels: seq<string>)
    requires labels != []
    requires forall k :: 0 <= k < |labels| ==> PlainLabel(labels[k])
    ensures ParseLlmResponse(RenderList(labels)) == Success(labels)
  {
    CleanedRender(labels);
    ParsedBody(labels);
    ParseOfListText(Join(QuoteAll(labels), ", "));
  }

  lemma ParsedBody(labels: seq<string>)
    requires labels != []
    requires forall k :: 0 <= k < |labels| ==> PlainLabel(labels[k])
    ensures Labels(Split(Join(QuoteAll(labels), ", "), ',')) == labels
  {
    PlainKeptAll(labels);
    PlainLabelsOfBody(labels);
  }

  lemma PlainKeptAll(labels: seq<string>)
    requires forall k :: 0 <= k < |labels| ==> PlainLabel(labels[k])
    ensures KeptAll("", labels) == labels
  {
    PlainAllRoundTrip(labels);
    KeptAllRoundTrip("", labels);
  }

  lemma PlainLabelsOfBody(labels: seq<string>)
    requires labels != []
    requires forall k :: 0 <= k < |labels| ==> PlainLabel(labels[k])
    ensures Labels(Split(Join(QuoteAll(labels), ", "), ',')) == KeptAll("", labels)
  {
    var body := Join(QuoteAll(labels), ", ");
    PlainNoCommas(labels);
    LabelsOfBody("", labels);
    assert "" + body == body;
  }

  /** Text that is already clean and bracketed is parsed from what lies between the brackets. */
  lemma ParseOfListText(body: string)
    requires Collapse(Strip("[" + body + "]")) == "[" + body + "]"
    ensures var columns := Labels(Split(body, ','));
      ParseLlmResponse("[" + body + "]") == if columns == [] then Failure(NoColumnNames) else Success(columns)
  {
    var s := "[" + body + "]";
    assert s[1..|s| - 1] == body;
  }

  lemma CleanedRender(labels: seq<string>)
    requires forall k :: 0 <= k < |labels| ==> PlainLabel(labels[k])
    ensures Collapse(Strip(RenderList(labels))) == RenderList(labels)
  {
    var s := RenderList(labels);
    CollapsedRender(labels);
    StripWhereKeeps(s, Whitespace);
    CollapseOfCollapsed(s);
  }

  // ---------------------------------------------------------------------------
  // Worked cases

  lemma PlainWord(l: string)
    requires l != [] && forall i :: 0 <= i < |l| ==> 'A' <= l[i] <= 'z'
    ensures PlainLabel(l)
  {
  }

  /** The canonical answer for a four-column file replaces the header position by position. */
  lemma StandardizeFourColumns()
    ensures Standardize(["conf_no", "client", "driver", "fare"],
                        Some(RenderList(["Booking", "PAX", "Chauffer", "Price"])))
         == Some(["Booking", "PAX", "Chauffer", "Price"])
  {
    var labels := ["Booking", "PAX", "Chauffer", "Price"];
    forall k | 0 <= k < |labels| ensures PlainLabel(labels[k]) { PlainWord(labels[k]); }
    ParseRenderList(labels);
  }

  /** Text whose first character is visible and is not `[` is not bracketed. */
  lemma NotBracketedFrom(s: string)
    requires s != [] && !IsSpace(s[0]) && s[0] != '['
    ensures !Bracketed(s)
  {
    forall i | 0 <= i < |s| && s[i] == '['
      ensures !BlankBetween(s, 0, i)
    {
      assert 0 < i && !IsSpace(s[0]);
    }
  }

  /** Chatter before the list makes the parse fail, and the header falls back. */
  lemma ChatterIsNotAList()
    ensures ParseLlmResponse("Sure! [\"Booking\", \"PAX\"]") == Failure(NotAList)
  {
    var s := "Sure! [\"Booking\", \"PAX\"]";
    NotBracketedFrom(s);
    NotAListIff(s);
  }

  lemma ChatterFallsBack()
    ensures Standardize(["conf_no", "client", "driver", "fare"], Some("Sure! [\"Booking\", \"PAX\"]")) == None
  {
    ChatterIsNotAList();
  }

  /**
   * A failed model call answers `"Error: " + detail` instead of a list; it is
   * refused as not a list, so it leaves the header as no answer at all does.
   */
  lemma FailedCallFallsBack(header: seq<string>, detail: string)
    ensures ParseLlmResponse("Error: " + detail) == Failure(NotAList)
    ensures Standardize(header, Some("Error: " + detail)) == Standardize(header, None)
  {
    var s := "Error: " + detail;
    assert s[0] == 'E';
    NotBracketedFrom(s);
    NotAListIff(s);
  }

  /** A pair of quotes with nothing between them survives as an empty label. */
  lemma EmptyQuotedLabel()
    ensures ParseLlmResponse("[\"\"]") == Success([""])
  {
    var body := "\"\"";
    assert "[\"\"]" == "[" + body + "]";
    EmptyQuotesClean();
    EmptyQuotesLabels();
    ParseOfListText(body);
  }

  lemma EmptyQuotesClean()
    ensures Collapse(Strip("[\"\"]")) == "[\"\"]"
  {
    var s := "[\"\"]";
    assert Collapsed(s);
    StripWhereKeeps(s, Whitespace);
    CollapseOfCollapsed(s);
  }

  lemma EmptyQuotesLabels()
    ensures Labels(Split("\"\"", ',')) == [""]
  {
    var body := "\"\"";
    SplitNone(body, ',');
    assert PrefixWhile(body, Quotes) == 2;
    StripWhereKeeps(body, Whitespace);
    LabelsCons(body, []);
  }
}
