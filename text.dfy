/**
 * Strings with the meaning Python gives them: `str.isspace`, `str.strip`,
 * `str.split(sep)`, `sep.join(parts)`, `str.split()` with no separator, and
 * the decimal rendering of a natural number.
 *
 * The functions carry only the size facts their callers need to be well
 * formed; what they mean is stated by the lemmas beside them.
 */
module Text {

  /**
   * Python's `str.isspace()` for one character: what `strip()` and `split()`
   * drop. Below U+0085 these are tab to carriage return and U+001C to the
   * blank; above it, the ranges listed in `WideSpaces`.
   */
  predicate IsSpace(c: char)
  {
    if c < '\U{85}' then ('\t' <= c <= '\r') || ('\U{1c}' <= c <= ' ')
    else InRanges(c, WideSpaces)
  }

  const WideSpaces: seq<(char, char)> :=
    [ ('\U{85}', '\U{85}'), ('\U{a0}', '\U{a0}'), ('\U{1680}', '\U{1680}'), ('\U{2000}', '\U{200a}'),
      ('\U{2028}', '\U{2029}'), ('\U{202f}', '\U{202f}'), ('\U{205f}', '\U{205f}'), ('\U{3000}', '\U{3000}') ]

  /** `c` lies in one of the closed ranges. */
  predicate InRanges(c: char, ranges: seq<(char, char)>)
  {
    ranges != [] && (ranges[0].0 <= c <= ranges[0].1 || InRanges(c, ranges[1..]))
  }

  /** The two characters of `strip('"\'')`. */
  predicate IsQuote(c: char) { c == '"' || c == '\'' }

  /** The character sets `strip` is given here: its default, and the two quotes. */
  datatype Chars = Whitespace | Quotes

  predicate In(c: char, k: Chars)
  {
    match k
    case Whitespace => IsSpace(c)
    case Quotes => IsQuote(c)
  }

  /** Every character is whitespace: Python's `not s.strip()`. */
  predicate IsBlank(s: string)
  {
    forall i :: 0 <= i < |s| ==> IsSpace(s[i])
  }

  lemma AppendAssoc<T>(a: seq<T>, b: seq<T>, c: seq<T>)
    ensures a + b + c == a + (b + c)
  {
  }

  /** `a + (b + c)` starts with `a`, then `b`. */
  lemma OpensWith<T>(a: seq<T>, b: seq<T>, c: seq<T>)
    ensures var s := a + (b + c);
      |s| >= |a| + |b| && s[..|a|] == a && s[|a|..|a| + |b|] == b
  {
    var s := a + (b + c);
    assert s[|a|..] == b + c;
  }

  /** The last element of a non-empty sequence. */
  function Last<T>(s: seq<T>): T
    requires s != []
  {
    s[|s| - 1]
  }

  lemma LastOfCons<T>(x: T, s: seq<T>)
    requires s != []
    ensures Last([x] + s) == Last(s)
  {
  }

  lemma LastOfReplacedHead<T>(x: T, s: seq<T>)
    requires |s| > 1
    ensures Last([x] + s[1..]) == Last(s)
  {
  }

  lemma LastOfAppend<T>(a: seq<T>, b: seq<T>)
    requires b != []
    ensures a + b != [] && Last(a + b) == Last(b)
  {
  }

  /** Dropping `a` elements in front and `b` behind leaves a sequence that ends with `s[|s| - 1 - b]`. */
  lemma LastOfSlice<T>(r: seq<T>, s: seq<T>, a: nat, b: nat)
    requires a + b < |s| && r == s[a..][..|s| - a - b]
    ensures r != [] && Last(r) == s[|s| - 1 - b]
  {
    var j := |s| - 1 - b;
    assert r[j - a] == s[j];
  }

  /** Length of the longest prefix of `s` whose characters are all in `k`. */
  function PrefixWhile(s: string, k: Chars): (n: nat)
    ensures n <= |s|
  {
    if s == [] || !In(s[0], k) then 0 else 1 + PrefixWhile(s[1..], k)
  }

  /** Length of the longest suffix of `s` whose characters are all in `k`. */
  function SuffixWhile(s: string, k: Chars): (n: nat)
    ensures n <= |s|
  {
    if s == [] || !In(s[|s| - 1], k) then 0 else 1 + SuffixWhile(s[..|s| - 1], k)
  }

  /** Every character of the measured prefix is in `k` ... */
  lemma {:induction false} PrefixFacts(s: string, k: Chars)
    ensures forall i :: 0 <= i < PrefixWhile(s, k) ==> In(s[i], k)
  {
    if s != [] && In(s[0], k) {
      var u := s[1..];
      PrefixFacts(u, k);
      forall i | 0 <= i < PrefixWhile(s, k) ensures In(s[i], k) {
        if i > 0 { assert s[i] == u[i - 1]; }
      }
    }
  }

  /** ... and the character just after it is not. */
  lemma {:induction false} PrefixStop(s: string, k: Chars)
    ensures PrefixWhile(s, k) < |s| ==> !In(s[PrefixWhile(s, k)], k)
  {
    if s != [] && In(s[0], k) {
      var u := s[1..];
      PrefixStop(u, k);
      if PrefixWhile(u, k) < |u| {
        assert s[PrefixWhile(s, k)] == u[PrefixWhile(u, k)];
      }
    }
  }

  /** Every character of the measured suffix is in `k` ... */
  lemma {:induction false} SuffixFacts(s: string, k: Chars)
    ensures forall i :: |s| - SuffixWhile(s, k) <= i < |s| ==> In(s[i], k)
  {
    if s != [] && In(s[|s| - 1], k) {
      var u := s[..|s| - 1];
      SuffixFacts(u, k);
      forall i | |s| - SuffixWhile(s, k) <= i < |s| ensures In(s[i], k) {
        if i < |s| - 1 { assert s[i] == u[i]; }
      }
    }
  }

  /** ... and the character just before it is not. */
  lemma {:induction false} SuffixStop(s: string, k: Chars)
    ensures SuffixWhile(s, k) < |s| ==> !In(s[|s| - 1 - SuffixWhile(s, k)], k)
  {
    if s != [] && In(s[|s| - 1], k) {
      var u := s[..|s| - 1];
      SuffixStop(u, k);
      if SuffixWhile(u, k) < |u| {
        assert s[|s| - 1 - SuffixWhile(s, k)] == u[|u| - 1 - SuffixWhile(u, k)];
      }
    }
  }

  /** The prefix measure is pinned down by `PrefixFacts` and `PrefixStop`. */
  lemma {:induction false} PrefixWhileIs(s: string, k: Chars, m: nat)
    requires m <= |s|
    requires forall i :: 0 <= i < m ==> In(s[i], k)
    requires m < |s| ==> !In(s[m], k)
    ensures PrefixWhile(s, k) == m
  {
    if m > 0 {
      var u := s[1..];
      assert In(s[0], k);
      forall i | 0 <= i < m - 1 ensures In(u[i], k) { assert u[i] == s[i + 1]; }
      if m < |s| { assert u[m - 1] == s[m]; }
      PrefixWhileIs(u, k, m - 1);
    }
  }

  /** The suffix measure is pinned down by `SuffixFacts` and `SuffixStop`. */
  lemma {:induction false} SuffixWhileIs(s: string, k: Chars, m: nat)
    requires m <= |s|
    requires forall i :: |s| - m <= i < |s| ==> In(s[i], k)
    requires m < |s| ==> !In(s[|s| - 1 - m], k)
    ensures SuffixWhile(s, k) == m
  {
    if m > 0 {
      var u := s[..|s| - 1];
      assert In(s[|s| - 1], k);
      forall i | |u| - (m - 1) <= i < |u| ensures In(u[i], k) { assert u[i] == s[i]; }
      if m < |s| { assert u[|u| - 1 - (m - 1)] == s[|s| - 1 - m]; }
      SuffixWhileIs(u, k, m - 1);
    }
  }

  /**
   * Python's `s.strip(chars)` where `k` names the characters of `chars`:
   * every leading, then every trailing character in `k` is dropped.
   */
  function StripWhere(s: string, k: Chars): (r: string)
    ensures |r| <= |s|
  {
    var t := s[PrefixWhile(s, k)..];
    t[..|t| - SuffixWhile(t, k)]
  }

  /** Once the leading characters in `k` are gone, the trailing ones are those of the whole text. */
  lemma SuffixAfterPrefix(s: string, k: Chars, a: nat)
    requires a < |s| && !In(s[a], k)
    ensures SuffixWhile(s[a..], k) < |s| - a
    ensures SuffixWhile(s[a..], k) == SuffixWhile(s, k)
  {
    var t := s[a..];
    var b := SuffixWhile(t, k);
    SuffixFacts(t, k);
    SuffixStop(t, k);
    assert t[0] == s[a];
    forall i | |s| - b <= i < |s| ensures In(s[i], k) { assert s[i] == t[i - a]; }
    assert s[|s| - 1 - b] == t[|t| - 1 - b];
    SuffixWhileIs(s, k, b);
  }

  /** `strip` removes everything exactly when every character is in `k`. */
  lemma StripWhereEmpty(s: string, k: Chars)
    ensures StripWhere(s, k) == [] <==> forall i :: 0 <= i < |s| ==> In(s[i], k)
  {
    PrefixFacts(s, k);
    PrefixStop(s, k);
    var a := PrefixWhile(s, k);
    if a < |s| {
      SuffixAfterPrefix(s, k, a);
    }
  }

  /** Otherwise what it keeps starts at the first character not in `k`. */
  lemma StripWhereFirst(s: string, k: Chars)
    requires StripWhere(s, k) != []
    ensures PrefixWhile(s, k) < |s| && StripWhere(s, k)[0] == s[PrefixWhile(s, k)]
    ensures !In(StripWhere(s, k)[0], k)
  {
    PrefixStop(s, k);
  }

  /** ... and ends at the last character not in `k`. */
  lemma StripWhereLast(s: string, k: Chars)
    requires StripWhere(s, k) != []
    ensures SuffixWhile(s, k) < |s| && Last(StripWhere(s, k)) == s[|s| - 1 - SuffixWhile(s, k)]
    ensures !In(Last(StripWhere(s, k)), k)
  {
    StripWhereSlice(s, k);
    LastOfSlice(StripWhere(s, k), s, PrefixWhile(s, k), SuffixWhile(s, k));
    SuffixStop(s, k);
  }

  /** A non-empty strip is the text between the leading and the trailing run. */
  lemma StripWhereSlice(s: string, k: Chars)
    requires StripWhere(s, k) != []
    ensures PrefixWhile(s, k) + SuffixWhile(s, k) < |s|
    ensures StripWhere(s, k) == s[PrefixWhile(s, k)..][..|s| - PrefixWhile(s, k) - SuffixWhile(s, k)]
  {
    var a := PrefixWhile(s, k);
    StripWhereStarts(s, k);
    PrefixStop(s, k);
    SuffixAfterPrefix(s, k, a);
  }

  lemma StripWhereStarts(s: string, k: Chars)
    requires StripWhere(s, k) != []
    ensures PrefixWhile(s, k) < |s|
  {
    var t := s[PrefixWhile(s, k)..];
    assert StripWhere(s, k) == t[..|t| - SuffixWhile(t, k)];
  }

  /** Text that starts and ends outside `k` is left alone. */
  lemma StripWhereKeeps(s: string, k: Chars)
    requires s != [] && !In(s[0], k) && !In(s[|s| - 1], k)
    ensures StripWhere(s, k) == s
  {
  }

  /** Python's `s.strip()`. */
  function Strip(s: string): string
  {
    StripWhere(s, Whitespace)
  }

  /** `s.strip()` is empty exactly for blank text. */
  lemma StripBlank(s: string)
    ensures Strip(s) == [] <==> IsBlank(s)
  {
    StripWhereEmpty(s, Whitespace);
  }

  /** Python's `s.split(sep)` for a one-character separator: all pieces, empty ones included. */
  function Split(s: string, sep: char): (parts: seq<string>)
    ensures |parts| >= 1
    ensures forall k :: 0 <= k < |parts| ==> sep !in parts[k]
    ensures Join(parts, [sep]) == s
  {
    if s == [] then [[]]
    else
      var rest := Split(s[1..], sep);
      if s[0] == sep then
        [[]] + rest
      else
        var parts := [[s[0]] + rest[0]] + rest[1..];
        assert |rest| > 1 ==> Join(rest, [sep]) == rest[0] + [sep] + Join(rest[1..], [sep]);
        assert parts[1..] == rest[1..];
        parts
  }

  /** Python's `sep.join(parts)`. */
  function Join(parts: seq<string>, sep: string): string
  {
    if |parts| == 0 then []
    else if |parts| == 1 then parts[0]
    else parts[0] + sep + Join(parts[1..], sep)
  }

  /** Python's `s.split()`: the maximal runs of non-whitespace characters, in order. */
  function Words(s: string): (ws: seq<string>)
    ensures s != [] && !IsSpace(s[0]) ==> ws != []
  {
    if s == [] then []
    else if IsSpace(s[0]) then Words(s[1..])
    else
      var rest := Words(s[1..]);
      if |s| > 1 && !IsSpace(s[1]) then [[s[0]] + rest[0]] + rest[1..]
      else [[s[0]]] + rest
  }

  /** No word is empty. */
  lemma {:induction false} WordsNonEmpty(s: string)
    ensures forall k :: 0 <= k < |Words(s)| ==> Words(s)[k] != []
  {
    if s != [] {
      WordsNonEmpty(s[1..]);
    }
  }

  /** There are no words exactly in blank text. */
  lemma {:induction false} WordsBlank(s: string)
    ensures Words(s) == [] <==> IsBlank(s)
  {
    if s != [] && IsSpace(s[0]) {
      var u := s[1..];
      WordsBlank(u);
      assert IsBlank(s) <==> IsBlank(u) by {
        if IsBlank(u) {
          forall i | 0 <= i < |s| ensures IsSpace(s[i]) { if i > 0 { assert s[i] == u[i - 1]; } }
        }
        if IsBlank(s) {
          forall i | 0 <= i < |u| ensures IsSpace(u[i]) { assert u[i] == s[i + 1]; }
        }
      }
    }
  }

  /** Python's `' '.join(s.split())`: whitespace runs become one space, none at the ends. */
  function Collapse(s: string): string
  {
    Join(Words(s), " ")
  }

  function Digit(d: nat): (c: char)
    requires d < 10
    ensures '0' <= c <= '9'
  {
    (48 + d) as char
  }

  /** Python's `str(n)` for a natural number. */
  function Decimal(n: nat): (r: string)
    ensures |r| >= 1
    ensures n >= 10 ==> |r| >= 2
    ensures r[|r| - 1] == Digit(n % 10)
  {
    if n < 10 then [Digit(n)] else Decimal(n / 10) + [Digit(n % 10)]
  }

  /** Different numbers have different decimal renderings. */
  lemma {:induction false} DecimalInjective(a: nat, b: nat)
    requires Decimal(a) == Decimal(b)
    ensures a == b
  {
    if a >= 10 && b >= 10 {
      var da, db := Decimal(a / 10), Decimal(b / 10);
      assert Decimal(a) == da + [Digit(a % 10)];
      assert Decimal(b) == db + [Digit(b % 10)];
      assert |da| == |db|;
      assert da == Decimal(a)[..|da|] == Decimal(b)[..|db|] == db;
      DecimalInjective(a / 10, b / 10);
    }
  }

  /**
   * Text that `' '.join(s.split())` leaves alone: every whitespace character is
   * a plain space with a non-whitespace character on each side.
   */
  ghost predicate Collapsed(s: string)
  {
    && (forall i :: 0 <= i < |s| && IsSpace(s[i]) ==> s[i] == ' ' && 0 < i < |s| - 1)
    && (forall i, j :: 0 <= i < |s| && j == i + 1 && j < |s| ==> !IsSpace(s[i]) || !IsSpace(s[j]))
  }

  lemma CollapsedSuffix(s: string, k: nat)
    requires Collapsed(s) && k <= |s| && (k < |s| ==> !IsSpace(s[k]))
    ensures Collapsed(s[k..])
  {
    var u := s[k..];
    forall i | 0 <= i < |u| && IsSpace(u[i])
      ensures u[i] == ' ' && 0 < i < |u| - 1
    {
      assert u[i] == s[k + i];
    }
    forall i, j | 0 <= i < |u| && j == i + 1 && j < |u|
      ensures !IsSpace(u[i]) || !IsSpace(u[j])
    {
      assert u[i] == s[k + i] && u[j] == s[k + j];
    }
  }

  /** Joining after growing the first piece at its front grows the result at its front. */
  lemma JoinPrepend(c: char, parts: seq<string>, sep: string)
    requires parts != []
    ensures Join([[c] + parts[0]] + parts[1..], sep) == [c] + Join(parts, sep)
  {
  }

  /** Collapsing is the identity on text already in collapsed form. */
  lemma {:induction false} CollapseOfCollapsed(s: string)
    requires Collapsed(s)
    ensures Collapse(s) == s
  {
    if |s| == 1 {
      assert Words(s) == [[s[0]]];
    } else if |s| > 1 {
      var r := s[1..];
      assert !IsSpace(s[0]);
      if !IsSpace(s[1]) {
        CollapsedSuffix(s, 1);
        CollapseOfCollapsed(r);
        JoinPrepend(s[0], Words(r), " ");
      } else {
        assert s[1] == ' ' && |s| > 2 && !IsSpace(s[2]);
        CollapsedSuffix(s, 2);
        CollapseOfCollapsed(s[2..]);
        assert r[1..] == s[2..];
        assert Words(r) == Words(s[2..]);
        assert Words(s) == [[s[0]]] + Words(r);
        assert s == [s[0]] + " " + s[2..];
      }
    }
  }

  /** Joining a non-empty list of non-empty pieces starts with the first piece's first character and ends with the last piece's last character. */
  lemma {:induction false} JoinEnds(parts: seq<string>, sep: string)
    requires |parts| >= 1
    requires forall k :: 0 <= k < |parts| ==> parts[k] != []
    ensures var j := Join(parts, sep);
      j != [] && j[0] == parts[0][0] && Last(j) == Last(Last(parts))
  {
    if |parts| > 1 {
      var tail := parts[1..];
      forall k | 0 <= k < |tail| ensures tail[k] != [] { assert tail[k] == parts[k + 1]; }
      JoinEnds(tail, sep);
      var rest := Join(tail, sep);
      assert Join(parts, sep) == parts[0] + (sep + rest);
      LastOfAppend(parts[0], sep + rest);
      LastOfAppend(sep, rest);
      assert Last(tail) == Last(parts);
    }
  }

  /** Text that is not blank has a first non-whitespace character. */
  lemma NotBlankPrefix(s: string)
    requires !IsBlank(s)
    ensures PrefixWhile(s, Whitespace) < |s|
  {
    PrefixFacts(s, Whitespace);
  }

  /** Text that is not blank has a last non-whitespace character. */
  lemma NotBlankSuffix(s: string)
    requires !IsBlank(s)
    ensures SuffixWhile(s, Whitespace) < |s|
  {
    SuffixFacts(s, Whitespace);
  }

  /** Trailing whitespace of `s` lies in `s[1..]` when that part is not blank. */
  lemma SuffixWhileOfTail(s: string)
    requires s != [] && !IsBlank(s[1..])
    ensures SuffixWhile(s, Whitespace) == SuffixWhile(s[1..], Whitespace)
  {
    var u := s[1..];
    var bu := SuffixWhile(u, Whitespace);
    SuffixFacts(u, Whitespace);
    SuffixStop(u, Whitespace);
    NotBlankSuffix(u);
    forall i | |s| - bu <= i < |s| ensures In(s[i], Whitespace) { assert s[i] == u[i - 1]; }
    assert s[|s| - 1 - bu] == u[|u| - 1 - bu];
    SuffixWhileIs(s, Whitespace, bu);
  }

  /** The first word of `s` starts at its first non-whitespace character. */
  lemma {:induction false} WordsFirst(s: string)
    requires !IsBlank(s)
    ensures PrefixWhile(s, Whitespace) < |s|
    ensures Words(s) != [] && Words(s)[0] != [] && Words(s)[0][0] == s[PrefixWhile(s, Whitespace)]
  {
    NotBlankPrefix(s);
    WordsNonEmpty(s);
    if IsSpace(s[0]) {
      var u := s[1..];
      assert !IsBlank(u) by {
        var i :| 0 <= i < |s| && !IsSpace(s[i]);
        assert u[i - 1] == s[i];
      }
      WordsFirst(u);
      assert s[PrefixWhile(s, Whitespace)] == u[PrefixWhile(u, Whitespace)];
    }
  }

  /** A single visible character followed by blank text is one one-letter word. */
  lemma WordsOfLastVisible(s: string)
    requires s != [] && !IsSpace(s[0]) && IsBlank(s[1..])
    ensures Words(s) == [[s[0]]] && SuffixWhile(s, Whitespace) == |s| - 1
  {
    var r := s[1..];
    WordsBlank(r);
    forall i | 1 <= i < |s| ensures In(s[i], Whitespace) { assert s[i] == r[i - 1]; }
    SuffixWhileIs(s, Whitespace, |r|);
  }

  /** Words before the last one do not change which character ends the last word. */
  lemma LastWordOfTail(s: string)
    requires s != [] && Words(s[1..]) != [] && Last(Words(s[1..])) != []
    ensures Words(s) != [] && Last(Words(s)) != [] && Last(Last(Words(s))) == Last(Last(Words(s[1..])))
  {
    var rest := Words(s[1..]);
    var z := Last(rest);
    if IsSpace(s[0]) {
      assert Words(s) == rest;
    } else if |s| > 1 && !IsSpace(s[1]) {
      var w := [s[0]] + rest[0];
      assert Words(s) == [w] + rest[1..];
      if |rest| == 1 {
        assert [w] + rest[1..] == [w];
        assert w == [s[0]] + z;
        LastOfCons(s[0], z);
      } else {
        LastOfReplacedHead(w, rest);
      }
    } else {
      assert Words(s) == [[s[0]]] + rest;
      LastOfCons([s[0]], rest);
    }
  }

  /** The last word of `s` ends at its last non-whitespace character. */
  lemma {:induction false} WordsLast(s: string)
    requires !IsBlank(s)
    ensures SuffixWhile(s, Whitespace) < |s|
    ensures Words(s) != [] && Last(Words(s)) != []
    ensures Last(Last(Words(s))) == s[|s| - 1 - SuffixWhile(s, Whitespace)]
  {
    NotBlankSuffix(s);
    var r := s[1..];
    if IsBlank(r) {
      WordsOfLastVisible(s);
      assert |s| - 1 - SuffixWhile(s, Whitespace) == 0;
    } else {
      WordsLast(r);
      LastWordOfTail(s);
      SuffixWhileOfTail(s);
      var b := SuffixWhile(r, Whitespace);
      var j := |s| - 1 - b;
      assert |r| - 1 - b == j - 1;
      assert r[j - 1] == s[j];
    }
  }

  lemma CollapseFirst(s: string)
    requires !IsBlank(s)
    ensures PrefixWhile(s, Whitespace) < |s|
    ensures Collapse(s) != [] && Collapse(s)[0] == s[PrefixWhile(s, Whitespace)]
  {
    WordsFirst(s);
    WordsNonEmpty(s);
    JoinEnds(Words(s), " ");
  }

  lemma CollapseLast(s: string)
    requires !IsBlank(s)
    ensures SuffixWhile(s, Whitespace) < |s|
    ensures Collapse(s) != [] && Last(Collapse(s)) == s[|s| - 1 - SuffixWhile(s, Whitespace)]
  {
    WordsLast(s);
    WordsNonEmpty(s);
    JoinEnds(Words(s), " ");
  }

  /** `' '.join(s.split())` is empty exactly for blank text. */
  lemma CollapseBlank(s: string)
    ensures Collapse(s) == [] <==> IsBlank(s)
  {
    WordsBlank(s);
    if !IsBlank(s) {
      CollapseFirst(s);
    }
  }
}
