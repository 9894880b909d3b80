/** `extract_inn` (analyze.py:35-39): each first-column value is stripped of newlines
    and spaces and, when the INN pattern `\b\d{10,12}\b` occurs in it, replaced by
    the leftmost occurrence; otherwise the stripped text is kept as it is. */
module InnExtraction {
  import opened Wrappers
  import opened Text
  import opened Sequences

  // ---------------------------------------------------------------------------
  // Cleaning: `str(x).replace('\n', '').replace(' ', '')`
  // ---------------------------------------------------------------------------

  /** `s.replace(c, '')`. */
  function RemoveChar(s: string, c: char): (r: string)
    ensures |r| <= |s|
  {
    if s == [] then []
    else if s[0] == c then RemoveChar(s[1..], c)
    else [s[0]] + RemoveChar(s[1..], c)
  }

  /** The two `replace` calls of analyze.py:38, newline first, then space. */
  function Clean(s: string): (r: string)
    ensures r == DropSeparators(s)
    ensures forall i :: 0 <= i < |r| ==> !IsSeparator(r[i])
  {
    RemoveCharDropSeparators(s);
    DropSeparatorsLeavesNone(s);
    RemoveChar(RemoveChar(s, '\n'), ' ')
  }

  predicate IsSeparator(c: char)
  {
    c == '\n' || c == ' '
  }

  /** Reference definition: one pass that drops every newline and space. */
  function DropSeparators(s: string): string
  {
    if s == [] then []
    else if IsSeparator(s[0]) then DropSeparators(s[1..])
    else [s[0]] + DropSeparators(s[1..])
  }

  lemma {:induction false} RemoveCharDropSeparators(s: string)
    ensures RemoveChar(DropSeparators(s), ' ') == DropSeparators(s)
    ensures RemoveChar(RemoveChar(s, '\n'), ' ') == DropSeparators(s)
  {
    if s != [] {
      RemoveCharDropSeparators(s[1..]);
      if s[0] != '\n' {
        assert RemoveChar(s, '\n') == [s[0]] + RemoveChar(s[1..], '\n');
        assert ([s[0]] + RemoveChar(s[1..], '\n'))[1..] == RemoveChar(s[1..], '\n');
      }
      if !IsSeparator(s[0]) {
        assert ([s[0]] + DropSeparators(s[1..]))[1..] == DropSeparators(s[1..]);
      }
    }
  }

  /** Cleaning keeps the other characters in their order ... */
  lemma {:induction false} DropSeparatorsKeepsOrder(s: string)
    ensures IsSubsequence(DropSeparators(s), s)
  {
    if s != [] {
      DropSeparatorsKeepsOrder(s[1..]);
      var r := DropSeparators(s[1..]);
      if !IsSeparator(s[0]) {
        assert ([s[0]] + r)[0] == s[0] && ([s[0]] + r)[1..] == r;
      }
    }
  }

  /** ... each with its multiplicity, and deletes every newline and space. */
  lemma {:induction false} DropSeparatorsCounts(s: string)
    ensures multiset(DropSeparators(s)) == multiset(s)['\n' := 0][' ' := 0]
  {
    if s != [] {
      DropSeparatorsCounts(s[1..]);
      assert s == [s[0]] + s[1..];
    }
  }

  /** No newline or space survives cleaning. */
  lemma {:induction false} DropSeparatorsLeavesNone(s: string)
    ensures forall i :: 0 <= i < |DropSeparators(s)| ==> !IsSeparator(DropSeparators(s)[i])
  {
    if s != [] {
      DropSeparatorsLeavesNone(s[1..]);
    }
  }

  /** A string with no newline or space is left unchanged by cleaning. */
  lemma {:induction false} DropSeparatorsNoop(s: string)
    requires forall i :: 0 <= i < |s| ==> !IsSeparator(s[i])
    ensures DropSeparators(s) == s
  {
    if s != [] {
      DropSeparatorsNoop(s[1..]);
      assert s == [s[0]] + s[1..];
    }
  }

  /** Cleaning twice is cleaning once. */
  lemma CleanIdempotent(s: string)
    ensures Clean(Clean(s)) == Clean(s)
  {
    DropSeparatorsLeavesNone(s);
    DropSeparatorsNoop(Clean(s));
  }

  // ---------------------------------------------------------------------------
  // The pattern `\b\d{10,12}\b` under `re.search`
  // ---------------------------------------------------------------------------

  /** `\b` at position p: exactly one of the characters around p is a word character
      (a string end counts as a non-word character). */
  predicate IsWordBoundary(s: string, p: int)
    requires 0 <= p <= |s|
  {
    (p > 0 && IsWordChar(s[p - 1])) != (p < |s| && IsWordChar(s[p]))
  }

  /** `\b\d{k}\b` with 10 <= k <= 12 matches s from position i. */
  predicate MatchesAt(s: string, i: int, k: int)
  {
    0 <= i && 10 <= k <= 12 && i + k <= |s|
    && IsWordBoundary(s, i)
    && (forall j :: i <= j < i + k ==> IsDigit(s[j]))
    && IsWordBoundary(s, i + k)
  }

  /** `re.search` tries the start positions from left to right and stops at the first
      one where the pattern matches. */
  ghost predicate IsLeftmostMatch(s: string, i: int, k: int)
  {
    MatchesAt(s, i, k) && forall j, m :: 0 <= j < i ==> !MatchesAt(s, j, m)
  }

  ghost predicate HasMatch(s: string)
  {
    exists i, k :: MatchesAt(s, i, k)
  }

  /** s[i..i+k] is a whole run of digits: no digit just before or just after it. */
  predicate IsDigitRun(s: string, i: int, k: int)
  {
    0 <= i && 0 < k && i + k <= |s|
    && (forall j :: i <= j < i + k ==> IsDigit(s[j]))
    && (i == 0 || !IsDigit(s[i - 1]))
    && (i + k == |s| || !IsDigit(s[i + k]))
  }

  /** Because a digit is itself a word character, the pattern matches exactly the
      whole digit runs of length 10 to 12 that have no word character beside them:
      greedy `\d{10,12}` with backtracking can never stop inside a run. */
  lemma MatchIsIsolatedRun(s: string, i: int, k: int)
    ensures MatchesAt(s, i, k) <==>
      IsDigitRun(s, i, k) && 10 <= k <= 12
      && (i == 0 || !IsWordChar(s[i - 1]))
      && (i + k == |s| || !IsWordChar(s[i + k]))
  {
    if MatchesAt(s, i, k) {
      assert IsDigit(s[i]) && IsDigit(s[i + k - 1]);
    }
  }

  /** At one start position at most one length matches, so the greedy choice among
      12, 11 and 10 digits does not matter. */
  lemma MatchLengthUnique(s: string, i: int, k: int, m: int)
    requires MatchesAt(s, i, k) && MatchesAt(s, i, m)
    ensures k == m
  {
  }

  /** The leftmost match is unique: the pattern determines the search result. */
  lemma LeftmostMatchUnique(s: string, i: int, k: int, j: int, m: int)
    requires IsLeftmostMatch(s, i, k) && IsLeftmostMatch(s, j, m)
    ensures i == j && k == m
  {
    if i == j {
      MatchLengthUnique(s, i, k, m);
    }
  }

  /** A whole digit run of 9 digits or fewer, or of 13 or more, is never matched,
      and no match overlaps it. */
  lemma OutOfRangeRunNeverMatches(s: string, i: int, k: int)
    requires IsDigitRun(s, i, k) && (k < 10 || k > 12)
    ensures forall j, m :: MatchesAt(s, j, m) ==> j + m <= i || i + k <= j
  {
    forall j, m | MatchesAt(s, j, m) && !(j + m <= i || i + k <= j)
      ensures false
    {
      MatchIsIsolatedRun(s, j, m);
    }
  }

  // ---------------------------------------------------------------------------
  // A scanning search, proved to find the leftmost match
  // ---------------------------------------------------------------------------

  /** The number of consecutive digits of s starting at position i. */
  function DigitRunLength(s: string, i: nat): (n: nat)
    requires i <= |s|
    ensures i + n <= |s|
    ensures forall j :: i <= j < i + n ==> IsDigit(s[j])
    ensures i + n == |s| || !IsDigit(s[i + n])
    decreases |s| - i
  {
    if i < |s| && IsDigit(s[i]) then 1 + DigitRunLength(s, i + 1) else 0
  }

  /** A match position and the number of digits matched: `m.start()` and `len(m.group())`. */
  datatype Span = Span(start: nat, length: nat)

  /** Scanning from position i: a non-digit is skipped, a run of digits is measured
      once and either reported or skipped as a whole. */
  function SearchFrom(s: string, i: nat): (r: Option<Span>)
    requires i <= |s|
    ensures r.Some? ==> i <= r.value.start && MatchesAt(s, r.value.start, r.value.length)
    ensures r.Some? ==> forall j, m :: i <= j < r.value.start ==> !MatchesAt(s, j, m)
    ensures r.None? ==> forall j, m :: i <= j ==> !MatchesAt(s, j, m)
    decreases |s| - i
  {
    if i == |s| then None
    else if !IsDigit(s[i]) then SearchFrom(s, i + 1)
    else
      var n := DigitRunLength(s, i);
      if 10 <= n <= 12 && (i == 0 || !IsWordChar(s[i - 1])) && (i + n == |s| || !IsWordChar(s[i + n]))
      then Some(Span(i, n))
      else
        NoMatchInRun(s, i, n);
        SearchFrom(s, i + n)
  }

  /** No match starts inside a digit run that the scan skips. */
  lemma NoMatchInRun(s: string, i: int, n: int)
    requires 0 <= i && 0 < n && i + n <= |s|
    requires forall j :: i <= j < i + n ==> IsDigit(s[j])
    requires i + n == |s| || !IsDigit(s[i + n])
    requires !(10 <= n <= 12 && (i == 0 || !IsWordChar(s[i - 1])) && (i + n == |s| || !IsWordChar(s[i + n])))
    ensures forall j, m :: i <= j < i + n ==> !MatchesAt(s, j, m)
  {
    forall j, m | i <= j < i + n && MatchesAt(s, j, m)
      ensures false
    {
      MatchIsIsolatedRun(s, j, m);
    }
  }

  /** `re.search(r'\b\d{10,12}\b', s)`. */
  function Search(s: string): (r: Option<Span>)
    ensures r.Some? ==> IsLeftmostMatch(s, r.value.start, r.value.length)
    ensures r.None? <==> !HasMatch(s)
  {
    SearchFrom(s, 0)
  }

  // ---------------------------------------------------------------------------
  // extract_inn
  // ---------------------------------------------------------------------------

  /** The per-cell lambda of analyze.py:38: the leftmost INN-shaped run of the cleaned
      text, or the cleaned text when there is none. */
  function NormalizeCell(cell: string): (r: string)
    ensures HasMatch(Clean(cell)) ==>
      IsDigits(r) && 10 <= |r| <= 12
      && exists i :: 0 <= i <= |Clean(cell)| - |r| && IsLeftmostMatch(Clean(cell), i, |r|)
                     && r == Clean(cell)[i..i + |r|]
    ensures !HasMatch(Clean(cell)) ==> r == Clean(cell)
  {
    var text := Clean(cell);
    match Search(text)
    case Some(m) => text[m.start..m.start + m.length]
    case None => text
  }

  /** `extract_inn(df)`: one value per row of column 0, in row order. */
  function ExtractInn(column: seq<string>): (inns: seq<string>)
    ensures |inns| == |column|
    ensures forall i :: 0 <= i < |column| ==> inns[i] == NormalizeCell(column[i])
  {
    if column == [] then [] else [NormalizeCell(column[0])] + ExtractInn(column[1..])
  }

  /** A string that is a whole INN-shaped run is its own leftmost match. */
  lemma WholeRunIsLeftmostMatch(s: string)
    requires IsDigits(s) && 10 <= |s| <= 12
    ensures IsLeftmostMatch(s, 0, |s|)
  {
  }

  /** Normalising a value that is already normalised changes nothing, so running
      `extract_inn` again over its own output gives the same list. */
  lemma NormalizeCellIdempotent(cell: string)
    ensures NormalizeCell(NormalizeCell(cell)) == NormalizeCell(cell)
  {
    if HasMatch(Clean(cell)) {
      MatchedInnIsFixed(NormalizeCell(cell));
    } else {
      CleanIdempotent(cell);
    }
  }

  /** An INN-shaped value normalises to itself. */
  lemma MatchedInnIsFixed(r: string)
    requires IsDigits(r) && 10 <= |r| <= 12
    ensures NormalizeCell(r) == r
  {
    CleanDigits(r);
    WholeRunIsLeftmostMatch(r);
    var r2 := NormalizeCell(r);
    var i :| 0 <= i <= |r| - |r2| && IsLeftmostMatch(r, i, |r2|) && r2 == r[i..i + |r2|];
    LeftmostMatchUnique(r, 0, |r|, i, |r2|);
    assert r2 == r[0..|r|];
  }

  /** Digits are not touched by cleaning. */
  lemma CleanDigits(r: string)
    requires IsDigits(r)
    ensures Clean(r) == r
  {
    assert forall j :: 0 <= j < |r| ==> !IsSeparator(r[j]);
    DropSeparatorsNoop(r);
  }

  /** The numeric filter applied after `extract_inn` keeps a value exactly when its
      cleaned cell contains the pattern, or is itself all digits (of any length). */
  lemma NormalizeCellIsDigits(cell: string)
    ensures IsDigits(NormalizeCell(cell)) <==> HasMatch(Clean(cell)) || IsDigits(Clean(cell))
  {
  }

  /** Surrounding spaces and a trailing newline are cleaned away before matching. */
  lemma NormalizeCellSpacedInn()
    ensures NormalizeCell(" 1234567890 \n") == "1234567890"
  {
    var inn := "1234567890";
    var cell := " 1234567890 \n";
    assert cell == [' '] + inn + [' ', '\n'];
    assert IsDigits(inn);
    NormalizePaddedInn(inn);
  }

  /** An INN padded with spaces and a newline normalises to the bare INN. */
  lemma NormalizePaddedInn(inn: string)
    requires IsDigits(inn) && 10 <= |inn| <= 12
    ensures NormalizeCell([' '] + inn + [' ', '\n']) == inn
  {
    assert [' '] + inn + [' ', '\n'] == " " + inn + " \n";
    CleanPadded(inn);
    MatchedInnIsFixed(inn);
    NormalizeCellOfClean(" " + inn + " \n", inn);
  }

  /** The result depends on the cell only through its cleaned text. */
  lemma NormalizeCellOfClean(a: string, b: string)
    requires Clean(a) == Clean(b)
    ensures NormalizeCell(a) == NormalizeCell(b)
  {
  }

  /** Spaces and newlines around a value are cleaned away. */
  lemma CleanPadded(inn: string)
    requires IsDigits(inn)
    ensures Clean(" " + inn + " \n") == Clean(inn)
  {
    DropSeparatorsAppend(" ", inn);
    DropSeparatorsAppend(" " + inn, " \n");
    assert DropSeparators(" ") == [];
    assert DropSeparators(" \n") == [];
  }

  /** Text without a 10-12 digit run passes through cleaned and otherwise unchanged. */
  lemma NormalizeCellNoInn()
    ensures NormalizeCell("ABC-123") == "ABC-123"
  {
    var text := "ABC-123";
    assert forall j :: 0 <= j < |text| ==> !IsSeparator(text[j]);
    DropSeparatorsNoop(text);
    ShortTextHasNoMatch(text);
  }

  /** Fewer than ten characters cannot hold an INN. */
  lemma ShortTextHasNoMatch(s: string)
    requires |s| < 10
    ensures !HasMatch(s)
  {
  }

  lemma {:induction false} DropSeparatorsAppend(a: string, b: string)
    ensures DropSeparators(a + b) == DropSeparators(a) + DropSeparators(b)
  {
    if a == [] {
      assert a + b == b;
    } else {
      DropSeparatorsAppend(a[1..], b);
      assert (a + b)[0] == a[0] && (a + b)[1..] == a[1..] + b;
      if !IsSeparator(a[0]) {
        assert DropSeparators(a + b) == [a[0]] + (DropSeparators(a[1..]) + DropSeparators(b));
      }
    }
  }
}
