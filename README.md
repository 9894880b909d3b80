# INN extraction and roster comparison — a Dafny model

The program reads the tables of two PDF documents (an "old" and a "new" client
roster), keeps the rows whose first cell has text, turns the first column into
tax identification numbers (INNs), keeps only the all-digit values and reports
which INNs were added and which were removed, together with the number of
numeric values in each document.

This project models that pipeline, stage by stage:

- `RowFilter` (`row_filter.dfy`): the loop of `save_tables_to_xlsx` that walks
  every row of every table and appends a row to the worksheet when its first
  cell is truthy. The loop is an imperative method, `SaveTables`, proved equal
  to the specification function `KeptRows`, which in turn is proved to be the
  filter of the flattened tables that keeps exactly the rows with text, in order.
- `InnExtraction` (`inn_extraction.dfy`): `extract_inn`. Cleaning (the two
  `str.replace` calls) is proved to delete exactly the newlines and spaces and to
  keep every other character in order. The pattern `\b\d{10,12}\b` is stated
  declaratively (`MatchesAt`, with Python's word-boundary rule), and the leftmost
  match that `re.search` returns is `IsLeftmostMatch`. A scanning search that
  measures digit runs is proved to return exactly that match, or nothing when
  there is none. The match is shown to be a whole digit run of 10 to 12 digits
  with no word character beside it; runs of 9 or fewer, or 13 or more, digits
  are never matched.
- `Reconciliation` (`reconciliation.dfy`): `compare_clients`, the two set
  differences, each listed without duplicates.
- `Comparison` (`comparison.dfy`): the non-interface part of
  `GUI.compare_files`: the `isdigit` filter, the two counts (duplicates
  included) and the composition of the whole pipeline.
- `Text`, `Sequences`, `Wrappers`: character classes, subsequence and
  distinctness facts, and the Option type.

Only `None` and `""` are falsy first cells: pdfplumber cells are strings or
`None`, so a cell holding `"0"` is kept. Rows whose first cell is `None` are
dropped before the first column is turned into text, so the text `"None"`
never reaches the normaliser.

## Model

| member | source | states |
|---|---|---|
| Text.IsDigit | analyze.py:37 | definition: `\d`, an ASCII decimal digit |
| Text.IsWordChar | analyze.py:37 | definition: `\w`, an ASCII letter, digit or `_`, or a basic Cyrillic letter |
| Text.IsDigits | analyze.py:132 | definition: `str.isdigit()`, non-empty and all ASCII digits, so `""` fails as it does in Python |
| RowFilter.IsTruthy | analyze.py:24 | definition: Python truthiness of a str-or-None cell, false exactly for `None` and `""`; `RowsWithTextMembers` gives it its meaning for the filter |
| RowFilter.HasText | analyze.py:24 | definition: the test `if row[0]:`; `RowsWithTextMembers` characterises the rows kept |
| RowFilter.KeptRows | analyze.py:22-25 | the rows the nested loop appends are never more than all rows of all tables; `KeptRowsIsFilteredFlatten` gives their exact content |
| RowFilter.SaveTables | analyze.py:18-26 | the rows appended to the worksheet are exactly `KeptRows(tables)`, the kept rows of each table, table after table |
| RowFilter.RowsWithText | analyze.py:23-25 | filtering one table never yields more rows than it has |
| RowFilter.RowsWithTextMembers | analyze.py:24-25 | a row is kept if and only if it is one of the input rows and its first cell is neither `None` nor `""` |
| RowFilter.RowsWithTextKeepsOrder | analyze.py:22-25 | the kept rows are a subsequence of the input rows: their order is preserved |
| RowFilter.RowsWithTextAppend | analyze.py:22-25 | filtering a concatenation is the concatenation of the filtered parts |
| RowFilter.KeptRowsIsFilteredFlatten | analyze.py:22-25 | what the nested loop keeps equals the filter applied to all rows of all tables in table-then-row order |
| InnExtraction.RemoveChar | analyze.py:38 | `str.replace(c, '')` never lengthens the text |
| InnExtraction.Clean | analyze.py:38 | the two `replace` passes equal one pass deleting every newline and space, and no newline or space is left |
| InnExtraction.DropSeparatorsKeepsOrder | analyze.py:38 | the cleaned text is a subsequence of the cell text |
| InnExtraction.DropSeparatorsCounts | analyze.py:38 | the cleaned text holds every other character with its original multiplicity and no newline or space |
| InnExtraction.DropSeparatorsLeavesNone | analyze.py:38 | no newline or space is left after cleaning |
| InnExtraction.DropSeparatorsNoop | analyze.py:38 | text without newlines and spaces is left unchanged |
| InnExtraction.DropSeparatorsAppend | analyze.py:38 | cleaning a concatenation cleans each part |
| InnExtraction.CleanIdempotent | analyze.py:38 | cleaning twice is cleaning once |
| InnExtraction.IsWordBoundary | analyze.py:37 | definition: `\b` at position p, where exactly one of the neighbouring characters is a word character (a string end counts as a non-word character) |
| InnExtraction.MatchesAt | analyze.py:37 | definition: `\b\d{k}\b` with 10 <= k <= 12 matching from position i; `MatchIsIsolatedRun` characterises it as a whole isolated digit run |
| InnExtraction.IsLeftmostMatch | analyze.py:37-38 | definition: a match with none starting earlier, the one `re.search` returns; `LeftmostMatchUnique` shows it is unique and `Search` computes it |
| InnExtraction.HasMatch | analyze.py:38 | definition: the test `if re.search(inn_pattern, x)`, true when the pattern matches somewhere in the text; `Search` returns nothing exactly when it is false |
| InnExtraction.MatchIsIsolatedRun | analyze.py:37 | `\b\d{k}\b` matches at i if and only if s[i..i+k] is a whole digit run with 10 <= k <= 12 and no word character just before or after it |
| InnExtraction.MatchLengthUnique | analyze.py:37 | at one position at most one length matches, so greedy backtracking over 12, 11, 10 digits is immaterial |
| InnExtraction.LeftmostMatchUnique | analyze.py:37-38 | the leftmost match is unique, so the search result is determined by the pattern |
| InnExtraction.OutOfRangeRunNeverMatches | analyze.py:37 | a whole digit run shorter than 10 or longer than 12 is never matched and no match overlaps it |
| InnExtraction.DigitRunLength | analyze.py:37 | the length returned is that of the maximal run of digits starting at i |
| InnExtraction.SearchFrom | analyze.py:38 | the scan from i returns a match with no match between i and it, or nothing when no match starts at or after i |
| InnExtraction.NoMatchInRun | analyze.py:37 | a skipped digit run contains no match start |
| InnExtraction.Search | analyze.py:38 | `re.search` returns the leftmost match, and returns nothing exactly when the pattern occurs nowhere |
| InnExtraction.NormalizeCell | analyze.py:38 | with a match the result is the leftmost 10-12 digit INN of the cleaned text, a substring of it; without one it is the cleaned text |
| InnExtraction.ExtractInn | analyze.py:35-39 | one normalised value per row of column 0, in row order |
| InnExtraction.WholeRunIsLeftmostMatch | analyze.py:37 | a 10-12 digit string matches from its first character |
| InnExtraction.NormalizeCellIdempotent | analyze.py:38 | normalising an already normalised value returns it unchanged |
| InnExtraction.MatchedInnIsFixed | analyze.py:38 | a 10-12 digit value normalises to itself |
| InnExtraction.NormalizeCellIsDigits | analyze.py:38 | a normalised value passes `isdigit` if and only if its cleaned cell contains the pattern or is itself all digits |
| InnExtraction.NormalizeCellSpacedInn | analyze.py:38 | `" 1234567890 \n"` normalises to `"1234567890"` |
| InnExtraction.NormalizePaddedInn | analyze.py:38 | any 10-12 digit INN padded with a leading space and a trailing space and newline normalises to the bare INN |
| InnExtraction.NormalizeCellOfClean | analyze.py:38 | two cells with the same cleaned text normalise to the same value |
| InnExtraction.NormalizeCellNoInn | analyze.py:38 | `"ABC-123"` passes through unchanged |
| InnExtraction.ShortTextHasNoMatch | analyze.py:37 | text shorter than ten characters holds no INN |
| Sequences.Elements | analyze.py:44-45 | definition: Python's `set(xs)`, the elements of a list without order or repetition; `ElementsBound` bounds its size by the list's length |
| Reconciliation.DistinctNotIn | analyze.py:44-45 | lists each element of the input that is not excluded, exactly once |
| Reconciliation.CompareClients | analyze.py:42-46 | `added` holds exactly the distinct INNs of the new list not in the old one, `removed` the converse, neither with duplicates |
| Reconciliation.AddedRemovedDisjoint | analyze.py:44-45 | no INN is both added and removed |
| Reconciliation.SameElementsNoDiff | analyze.py:44-45 | lists with the same INNs, whatever their order and repetition, give two empty results |
| Reconciliation.CompareClientsSwap | analyze.py:44-45 | swapping the old and new lists swaps added and removed |
| Reconciliation.DiffSizeBound | analyze.py:44-45 | each result is no longer than the number of distinct INNs it comes from, which is at most that list's length |
| Comparison.NumericOnly | analyze.py:132 | keeps exactly the values that are non-empty and all digits, each as many times as it occurs in the input (duplicates kept) |
| Comparison.NumericOnlyOfDigits | analyze.py:132 | a list of all-digit values passes the filter unchanged |
| Comparison.NumericOnlyKeepsOrder | analyze.py:132 | the numeric filter preserves the order of the surviving values |
| Comparison.FirstColumn | analyze.py:38 | column 0 holds the text of each worksheet row's first cell, row by row |
| Comparison.KeptRowsHaveText | analyze.py:24-25 | every row on the worksheet has a non-empty text first cell |
| Comparison.DocumentInns | analyze.py:123-130 | one document yields one normalised value per kept row, in order |
| Comparison.Reconcile | analyze.py:132-144 | added and removed are exactly the all-digit INNs of one list missing from the other, without duplicates; the counts are the filtered lengths and bound the result sizes |
| Comparison.CompareDocuments | analyze.py:117-144 | the reported INNs are exactly the all-digit values of one document absent from the other, without duplicates; each count is the length of that document's filtered list, duplicates included, and at most its number of kept rows |
| Comparison.CountAtLeastDistinct | analyze.py:143-144 | each displayed count, duplicates included, is at least the number of distinct numeric INNs |
| Comparison.EmptyDocuments | analyze.py:117-144 | documents without tables give empty lists and zero counts in the model; the program itself raises here (see ## Left out) |
| Comparison.ReconcileScenario | analyze.py:132-144 | old `[1234567890, 9876543210]` against new `[1234567890, 1111111111]` gives added `[1111111111]`, removed `[9876543210]` and counts 2 and 2 |

## Left out

- `extract_tables_from_pdf` (analyze.py:9-15) wraps pdfplumber's layout engine, a foreign library; its result is the input `seq<Table>` of the model.
- The worksheet round trip through `old_file.xlsx` / `new_file.xlsx` (analyze.py:20-32, 120-127) is file I/O through openpyxl and pandas; the model passes the appended rows on directly. openpyxl storing a cell text that starts with `=` as a formula (analyze.py:25), which pandas then reads back as empty, pandas' type coercion (numeric-looking text read back as numbers, `nan` cells) and the crash of `df.iloc[:, 0]` on an empty worksheet are not modelled; column 0 is the text of each kept row's first cell.
- An empty row makes `row[0]` raise IndexError (analyze.py:24); `SaveTables` and `CompareDocuments` require every row to have a first cell instead of modelling the crash.
- Python's `\d`, `\w` and `str.isdigit()` accept all Unicode digits and letters; the model uses the ASCII digits and, for word characters, ASCII letters, digits, `_` and the basic Cyrillic alphabet.
- CompareClients: Python's `list(set(...))` order depends on string hashing; the model lists each INN at its first occurrence, and its contract states only the element set and the absence of duplicates.
- The `GUI` class (analyze.py:49-170): Tk widgets, file dialogs, tree views, labels and clipboard copy are user interface.
