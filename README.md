# jr-auto core, modelled in Dafny

jr-auto collects public procurement notices from the SEACE search portal. It does this for
construction works ("obras") and for glazing ("vidrios"), and keeps one spreadsheet report
per class and year up to date. A run:

- fetches notices through the portal's date-range search, bisecting any range whose export
  reaches the portal's 499-row cap;
- checks the column header of every export;
- for works, keeps the notices above a value threshold (or without a readable value), sorts
  them by value, and files them under keyword sheets;
- merges the fresh rows into the sheets of the previous report by their Nomenclatura key;
- writes the report sorted newest first, copying each row's manual cell shading from the row
  where the previous report showed that record.

This project models all of that in `main.py`, with the browser work, the files and the
clock abstracted away.

Modules, one per piece of the program:

- `Spans`: closed day ranges, the bisection midpoint, and `Tiles`. `Tiles(ws, lo, hi)` says
  the ranges `ws` cut `[lo, hi]` into consecutive non-empty pieces.
- `Bisection`: `general_query_data_recursive`. The fetcher is a function parameter.
- `Header`: `validate_dataframe_header`.
- `Records`: the row types, `str.capitalize`, the case-insensitive keyword test and the
  boolean-mask filter.
- `Classify`: `filter_data_obras`.
- `Merge`: `prepare_data_for_excel`. This is a class holding the ordered bucket map, which the
  method updates in place.
- `Layout` and `Render`: the `temp_index` sort of `data_to_excel`, and the fill mapping of
  `format_table`.
  - The sort is an in-place insertion sort on two parallel arrays: the rows and their
    `temp_index` column.
  - The fill mapping is a row loop over a 2-D array of fills.
- `Calendar`: dates as day ordinals, counted as Python's `date.toordinal` counts them.
- `Windows`: the window loops of `query_obras_data` and `query_vidrios_data`. Each loop is a
  method, proved equal to a specification function, and the lemmas are about those functions.

Notes on the code, which the model follows as written:

- The comment at main.py:121-122 guards against a split that does not shrink the range.
  That cannot happen: for `start < end` the midpoint lies strictly before `end`. Even a
  two-day range splits, at its first day, so the `mid >= end` return at main.py:123-124 is
  dead code (`Bisection.SplitShrinks`, `Bisection.LeavesAccepted`).
- A single day whose export reaches the cap is returned as fetched, without any signal. The
  completeness lemmas for a capped portal therefore assume that no single day reaches the cap.
- Keyword sheets are drawn from the filtered, sorted main sheet, not from all fetched rows.
- The merge appends every fresh row whose key is not in the previous sheet. Two fresh rows
  that share a new key are both appended.
- The given year is always fetched in 15-day windows, whether or not it is the current year.
- A current year of more than 300 days behind an earlier given year is meant to be fetched in
  two halves. The code for the second half calls `timedelta`, which `main.py` does not import,
  so that run stops with a `NameError`. The model returns the error outcome
  `UndefinedTimedelta` and does not silently do the intended split.

## Model

| member | source | states |
|---|---|---|
| Spans.Mid | main.py:118-119 | The midpoint lies in `[start, end]`, and strictly before `end` whenever `start < end` |
| Bisection.Query | main.py:103-131 | The model of `general_query_data_recursive`. It has no contract of its own; `AcceptedPage`, `SplitShrinks`, `QueryIsLeafPages`, `LeavesTile`, `LeavesAccepted`, `QueryComplete` and the capped-source lemmas below state its properties |
| Bisection.AcceptedPage | main.py:105-115 | An empty range gives no rows. A page under the cap, or the page of a single day, is returned exactly as fetched, even when that single day reaches the cap |
| Bisection.SplitShrinks | main.py:118-124 | For `start < end`: `start <= mid < end`, so both halves are non-empty and strictly shorter, and the `mid >= end` guard is unreachable |
| Bisection.QueryIsLeafPages | main.py:126-131 | The result is the concatenation of the pages of the leaf ranges, left half before right half |
| Bisection.LeavesTile | main.py:118-131 | The leaf ranges cut `[start, end]` into disjoint, consecutive ranges in left-to-right order, missing no day |
| Bisection.LeavesAccepted | main.py:114-124 | Every leaf was accepted because its page is under the cap or it is a single day. The `mid >= end` fallback never produces a leaf |
| Bisection.QueryComplete | main.py:103-131 | If the fetcher is additive, bisection loses and duplicates no row: the result equals the page of the whole range, whichever pages reached the cap |
| Bisection.CappedQueryComplete | main.py:103-131 | Against a portal that exports a range whole when it holds fewer than 499 rows, and otherwise any page of 499 rows or more: if the underlying data is additive and no single day reaches the cap, bisection returns exactly the data of the whole range |
| Bisection.CappedQueryMultiset | main.py:103-131 | The same for data listed in any order within a range, such as newest first: the result holds exactly the rows of the range, each as often as the data holds it |
| Bisection.LeafPagesAreData | main.py:114-115 | Against such a portal, with no single day at the cap, every page that bisection keeps is a whole page |
| Header.Rename | main.py:81-82 | The header after `df.rename(columns=..., errors='ignore')`: each name in the map is replaced and every other name is kept. It has no contract of its own; `ValidateHeader` and `AcceptedHeaders` state what the check makes of it |
| Header.ValidateHeader | main.py:65-101 | Succeeds iff the header is the required one, or the map is non-empty and renaming makes it the required one. On success the value is the required header. A wrong header with an empty map fails with the no-map error. A failure after a non-empty map is the after-rename error |
| Header.ValidatedIsStable | main.py:65-69 | A header that passed the check passes it again, unchanged, with any map |
| Header.AcceptedHeaders | main.py:81-93 | With the fetchers' rename map (main.py:28-30), exactly two headers are accepted: the required one, and the one that gives column 8 its older name |
| Records.DropNumber | main.py:363-365 | Dropping the `N°` column keeps every row, in order, without its number |
| Records.Capitalize | main.py:137 | The sheet name keeps its length. Its first character is upper-cased and every other character is lower-cased |
| Records.ContainsAt | main.py:382 | The substring test holds exactly when the keyword starts at some position of the description |
| Records.Select | main.py:371-372 | Masking keeps each row that satisfies the mask as often as it occurs and no other row, in the original order |
| Classify.Keep | main.py:371 | The row mask: the value is unreadable or above the bound. It has no contract of its own; `RetainedRows` and `FilterDataObras` state its use |
| Classify.InsertKeepsSorted | main.py:375 | Inserting a row into a list ordered by value, descending with unknown values first, keeps it ordered |
| Classify.SortByValue | main.py:375 | The sort is a permutation of its input, ordered by value, descending, with unknown values first |
| Classify.KeywordBuckets | main.py:380-382 | One bucket per keyword, named by it. Each is a subsequence of the rows and holds exactly the rows whose description contains the keyword, with their multiplicities |
| Classify.FilterDataObras | main.py:356-385 | The main sheet comes first: exactly the masked rows, with multiplicity, sorted. One sheet per keyword follows, in order. Each keyword sheet is a subsequence of the main sheet and holds exactly its matching rows |
| Classify.RetainedRows | main.py:368-372 | A row is in the main sheet iff it was exported and its value is unreadable or above the bound. So unreadable values are always kept |
| Classify.UnknownValuesFirst | main.py:375 | In the main sheet, rows with unknown values precede rows with known values, and known values are non-increasing |
| Classify.KeywordBucketMembership | main.py:380-383 | A row is in a keyword's sheet iff it is in the main sheet and its description contains the keyword. Membership is non-exclusive |
| Classify.KeywordBucketsSorted | main.py:380-382 | Every keyword sheet keeps the main sheet's value order |
| Merge.MergeRows | main.py:140-141 | The merged rows start with the existing rows, unchanged and in order. What follows is a subsequence of the fresh rows: exactly those whose key is not among the existing keys |
| Merge.MergeKeys | main.py:140-141 | The merged keys are the existing keys together with the fresh keys |
| Merge.MergeNothingNew | main.py:140-141 | Fresh rows whose keys are all present add nothing |
| Merge.RerunAddsNothing | main.py:133-141 | Merging the same fresh rows into a saved report holding the merged rows, in any order, leaves it unchanged |
| Merge.MergeIdempotent | main.py:133-141 | Merging twice with the same fresh rows gives the same rows as merging once |
| Merge.MergeKeepsKeysUnique | main.py:140-141 | Existing rows with distinct keys and fresh rows with distinct keys merge into rows with distinct keys |
| Merge.MergeEntry | main.py:136-141 | One bucket's merge. It has no contract of its own; `MergeAllEntry` states it |
| Merge.MergeAll | main.py:135-141 | Every bucket merged, in map order. It has no contract of its own; `MergeAllEntry` and `SheetMap.PrepareForExcel` state it |
| Merge.MergeAllEntry | main.py:136-141 | Every entry keeps its name. An entry with no previous report, or no sheet of its capitalized name, is unchanged. Any other entry's rows become the merged rows |
| Merge.SheetMap.PrepareForExcel | main.py:133-141 | The map is updated in place, entry by entry, to the merged map |
| Render.NumberRows | main.py:222 | The rows are copied into an array beside a fresh `temp_index` column 1..n |
| Render.InsertNewest | main.py:229 | One insertion step. Rows after `i` and their `temp_index` entries stay in place. The first `i + 1` rows and entries are rearranged among themselves, stay linked, and come out newest first. Nothing moves if the rows were already newest first |
| Render.SortByPublication | main.py:222-233 | The result is newest first, a permutation of the rows. The `temp_index` column is a permutation of 1..n, and entry `k` names the pre-sort position of sorted row `k`. Rows already newest first stay in place |
| Render.DataToExcel | main.py:215-236 | One sheet per bucket, in bucket order. Each is named by the capitalized bucket name and laid out as `SortByPublication` states |
| Render.OldRowIndex | main.py:196 | The old row a data row copies from. It has no contract of its own; `FillFollowsRecord` and `IdentityLayoutKeepsFills` state where it points |
| Render.CopiedFill | main.py:199-203 | The fill a cell ends with: the old cell's fill when there is an old sheet and that cell has a pattern fill, otherwise its own. It has no contract of its own; `FormatTable` states its use |
| Render.FormatTable | main.py:187-209 | The header row keeps its fills. Every data cell takes the fill of the old cell at row `temp_index[r-2]+1` (or `r` without an index) when that cell has a pattern fill, and keeps its own fill otherwise |
| Render.FillFollowsRecord | main.py:196-203 | A rendered row showing a record of the previous report copies from the row where that report showed it. A row showing a new record copies from below the old table, where no cell has a fill |
| Render.IdentityLayoutKeepsFills | main.py:196 | With the identity `temp_index`, every data row copies from its own old row |
| Calendar.YearStartFormula | main.py:314 | January 1 of year `y` (`datetime.date(y, 1, 1)`) is day `365(y-1) + (y-1)/4 - (y-1)/100 + (y-1)/400 + 1` |
| Calendar.YearLength | main.py:330-332 | December 31 is 365 days after January 1 in a leap year and 364 days after it otherwise |
| Windows.Chunks | main.py:317-326 | The windows of the `while cur_date <= end` loops, used for both the obras loop and the vidrios loop (main.py:462-468). It has no contract of its own; `ChunksTile` and `ChunksWidth` state its properties |
| Windows.ChunksTile | main.py:317-326 | The chunk loop's windows cut `[start, end]` into consecutive ranges |
| Windows.ChunksWidth | main.py:318-322 | Every chunk spans at most offset + 1 days, and every chunk but the last spans exactly that many |
| Windows.ObrasGivenYearWindows | main.py:317-322 | The given year is fetched in 15-day windows, the last one possibly shorter |
| Windows.QueryAllComplete | main.py:317-326 | With an additive fetcher, windows that cut a range return exactly the rows of one query over that range |
| Windows.YearHalvesTile | main.py:329-335 | The two halves of a full year cut it from January 1 to December 31 |
| Windows.YearHalvesBalanced | main.py:330-334 | The first half of a year has 183 days. The second has 182, or 183 in a leap year |
| Windows.FullYearsTile | main.py:329-335 | The halves of the full years between the given and the current year cut those years consecutively |
| Windows.ObrasWindows | main.py:308-348 | The obras schedule. It has no contract of its own; `ObrasWindowsFail`, `ObrasWindowsTile`, `ObrasGivenYearWindows` and `QueryObrasData` state its properties |
| Windows.ObrasWindowsFail | main.py:308-345 | The obras schedule fails exactly for a year below 1, and for an earlier given year when the current year has run for more than 300 days. The latter is the `timedelta` failure |
| Windows.ObrasWindowsTile | main.py:311-348 | A successful obras schedule cuts January 1 of the given year through today into consecutive windows |
| Windows.ObrasComplete | main.py:300-354 | With an additive fetcher, the obras rows are exactly one query from January 1 of the given year through today |
| Windows.QueryAllCapped | main.py:317-326 | Against a capped portal with data in any order and no single day at the cap, windows that cut a range return exactly the rows of that range, with multiplicity |
| Windows.ObrasCapped | main.py:300-354 | Under the same conditions, the obras rows of a successful run are exactly the rows from January 1 of the given year through today, with multiplicity |
| Windows.QueryChunks | main.py:317-326 | The chunk loop returns the bisection results of its windows, concatenated in order |
| Windows.QueryYearHalves | main.py:330-335 | One full year is the first half's rows followed by the second half's |
| Windows.QueryFullYears | main.py:329-335 | The full-year loop returns the rows of every year's halves, year by year |
| Windows.ObrasRows | main.py:350-352 | The obras rows are the given year's rows, then the full years' rows, then the current year's rows |
| Windows.QueryObrasData | main.py:300-354 | `query_obras_data` fails as the schedule fails. Otherwise it returns the bisection results of the schedule's windows, in order |
| Windows.Reverse | main.py:471 | `[::-1]` lists the same rows, last first |
| Windows.VidriosWindowsTile | main.py:458-468 | The vidrios windows cut the given year, up to its last fetched day, into 301-day windows, the last possibly shorter |
| Windows.VidriosComplete | main.py:455-473 | With fetchers additive for every keyword, each keyword contributes exactly one query over the fetched days, reversed, in keyword order |
| Windows.ReverseMultiset | main.py:471 | Reversing keeps every row as often as it occurs |
| Windows.VidriosCapped | main.py:455-473 | Against a portal capped for every keyword, with data in any order and no single day at the cap, the vidrios rows are exactly every keyword's rows over the fetched days, with multiplicity |
| Windows.VidriosSheets | main.py:443-481 | The vidrios result. It has no contract of its own; `QueryVidriosData` is proved equal to it, and `VidriosWindowsTile`, `VidriosComplete` and `VidriosCapped` state its properties |
| Windows.QueryVidriosData | main.py:443-481 | `query_vidrios_data` returns one sheet: every keyword's rows reversed, concatenated in keyword order, with `N°` dropped. It fails for a year below 1 |

## Left out

- The browser fetchers `get_data_obras` and `get_data_vidrios` (main.py:251-298, 391-441) are
  a function parameter.
  - The model never passes them a range with its end before its start, which is the only
    check they make.
  - The header check they apply is modelled separately, in `Header`.
  - The page reversal inside `get_data_vidrios` (main.py:437) belongs to the fetcher.
  - Fetch failures and download timing are not modelled; the fetcher is total.
- `main` is not part of this model: environment variables, OneDrive sync, the Lima time zone,
  directory setup and the browser lifecycle. Today's date and its year are parameters, and
  `InYear` ties them together. The reuse of an existing export for past years is not modelled
  either.
- `recreate_folder` and every file read and write are left out. A previous report is an
  optional map from sheet name to rows, or an optional grid of fills.
- The presentation policy of `format_table` (main.py:144-169, 204-213) is left out: table
  style, fonts, alignment, column widths and row height. Only the fill mapping is modelled. A
  copied fill is a value copy.
- `Classify.Parser`: `convert_to_float` is an abstract parser returning an optional integer.
  Floating point, NaN and the removal of thousands separators are not modelled.
- `Records.KeywordMatch` compares ASCII letters without case.
  - Python's Unicode case folding is not modelled.
  - `str.contains` treats a keyword as a regular expression. The configured keywords contain
    no special characters, so the model tests plain substrings.
  - A missing description is the empty string, which contains no keyword, as `na=False` gives.
- `Records.Capitalize` maps ASCII letters only.
- `Records.Record` holds the publication time already parsed. A `pd.to_datetime` failure is not
  modelled. Neither is the type conversion of rows read back from a saved workbook.
- `Classify.SortByValue`: the contract states no order among rows of equal value. Pandas'
  default sort does not promise one either. The model's insertion sort happens to keep such
  rows in input order, but that is a remark about this implementation, not a proved property.
- `Render.SortByPublication`: the contract states no order among rows of equal publication
  time, beyond one clause: rows already newest first stay in place. That clause holds for the
  model's insertion sort. Pandas' default sort does not promise it for large sheets.
- `Render.FillFollowsRecord` assumes the previous sheet has no rows below its table. If a user
  shaded cells below the data, `pd.read_excel` does not count them as rows, but
  `old_sheet[...]` at main.py:201 still returns their fills. The program then copies those
  fills onto rows of new records. The model does not capture this.
- `Windows.QueryObrasData`: for a current year of more than 300 days, the program fetches the
  first half before failing on `timedelta`. The model returns the error without that fetch,
  which adds nothing to the result.
- `Windows.QueryObrasData` and `Windows.QueryVidriosData` do not model the `OverflowError` that
  Python raises when a window loop steps past December 31 of year 9999.
- `Windows.QueryVidriosData`: for a given year after the current one, the program returns an
  empty DataFrame instead of a sheet map. The model returns an empty sheet list.
- `Calendar` computes the first and last day of each year from the Gregorian rules instead of
  taking them as given. Python's own `date` arithmetic is not otherwise modelled.
- The type checks of `validate_dataframe_header` (main.py:45-50) are left out because Dafny's
  types enforce them. Its printed messages are left out too.
- The program's `async` calls run one after another, so the model is sequential.
