# Price checker reconciliation, modelled in Dafny

The back end of the price checker takes two uploaded tables.

- The first table holds a product number and an HTML listing per row.
- The second holds a product number and a plain-text description in its fourth column.

For each row of the first table, the `/process-csv` endpoint does four things:

1. It converts the HTML to text.
2. It looks up the first row of the second table with the same product number.
3. It computes a word-level diff between the two texts.
4. It extracts the price tokens from both texts, for example `$50.00` or `1,200 PHP`.

The result is one output row per matched product. There are six columns: `Product Number`, `Natural Language Output`, `Product Description`, `Differences`, `LAZADA PRICES` and `SHOPEE PRICES`.

The model covers the following, in `backend/main.py`:

- **Price extraction** (`extract_prices`, file `prices.dfy`). It is a scanner. The price pattern is stated as a language over the text in the same file. The proofs show that, at each position, the scanner returns the longest match of that language (`LongestMatchAt`), and that the scan is the leftmost-then-resume reading of `re.findall` (`IsFindAll`). That Python's backtracking matcher returns the longest match for this particular pattern is argued in the module's doc comment, not proved: the two alternatives start with disjoint characters, every quantifier is greedy, and no marker character can extend a numeral. Six worked examples are in `price_examples.dfy`.
- **Word diff** (`get_differences`, file `diff.dfy`). It covers `str.split`, the no-context unified diff (`get_grouped_opcodes(0)` and the `---`/`+++`/`@@` header lines), the header filter and the final `' '.join`.
  - The opcodes of `difflib.SequenceMatcher` are a parameter (`Matcher`).
  - The main theorem says that the filtered diff lines equal the reference reading of the opcodes: `-w` for each removed word, then `+w` for each added word. The only lines left out are the `-`/`+` lines the filter drops.
- **Header detection** (`find_header_row`, CSV branch, file `header.dfy`). It is a bounded loop with an early return.
- **Reconciliation** (`validate_csv_structure`, `html_to_text` and the row loop of `process_csv`, files `reconcile.dfy` and `reconcile_examples.dfy`).
  - The loop is a method. It is proved equal to a specification function, and the lemmas state the properties of that function:
    - the output keeps row order, with one record per matched row;
    - each record is built from the first matching row;
    - the counters add up;
    - the no-data error occurs exactly when nothing matches.
  - HTML parsing is a parameter (`Soup`). Only its fallback to `str(html)` on an exception is modelled.

A table cell is `Cells.Cell`. `Str(s)` is a string cell. `Other(shown)` is any other value pandas may hold (NaN, a number), with `shown` as its `str()`. `get_differences` raises only when the description is not a string. It then returns `("Error comparing texts", "", "")`, and the row is still recorded.

The code always emits the `Differences` column, and it runs rows one after another. It has no cache, no batches, no worker pool and no cancellation, and neither has the model. The docstring of `find_header_row` says it scans 20 rows. Its loop breaks only after testing index 21, so it tests 22 rows, and the model follows the loop (`Header.LastScanned`).

## Model

| member | source | states |
|---|---|---|
| Text.SplitJoin | backend/main.py:58-68 | `str.split()` of words joined by single spaces gives back the words, when each word is non-empty and has no whitespace |
| Text.Split | backend/main.py:58-59 | every word is non-empty and free of white space; `Text.SplitAllSpaces`, `Text.SplitWord` and `Text.SplitAt` fix the result on every string |
| Text.SplitAllSpaces | backend/main.py:58-59 | a string of white space alone splits into no words |
| Text.SplitWord | backend/main.py:58-59 | a single word without white space splits into itself |
| Text.SplitAt | backend/main.py:58-59 | at any white-space character, the words of the text are the words before it followed by the words after it, so leading, trailing and repeated white space of any kind separate words and yield none |
| Text.ExampleSplitRepeatedSpace | backend/main.py:58-59 | `"a \tb"`, with a space and a tab between the words, splits into `["a", "b"]` |
| Text.Join | backend/main.py:49 | specified by `Text.SplitOnJoinBar` and `Text.SplitJoin`: splitting the joined string gives back the parts |
| Text.SplitOnJoinBar | backend/main.py:49 | splitting a `" \| "`-join of non-empty parts free of `\|` on `" \| "` gives back the parts |
| Prices.MatchAt | backend/main.py:47 | a match found at a position is a match of the price pattern there and ends inside the text |
| Prices.MatchAtIsLongestMatch | backend/main.py:47-48 | at each position the scanner returns the longest match of the pattern (what the regex engine returns, as the alternatives start with disjoint characters), and nothing exactly when the pattern does not match there |
| Prices.Matches | backend/main.py:48 | every span lies inside the text at or after the start position; `Prices.MatchesAreFindAll` shows the spans are the `re.findall` reading |
| Prices.FindAll | backend/main.py:48 | specified by `Prices.FindAllTokens`: the tokens are the substrings of the ordered, non-overlapping longest matches |
| Prices.ExtractPrices | backend/main.py:42-49 | specified by `Prices.ExtractPricesEmpty`, `Prices.SplitRecoversTokens`, `Prices.TokensHaveNoBar` and `Prices.TokenHasDigit` |
| Prices.MatchesAreFindAll | backend/main.py:48 | the scan follows `re.findall`: leftmost match, then continue at its end, with no match at any skipped position |
| Prices.FindAllUnique | backend/main.py:48 | the `re.findall` reading determines the list of matches uniquely |
| Prices.FindAllTokens | backend/main.py:47-48 | each extracted token is the exact substring of a longest match, and the matches do not overlap and are in text order |
| Prices.PriceTokenShape | backend/main.py:47 | every match contains a digit and no `\|` |
| Prices.TokensHaveNoBar | backend/main.py:47-49 | every extracted token is non-empty and contains no `\|` |
| Prices.TokenHasDigit | backend/main.py:47 | every extracted token contains a digit |
| Prices.ExtractPricesEmpty | backend/main.py:48-49 | the result is `''` if and only if the pattern matches at no position |
| Prices.SplitRecoversTokens | backend/main.py:49 | splitting a non-empty result on `" \| "` gives back exactly the token list in order; an empty result means no tokens |
| PriceExamples.ExampleTwoPrices | backend/main.py:42-49 | `"Price: $50.00 and 1,200 PHP"` gives `"$50.00 \| 1,200 PHP"` |
| PriceExamples.ExampleNoPrice | backend/main.py:42-49 | `"Room 50B, item 123"` gives `''`: numbers with no adjacent marker are not prices |
| PriceExamples.ExampleSplitDecimal | backend/main.py:42-49 | `"12.345 USD"` gives `"345 USD"`: the optional two-digit fraction cannot be followed by a third digit |
| PriceExamples.ExampleLowerCaseCode | backend/main.py:42-49 | `"php 1,000.50"` gives `"php 1,000.50"`: codes match in any case |
| PriceExamples.ExampleMarkupPrice | backend/main.py:42-49 | `"Red Shirt $10"` gives `"$10"` |
| PriceExamples.ExampleDescriptionPrice | backend/main.py:42-49 | `"Red shirt, priced at 10 USD"` gives `"10 USD"` |
| Diff.Slice | backend/main.py:62 | Python's clamped list slice: its length, and each element is the source element at the offset |
| Diff.ChangeLines | backend/main.py:62 | the reference reading of the opcodes; specified by `Diff.ChangeLinesShape`, and tied to the diff by `Diff.DiffIsChangeLines` |
| Diff.Fixup | backend/main.py:62 | the fixed-up opcode list is never empty; `Diff.FixupKeepsChanges` shows it keeps every change line |
| Diff.Groups | backend/main.py:62 | every hunk holds at least one opcode; `Diff.GroupsKeepChanges` shows the hunks keep every change line in order |
| Diff.FormatRange | backend/main.py:62 | the range text starts with a digit, and holds only digits and `,` for a well-ordered range |
| Diff.HunkHeader | backend/main.py:62 | specified by `Diff.HeaderDropped`: the header starts `@@`, so the filter always drops it |
| Diff.UnifiedDiff | backend/main.py:62 | specified by `Diff.HeadersFiltered` and `Diff.DiffIsChangeLines`: once filtered, it is the filtered change lines |
| Diff.KeepLine | backend/main.py:65 | specified by `Diff.KeepChangeLine`, `Diff.HunksFilter` and `Diff.HeadersFiltered` |
| Diff.FilterLines | backend/main.py:65 | every kept line is an input line that starts with none of `@@`, `---`, `+++` |
| Diff.Differences | backend/main.py:62-68 | specified by `Diff.DifferencesSplit` and `Diff.DifferencesEmpty`, and through `Diff.DiffIsChangeLines` by the change lines |
| Diff.GetDifferences | backend/main.py:51-71 | a non-string description gives `("Error comparing texts","","")`; otherwise the prices of both texts, and a first part that is the space-join of the filtered change lines of the opcodes, each a `-` word of the first text or a `+` word of the second, and which splits back into those lines |
| Diff.GroupsKeepChanges | backend/main.py:62 | grouping opcodes into hunks with no context keeps every change line, in order, and drops only the empty equal runs |
| Diff.FixupKeepsChanges | backend/main.py:62 | trimming the leading and trailing equal opcodes (or supplying one for no opcodes) changes no change line |
| Diff.HunksFilter | backend/main.py:62-65 | filtering the formatted hunks removes exactly their `@@` headers |
| Diff.HeadersFiltered | backend/main.py:62-65 | filtering the unified diff removes the `---` and `+++` file headers and the hunk headers |
| Diff.DiffIsChangeLines | backend/main.py:62-65 | the filtered unified diff equals the filtered reference change lines of the opcodes |
| Diff.ChangeLinesShape | backend/main.py:62 | every change line is `-` and a word of the first text, or `+` and a word of the second |
| Diff.KeptLinesShape | backend/main.py:62-65 | every line surviving the filter has that shape |
| Diff.DifferencesSplit | backend/main.py:58-68 | splitting the joined result on whitespace gives back exactly the kept change lines |
| Diff.DifferencesEmpty | backend/main.py:62-68 | the result is `''` if and only if no change line survives the filter |
| Diff.AllEqualNoDifferences | backend/main.py:62-68 | when every opcode is an equal run, the result is `''` |
| Diff.KeepChangeLine | backend/main.py:65 | `-w` is kept if and only if `w` does not start with `--`, and `+w` if and only if `w` does not start with `++` |
| Diff.NothingDropped | backend/main.py:65 | with no removed word starting `--` and no added word starting `++`, the filter keeps every change line |
| Diff.ExampleDashWordDropped | backend/main.py:65 | deleting the word `--x` yields `''`, because its line `---x` is taken for a file header |
| Diff.ExampleReplace | backend/main.py:58-68 | `Red Shirt` against `Red shirt` with an equal word and a replaced word gives `"-Shirt +shirt"` |
| Header.FindHeaderRow | backend/main.py:78-95 | the smallest index among rows 0 to 21 whose row holds every required name, so no earlier row does; 0 when none of those rows does |
| Reconcile.HtmlToText | backend/main.py:34-40 | the parser's text, or the cell's `str()` when the parser raises |
| Reconcile.ValidateCsvStructure | backend/main.py:119-132 | success exactly when the first file has at least 2 columns and the second at least 4; the first-file check comes first; on success the labels of columns 0 and 1 of the first file and 1 and 3 of the second |
| Reconcile.ColumnIndex | backend/main.py:171-172 | the position of the column labelled `label`, with no earlier column carrying it; labels are unique after `read_csv`/`read_excel`, so this is the one column `row[label]` reads |
| Reconcile.ValidatedPositions | backend/main.py:131-132 | with unique labels, the validated columns are at positions 0, 1 (first file) and 1, 3 (second file) |
| Reconcile.FirstMatch | backend/main.py:176-178 | the first row with an equal product number, or none, and no earlier row has it |
| Reconcile.RowResult | backend/main.py:170-192 | specified by `Reconcile.UnmatchedRowGivesNothing`, `Reconcile.MatchedRowRecord`, `Reconcile.ErrorRowStillRecorded` and `Reconcile.RowMatchedIff` |
| Reconcile.UnmatchedRowGivesNothing | backend/main.py:176-192 | a row whose product number is absent from the second file yields no record |
| Reconcile.MatchedRowRecord | backend/main.py:171-189 | a matched row yields the record (product number, text of the HTML cell, description of the first match, the three results of `get_differences`) |
| Reconcile.ErrorRowStillRecorded | backend/main.py:179-189 | a matched row whose description is not a string is still recorded, with `"Error comparing texts"` and empty prices |
| Reconcile.RowMatchedIff | backend/main.py:176-177 | a row yields a record if and only if its product number occurs in the second file |
| Reconcile.Records | backend/main.py:165-189 | no more records than rows; specified by `Reconcile.RecordsStep`, `Reconcile.RecordsInRowOrder` and `Reconcile.RecordsEmptyIff` |
| Reconcile.Unmatched | backend/main.py:167-192 | specified by `Reconcile.RecordsStep` and `Reconcile.RowsCounted`: the rows without a match |
| Reconcile.RecordsStep | backend/main.py:169-196 | one more row appends its record to the data or adds one to the error count |
| Reconcile.RowsCounted | backend/main.py:165-196 | the records plus the errors number the rows of the first file |
| Reconcile.MatchedRowsIncrease | backend/main.py:169-189 | the matched row positions are increasing, one per record |
| Reconcile.MatchedRowsExact | backend/main.py:176-189 | a position is matched if and only if its row yields a record |
| Reconcile.RecordsInRowOrder | backend/main.py:169-189 | the k-th record is the record of the k-th matched row |
| Reconcile.Reconciliation | backend/main.py:158-200 | every failure is HTTP 400; a validation failure is reported with its message before any row is read; on success the records are non-empty, the success count is their number, and success plus error count is the row count |
| Reconcile.RecordsEmptyIff | backend/main.py:198 | the data is empty if and only if no row yields a record |
| Reconcile.NoDataIff | backend/main.py:198-200 | after validation, "No data was processed successfully" is raised if and only if no product number of the first file occurs in the second |
| Reconcile.ReportFollowsRows | backend/main.py:169-189 | a report lists in file order one record per row of the first file whose product number occurs in the second, and nothing else |
| Reconcile.ProcessCsv | backend/main.py:158-200 | the loop computes the reconciliation, with the success count equal to the number of records and the two counts adding to the row count |
| ReconcileExamples.ListingReconciled | backend/main.py:158-200 | two listings against a catalogue holding P1 twice: one record for P1, built from its first catalogue row, with prices `$10` and `10 USD`, and one error for the unmatched P2 |

## Left out

- The FastAPI application: routes, CORS, health check, upload reading, the temporary CSV file and `FileResponse` (backend/main.py:1-32, 134-156, 202-234). These are HTTP and file I/O.
- `read_file` and pandas: decoding, `read_csv`/`read_excel` and DataFrame construction (backend/main.py:97-117). The model takes tables already read.
  - An error there becomes HTTP 500, and that path is not modelled.
  - The missing-file check at line 141 is not modelled either, because the model always has two tables.
- The Excel branch of `find_header_row` (backend/main.py:84-93), and CSV decoding and line splitting (75-77), are not part of this model. `FindHeaderRow` takes the rows already split into cells.
  - pandas skips blank lines, so a header index from the CSV reader and the `header=` row pandas uses can differ. This is not modelled.
- BeautifulSoup's parsing in `html_to_text` (backend/main.py:36-37) is a parameter. Only the fallback is modelled.
- The opcode algorithm of `difflib.SequenceMatcher` is not modelled: the opcodes are a parameter. For any opcode list, the diff formatting and filtering are modelled as difflib's `unified_diff` does them.
- The `except` clause of the row loop (backend/main.py:193-196) cannot be reached in the model, because every modelled step is total. So it has no counterpart.
- Prices.MatchAt: `\d` is ASCII digits and `re.IGNORECASE` is ASCII case folding. Python also matches non-ASCII decimal digits, and it folds a few non-ASCII letters (such as the dotless i) onto code letters. `\s` is the full `str.isspace` set.
- Reconcile.FirstMatch: product numbers compare with exact value equality. Two pandas cases are not modelled. NaN never equals NaN in pandas, while `Other("nan")` equals itself here. Numbers compare across dtypes in pandas (the int `1` equals the float `1.0`), while `Other("1")` and `Other("1.0")` differ here.
- Reconcile.ValidatedPositions: pandas de-duplicates header labels while reading. The lemma assumes unique labels rather than modelling the renaming.
- Logging (every `logger` call) and the streamlit front end (streamlit_app.py) are left out. The front end repeats the join without the diff column.
