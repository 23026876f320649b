# Insurance A/B testing engine — a Dafny model

This project models the segment-comparison engine of an insurance risk
analysis (`src/ab_testing.py`). The engine cleans the text columns of a
policy/claims table and derives a claim flag and a margin per row. It then
runs four hypotheses in a fixed order:

- province;
- postal code (claim frequency and claim severity);
- margin between the two chosen postal codes;
- gender (frequency and severity).

For each test it decides whether the test is run or reported as `nan`, and
it writes a seven-line result report.

Files and modules:

- `frame.dfy` (`Frame`): the row record and key columns. It holds boolean-mask
  selection (`Select`) and the distinct labels of a column (`Keys`). It also holds
  the two-way count table (`CrossTab`) with its partition lemmas: every cell is
  the number of matching rows, each table row sums to its group, and the table
  sums to the number of rows.
- `cleaning.dfy` (`Cleaning`): Python's `str.strip()` and the four column
  normalisations. These run as in-place loops over an `array<Record>`, one loop
  per cleaning statement. The claim flag and margin derivation is a further
  in-place loop.
- `segments.dfy` (`Segments`): the valid postal codes (at least 20 claim rows)
  and the top-2 selection, with first-occurrence tie-breaking. It also defines the
  groups and the severity and margin samples, the comparability and frequency
  tables, the gender groups and gates, and the per-province claim count and
  claim sum.
- `engine.dfy` (`Engine`): the hypothesis runner. The p-values are method-local
  state that each branch either computes or sets to "not computed". The module
  also holds the seven report lines and the whole script as one method (`Run`).

The chi-squared test, Welch's t-test and the 4-decimal rendering are
parameters of the engine (`chi2`, `welch`, `fmt`). The model states exactly
which table or samples each test receives and when it is called. It does
not model what the tests compute.

What the code compares, as opposed to what its comments suggest:

- The postal-code frequency table (line 46) compares the rows in either chosen
  code against all other rows. It does not compare code A with code B.
- The gender frequency table (line 73) compares Male-or-Female rows against
  all other rows.
- The vehicle comparability table (line 44) compares the first chosen code
  against every other row.

Where the design notes and the code differ, the model follows the code:

- Vehicle type and province become "Unknown" only when missing. A blank string
  strips to "" and stays.
- Gender "Not specified" and "" become missing, not "Unknown".
- The margin test is gated on the postal-code groups existing and being
  non-empty, which happens exactly when two codes qualify.
- Rows with missing numeric fields are not excluded; the model takes premium
  and claims as present.

## Model

| member | source | states |
|---|---|---|
| `Frame.Select` | src/ab_testing.py:38-39 | a boolean mask keeps exactly the rows carrying the label, each one drawn from the input, and never more rows than the input |
| `Frame.SelectCount` | src/ab_testing.py:38-39 | a selection has as many rows as the input has rows carrying the label, counted independently of the selection |
| `Frame.SelectAppend` | src/ab_testing.py:38-39 | the selection of two concatenated parts is the first part's selection followed by the second's: kept rows stay in input order, each as often as it occurs |
| `Frame.SelectOne` | src/ab_testing.py:38-39 | a single row is kept exactly when it carries the label |
| `Frame.Keys` | src/ab_testing.py:23 | the labels of a column are repetition-free and are exactly the labels some row carries |
| `Frame.SelectSplitLast` | src/ab_testing.py:23 | proof helper for `Keys`: a label occurs in a table exactly when it occurs before the last row or on the last row |
| `Frame.Counts` | src/ab_testing.py:31 | the per-label counts have one entry per label, each the size of that label's group |
| `Frame.Grid` | src/ab_testing.py:23 | table row i holds the per-column counts of the rows labelled with the i-th row label |
| `Frame.CrossTab` | src/ab_testing.py:23 | a cross-tabulation has distinct row and column labels, exactly the observed ones, and each cell equals the number of rows matching both labels |
| `Frame.SelectTwice` | src/ab_testing.py:44 | selecting on one column and then another counts exactly the rows matching both labels |
| `Frame.SelectCommute` | src/ab_testing.py:48-49 | selecting on two columns gives the same rows in either order (claim rows of a group = group of the claim rows) |
| `Frame.CountsCons` | src/ab_testing.py:31 | one more row raises the summed counts by one exactly when its label is listed |
| `Frame.CountsPartition` | src/ab_testing.py:31 | when the labels cover every row once, the group sizes sum to the number of rows |
| `Frame.ZeroCounts` | src/ab_testing.py:31 | proof helper for `CountsPartition`: an empty table has all group sizes zero |
| `Frame.GridTotal` | src/ab_testing.py:23 | the cells of a table sum to the sizes of its row groups |
| `Frame.CrossTabSums` | src/ab_testing.py:23 | every table row sums to its group size and the whole table to the number of rows |
| `Cleaning.TrimStart` | src/ab_testing.py:11 | the result is a suffix of the input, starts with a non-space, and only whitespace was removed |
| `Cleaning.TrimEnd` | src/ab_testing.py:11 | the result is a prefix of the input, ends with a non-space, and only whitespace was removed |
| `Cleaning.Strip` | src/ab_testing.py:11 | Python's `str.strip()`: trim both ends; what it keeps and removes is stated by `StripSpec` |
| `Cleaning.StripSpec` | src/ab_testing.py:11 | strip keeps one contiguous piece of the text, removes only whitespace from both ends and leaves none there |
| `Cleaning.StrippedFixed` | src/ab_testing.py:11 | a text is its own strip exactly when it has no whitespace at either end |
| `Cleaning.StripIdempotent` | src/ab_testing.py:11 | stripping twice equals stripping once |
| `Cleaning.NormalizePostal` | src/ab_testing.py:11 | a postal code becomes stripped text; a missing one becomes "nan" |
| `Cleaning.NormalizeGender` | src/ab_testing.py:12 | a gender becomes missing exactly when it was missing or strips to "Not specified" or ""; otherwise it is the stripped text |
| `Cleaning.NormalizeCategory` | src/ab_testing.py:13-14 | vehicle type and province become stripped text; only a missing value becomes "Unknown", so a blank stays "" |
| `Cleaning.NormalizeField` | src/ab_testing.py:11-14 | one cleaning statement on one row: rewrites one text column by its normaliser and keeps every other column |
| `Cleaning.NormalizeRecord` | src/ab_testing.py:11-14 | the four cleaning statements in source order; its properties are those of `NormalizeRecordSpec` |
| `Cleaning.NormalizeRecordSpec` | src/ab_testing.py:11-14 | a cleaned row is normalised, the numeric columns are untouched, cleaning fixes exactly the normalised rows, and cleaning is idempotent |
| `Cleaning.DeriveSpec` | src/ab_testing.py:17-18 | derivation yields HasClaim = TotalClaims > 0 and Margin = TotalPremium - TotalClaims, fixes exactly the rows already derived, and depends only on premium and claims |
| `Cleaning.NormalizeKeepsDerived` | src/ab_testing.py:11-18 | cleaning does not disturb the derived columns |
| `Cleaning.Derive` | src/ab_testing.py:17-18 | sets HasClaim to TotalClaims > 0 and Margin to TotalPremium - TotalClaims; its properties are those of `DeriveSpec` |
| `Cleaning.Derived` | src/ab_testing.py:17-18 | the invariant of a row after line 18: its claim flag and margin agree with its premium and claims |
| `Cleaning.UpdateRows` | src/ab_testing.py:11-18 | a vectorised column assignment: every array row becomes the given function of its old value, in place |
| `Cleaning.NormalizeColumn` | src/ab_testing.py:11-14 | one cleaning statement rewrites one column of every row in place and nothing else |
| `Cleaning.Clean` | src/ab_testing.py:11-14 | after the four statements every row is its cleaned original and is normalised |
| `Cleaning.DeriveMetrics` | src/ab_testing.py:17-18 | after derivation every row is its derived original, with the claim flag and margin exact |
| `Cleaning.ClaimTotal` | src/ab_testing.py:19 | the reported claim total equals the number of rows with a positive claim amount |
| `Segments.DistinctCons` | src/ab_testing.py:37 | proof helper on label lists: a label list with a new head is repetition-free exactly when the head is new and the tail is repetition-free |
| `Segments.DistinctCard` | src/ab_testing.py:33 | a repetition-free list of codes has as many elements as its set |
| `Segments.SameElementsSameLength` | src/ab_testing.py:33 | two repetition-free code lists with the same codes have the same length |
| `Segments.ClaimRows` | src/ab_testing.py:31 | `df[df['HasClaim']]`: the rows with a claim, in order; its size is `ClaimTotal`'s count |
| `Segments.ZipClaims` | src/ab_testing.py:31 | one entry of `zip_claims`: the number of claim rows carrying a postal code |
| `Segments.Frequent` | src/ab_testing.py:32 | keeps exactly the listed codes with at least 20 claim rows, without repetitions |
| `Segments.ValidZips` | src/ab_testing.py:31-32 | the valid codes are repetition-free and are exactly the codes with at least 20 claim rows |
| `Segments.Group` | src/ab_testing.py:38-39 | `group_a`/`group_b`: the rows carrying one postal code |
| `Segments.SelectWithin` | src/ab_testing.py:37 | restricting to rows with a listed code keeps each listed code's group whole |
| `Segments.InListCount` | src/ab_testing.py:46 | the rows whose code is in a list of distinct codes number the sum of those codes' groups |
| `Segments.Ranked` | src/ab_testing.py:37 | the rows whose postal code is valid, which `value_counts` ranks |
| `Segments.RankCount` | src/ab_testing.py:37 | the `value_counts` entry of one code; `RankCountIsGroupSize` equates it with the group size |
| `Segments.Candidates` | src/ab_testing.py:37 | the ranked codes are exactly the valid codes, without repetitions, as many as the valid codes |
| `Segments.RankCountIsGroupSize` | src/ab_testing.py:37 | a valid code's value count equals the size of its whole group |
| `Segments.BestIndex` | src/ab_testing.py:37 | the chosen position holds the largest count and strictly more than every earlier position (ties go to first occurrence) |
| `Segments.RemoveAt` | src/ab_testing.py:37 | removing the first pick leaves every other candidate exactly once |
| `Segments.TopTwo` | src/ab_testing.py:33-39 | no pair exactly when fewer than two codes are valid; otherwise two distinct valid codes, the first with most rows, the second with most rows among the rest |
| `Segments.PickIsMaximal` | src/ab_testing.py:37 | a code picked for the largest value count among valid codes has a group at least as large as every other listed code |
| `Segments.SmallDatasetHasNoPair` | src/ab_testing.py:32-35 | with fewer than 20 rows no code is valid and no pair is selected |
| `Segments.Severity` | src/ab_testing.py:48-49 | the claim amounts of a group's claim rows (also lines 80-81); `SeveritySample` states its size and sign |
| `Segments.Margins` | src/ab_testing.py:57 | the margins of a group's rows, in order |
| `Segments.SeveritySample` | src/ab_testing.py:48-49 | a severity sample has one element per claim row of its group, each positive |
| `Segments.ZipSamples` | src/ab_testing.py:48-49 | both postal-code severity samples have at least 20 positive elements and both groups are non-empty |
| `Segments.PostalInTable` | src/ab_testing.py:46 | in a table split on a list of codes, the member row sums to those codes' groups together and the table to all rows |
| `Segments.OneCodeTable` | src/ab_testing.py:44 | a table split on one code has a member row summing to that code's group |
| `Segments.TwoCodeTable` | src/ab_testing.py:46 | a table split on two distinct codes has a member row summing to both groups |
| `Segments.PairGroupsNonEmpty` | src/ab_testing.py:56 | both selected groups are non-empty |
| `Segments.ZipFrequencyTable` | src/ab_testing.py:46 | the zip frequency table sets in-pair rows against all others; its in-pair row sums to the two group sizes and the table to all rows |
| `Segments.VehicleTable` | src/ab_testing.py:44 | the vehicle table sets the first code against all others; its first-code row sums to that group and the table to all rows |
| `Segments.KnownGender` | src/ab_testing.py:64 | `df_gender`: the rows whose gender is "Male" or "Female" |
| `Segments.GenderGroup` | src/ab_testing.py:65-66 | the known-gender rows of one gender; `GenderGroupRows` characterises it |
| `Segments.GenderClaims` | src/ab_testing.py:67-68 | a gender group's claim count |
| `Segments.GenderFrequencyTestable` | src/ab_testing.py:72 | both genders have at least 50 claims |
| `Segments.GenderSeverityTestable` | src/ab_testing.py:79 | both genders have at least 10 claims |
| `Segments.GenderGroupRows` | src/ab_testing.py:64-66 | a gender group is exactly the rows with that gender text, and its claim count counts rows of that gender with a claim |
| `Segments.KnownGenderSplit` | src/ab_testing.py:64 | the known-gender rows number the Male rows plus the Female rows |
| `Segments.GenderFrequencyTable` | src/ab_testing.py:73 | the gender frequency table's known-gender row sums to the Male and Female groups together, and the table to all rows |
| `Segments.Aggregate` | src/ab_testing.py:25 | one aggregate per listed province, in order, holding the number of that province's claim rows and the sum of their amounts |
| `Segments.ProvinceSeverity` | src/ab_testing.py:25 | the claim rows grouped by province, as `Aggregate` entries over the provinces with a claim |
| `Segments.ClaimAmount` | src/ab_testing.py:25 | reference sum: the claim amounts of the rows of one province with a claim, added row by row |
| `Segments.SelectedAmount` | src/ab_testing.py:25 | the amounts of a province's claim rows sum to that reference sum |
| `Segments.PositiveSum` | src/ab_testing.py:25 | proof helper for `AggregateFacts`: a non-empty sum of positive amounts is positive |
| `Segments.AggregateFacts` | src/ab_testing.py:25 | each aggregate has a positive claim count and claim sum, and the counts add up to the per-province counts |
| `Segments.ProvinceEntries` | src/ab_testing.py:25 | each aggregate's count is the number of rows of its province with a claim, and its sum is their claim amounts |
| `Segments.ProvinceSeveritySpec` | src/ab_testing.py:25 | provinces with claims are listed once each; each entry's count is the number of rows of that province with a claim and its sum their claim amounts, both positive; the counts add up to all claim rows |
| `Engine.ZipOutcome` | src/ab_testing.py:29-60 | the postal-code outputs exist exactly when two codes qualify, each then taken from its own table or samples of the selected pair |
| `Engine.GenderOutcome` | src/ab_testing.py:62-86 | each gender test runs exactly when its claim floor is met, on its own table or samples |
| `Engine.ZipHypotheses` | src/ab_testing.py:29-60 | frequency, severity, margin and the vehicle table are produced exactly when at least two codes are valid, from the tables and samples of the selected pair |
| `Engine.GenderHypothesis` | src/ab_testing.py:62-86 | frequency runs exactly when both genders have 50 claims, severity exactly when both have 10, each on its stated table or samples, and frequency implies severity |
| `Engine.Reports` | src/ab_testing.py:19-86 | the specification of the analysis: which test fills each result slot, on which table or samples, under which gate, and what the diagnostics hold |
| `Engine.ReportsDetermined` | src/ab_testing.py:19-86 | two outcomes meeting `Reports` are equal: every slot is fixed by the rows and the two tests |
| `Engine.GenderGatesNested` | src/ab_testing.py:72-86 | in any outcome, the gender frequency test runs only if the severity test does |
| `Engine.Analyze` | src/ab_testing.py:19-86 | the outcome meets `Reports`: every result slot is gated and filled by its own test on its own table or samples, and the diagnostics are the totals, province aggregates and both comparability tables |
| `Engine.Render` | src/ab_testing.py:91-96 | a p-value as written: "nan" for a test that did not run, else the formatted value |
| `Engine.ReportLines` | src/ab_testing.py:89-96 | the header and one labelled line per result; `ReportReadBack` states its shape and contents |
| `Engine.ReportReadBack` | src/ab_testing.py:89-96 | the report is seven lines, the header then the six labels in fixed order; read back, a value is "nan" exactly when its test was not run, otherwise it is the rendered p-value |
| `Engine.Run` | src/ab_testing.py:11-96 | the whole script cleans and derives every row in place, the outcome meets `Reports` on the cleaned rows, and the report lines render it |

## Left out

- Reading the input file (line 8) and writing the report file (line 89). The
  report is a sequence of seven strings.
- The chi-squared and Welch tests (lines 24, 47, 50, 57, 74, 82). They are
  floating-point library code, so they are parameters. A test that itself
  returns NaN (for example on constant samples) is not told apart from a
  computed p-value.
- The 4-decimal rendering of p-values. It is a parameter `fmt`, and
  `Engine.ReportReadBack` assumes only that it never renders a real as "nan".
- The per-province mean (line 25). It is a floating-point division, so the
  model keeps its exact parts: the claim count and the claim sum.
- Diagnostic `print` text. The row and claim totals, the two comparability
  tables and the province aggregates are returned as values. The selected pair
  printed at line 40 and the group sizes and claim counts printed at lines
  41-42 and 67-68 are not returned; each is given by `TopTwo`, `Group`,
  `GenderGroup` and `GenderClaims`.
- Missing or non-numeric premium and claim values, and NaN propagation
  through them. Premium and claims are exact reals.
- Label order. pandas sorts the labels of `crosstab` and `groupby`; the model
  lists labels in order of first occurrence. The chi-squared p-value does not
  depend on row or column order, and `valid_zips` is used only for `len` and
  `isin`.
- The `value_counts` tie-break. pandas documents none; the model breaks ties
  by first occurrence among the rows of valid codes. `Segments.TopTwo` also
  states the order-free property that no other valid code has more rows.
- Missing keys. `crosstab` and `groupby` drop rows whose key is missing. The
  model keeps such rows under a label of their own. After cleaning, none of the
  key columns used is ever missing.
- Raw postal codes are text or missing. The rendering of numeric postal
  codes by `astype(str)` (such as "2000.0" in a float column) is not modelled.
- Engine.Analyze: on an empty dataset the province table at line 23 is empty
  and `chi2_contingency` at line 24 raises an error, so the script stops. The
  model has no error path there: it passes the empty table to `chi2` and
  reports the value.
- Engine.Run: the same empty-dataset error is not modelled; `Run` always
  returns a full report.
- Cleaning.NormalizeGender, Cleaning.NormalizeCategory: a Gender, VehicleType
  or Province column that is missing in every row is read as numbers, and
  `.str` at lines 12-14 raises an error. The model treats every cell as text
  or missing and normalises such a column.
- `str.strip()` turns a non-string cell into NaN; cells here are only text or
  missing.
- `src/eda_insurance_analysis.py`: plotting, logging, sampling and descriptive
  statistics with no decision logic.
