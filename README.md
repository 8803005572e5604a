# Data analysis service, modelled in Dafny

This project models `DataAnalysisService`, the tabular analytics engine of
the data-analysis web application, and proves properties of that model. The
service holds no state of its own. Each operation takes an in-memory table
(a pandas DataFrame) and returns a report, a list of records or a chart
payload:

- `clean_data` drops repeated rows and then incomplete rows. It normalises each column of the copy to numbers, trimmed lower-case text or ISO dates, and reports the row counts and a preview.
- `sort_data` orders the rows by one column.
- `calculate_statistics` summarises one column after numeric coercion.
- `calculate_correlation` builds the correlation matrix of the numeric columns.
- `group_and_aggregate` reduces one column per distinct key of another.
- `generate_visualization_data` shapes a flattened correlation heatmap, or a bar, pie or line series of per-label totals.

How the model is built:

- A table is a column list, a dtype per column (numeric or object) and rows of cells. A cell is missing, a number (an exact `real`) or a text.
- The pandas routines whose results depend on floating point or on format inference are fields of a `Library` value passed to every operation. They are `to_numeric` on one text, `str` of a number, `to_datetime` and `strftime`, Pearson's coefficient, the square root and `round(x, 4)`. The properties proved hold for every choice of them.
- The caller's frame is an object of the `DataFrame` class, whose one method, `Assign`, replaces a column in place (`df[col] = ...`). `clean_data`, `group_and_aggregate` and `generate_visualization_data` are module-level methods that take that object. The last two call `Assign`, and `clean_data` only reads the frame. Each is proved against a function that specifies its result and the new state of the caller's frame.
- The loops that flatten the heatmap and build the series items are methods with loop invariants, proved against the functions `HeatmapTriples` and `Item`.

Modules, one per file:

- `Cells` (cells.dfy): cells, the orders pandas uses on them, and the strip/lower normalisation.
- `Frames` (frames.dfy): tables, records, results and errors, the `Library`, and the `DataFrame` class.
- `Sorting` (sorting.dfy): sorting by a key, and the ascending distinct keys of a groupby.
- `RowFilters` (row_filters.dfy): `drop_duplicates` and `dropna`.
- `Numeric` (numeric.dfy): sum, minimum, maximum, mean, median and sample variance.
- `TableSort` (table_sort.dfy): `sort_data`.
- `StatisticsEngine` (statistics.dfy): `calculate_statistics` and `calculate_correlation`.
- `Cleaning` (cleaning.dfy): `clean_data`.
- `Aggregation` (aggregation.dfy): `group_and_aggregate`.
- `Charts` (charts.dfy): `generate_visualization_data`.

Cleaning twice might be expected to change nothing, but the code does not behave that way, and the model follows the code. Two rows that differ only in letter case both survive `drop_duplicates`. They become equal once the text is lower-cased, so a second `clean_data` drops one more row. `Cleaning.CleaningIsNotIdempotent` proves this on a two-row table.

## Model

| member | source | states |
|---|---|---|
| Frames.CoerceNumeric | data_analysis_webapp/backend/data_services.py:94 | `to_numeric(errors='coerce')` on one cell: a number stays, a missing cell stays missing, a text becomes the number pandas parses from it or missing, and never stays text |
| Frames.CoerceColumn | data_analysis_webapp/backend/data_services.py:94 | the coerced column has the same length, holds no text, and each cell is the coercion of the cell in the same row |
| Frames.AsText | data_analysis_webapp/backend/data_services.py:61 | `str()` of a cell: a text is kept as it is, a missing cell is written "nan" |
| Frames.ToRecord | data_analysis_webapp/backend/data_services.py:62 | the record of a row has exactly the column names as keys |
| Frames.ToRecordAt | data_analysis_webapp/backend/data_services.py:62 | under each name the record holds the cell of the last column with that name, as `to_dict` keeps the last |
| Frames.Records | data_analysis_webapp/backend/data_services.py:62 | `to_dict(orient='records')` gives one record per row, each with exactly the column names as keys |
| Frames.RecordsAt | data_analysis_webapp/backend/data_services.py:62 | record i holds cell (i, k) under the name of column k |
| Frames.Table.WithColumn | data_analysis_webapp/backend/data_services.py:94 | replacing column k sets its cells and dtype and leaves every other column, dtype and the row count as they were |
| Frames.DataFrame.Assign | data_analysis_webapp/backend/data_services.py:94 | `df[col] = values` replaces column k of the caller's frame in place |
| Cleaning.CleanData | data_analysis_webapp/backend/data_services.py:31-53 | status is "success"; `original_rows` is the input's row count and `cleaned_rows` the count after both filters, never more; `removed_rows` is their difference and is non-negative; the preview is the first min(100, cleaned_rows) records of the cleaned table, in order; the caller's frame is not touched (no `modifies`) |
| Cleaning.NormalizedUpToStep | data_analysis_webapp/backend/data_services.py:37-46 | one pass of the column loop, which overwrites column k of the working copy, turns the table with k columns done into the table with k + 1 done; this is the loop invariant of `CleanData` |
| Cleaning.NormalizedUpToZero | data_analysis_webapp/backend/data_services.py:37 | before the loop no column is rewritten: the table is the filtered copy |
| Cleaning.NormalizedUpTo | data_analysis_webapp/backend/data_services.py:37-46 | after the loop has handled the first k columns, each of them is that column normalised on its own, and every later column and dtype is as it was |
| Cleaning.Cleaned | data_analysis_webapp/backend/data_services.py:34-46 | the cleaned table keeps the column names, has one row per row that survives both filters, and each column is the normalisation of the filtered column |
| Cleaning.Filtered | data_analysis_webapp/backend/data_services.py:34-35 | `drop_duplicates().dropna()` keeps the column names and dtypes and leaves a well-formed table |
| RowFilters.DropDuplicates | data_analysis_webapp/backend/data_services.py:34 | `drop_duplicates` never adds rows |
| RowFilters.DropNa | data_analysis_webapp/backend/data_services.py:35 | `dropna` never adds rows |
| RowFilters.KeptSpec | data_analysis_webapp/backend/data_services.py:34-35 | after both filters no two rows are equal and no row has a missing cell; a row survives exactly when it is complete and occurs in the input; survivors keep their original relative order |
| RowFilters.DropDuplicatesSpec | data_analysis_webapp/backend/data_services.py:34 | `drop_duplicates` keeps the first of equal rows: the result is an order-preserving subsequence without repeats that holds every distinct input row, picked at exactly the positions whose row does not occur earlier |
| RowFilters.DropDuplicatesDistinct | data_analysis_webapp/backend/data_services.py:34 | the result is an order-preserving subsequence without repeats and holds every distinct input row |
| RowFilters.DropDuplicatesPicks | data_analysis_webapp/backend/data_services.py:34 | the rows `drop_duplicates` keeps are, in order, the rows at exactly the positions whose row does not occur earlier |
| RowFilters.DropDuplicatesKeepsFirst | data_analysis_webapp/backend/data_services.py:34 | there are positions, increasing, at which `drop_duplicates` picks its rows, and a position is picked exactly when its row is the first occurrence of that row |
| RowFilters.DropNaSpec | data_analysis_webapp/backend/data_services.py:35 | `dropna` keeps, in order, the rows at exactly the positions of the rows with no missing cell, so every complete row keeps its multiplicity and no other row survives |
| RowFilters.DropNaMembers | data_analysis_webapp/backend/data_services.py:35 | the result is an order-preserving subsequence holding a row exactly when it is a complete input row |
| RowFilters.DropNaPicks | data_analysis_webapp/backend/data_services.py:35 | the rows `dropna` keeps are, in order, the rows at exactly the positions of the complete rows |
| RowFilters.DropNaKeepsComplete | data_analysis_webapp/backend/data_services.py:35 | there are positions, increasing, at which `dropna` picks its rows, and a position is picked exactly when its row is complete, so every complete row keeps its multiplicity |
| Cleaning.NormalizeColumn | data_analysis_webapp/backend/data_services.py:38-46 | the column keeps its length; it becomes numeric exactly when every cell converts (a number, a missing cell, or text that `to_numeric` reads as a number or as NaN); otherwise it holds no number, and unless it is turned into dates every cell is text already stripped and lower-cased |
| Cleaning.NormalizeColumnCells | data_analysis_webapp/backend/data_services.py:38-46 | cell by cell: a numeric column holds each cell's coercion; a text column holds `str(cell).strip().lower()`; a date column holds the date parsed from each normalised text, formatted, or missing for NaT |
| Cleaning.NormalizeColumnMissing | data_analysis_webapp/backend/data_services.py:38-46 | a cell is missing after normalisation only if it was missing before, or was text read as NaN in a column that became numeric, or is a NaT in a column that became dates |
| Cleaning.DateCells | data_analysis_webapp/backend/data_services.py:43-44 | `strftime` keeps one cell per parse, none of them a number, and a cell is missing exactly when its parse is not a date (NaT) |
| Cells.Strip | data_analysis_webapp/backend/data_services.py:40 | `strip()` gives the slice of the text that starts after its leading white space, and everything after the slice is white space too; the result neither starts nor ends with white space |
| Cells.TrimStart | data_analysis_webapp/backend/data_services.py:40 | the leading-space cut is a suffix of the text, everything cut is white space, and the rest does not start with white space |
| Cells.TrimEnd | data_analysis_webapp/backend/data_services.py:40 | the trailing-space cut is a prefix of the text, everything cut is white space, and the rest does not end with white space |
| Cleaning.CleanedMissingOrigins | data_analysis_webapp/backend/data_services.py:35-46 | the filtered rows are complete, so a missing cell in the cleaned table is either text that `to_numeric` reads as NaN in a column turned numeric, or a NaT in a column rewritten as dates |
| Cells.NormalizeIdempotent | data_analysis_webapp/backend/data_services.py:40 | `strip().lower()` applied twice gives what it gives once |
| Cleaning.CleaningIsNotIdempotent | data_analysis_webapp/backend/data_services.py:34-40 | for the table with rows "A" and "a", both rows survive the filters; after cleaning they are equal, so filtering the cleaned table keeps one row |
| Cleaning.CleanCountsExample | data_analysis_webapp/backend/data_services.py:33-36 | from three rows, one repeated and one with a missing cell, only the first row is kept, so the report counts 3 original, 1 cleaned and 2 removed rows |
| TableSort.SortData | data_analysis_webapp/backend/data_services.py:55-62 | an absent column raises ColumnNotFound, and only then; otherwise the result is a permutation of the frame's records (of its text form when the column mixes numbers and text), one per row, each with exactly the frame's column names, ordered by the column ascending or descending with missing cells last |
| TableSort.Stringified | data_analysis_webapp/backend/data_services.py:61 | `astype(str)` keeps the column names and the row count, makes every column an object column, and replaces each cell by the text of that cell |
| TableSort.SortSource | data_analysis_webapp/backend/data_services.py:58-61 | the table sorted is the frame itself when the column's cells can be compared, and otherwise its text form, cell by cell; either way the sort column can then be compared |
| TableSort.FieldOfRecords | data_analysis_webapp/backend/data_services.py:59-62 | the sort key of record i is cell (i, k) of the frame |
| Sorting.SortBySorts | data_analysis_webapp/backend/data_services.py:59 | sorting by a key yields a permutation of the input that is ordered by the key in the chosen direction |
| Sorting.InsertByPermutes | data_analysis_webapp/backend/data_services.py:59 | inserting one element adds exactly that element |
| Sorting.InsertBySorts | data_analysis_webapp/backend/data_services.py:59 | inserting into a sorted sequence keeps it sorted |
| Cells.CellLeTotal | data_analysis_webapp/backend/data_services.py:59 | any two cells are comparable in the sort order |
| Cells.CellLeTransitive | data_analysis_webapp/backend/data_services.py:59 | the sort order is transitive |
| Cells.CellLeAntisymmetric | data_analysis_webapp/backend/data_services.py:59 | cells that are ordered both ways are equal |
| Cells.KeyLeTotal | data_analysis_webapp/backend/data_services.py:59 | the directed order with missing cells last is total |
| Cells.KeyLeTransitive | data_analysis_webapp/backend/data_services.py:59 | the directed order with missing cells last is transitive |
| Cells.StrLeTotal | data_analysis_webapp/backend/data_services.py:61 | text comparison is total |
| Cells.StrLeTransitive | data_analysis_webapp/backend/data_services.py:61 | text comparison is transitive |
| Cells.StrLeAntisymmetric | data_analysis_webapp/backend/data_services.py:61 | text comparison orders distinct texts one way only |
| StatisticsEngine.CalculateStatistics | data_analysis_webapp/backend/data_services.py:64-79 | an absent column raises ColumnNotFound, and only then; the no-valid-data payload comes exactly when no cell coerces to a number; otherwise count is the number of coercible cells, min, max, mean, median and variance are those of the coerced values, min <= median <= max and min <= mean <= max, variance is present exactly when count >= 2 and is then non-negative, and std is the square root of the variance, present exactly when the variance is |
| StatisticsEngine.NumericValuesCount | data_analysis_webapp/backend/data_services.py:67 | `to_numeric(errors='coerce').dropna()` keeps one value per coercible cell |
| StatisticsEngine.NumericValuesMembers | data_analysis_webapp/backend/data_services.py:67 | a value survives coercion exactly when some cell coerces to it |
| StatisticsEngine.StatisticsExample | data_analysis_webapp/backend/data_services.py:67-75 | for the texts "3", "x", "5", count is 2, mean 4, min 3 and max 5 |
| Numeric.Min | data_analysis_webapp/backend/data_services.py:75 | the minimum is one of the values and no value is smaller |
| Numeric.Max | data_analysis_webapp/backend/data_services.py:74 | the maximum is one of the values and no value is larger |
| Numeric.MeanBounds | data_analysis_webapp/backend/data_services.py:72 | the mean lies between the minimum and the maximum |
| Numeric.MedianBounds | data_analysis_webapp/backend/data_services.py:73 | the median, even-count average included, lies between the minimum and the maximum |
| Numeric.VarianceNonNegative | data_analysis_webapp/backend/data_services.py:76-77 | restates, for callers, what `SampleVariance` itself ensures: the sample variance exists exactly for two or more values and is non-negative |
| Numeric.AscendingSpec | data_analysis_webapp/backend/data_services.py:73 | the ascending values the median reads are a permutation of the values, in order |
| Numeric.SumAtLeast | data_analysis_webapp/backend/data_services.py:72 | n values each at least lo sum to at least n * lo |
| Numeric.SumAtMost | data_analysis_webapp/backend/data_services.py:72 | n values each at most hi sum to at most n * hi |
| Numeric.MeanWithin | data_analysis_webapp/backend/data_services.py:72 | the mean of values within [lo, hi] is within [lo, hi] |
| StatisticsEngine.NumericIndices | data_analysis_webapp/backend/data_services.py:82 | `select_dtypes` picks exactly the numeric columns, in increasing table position |
| StatisticsEngine.CalculateCorrelation | data_analysis_webapp/backend/data_services.py:81-88 | the error payload comes exactly when fewer than two columns are numeric; otherwise `columns` lists every numeric column and only those, in table order, and `data` is an n×n symmetric matrix |
| StatisticsEngine.CorrelationEntries | data_analysis_webapp/backend/data_services.py:85-87 | entry (i, j) of the correlation matrix is Pearson's coefficient of the columns named `columns[i]` and `columns[j]`, the later one against the earlier |
| StatisticsEngine.NumericNamesSpec | data_analysis_webapp/backend/data_services.py:82-86 | the matrix labels are exactly the numeric column names, in table order |
| StatisticsEngine.MatrixSymmetric | data_analysis_webapp/backend/data_services.py:85-87 | pandas fills each pair of the matrix once, so it is square and symmetric |
| StatisticsEngine.MatrixEntries | data_analysis_webapp/backend/data_services.py:85-87 | entry (i, j) of the matrix is Pearson's coefficient of the numeric columns i and j, the later one against the earlier |
| Aggregation.GroupAggregate | data_analysis_webapp/backend/data_services.py:90-101 | an absent key or value column raises "wrong column name", and only then; grouping a column by itself fails in `reset_index`; otherwise there is one record per distinct present key, each with exactly the keys `group_col` and `agg_col + "_" + method` |
| Aggregation.GroupAggregateKeys | data_analysis_webapp/backend/data_services.py:96-99 | the records' keys are strictly ascending; each is a present key of the column, and every present key has a record |
| Aggregation.GroupAggregateValues | data_analysis_webapp/backend/data_services.py:93-99 | record i holds the method applied to the value cells (coerced to numbers unless the method is count) of the rows with the i-th key; when the aggregate name differs from `group_col`, these are the cells of exactly the rows whose key is the record's own key, in row order |
| Aggregation.GroupCellsPicks | data_analysis_webapp/backend/data_services.py:96 | a group's cells are the value cells at exactly the rows whose key equals the group key, in row order |
| Aggregation.Reduce | data_analysis_webapp/backend/data_services.py:96 | sum is a number, 0 for a group without numbers; count is the number of non-missing cells, text included; mean, max and min are missing exactly when the group holds no number; max is one of the numbers and no number exceeds it, min likewise; the mean lies between two of the numbers |
| Aggregation.Numbers | data_analysis_webapp/backend/data_services.py:96 | the values the reduction sees: each is the number of some cell, every number cell contributes, and there are none exactly when no cell holds a number |
| Aggregation.NumbersPicks | data_analysis_webapp/backend/data_services.py:96 | the numbers are those of the number cells at exactly their positions, in order, so each number cell counts once in a sum or a mean |
| Aggregation.Present | data_analysis_webapp/backend/data_services.py:96 | the count of a group is the number of positions whose cell is not missing |
| Aggregation.CountCountsPresentCells | data_analysis_webapp/backend/data_services.py:93-96 | with count, the value column is not coerced: record i holds the number of non-missing value cells among the rows with key i |
| Aggregation.PresentGroupCells | data_analysis_webapp/backend/data_services.py:96 | a group's count of non-missing cells equals the number of its rows with a present value |
| Aggregation.GroupAndAggregate | data_analysis_webapp/backend/data_services.py:90-101 | returns what `GroupAggregate` specifies, and leaves the caller's frame with the value column coerced (unless a column is absent or the method is count) and nothing else changed |
| Aggregation.AfterAggregate | data_analysis_webapp/backend/data_services.py:93-94 | after the call the caller's frame keeps its columns and row count |
| Aggregation.AggregatedValues | data_analysis_webapp/backend/data_services.py:93-94 | the aggregated column keeps one cell per row |
| Aggregation.SumExample | data_analysis_webapp/backend/data_services.py:90-99 | keys A, A, B with values 1, 2, 3 and sum give [{g: A, v_sum: 3}, {g: B, v_sum: 3}] |
| Aggregation.PairRecord | data_analysis_webapp/backend/data_services.py:98-99 | a two-column row becomes the record of its two names |
| Sorting.GroupKeysSpec | data_analysis_webapp/backend/data_services.py:96 | groupby keys are strictly ascending and are exactly the present cells of the key column |
| Sorting.InsertKeyKeepsOrder | data_analysis_webapp/backend/data_services.py:96 | adding a key to the strictly ascending keys keeps them strictly ascending and adds only that key |
| Sorting.GroupCount | data_analysis_webapp/backend/data_services.py:96 | there are as many groups as distinct present keys |
| Charts.FlattenHeatmap | data_analysis_webapp/backend/data_services.py:110-116 | the nested loop appends the triples of the matrix row after row, giving `HeatmapTriples` |
| Charts.HeatmapTripleAt | data_analysis_webapp/backend/data_services.py:110-116 | for an n×n matrix there are n² triples, and the one at position i*n + j is [j, i, round(M[i][j], 4)] |
| Charts.HeatmapTriplesLength | data_analysis_webapp/backend/data_services.py:113-116 | the first i rows of an n×n matrix give i*n triples |
| Charts.HeatmapTriplesPrefix | data_analysis_webapp/backend/data_services.py:113-116 | appending more rows does not move the triples already emitted |
| Charts.RowTriplesAt | data_analysis_webapp/backend/data_services.py:114-116 | the k-th triple of row i is [k, i, round(M[i][k], 4)] |
| Charts.SeriesItems | data_analysis_webapp/backend/data_services.py:131-140 | the `iterrows` loop appends one item per label total, in order: `[label, value]` for line charts, `{name, value}` otherwise |
| Charts.Visualization | data_analysis_webapp/backend/data_services.py:103-148 | a heatmap passes the correlation's error through as {type, error}, and only then; otherwise both axes are the correlation columns and the data is the correlation matrix flattened row after row into n² triples. Every successful payload carries the requested chart type as its `type`. Other charts raise "missing parameter" exactly when a parameter is absent or empty and "wrong column name" exactly when a named column is absent; a success is a series chart and is returned only when the requested type is bar, pie or line, and an unsupported-type error comes only for another type |
| Charts.SeriesOutcomes | data_analysis_webapp/backend/data_services.py:124-148 | once both columns are found, a chart that is not a heatmap fails with the repeated-column error naming the label exactly when both parameters name the same column, with the unorderable-labels error exactly when the labels mix numbers and text, with the unsupported-type error exactly when the request is otherwise valid and the type is not bar, pie or line, and succeeds exactly when the request is valid and the type is one of those three |
| Charts.SeriesItemsSpec | data_analysis_webapp/backend/data_services.py:128-148 | a series chart carries the requested chart type as its `type`, which is all that tells a pie chart from a bar chart, names the label and value columns as axes and has one item per distinct present label, strictly ascending; every present label has an item; each item carries the sum of the label's coerced values; items are `[label, value]` exactly for line charts |
| Charts.LabelTotals | data_analysis_webapp/backend/data_services.py:129 | `groupby(label_col)[value_col].sum()` gives one total per group key |
| Charts.LabelTotalsSpec | data_analysis_webapp/backend/data_services.py:129-130 | the label totals hold each distinct present label once, strictly ascending, each with the total `group_and_aggregate` computes for it with method sum |
| Charts.HeatmapPayloadAt | data_analysis_webapp/backend/data_services.py:110-122 | in a heatmap payload the triple at position i*n + j is [j, i, round(M[i][j], 4)] of the correlation matrix M, and the x and y axes name the same columns |
| Charts.GenerateVisualizationData | data_analysis_webapp/backend/data_services.py:103-148 | returns what `Visualization` specifies, and leaves the caller's frame with the value column coerced once both columns are found, and otherwise unchanged |
| Charts.AfterChart | data_analysis_webapp/backend/data_services.py:128 | after the call the caller's frame keeps its columns and row count |
| Charts.LineExampleData | data_analysis_webapp/backend/data_services.py:128-148 | labels p, q with values 1, 2 give the line items [p, 1] and [q, 2] |

## Left out

- `load_data` and the service constructor: file decoding and directory creation are I/O. The HTTP routes, file storage, request schemas and the browser front end are not part of this model.
- Floating point: numbers are exact reals. Pearson's coefficient, the square root, `round(x, 4)` and the text form of a number are fields of `Library`, so their values are not modelled, only where they are used. A NaN correlation is `None`.
- Type inference: `to_numeric` on a text, and `to_datetime` with its column-wide format inference, are `Library` fields. A text parses to a number, to NaN (the empty text, "nan") or not at all; which texts do what is not modelled. The all-or-nothing rule of `errors='ignore'` and the per-cell rule of `errors='coerce'` are modelled around them. Boolean and datetime columns at load time are not modelled; cells are missing, numbers or text.
- Cleaning.NormalizeColumn: `str.lower()` lower-cases the ASCII letters only, and `str.strip()` uses Python's white-space set; other Unicode case mappings are not modelled.
- Cleaning.NormalizeColumn: when `to_datetime(errors='ignore')` fails on some cell it returns the text column unchanged, `.dt` raises, and the bare `except` keeps the text. The model folds this into one rule: a column becomes dates only when every text parses and not all are NaT.
- Frames.AsText: pandas writes a missing cell as "nan" when it is a NaN and as "None" when it is a None in an object column. The model has one kind of missing cell and always writes "nan", which can change the fallback sort order of `sort_data` (line 61). It does not reach `clean_data`, whose `dropna` removes every row with a missing cell before `astype(str)`.
- TableSort.SortData: the order among rows with equal keys (the stability of `sort_values`) is not stated, only that the result is sorted and is a permutation.
- Aggregation.GroupAggregate: the method is one of the five the request schema allows; pandas' other aggregation names are not modelled. When the output field name equals `group_col`, `to_dict` keeps one key. The model keeps the last, and the key set is then `{group_col}` alone.
- Aggregation.GroupAggregate: grouping on keys that mix numbers and text is ordered numbers first, then text, as pandas' mixed sort does.
- Charts.Visualization: labels mixing numbers and text make `sort_values` raise; this is the `UnorderableLabels` error, and it comes before the chart-type check, as in the code. A label column equal to the value column raises in `reset_index`.
- Charts.Visualization: the three branches for pie, line and bar are one loop, `SeriesItems`, whose item shape depends on the chart type; pie and bar items are identical, as in the code.
- JSON serialisation of the payloads, including how NaN values are rendered, is not modelled.
