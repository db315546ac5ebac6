# correlation_server core in Dafny

This project models the core of `correlation_server`. The server holds a pool
of daily profit-and-loss (PnL) series read from files. It correlates a client's
series against every series in the pool and returns the strongest correlations
for each of the client's series. The model covers three parts.

- **`PnlPool`** (`pnl_pool.dfy`, from `model/pnl_pool.py`). A pool is an
  N x D matrix: one row per file and one column per date. The file names label
  the rows and the ascending YYYYMMDD dates label the columns. The model
  covers:
  - building a pool from stored fields;
  - the whole matrix and the headers;
  - cutting the matrix to a date range, with the checks of `as_matrix_for_days` and its
    clamping of the bounds;
  - correlating two pools, with the day-count checks and the shape and labels
    of the result;
  - the JSON form a pool is sent in, and reading it back.
- **`Correlations`** (`correlations.dfy`, from `model/correlations.py`). This
  is an N x M correlation matrix with a label for every row and column. The
  constructor handles 1-D, 2-D and deeper input. `top_n_corrs_for_col`
  sorts each column by absolute value (`np.argsort` on `axis=0`), keeps the
  last `n` rows in reverse order, and gathers the values and their labels with
  `np.take_along_axis`, following numpy's broadcasting rules.
- **`PnlDataGenerator`** (`generate_dates.dfy`, from `generate_pnl_data.py`).
  `generate_dates(start, n)` walks the calendar one day at a time from a
  YYYYMMDD start and collects the first `n` Monday-to-Friday dates. The walk
  is an imperative loop proved against a reference definition, `Weekdays`,
  which jumps from weekday to weekday on day ordinals. `calendar.dfy` models
  the calendar the walk relies on: Python's `datetime.date` (proleptic
  Gregorian calendar, years 1 to 9999, day ordinals, weekdays, the next day,
  YYYYMMDD).

`outcome.dfy` defines `Option` and `Result`. Every place where the Python code
raises an exception returns an `Err` instead, with a constructor that names
the cause.

## Model

| member | source | states |
|---|---|---|
| `PnlPool.New` | model/pnl_pool.py:19-50 | With data, header and dates all given, the pool is exactly those fields. Otherwise the files are to be read, and an empty list of files and directories is refused (`NoInputs`) in exactly that case. |
| `PnlPool.DateWindow` | model/pnl_pool.py:100-117 | Each refusal comes back as its own error, in the order the code checks: `NoDates` exactly when a bound is given and the pool has no dates (reading the first or last date fails); `StartAfterLastDate` exactly when a start lies after the last date; otherwise `EndBeforeFirstDate` exactly when an end lies before the first date; otherwise `StartAfterEnd` exactly when the start lies after the end. `None` and `0` both mean no bound. A missing start begins at column 0 and a missing end runs to the last column. |
| `PnlPool.AsMatrix` | model/pnl_pool.py:73-84 | For a pool read from files, the matrix is N x D: one row per header label and one column per date. |
| `PnlPool.Headers` | model/pnl_pool.py:120-126 | For a pool read from files, there is one label per row of the matrix. |
| `PnlPool.Present` | model/pnl_pool.py:100-113 | A bound of `None` or `0` is falsy and means "no bound". Any other value is a bound. |
| `PnlPool.FirstAtLeast` | model/pnl_pool.py:112 | Returns the first index whose date is at or after the bound: every earlier date is before it. |
| `PnlPool.LastAtMost` | model/pnl_pool.py:117 | Returns the last index whose date is at or before the bound: every later date is after it. |
| `PnlPool.PySlice` | model/pnl_pool.py:118 | Python slicing clamps both bounds to the length: within bounds it is the plain sub-sequence, and it is never longer than the input. |
| `PnlPool.SliceColumns` | model/pnl_pool.py:118 | `data[:, lo:hi]` keeps every row. Within bounds each row is cut to columns `lo` to `hi`. |
| `PnlPool.AsMatrixForDays` | model/pnl_pool.py:86-118 | Refused ranges give the window's error. A pool with no rows is not a 2-D array (`NotTwoDimensional`). Otherwise the result is rectangular and keeps every row. |
| `PnlPool.WindowExact` | model/pnl_pool.py:107-117 | With dates ascending, the window holds exactly the columns whose dates lie within the bounds that are present. |
| `PnlPool.RefusedRangeIsEmpty` | model/pnl_pool.py:100-105 | With dates ascending, a refused range is one that no date of the pool lies in. |
| `PnlPool.DaysSelected` | model/pnl_pool.py:86-118 | For a consistent pool, each row of the range's matrix is the original row cut to exactly the columns whose dates lie within the bounds. |
| `PnlPool.WholeMatrix` | model/pnl_pool.py:73-118 | Without bounds (or with `0` bounds), `as_matrix_for_days` equals `as_matrix`. |
| `PnlPool.PairwiseGrid` | model/pnl_pool.py:150-158 | The correlation grid has one row per series of this pool and one column per series of the other. |
| `PnlPool.GetCorrelations` | model/pnl_pool.py:128-159 | Each error of either range comes first, in the order `get_correlations` makes its calls. It is `DatesMismatch` exactly when the day counts differ, and `TooFewDays` exactly when they agree but are below 2. A result is an N x M `Correlations` whose column labels are the other pool's headers. |
| `PnlPool.CorrelationGrid` | model/pnl_pool.py:144-159 | Entry `(i, j)` is the correlation of this pool's series `i` with the other's series `j` over the selected days, and it is labelled with this pool's header `i`. |
| `PnlPool.CorrelatesWhenDaysAgree` | model/pnl_pool.py:144-159 | Consistent pools whose ranges yield the same number of days, at least two, always correlate. |
| `PnlPool.OnlyDayCountsCompared` | model/pnl_pool.py:146-149 | Only day counts are compared, not the dates themselves: pools with equal counts of at least 2 correlate whatever their dates. |
| `PnlPool.SingleDayRefused` | tests/test_pnl_pool.py:46-48 | Two one-day pools cannot be correlated (`TooFewDays`). |
| `PnlPool.RangeExample` | tests/test_pnl_pool.py:33-36 | Over five ascending dates, two before 20090103, two from then to 20090106 and one after, that range picks columns 3 and 4 of every row. |
| `PnlPool.SingleDayRangeExample` | tests/test_pnl_pool.py:37-40 | Over five ascending dates starting at 20090101, the range 20090101 to 20090101 picks the first column. |
| `PnlPool.WideRangeExample` | tests/test_pnl_pool.py:29-32 | Over five ascending dates within 20080101 to 20200101, that range gives the whole matrix. |
| `PnlPool.ToJson` | model/pnl_pool.py:179-189 | The encoding is an object with exactly the keys `data`, `header` and `dates`. |
| `PnlPool.DecodeRow` | model/pnl_pool.py:43 | A row decodes exactly when it is a list of numbers. Each entry keeps its value, and an integer is read as the equal float. |
| `PnlPool.DecodeGrid` | model/pnl_pool.py:43 | A data list decodes exactly when it is a list whose items all decode as rows of one common length. The result is a rectangular matrix with one row per list item, and row `i` is what item `i` decodes to. |
| `PnlPool.DecodeStrings` | model/pnl_pool.py:44 | A header decodes exactly when it is a list of strings, and it keeps them in order. |
| `PnlPool.DecodeInts` | model/pnl_pool.py:45 | Dates decode exactly when they are a list of integers, and they keep them in order. |
| `PnlPool.FromJson` | model/pnl_pool.py:161-177 | Non-objects are malformed. The keys are looked up in the order `data`, `header`, `dates`, and the first missing one fails with its `MissingKey`, exactly when it is missing. With all three keys present, the result is `NoInputs` exactly when some field is `null`: the constructor then has no files to read. With all three present and none `null`, the result is a pool exactly when all three decode, and `Malformed` otherwise. A pool that is built holds exactly the decoded fields. |
| `PnlPool.IntRowDecodes` | model/pnl_pool.py:43 | A row of JSON integers decodes to the same values as floats. |
| `PnlPool.IntegerDataExample` | model/pnl_pool.py:174-177 | `{"data": [[1, 2]], "header": ["file1"], "dates": [20090101, 20090102]}` rebuilds the one-row pool `[[1.0, 2.0]]` with that header and those dates. |
| `PnlPool.RowRoundTrip` | model/pnl_pool.py:187 | Decoding an encoded row of numbers gives the row back. |
| `PnlPool.StringsRoundTrip` | model/pnl_pool.py:188 | Decoding an encoded header gives the header back. |
| `PnlPool.IntsRoundTrip` | model/pnl_pool.py:189 | Decoding encoded dates gives the dates back. |
| `PnlPool.JsonRoundTrip` | model/pnl_pool.py:161-189 | `from_json(to_json(p))` is `p` for every pool whose data is a proper 2-D array. |
| `Correlations.New` | model/correlations.py:13-28 | Deeper arrays are refused exactly when given. A 1-D input becomes one row, with its labels as one row. A 2-D input keeps its grid, and the label reshape fails exactly when there are columns and the label count differs from the row count. Every result is well shaped and keeps the column labels. |
| `Correlations.AtLeast2d` | model/correlations.py:24 | A 1-D array becomes a single row. |
| `Correlations.Repeat` | model/correlations.py:27 | Each of the N labels repeated M times gives N * M entries. |
| `Correlations.Reshape` | model/correlations.py:27 | A flat array of N * M entries laid out as an N x M grid. |
| `Correlations.NewReshapeFails` | model/correlations.py:27 | The reshape's size check fails exactly when there are columns and the label count is not the row count. |
| `Correlations.LabelGrid` | model/correlations.py:25-27 | For a 2-D input, every cell of the label grid holds its own row's label. |
| `Correlations.Insert` | model/correlations.py:49 | One insertion step of the argsort: the row is added to the list, which keeps its other entries, each as often. |
| `Correlations.InsertAscending` | model/correlations.py:49 | Inserting a new row keeps the list ascending by absolute value, with equal values in row order. |
| `Correlations.ArgsortPrefix` | model/correlations.py:49 | The argsort of the first `n` rows lists each of them exactly once. |
| `Correlations.ArgsortAscending` | model/correlations.py:49 | The argsort is ascending by absolute value, and equal values keep row order as a stable sort leaves them. |
| `Correlations.Argsort` | model/correlations.py:49 | The argsort of a column is a permutation of its row indices. |
| `Correlations.Reverse` | model/correlations.py:49 | `[::-1]`: entry `i` is entry `len - 1 - i` of the input. |
| `Correlations.ReverseMultiset` | model/correlations.py:49 | Reversal loses and repeats nothing. |
| `Correlations.TopRows` | model/correlations.py:49 | The top `k` selection has `k` valid row indices. |
| `Correlations.TopRowsRanked` | model/correlations.py:46-49 | The selected rows are distinct and ranked strongest first, with the later row first on equal strength. Every row left out is below every selected one. |
| `Correlations.Clamp` | model/correlations.py:46-49 | Requests above the row count are cut to it. A negative request selects nothing, as the empty slice `[N-n:N]` does. |
| `Correlations.Column` | model/correlations.py:49 | Column `j` holds entry `j` of every row. |
| `Correlations.Indices` | model/correlations.py:49 | The index grid is `k x M` and names only existing rows. |
| `Correlations.Broadcast` | model/correlations.py:50-51 | numpy broadcasting: equal lengths agree, a length of 1 stretches to the other, and any other pair is refused. |
| `Correlations.TakeAlongAxis` | model/correlations.py:50-51 | Entry `(a, j)` is the entry of the row that the index grid names at `(a, j)`, in column `j`. A width of 1 stands for every column, and the result has the broadcast width. |
| `Correlations.TopNCorrsForCol` | model/correlations.py:30-52 | It fails exactly when the label grid's width cannot broadcast against the correlations' width. Otherwise the values are `k x M` with `k` the clamped request, the labels are `k` rows of the broadcast width, and the column labels are returned unchanged. |
| `Correlations.TopNPairing` | model/correlations.py:49-50 | Each selected value is the value of its column in the row that the index names, with its sign kept. Within a column the selected rows are distinct. |
| `Correlations.TopNNames` | model/correlations.py:51 | Each selected value is paired with the label of its own row: from the label grid's own column when the widths agree, and from its single column when it broadcasts. |
| `Correlations.TopNOrdered` | model/correlations.py:49-50 | In every column the selected absolute values do not increase from top to bottom. |
| `Correlations.IndicesColumn` | model/correlations.py:49 | Column `j` of the index grid is the top-`k` selection of column `j`. |
| `Correlations.TopNDominates` | model/correlations.py:47-50 | Every row left out of a column is no stronger in absolute value than any selected value. |
| `Correlations.Gather` | model/correlations.py:50 | Gathering reads each listed row's value. |
| `Correlations.GatherInsert` | model/correlations.py:49-50 | Inserting a row into the argsort adds that row's value to the gathered values. |
| `Correlations.GatherArgsort` | model/correlations.py:49-50 | The argsort of the first `n` rows gathers exactly the first `n` values, with their multiplicities. |
| `Correlations.GatherTopRowsAll` | model/correlations.py:49-50 | Selecting every row gathers every value of the column, each as often as it occurs. |
| `Correlations.TopNPermutes` | model/correlations.py:32-33 | A request for at least all rows returns every column rearranged, with nothing lost or repeated. |
| `Correlations.TopNLabels` | model/correlations.py:25-51 | For a 2-D input, the label at `(a, j)` is `row_names[i]` for the row `i` whose value is returned at `(a, j)`. |
| `Correlations.OneByOneExample` | tests/test_correlations.py:11-14 | A 1-D `[1]` labelled `row1` gives the top value `[[1]]` with label `[["row1"]]`. |
| `Correlations.TwoByOneExample` | tests/test_correlations.py:17-22 | The column `[0.8, -1]` gives the top value `[[-1]]` with label `[["row2"]]`. |
| `Correlations.TopTwoOfThree` | model/correlations.py:49 | Of three rows with distinct absolute values, the top two are the strongest row and then the middle one. |
| `Correlations.StrongestOfThree` | model/correlations.py:49 | Three distinct rows in ascending order of absolute value are the weakest, middle and strongest rows. |
| `Correlations.ThreeByThreeIndices` | tests/test_correlations.py:25-31 | The test's matrix selects rows `[[0, 2, 0], [1, 1, 2]]`. |
| `Correlations.ThreeByThreeExample` | tests/test_correlations.py:25-35 | The test's 3 x 3 matrix with `n = 2` gives values `[[3, 2, 9], [2, 1, 8]]` with labels `[[row1, row3, row1], [row2, row2, row3]]`, stated entry by entry together with the shapes. |
| `PnlDataGenerator.FirstWeekdayFrom` | generate_pnl_data.py:86-89 | Returns the first weekday on or after a day: at most two days later, with only weekend days skipped. |
| `PnlDataGenerator.Weekdays` | generate_pnl_data.py:66-90 | The reference list of the first `n` weekdays has `n` entries. |
| `PnlDataGenerator.WeekdaysAreWeekdays` | generate_pnl_data.py:87 | Every entry of the reference list is a weekday on or after the start. |
| `PnlDataGenerator.WeekdaysIncreasing` | generate_pnl_data.py:86-89 | The reference list strictly increases. |
| `PnlDataGenerator.WeekdaysComplete` | generate_pnl_data.py:86-89 | The list starts at the first weekday and skips no weekday up to its last entry. |
| `PnlDataGenerator.NoWeekdaySkipped` | generate_pnl_data.py:86-89 | Only weekend days lie between consecutive entries. |
| `PnlDataGenerator.WalkStep` | generate_pnl_data.py:87-89 | One day of the walk: a weekday is the next entry due, and a weekend day is passed over. |
| `PnlDataGenerator.EncodedIncreasing` | generate_pnl_data.py:88 | YYYYMMDD forms of increasing ordinals increase. |
| `PnlDataGenerator.ListedAppend` | generate_pnl_data.py:88 | Appending the YYYYMMDD form of the next due date keeps the listing entry-by-entry correct. |
| `PnlDataGenerator.ListedEntries` | generate_pnl_data.py:88 | Every listed entry is the YYYYMMDD form of a valid date whose ordinal is the matching entry of the reference list. |
| `PnlDataGenerator.ExamineDay` | generate_pnl_data.py:86-88 | Examining a day while entries are still due: a weekday is the next entry of the reference list and is listed, and a weekend day is passed over. |
| `PnlDataGenerator.Advance` | generate_pnl_data.py:89 | Stepping to the next day resumes the walk. |
| `PnlDataGenerator.WalkOverflows` | generate_pnl_data.py:89 | A walk that reaches 9999-12-31 with entries still due, or that has just listed it, overflows. |
| `PnlDataGenerator.WalkComplete` | generate_pnl_data.py:86-90 | A walk that listed every entry has produced the weekday listing without overflowing. |
| `PnlDataGenerator.GenerateDates` | generate_pnl_data.py:66-90 | An invalid YYYYMMDD start fails exactly as `datetime.date` does. Overflow happens exactly when the walk passes 9999-12-31. Otherwise the result has `max(n, 0)` entries: the first weekdays from the start, in YYYYMMDD form and increasing. |
| `PnlDataGenerator.WalkWeekdays` | generate_pnl_data.py:85-90 | The loop is proved against `Weekdays` through its invariant, with the same failure and result as `GenerateDates`. |
| `PnlDataGenerator.ListingUnique` | generate_pnl_data.py:66-90 | Only one list of a given length is a weekday listing from a start, so the contract of `GenerateDates` fixes its result. |
| `PnlDataGenerator.SameOrdinalSameDate` | generate_pnl_data.py:81-88 | Two YYYYMMDD integers naming valid dates with the same ordinal are equal. |
| `PnlDataGenerator.DayShift` | generate_pnl_data.py:88-89 | Within a month, `k` days after `d` is `d + k`, and its ordinal is `k` more. |
| `PnlDataGenerator.NewYear2020` | tests/test_generate_pnl_data.py:10-11 | 2020-01-01 is valid, is written 20200101, and is a Wednesday. |
| `PnlDataGenerator.WeekdayShift` | generate_pnl_data.py:87 | The weekday `k < 7` days later is `k` more, modulo 7. |
| `PnlDataGenerator.WeekdaysFromWeekday` | generate_pnl_data.py:87-89 | From a weekday, the list begins with that day. |
| `PnlDataGenerator.ThreeFromFriday` | generate_pnl_data.py:86-89 | From a Friday, three weekdays are Friday, Monday and Tuesday. |
| `PnlDataGenerator.FiveFromWednesday` | generate_pnl_data.py:85-90 | From a Wednesday, five weekdays are ordinals `o, o+1, o+2, o+5, o+6`: the weekend is skipped. |
| `PnlDataGenerator.ListingFromEncodings` | generate_pnl_data.py:85-90 | A list whose entries name the reference weekdays, in order, is a weekday listing. |
| `PnlDataGenerator.WednesdayListing` | generate_pnl_data.py:85-90 | From a Wednesday `d` with six more days in its month, the five weekdays are `d`, `d + 1`, `d + 2`, `d + 5` and `d + 6`. |
| `PnlDataGenerator.WednesdayTest` | tests/test_generate_pnl_data.py:10-11 | Any result that the contract of `GenerateDates(20200101, 5)` allows is `[20200101, 20200102, 20200103, 20200106, 20200107]`. |
| `PnlDataGenerator.YearEnd` | generate_pnl_data.py:88-89 | 8871 and 8870 below a January 1st, in YYYYMMDD form, are December 30th and 31st of the year before, two days and one day earlier. |
| `PnlDataGenerator.FourFromMonday` | generate_pnl_data.py:85-90 | From a Monday, four weekdays are that day and the next three. |
| `PnlDataGenerator.YearBoundaryListing` | generate_pnl_data.py:85-90 | When January 1st `d` is a Wednesday, the four weekdays from December 30th are December 30th and 31st, `d` and `d + 1`. |
| `PnlDataGenerator.YearBoundaryTest` | tests/test_generate_pnl_data.py:12-13 | Any result that the contract of `GenerateDates(20191230, 4)` allows is `[20191230, 20191231, 20200101, 20200102]`. |
| `PnlDataGenerator.FirstFromSaturday` | generate_pnl_data.py:85-90 | From a Saturday, the first weekday is the Monday after it. |
| `PnlDataGenerator.SaturdayListing` | generate_pnl_data.py:85-90 | `[20200106]` is the one-entry weekday listing from 2020-01-04. |
| `PnlDataGenerator.SaturdayTest` | tests/test_generate_pnl_data.py:14-15 | Any result that the contract of `GenerateDates(20200104, 1)` allows is `[20200106]`. |
| `Calendar.IsValid` | generate_pnl_data.py:85 | A date `datetime.date` accepts has a year in 1..9999, a month in 1..12 and a day in 1..31, and February never has more than 29 days. |
| `Calendar.Weekday` | generate_pnl_data.py:87 | The weekday is in 0..6, and it is Monday (0) exactly on the ordinals 1, 8, 15, …, since 0001-01-01 was a Monday. |
| `Calendar.Format` | generate_pnl_data.py:88-90 | A valid date's YYYYMMDD integer lies between 10101 (0001-01-01) and 99991231, so it fits in 32 bits. |
| `Calendar.Split` | generate_pnl_data.py:81-83 | The month and day taken from an integer are two-digit numbers. |
| `Calendar.NextDay` | generate_pnl_data.py:89 | `date + timedelta(days=1)` is valid, and its ordinal is one more. |
| `Calendar.AddDay` | generate_pnl_data.py:89 | The step fails (OverflowError) exactly on the last representable date. Otherwise it gives the valid date with the next ordinal. |
| `Calendar.DaysBeforeYearClosedForm` | generate_pnl_data.py:85 | The running count of days matches the leap-year closed form that `datetime` uses. |
| `Calendar.LeapCount` | generate_pnl_data.py:85 | A year is a leap year when divisible by 4, unless by 100, unless by 400. |
| `Calendar.SplitFormat` | generate_pnl_data.py:81-88 | Formatting a valid date as YYYYMMDD and splitting it gives the date back. |
| `Calendar.FormatSplit` | generate_pnl_data.py:81-88 | Splitting any integer and formatting the parts gives the integer back. |
| `Calendar.OrdinalMonotone` | generate_pnl_data.py:85-89 | Between valid dates, YYYYMMDD order equals ordinal order, and YYYYMMDD equality equals date equality. |
| `Calendar.NextDayFormat` | generate_pnl_data.py:88-89 | The next day has a larger YYYYMMDD form, which never exceeds 99991231. |
| `Calendar.OrdinalIsMax` | generate_pnl_data.py:89 | No valid date has an ordinal above 9999-12-31's, and only that date reaches it. |
| `Calendar.YearsMonotone` | generate_pnl_data.py:85 | Later years start later. |

## Left out

- Reading pool files and directories (`model/pnl_pool.py:52-71`, `_read_file`, `utils/file_utils.py`) is file I/O. `PnlPool.New` returns `ReadFiles` with the paths it was given and reads nothing. `utils/file_utils.py` is not part of this model.
- PnlPool.GetCorrelations: the Pearson arithmetic (means, population standard deviations, `dot`) is a parameter, `pearson`. It is not computed, and floating point, NaN from a zero standard deviation and rounding are not modelled. The contract states the checks, the shape and which pair of series each entry correlates.
- PnlPool.FromJson: JSON is modelled as a value (`Json`), not as text. `json.loads`/`json.dumps` parsing and printing are not modelled. A ragged `data` list, which numpy would hold as an object array, is treated as `Malformed`. So are values that the constructor would store without checking, which numpy would hold as arrays of another type: a `data` that is not a list of lists of numbers, a `header` that is not a list of strings, or `dates` that are not a list of integers.
- PnlPool.AsMatrixForDays: a pool with no rows is refused as `NotTwoDimensional`, because numpy stores `[]` as a 1-D array that cannot be indexed with `[:, lo:hi]`.
- PnlPool.WindowExact: the exact-window property needs the dates ascending (`Sorted`). `PnlPool.__init__` and `as_matrix_for_days` assume this and do not check it. On unsorted dates the model computes what the code computes.
- Correlations.New: arrays of three or more dimensions carry no entries in the model (`Deeper`), because only their rejection matters.
- Correlations.TopNCorrsForCol: numpy's default argsort (quicksort) does not promise an order among equal absolute values. The model fixes the order a stable sort gives: after reversal, the later row comes first. `TopRowsRanked`, `TopNOrdered`, `TopNDominates` and `TopNPermutes` hold for that order. What they state about values, ranks and permutations would hold for any tie order.
- Correlations.TopNCorrsForCol: numpy's `repeat`/`reshape` fails when the input has at least one column and the label count differs from the row count (`NewReshapeFails`). The model returns that as `ReshapeMismatch` from `New`. Label grids of other shapes are handled through the broadcasting rules of `take_along_axis`.
- Correlations.New: a 0-D input is not modelled. The code would take the `else` branch and fail with IndexError at `corr_matrix.shape[1]` (model/correlations.py:27).
- Correlations.ThreeByThreeExample: the test's expected arrays are stated entry by entry, together with their shapes, not as one equality of nested lists.
- PnlDataGenerator.GenerateDates: an invalid start date is returned as `Err(InvalidDate)` where Python raises an exception (ValueError, or OverflowError for a year beyond the C integer range). The final `np.array(dates, dtype="int32")` conversion is not modelled: every YYYYMMDD value is at most 99991231 and fits in 32 bits.
- PnlDataGenerator.GenerateDates: `generate_dates` steps the date once more after appending the last entry. A walk whose last entry is 9999-12-31 therefore overflows, and the model reproduces this.
- PnlDataGenerator.GenerateDates: for years below 1000, `strftime("%Y")` may or may not pad to four digits, depending on the platform. The integer read back is the same either way, so the model formats arithmetically.
- The rest of `generate_pnl_data.py` (random returns, smoothing, writing files), the HTTP server, the request and response classes and `compute_pnl_correlation.py` are outside this model.
