/**
 * `PnlPool`: the daily profit-and-loss series of N files over the same D
 * dates, held as an N x D matrix with the file names as row labels and the
 * YYYYMMDD dates (ascending) as column labels; selecting the columns of a date
 * range, correlating every series of one pool with every series of another,
 * and the JSON form a pool is sent in.
 */
module PnlPool {
  import opened Outcome
  import Corr = Correlations

  type Matrix = Corr.Matrix<real>

  datatype Pool = Pool(data: Matrix, header: seq<string>, dates: seq<int>)

  datatype PoolError =
    | NoInputs             // neither stored fields nor files to read
    | NoDates              // a bound given, but the pool has no dates to compare it with
    | StartAfterLastDate
    | EndBeforeFirstDate
    | StartAfterEnd
    | NotTwoDimensional    // the stored data has no rows, so numpy holds it as a 1-D array
    | DatesMismatch
    | TooFewDays
    | CorrelationsFailed(cause: Corr.CorrError)
    | MissingKey(key: string)
    | Malformed

  /** What a pool read from files satisfies: one row and one label per file, one column per date, dates ascending. */
  predicate Consistent(p: Pool) {
    && Corr.IsRect(p.data)
    && |p.data.rows| == |p.header| && |p.data.rows| > 0
    && p.data.width == |p.dates|
    && Sorted(p.dates)
  }

  predicate Sorted(dates: seq<int>) {
    forall i, j :: 0 <= i < j < |dates| ==> dates[i] <= dates[j]
  }

  // ---------------------------------------------------------------------------
  // Construction

  /** The two ways a pool comes to be: from stored fields, or by reading files (not modelled here). */
  datatype Construction = Built(pool: Pool) | ReadFiles(dirsAndFiles: seq<string>)

  /**
   * `PnlPool(*dirs_and_files, data=..., header=..., dates=...)`: with all three
   * fields given the pool is exactly those fields; otherwise the files are
   * read, and there must be at least one to read.
   */
  function New(dirsAndFiles: seq<string>, data: Option<Matrix>, header: Option<seq<string>>, dates: Option<seq<int>>): (r: Result<Construction, PoolError>)
    ensures data.Some? && header.Some? && dates.Some? <==> r.Ok? && r.value.Built?
    ensures r.Ok? && r.value.Built? ==> r.value.pool == Pool(data.value, header.value, dates.value)
    ensures r == Err(NoInputs) <==> (data.None? || header.None? || dates.None?) && |dirsAndFiles| == 0
    ensures r.Ok? && r.value.ReadFiles? ==> r.value.dirsAndFiles == dirsAndFiles
  {
    if data.Some? && header.Some? && dates.Some? then
      Ok(Built(Pool(data.value, header.value, dates.value)))
    else if |dirsAndFiles| == 0 then
      Err(NoInputs)
    else
      Ok(ReadFiles(dirsAndFiles))
  }

  /** `as_matrix()`: the whole N x D matrix. */
  function AsMatrix(p: Pool): (r: Matrix)
    ensures Consistent(p) ==> Corr.IsRect(r) && |r.rows| == |p.header| && r.width == |p.dates|
  {
    p.data
  }

  /** `headers()`: the row labels. */
  function Headers(p: Pool): (r: seq<string>)
    ensures Consistent(p) ==> |r| == |AsMatrix(p).rows|
  {
    p.header
  }

  // ---------------------------------------------------------------------------
  // Selecting a date range

  /** A date bound counts only when it is truthy: `None` and `0` both mean "no bound". */
  predicate Present(bound: Option<int>)
    ensures bound == None ==> !Present(bound)
    ensures bound == Some(0) ==> !Present(bound)
    ensures bound.Some? && bound.value != 0 ==> Present(bound)
  {
    bound.Some? && bound.value != 0
  }

  /** A date lies within the bounds that are present. */
  predicate InBounds(d: int, start: Option<int>, end: Option<int>) {
    (!Present(start) || start.value <= d) && (!Present(end) || d <= end.value)
  }

  /** `np.where(dates >= v)[0][0]`: the first index holding a date at or after `v` (`|dates|` when none does). */
  function FirstAtLeast(dates: seq<int>, v: int): (r: nat)
    ensures r <= |dates|
    ensures r < |dates| ==> dates[r] >= v
    ensures forall i :: 0 <= i < r ==> dates[i] < v
    decreases |dates|
  {
    if |dates| == 0 then 0
    else if dates[0] >= v then 0
    else 1 + FirstAtLeast(dates[1..], v)
  }

  /** `np.where(dates <= v)[0][-1]`: the last index holding a date at or before `v` (`-1` when none does). */
  function LastAtMost(dates: seq<int>, v: int): (r: int)
    ensures -1 <= r < |dates|
    ensures r >= 0 ==> dates[r] <= v
    ensures forall i :: r < i < |dates| ==> dates[i] > v
    decreases |dates|
  {
    if |dates| == 0 then -1
    else if dates[|dates| - 1] <= v then |dates| - 1
    else LastAtMost(dates[..|dates| - 1], v)
  }

  /** The column range `[lo, hi)` that `as_matrix_for_days` slices. */
  datatype Window = Window(lo: nat, hi: nat)

  /**
   * The checks and index computations of `as_matrix_for_days`, in the order
   * it makes them: reading the first or last date of a pool without dates
   * fails (`NoDates`); then a start after the last date, an end before the
   * first date and a start after the end are refused, each with its own
   * error; a missing start, or one before the first date, starts at column
   * 0; a missing end, or one after the last date, ends after the last column.
   */
  function DateWindow(dates: seq<int>, start: Option<int>, end: Option<int>): (r: Result<Window, PoolError>)
    ensures r.Err? <==>
      || (Present(start) && (|dates| == 0 || start.value > dates[|dates| - 1]))
      || (Present(end) && (|dates| == 0 || end.value < dates[0]))
      || (Present(start) && Present(end) && start.value > end.value)
    ensures r == Err(NoDates) <==> (Present(start) || Present(end)) && |dates| == 0
    ensures r == Err(StartAfterLastDate) <==> Present(start) && |dates| > 0 && start.value > dates[|dates| - 1]
    ensures r == Err(EndBeforeFirstDate) <==>
      && Present(end) && |dates| > 0 && end.value < dates[0]
      && !(Present(start) && start.value > dates[|dates| - 1])
    ensures r == Err(StartAfterEnd) <==>
      && Present(start) && Present(end) && |dates| > 0 && start.value > end.value
      && start.value <= dates[|dates| - 1] && end.value >= dates[0]
    ensures r.Ok? ==> r.value.lo <= |dates| && r.value.hi <= |dates|
    ensures r.Ok? && !Present(start) ==> r.value.lo == 0
    ensures r.Ok? && !Present(end) ==> r.value.hi == |dates|
  {
    if Present(start) && |dates| == 0 then Err(NoDates)
    else if Present(start) && start.value > dates[|dates| - 1] then Err(StartAfterLastDate)
    else if Present(end) && |dates| == 0 then Err(NoDates)
    else if Present(end) && end.value < dates[0] then Err(EndBeforeFirstDate)
    else if Present(start) && Present(end) && start.value > end.value then Err(StartAfterEnd)
    else
      var lo := if !Present(start) || start.value < dates[0] then 0 else FirstAtLeast(dates, start.value);
      var hi := if !Present(end) || end.value > dates[|dates| - 1] then |dates| else LastAtMost(dates, end.value) + 1;
      Ok(Window(lo, hi))
  }

  /** Python's `s[lo:hi]` for non-negative bounds: both are cut back to the length, and a reversed range is empty. */
  function PySlice<T>(s: seq<T>, lo: nat, hi: nat): (r: seq<T>)
    ensures lo <= hi <= |s| ==> r == s[lo..hi]
    ensures |r| <= |s|
  {
    var a := if lo < |s| then lo else |s|;
    var b := if hi < a then a else if hi < |s| then hi else |s|;
    s[a..b]
  }

  /** `data[:, lo:hi]` of a 2-D array: the same column range cut from every row. */
  function SliceColumns(m: Matrix, lo: nat, hi: nat): (r: Matrix)
    requires Corr.IsRect(m)
    ensures Corr.IsRect(r) && |r.rows| == |m.rows|
    ensures lo <= hi <= m.width ==> r.width == hi - lo && forall i :: 0 <= i < |m.rows| ==> r.rows[i] == m.rows[i][lo..hi]
  {
    var width := |PySlice(Corr.Range(m.width), lo, hi)|;
    Corr.Matrix(seq(|m.rows|, i requires 0 <= i < |m.rows| => PySlice(m.rows[i], lo, hi)), width)
  }

  /**
   * `as_matrix_for_days(start, end)`: the columns of the dates from `start`
   * to `end` inclusive, every row kept in order.
   */
  function AsMatrixForDays(p: Pool, start: Option<int>, end: Option<int>): (r: Result<Matrix, PoolError>)
    requires Corr.IsRect(p.data)
    ensures DateWindow(p.dates, start, end).Err? ==> r == Err(DateWindow(p.dates, start, end).error)
    ensures DateWindow(p.dates, start, end).Ok? ==> (r == Err(NotTwoDimensional) <==> |p.data.rows| == 0)
    ensures r.Ok? ==> Corr.IsRect(r.value) && |r.value.rows| == |p.data.rows|
  {
    match DateWindow(p.dates, start, end)
    case Err(e) => Err(e)
    case Ok(w) =>
      if |p.data.rows| == 0 then Err(NotTwoDimensional)
      else Ok(SliceColumns(p.data, w.lo, w.hi))
  }

  /** With dates ascending, the window holds exactly the columns whose dates lie within the bounds. */
  lemma {:induction false} WindowExact(dates: seq<int>, start: Option<int>, end: Option<int>)
    requires Sorted(dates)
    ensures var r := DateWindow(dates, start, end);
      r.Ok? ==>
        && r.value.lo <= r.value.hi
        && forall c :: 0 <= c < |dates| ==> (r.value.lo <= c < r.value.hi <==> InBounds(dates[c], start, end))
  {
    var r := DateWindow(dates, start, end);
    if r.Ok? {
      var lo, hi := r.value.lo, r.value.hi;
      forall c | 0 <= c < |dates|
        ensures lo <= c <==> !Present(start) || start.value <= dates[c]
        ensures c < hi <==> !Present(end) || dates[c] <= end.value
      {
        if Present(start) && c >= lo && lo < |dates| {
          assert dates[lo] <= dates[c];
        }
        if Present(start) && start.value >= dates[0] {
          assert lo == FirstAtLeast(dates, start.value);
        }
        if Present(end) && c < hi && hi > 0 {
          assert dates[c] <= dates[hi - 1];
        }
        if Present(end) && end.value <= dates[|dates| - 1] {
          assert hi == LastAtMost(dates, end.value) + 1;
        }
      }
      if hi < |dates| {
        assert lo <= hi <==> !Present(start) || start.value <= dates[hi];
      }
    }
  }

  /** A refused range is one no date of the pool lies in. */
  lemma RefusedRangeIsEmpty(dates: seq<int>, start: Option<int>, end: Option<int>)
    requires Sorted(dates)
    ensures DateWindow(dates, start, end).Err? ==> forall c :: 0 <= c < |dates| ==> !InBounds(dates[c], start, end)
  {
    if DateWindow(dates, start, end).Err? {
      forall c | 0 <= c < |dates| ensures !InBounds(dates[c], start, end) {
        assert dates[0] <= dates[c] <= dates[|dates| - 1];
      }
    }
  }

  /**
   * For a consistent pool, the matrix for a range keeps every row, in order,
   * cut to exactly the columns whose dates lie within the bounds.
   */
  lemma {:induction false} DaysSelected(p: Pool, start: Option<int>, end: Option<int>)
    requires Consistent(p)
    ensures var r := AsMatrixForDays(p, start, end);
      r.Ok? ==>
        var w := DateWindow(p.dates, start, end).value;
        && w.lo <= w.hi <= |p.dates|
        && r.value.width == w.hi - w.lo
        && (forall i :: 0 <= i < |p.data.rows| ==> r.value.rows[i] == p.data.rows[i][w.lo..w.hi])
        && (forall c :: 0 <= c < |p.dates| ==> (w.lo <= c < w.hi <==> InBounds(p.dates[c], start, end)))
  {
    WindowExact(p.dates, start, end);
  }

  /** Without bounds (or with bounds of 0) a consistent pool's matrix comes back whole. */
  lemma WholeMatrix(p: Pool, start: Option<int>, end: Option<int>)
    requires Consistent(p) && !Present(start) && !Present(end)
    ensures AsMatrixForDays(p, start, end) == Ok(AsMatrix(p))
  {
    var m := SliceColumns(p.data, 0, |p.dates|);
    forall i | 0 <= i < |p.data.rows| ensures m.rows[i] == p.data.rows[i] {
      assert p.data.rows[i][0..|p.dates|] == p.data.rows[i];
    }
    assert m.rows == p.data.rows;
  }

  // ---------------------------------------------------------------------------
  // Correlations between two pools

  /** Every row of `x` against every row of `y`: entry `(i, j)` is `pearson(x[i], y[j])`. */
  function PairwiseGrid(x: Matrix, y: Matrix, pearson: (seq<real>, seq<real>) -> real): (r: Matrix)
    ensures Corr.IsRect(r) && |r.rows| == |x.rows| && r.width == |y.rows|
  {
    Corr.Matrix(seq(|x.rows|, i requires 0 <= i < |x.rows| =>
      seq(|y.rows|, j requires 0 <= j < |y.rows| => pearson(x.rows[i], y.rows[j]))), |y.rows|)
  }

  /**
   * `get_correlations(new_pnls, start, end)`: both pools are cut to the range;
   * they must then have the same number of days, and at least two; the
   * Pearson correlation (population mean and standard deviation, given here
   * as `pearson`) of every series of this pool with every series of the other
   * is labelled with this pool's headers as rows and the other's as columns.
   */
  function GetCorrelations(p: Pool, other: Pool, start: Option<int>, end: Option<int>,
                           pearson: (seq<real>, seq<real>) -> real): (r: Result<Corr.Correlations, PoolError>)
    requires Corr.IsRect(p.data) && Corr.IsRect(other.data)
    ensures AsMatrixForDays(p, start, end).Err? ==> r == Err(AsMatrixForDays(p, start, end).error)
    ensures AsMatrixForDays(p, start, end).Ok? && AsMatrixForDays(other, start, end).Err? ==>
      r == Err(AsMatrixForDays(other, start, end).error)
    ensures AsMatrixForDays(p, start, end).Ok? && AsMatrixForDays(other, start, end).Ok? ==>
      var x, y := AsMatrixForDays(p, start, end).value, AsMatrixForDays(other, start, end).value;
      && (r == Err(DatesMismatch) <==> x.width != y.width)
      && (r == Err(TooFewDays) <==> x.width == y.width < 2)
    ensures r.Ok? ==>
      && Corr.WellShaped(r.value)
      && |r.value.corrMatrix.rows| == |p.data.rows| && r.value.corrMatrix.width == |other.data.rows|
      && r.value.colNames == Headers(other)
  {
    match AsMatrixForDays(p, start, end)
    case Err(e) => Err(e)
    case Ok(x) =>
      match AsMatrixForDays(other, start, end)
      case Err(e) => Err(e)
      case Ok(y) =>
        if x.width != y.width then Err(DatesMismatch)
        else if x.width < 2 then Err(TooFewDays)
        else
          match Corr.New(Corr.Array2(PairwiseGrid(x, y, pearson)), Headers(p), Headers(other))
          case Err(e) => Err(CorrelationsFailed(e))
          case Ok(c) => Ok(c)
  }

  /**
   * For consistent pools the result is an N x M grid, entry `(i, j)` the
   * correlation of this pool's series `i` with the other's series `j` over
   * the selected days, labelled with this pool's header `i`.
   */
  lemma {:induction false} CorrelationGrid(p: Pool, other: Pool, start: Option<int>, end: Option<int>,
                                           pearson: (seq<real>, seq<real>) -> real)
    requires Consistent(p) && Consistent(other)
    ensures var r := GetCorrelations(p, other, start, end, pearson);
      r.Ok? ==>
        var x, y := AsMatrixForDays(p, start, end).value, AsMatrixForDays(other, start, end).value;
        forall i, j :: 0 <= i < |p.data.rows| && 0 <= j < |other.data.rows| ==>
          && r.value.corrMatrix.rows[i][j] == pearson(x.rows[i], y.rows[j])
          && r.value.rowMatrix.rows[i][j] == p.header[i]
  {
    var r := GetCorrelations(p, other, start, end, pearson);
    if r.Ok? {
      var x, y := AsMatrixForDays(p, start, end).value, AsMatrixForDays(other, start, end).value;
      var g := PairwiseGrid(x, y, pearson);
      Corr.LabelGrid(g, Headers(p), Headers(other));
    }
  }

  /** Consistent pools whose ranges yield the same number (at least two) of days always correlate. */
  lemma CorrelatesWhenDaysAgree(p: Pool, other: Pool, start: Option<int>, end: Option<int>,
                                pearson: (seq<real>, seq<real>) -> real)
    requires Consistent(p) && Consistent(other)
    requires AsMatrixForDays(p, start, end).Ok? && AsMatrixForDays(other, start, end).Ok?
    requires AsMatrixForDays(p, start, end).value.width == AsMatrixForDays(other, start, end).value.width >= 2
    ensures GetCorrelations(p, other, start, end, pearson).Ok?
  {
    var x := AsMatrixForDays(p, start, end).value;
    Corr.NewReshapeFails(PairwiseGrid(x, AsMatrixForDays(other, start, end).value, pearson), Headers(p));
  }

  /**
   * Only the numbers of days are compared, never the dates themselves: two
   * consistent pools with two or more days and the same number of them
   * correlate without bounds whatever their dates are.
   */
  lemma OnlyDayCountsCompared(p: Pool, other: Pool, pearson: (seq<real>, seq<real>) -> real)
    requires Consistent(p) && Consistent(other) && |p.dates| == |other.dates| >= 2
    ensures GetCorrelations(p, other, None, None, pearson).Ok?
  {
    WholeMatrix(p, None, None);
    WholeMatrix(other, None, None);
    CorrelatesWhenDaysAgree(p, other, None, None, pearson);
  }

  /** Pools holding a single day each cannot be correlated. */
  lemma SingleDayRefused(p: Pool, other: Pool, pearson: (seq<real>, seq<real>) -> real)
    requires Consistent(p) && Consistent(other) && |p.dates| == 1 && |other.dates| == 1
    ensures GetCorrelations(p, other, None, None, pearson) == Err(TooFewDays)
  {
    WholeMatrix(p, None, None);
    WholeMatrix(other, None, None);
  }

  /**
   * Three files over five dates, two of them before 20090103, two from then
   * to 20090106 and one after: that range picks the middle two columns.
   */
  lemma RangeExample(p: Pool)
    requires p.data == Corr.Matrix([[1.0, 2.0, 3.0, 4.0, 5.0], [6.0, 7.0, 8.0, 9.0, 10.0], [11.0, 12.0, 13.0, 14.0, 15.0]], 5)
    requires |p.dates| == 5
    requires p.dates[0] < p.dates[1] < 20090103 <= p.dates[2] < p.dates[3] <= 20090106 < p.dates[4]
    ensures AsMatrixForDays(p, Some(20090103), Some(20090106)) == Ok(Corr.Matrix([[3.0, 4.0], [8.0, 9.0], [13.0, 14.0]], 2))
  {
    var dates := p.dates;
    assert FirstAtLeast(dates, 20090103) == 2;
    assert LastAtMost(dates, 20090106) == 3;
    assert DateWindow(dates, Some(20090103), Some(20090106)) == Ok(Window(2, 4));
    var m := SliceColumns(p.data, 2, 4);
    assert m.rows[0] == [3.0, 4.0];
    assert m.rows[1] == [8.0, 9.0];
    assert m.rows[2] == [13.0, 14.0];
    assert m.rows == [[3.0, 4.0], [8.0, 9.0], [13.0, 14.0]];
    assert |PySlice(Corr.Range(5), 2, 4)| == 2;
  }

  /** The same pool, a range of one day: the first column. */
  lemma SingleDayRangeExample(p: Pool)
    requires p.data == Corr.Matrix([[1.0, 2.0, 3.0, 4.0, 5.0], [6.0, 7.0, 8.0, 9.0, 10.0], [11.0, 12.0, 13.0, 14.0, 15.0]], 5)
    requires |p.dates| == 5
    requires p.dates[0] == 20090101 < p.dates[1] < p.dates[2] < p.dates[3] < p.dates[4]
    ensures AsMatrixForDays(p, Some(20090101), Some(20090101)) == Ok(Corr.Matrix([[1.0], [6.0], [11.0]], 1))
  {
    var dates := p.dates;
    assert LastAtMost(dates, 20090101) == 0;
    assert DateWindow(dates, Some(20090101), Some(20090101)) == Ok(Window(0, 1));
    var m := SliceColumns(p.data, 0, 1);
    assert m.rows[0] == [1.0];
    assert m.rows[1] == [6.0];
    assert m.rows[2] == [11.0];
    assert m.rows == [[1.0], [6.0], [11.0]];
    assert |PySlice(Corr.Range(5), 0, 1)| == 1;
  }

  /** The same pool, a range wider than its dates: the whole matrix. */
  lemma WideRangeExample(p: Pool)
    requires p.data == Corr.Matrix([[1.0, 2.0, 3.0, 4.0, 5.0], [6.0, 7.0, 8.0, 9.0, 10.0], [11.0, 12.0, 13.0, 14.0, 15.0]], 5)
    requires |p.dates| == 5
    requires 20080101 <= p.dates[0] < p.dates[1] < p.dates[2] < p.dates[3] < p.dates[4] <= 20200101
    ensures AsMatrixForDays(p, Some(20080101), Some(20200101)) == Ok(p.data)
  {
    var dates := p.dates;
    assert FirstAtLeast(dates, 20080101) == 0;
    assert DateWindow(dates, Some(20080101), Some(20200101)) == Ok(Window(0, 5));
    var m := SliceColumns(p.data, 0, 5);
    assert m.rows[0] == p.data.rows[0][0..5] == p.data.rows[0];
    assert m.rows[1] == p.data.rows[1][0..5] == p.data.rows[1];
    assert m.rows[2] == p.data.rows[2][0..5] == p.data.rows[2];
    assert m.rows == p.data.rows;
  }

  // ---------------------------------------------------------------------------
  // The JSON form

  /** The JSON values a pool's encoding is made of. */
  datatype Json =
    | JNull
    | JNum(num: real)
    | JInt(whole: int)
    | JStr(str: string)
    | JList(items: seq<Json>)
    | JObject(fields: map<string, Json>)

  function EncodeRow(row: seq<real>): (r: Json)
    ensures r.JList? && |r.items| == |row|
  {
    JList(seq(|row|, k requires 0 <= k < |row| => JNum(row[k])))
  }

  /**
   * `to_json()`: an object with the data as a list of rows of numbers, the
   * header as a list of strings and the dates as a list of integers.
   */
  function ToJson(p: Pool): (r: Json)
    ensures r.JObject? && r.fields.Keys == {"data", "header", "dates"}
  {
    JObject(map[
      "data" := JList(seq(|p.data.rows|, i requires 0 <= i < |p.data.rows| => EncodeRow(p.data.rows[i]))),
      "header" := EncodeStrings(p.header),
      "dates" := EncodeInts(p.dates)])
  }

  function EncodeStrings(ss: seq<string>): (r: Json)
    ensures r.JList? && |r.items| == |ss|
  {
    JList(seq(|ss|, i requires 0 <= i < |ss| => JStr(ss[i])))
  }

  function EncodeInts(xs: seq<int>): (r: Json)
    ensures r.JList? && |r.items| == |xs|
  {
    JList(seq(|xs|, i requires 0 <= i < |xs| => JInt(xs[i])))
  }

  /** A JSON number as numpy reads it into a float array: integers are converted. */
  function Number(j: Json): (r: Option<real>)
    ensures r.Some? <==> j.JNum? || j.JInt?
    ensures j.JInt? ==> r == Some(j.whole as real)
  {
    match j
    case JNum(x) => Some(x)
    case JInt(v) => Some(v as real)
    case _ => None
  }

  /** A row of the data list: a list of numbers, integers read as floats. */
  function DecodeRow(j: Json): (r: Option<seq<real>>)
    ensures r.Some? <==> j.JList? && forall k :: 0 <= k < |j.items| ==> j.items[k].JNum? || j.items[k].JInt?
    ensures r.Some? ==> |r.value| == |j.items| && forall k :: 0 <= k < |j.items| ==>
      && (j.items[k].JNum? ==> r.value[k] == j.items[k].num)
      && (j.items[k].JInt? ==> r.value[k] == j.items[k].whole as real)
  {
    if j.JList? && forall k :: 0 <= k < |j.items| ==> Number(j.items[k]).Some? then
      Some(seq(|j.items|, k requires 0 <= k < |j.items| => Number(j.items[k]).value))
    else
      None
  }

  /** The data list as a 2-D array: rows of numbers, all of the same length. */
  function DecodeGrid(j: Json): (r: Option<Matrix>)
    ensures r.Some? ==> Corr.IsRect(r.value) && j.JList? && |r.value.rows| == |j.items|
    ensures r.Some? <==>
      && j.JList?
      && (forall i :: 0 <= i < |j.items| ==> DecodeRow(j.items[i]).Some?)
      && (forall i, k :: 0 <= i < k < |j.items| ==> |DecodeRow(j.items[i]).value| == |DecodeRow(j.items[k]).value|)
    ensures r.Some? ==> forall i :: 0 <= i < |j.items| ==> DecodeRow(j.items[i]) == Some(r.value.rows[i])
  {
    if !j.JList? || exists i :: 0 <= i < |j.items| && DecodeRow(j.items[i]).None? then None
    else
      var values := seq(|j.items|, i requires 0 <= i < |j.items| => DecodeRow(j.items[i]).value);
      var width := if |values| == 0 then 0 else |values[0]|;
      if forall i :: 0 <= i < |values| ==> |values[i]| == width then
        assert forall i, k :: 0 <= i < k < |j.items| ==> |DecodeRow(j.items[i]).value| == |DecodeRow(j.items[k]).value| by {
          forall i, k | 0 <= i < k < |j.items| ensures |DecodeRow(j.items[i]).value| == |DecodeRow(j.items[k]).value| {
            assert |values[i]| == width && |values[k]| == width;
          }
        }
        Some(Corr.Matrix(values, width))
      else
        assert exists k :: 0 < k < |values| && |values[k]| != |values[0]|;
        None
  }

  /** The header list: the file names, in order. */
  function DecodeStrings(j: Json): (r: Option<seq<string>>)
    ensures r.Some? <==> j.JList? && forall k :: 0 <= k < |j.items| ==> j.items[k].JStr?
    ensures r.Some? ==> |r.value| == |j.items| && forall k :: 0 <= k < |j.items| ==> r.value[k] == j.items[k].str
  {
    if j.JList? && forall k :: 0 <= k < |j.items| ==> j.items[k].JStr? then
      Some(seq(|j.items|, k requires 0 <= k < |j.items| => j.items[k].str))
    else
      None
  }

  /** The dates list: YYYYMMDD integers, in order. */
  function DecodeInts(j: Json): (r: Option<seq<int>>)
    ensures r.Some? <==> j.JList? && forall k :: 0 <= k < |j.items| ==> j.items[k].JInt?
    ensures r.Some? ==> |r.value| == |j.items| && forall k :: 0 <= k < |j.items| ==> r.value[k] == j.items[k].whole
  {
    if j.JList? && forall k :: 0 <= k < |j.items| ==> j.items[k].JInt? then
      Some(seq(|j.items|, k requires 0 <= k < |j.items| => j.items[k].whole))
    else
      None
  }

  /**
   * `from_json(all_data)`: look up "data", "header" and "dates" in turn (a
   * missing key fails) and hand the three values to the constructor with no
   * files to read. The constructor takes its stored-fields branch only when
   * none of them is `null`; otherwise it finds no files and refuses
   * (`NoInputs`) without looking at the values. Only then are the values read
   * as arrays.
   */
  function FromJson(j: Json): (r: Result<Pool, PoolError>)
    ensures !j.JObject? ==> r == Err(Malformed)
    ensures j.JObject? ==> ("data" !in j.fields <==> r == Err(MissingKey("data")))
    ensures j.JObject? && "data" in j.fields ==> ("header" !in j.fields <==> r == Err(MissingKey("header")))
    ensures j.JObject? && "data" in j.fields && "header" in j.fields ==>
      ("dates" !in j.fields <==> r == Err(MissingKey("dates")))
    ensures j.JObject? && "data" in j.fields && "header" in j.fields && "dates" in j.fields ==>
      (r == Err(NoInputs) <==> j.fields["data"].JNull? || j.fields["header"].JNull? || j.fields["dates"].JNull?)
    ensures (j.JObject? && "data" in j.fields && "header" in j.fields && "dates" in j.fields &&
             !j.fields["data"].JNull? && !j.fields["header"].JNull? && !j.fields["dates"].JNull?) ==>
      && (r.Ok? <==> DecodeGrid(j.fields["data"]).Some? && DecodeStrings(j.fields["header"]).Some? && DecodeInts(j.fields["dates"]).Some?)
      && (r.Err? ==> r == Err(Malformed))
    ensures r.Ok? ==>
      && DecodeGrid(j.fields["data"]) == Some(r.value.data)
      && DecodeStrings(j.fields["header"]) == Some(r.value.header)
      && DecodeInts(j.fields["dates"]) == Some(r.value.dates)
  {
    if !j.JObject? then Err(Malformed)
    else if "data" !in j.fields then Err(MissingKey("data"))
    else if "header" !in j.fields then Err(MissingKey("header"))
    else if "dates" !in j.fields then Err(MissingKey("dates"))
    else
      var data, header, dates := j.fields["data"], j.fields["header"], j.fields["dates"];
      if data.JNull? || header.JNull? || dates.JNull? then
        Err(NoInputs)
      else
        match (DecodeGrid(data), DecodeStrings(header), DecodeInts(dates))
        case (Some(m), Some(h), Some(d)) =>
          (match New([], Some(m), Some(h), Some(d))
           case Ok(Built(p)) => Ok(p)
           case _ => Err(NoInputs))
        case _ => Err(Malformed)
  }

  /** A pool whose data is a proper 2-D array (a pool with no rows has no columns either). */
  predicate Encodable(p: Pool) {
    Corr.IsRect(p.data) && (|p.data.rows| == 0 ==> p.data.width == 0)
  }

  lemma RowRoundTrip(row: seq<real>)
    ensures DecodeRow(EncodeRow(row)) == Some(row)
  {
    var j := EncodeRow(row);
    assert forall k :: 0 <= k < |row| ==> j.items[k] == JNum(row[k]);
    assert seq(|j.items|, k requires 0 <= k < |j.items| => Number(j.items[k]).value) == row;
  }

  lemma StringsRoundTrip(ss: seq<string>)
    ensures DecodeStrings(EncodeStrings(ss)) == Some(ss)
  {
    var j := EncodeStrings(ss);
    assert seq(|j.items|, k requires 0 <= k < |j.items| => j.items[k].str) == ss;
  }

  lemma IntsRoundTrip(xs: seq<int>)
    ensures DecodeInts(EncodeInts(xs)) == Some(xs)
  {
    var j := EncodeInts(xs);
    assert seq(|j.items|, k requires 0 <= k < |j.items| => j.items[k].whole) == xs;
  }

  /** Integer entries, as a hand-written JSON file has them, read as floats. */
  lemma IntRowDecodes(xs: seq<int>)
    ensures DecodeRow(JList(seq(|xs|, k requires 0 <= k < |xs| => JInt(xs[k]))))
      == Some(seq(|xs|, k requires 0 <= k < |xs| => xs[k] as real))
  {
    var j := JList(seq(|xs|, k requires 0 <= k < |xs| => JInt(xs[k])));
    assert seq(|j.items|, k requires 0 <= k < |j.items| => Number(j.items[k]).value)
      == seq(|xs|, k requires 0 <= k < |xs| => xs[k] as real);
  }

  /** One file with two integer PnL values over two dates is accepted. */
  lemma IntegerDataExample(j: Json)
    requires j.JObject? && j.fields.Keys == {"data", "header", "dates"}
    requires j.fields["data"] == JList([JList([JInt(1), JInt(2)])])
    requires j.fields["header"] == JList([JStr("file1")])
    requires j.fields["dates"] == JList([JInt(20090101), JInt(20090102)])
    ensures FromJson(j).Ok?
    ensures FromJson(j).value.data.rows == [[1.0, 2.0]] && FromJson(j).value.data.width == 2
    ensures FromJson(j).value.header == ["file1"] && FromJson(j).value.dates == [20090101, 20090102]
  {
    var dj := j.fields["data"];
    var row := DecodeRow(dj.items[0]);
    assert dj.items[0].items[0].JInt? && dj.items[0].items[1].JInt?;
    assert row.Some? && row.value == [1.0, 2.0];
    var g := DecodeGrid(dj);
    assert g.Some? && g.value == Corr.Matrix([[1.0, 2.0]], 2);
    var h := DecodeStrings(j.fields["header"]);
    assert h.Some? && h.value == ["file1"];
    var d := DecodeInts(j.fields["dates"]);
    assert d.Some? && d.value == [20090101, 20090102];
  }

  /** Sending a pool as JSON and reading it back gives the same pool. */
  lemma {:induction false} JsonRoundTrip(p: Pool)
    requires Encodable(p)
    ensures FromJson(ToJson(p)) == Ok(p)
  {
    var j := ToJson(p);
    var dj := j.fields["data"];
    forall i | 0 <= i < |p.data.rows| ensures DecodeRow(dj.items[i]) == Some(p.data.rows[i]) {
      assert dj.items[i] == EncodeRow(p.data.rows[i]);
      RowRoundTrip(p.data.rows[i]);
    }
    var values := seq(|dj.items|, i requires 0 <= i < |dj.items| => DecodeRow(dj.items[i]).value);
    assert values == p.data.rows;
    assert DecodeGrid(dj) == Some(p.data);
    StringsRoundTrip(p.header);
    IntsRoundTrip(p.dates);
  }
}
