/**
 * `Correlations`: an N x M matrix of correlations between N pool series (the
 * rows) and M requested series (the columns), with a label for every row and
 * every column, and the selection of the `n` strongest correlations of each
 * column.
 *
 * numpy arrays are modelled as `Matrix` values (row-major, with an explicit
 * width so that a matrix with no rows keeps its shape). Correlation values are
 * reals: no NaN can arise.
 */
module Correlations {
  import opened Outcome

  /** A two-dimensional array: `|rows|` rows of `width` entries each. */
  datatype Matrix<T> = Matrix(rows: seq<seq<T>>, width: nat)

  predicate IsRect<T>(m: Matrix<T>) {
    forall i :: 0 <= i < |m.rows| ==> |m.rows[i]| == m.width
  }

  /** The correlation input as the constructor receives it, by number of dimensions. */
  datatype NdArray =
    | Array1(values: seq<real>)
    | Array2(grid: Matrix<real>)
    | Deeper   // three or more dimensions; the entries play no part

  datatype CorrError =
    | TooManyDimensions   // ValueError raised by the constructor
    | ReshapeMismatch     // `reshape` cannot lay the repeated labels out as N x M
    | LabelShapeMismatch  // `take_along_axis` over labels shaped unlike the correlations

  /** A constructed `Correlations` object. */
  datatype Correlations = Correlations(corrMatrix: Matrix<real>, rowMatrix: Matrix<string>, colNames: seq<string>)

  /** What every constructed object satisfies: both grids are rectangular with the same number of rows. */
  predicate WellShaped(c: Correlations) {
    IsRect(c.corrMatrix) && IsRect(c.rowMatrix) && |c.corrMatrix.rows| == |c.rowMatrix.rows|
  }

  // ---------------------------------------------------------------------------
  // Index arithmetic of a row-major N x M layout

  lemma IndexInGrid(i: nat, j: nat, n: nat, m: nat)
    requires i < n && j < m
    ensures i * m + j < n * m
  {
    MulMonotone(i + 1, n, m);
    assert (i + 1) * m == i * m + m;
  }

  /** Position `i * m + j` of a row-major layout lies in row `i`. */
  lemma RowOfIndex(i: nat, j: nat, m: nat)
    requires j < m
    ensures (i * m + j) / m == i
  {
    var q := (i * m + j) / m;
    var r := (i * m + j) % m;
    assert q * m + r == i * m + j;
    if q > i {
      MulStrict(i, q, m);
    } else if q < i {
      MulStrict(q, i, m);
    }
  }

  lemma MulMonotone(a: int, b: int, m: nat)
    requires a <= b
    ensures a * m <= b * m
  {
    var d := b - a;
    assert b * m == a * m + d * m;
  }

  lemma MulStrict(a: int, b: int, m: nat)
    requires a < b
    ensures a * m + m <= b * m
  {
    MulMonotone(a + 1, b, m);
    assert (a + 1) * m == a * m + m;
  }

  lemma MulCancel(a: int, b: int, m: int)
    requires m > 0
    ensures a * m == b * m <==> a == b
  {
    if a * m == b * m {
      assert (a - b) * m == 0;
    }
  }

  // ---------------------------------------------------------------------------
  // Construction

  /** `np.atleast_2d` of a 1-D array: the array as a single row. */
  function AtLeast2d<T>(v: seq<T>): (r: Matrix<T>)
    ensures IsRect(r) && |r.rows| == 1 && r.rows[0] == v
  {
    Matrix([v], |v|)
  }

  /** `np.repeat(names, m)`: each name repeated `m` times in turn. */
  function Repeat(names: seq<string>, m: nat): (r: seq<string>)
    ensures |r| == |names| * m
  {
    seq(|names| * m, k requires 0 <= k < |names| * m =>
      RowOfIndexBound(k, |names|, m);
      names[k / m])
  }

  lemma RowOfIndexBound(k: nat, n: nat, m: nat)
    requires k < n * m
    ensures m > 0 && k / m < n
  {
    if k / m >= n {
      MulMonotone(n, k / m, m);
    }
  }

  /** `flat.reshape((n, m))` for a flat array of exactly `n * m` entries. */
  function Reshape<T>(flat: seq<T>, n: nat, m: nat): (r: Matrix<T>)
    requires |flat| == n * m
    ensures IsRect(r) && |r.rows| == n && r.width == m
  {
    Matrix(seq(n, i requires 0 <= i < n =>
      seq(m, j requires 0 <= j < m =>
        IndexInGrid(i, j, n, m);
        flat[i * m + j])), m)
  }

  /**
   * `Correlations(corr_matrix, row_names, col_names)`: a 1-D input becomes a
   * single row and its labels a single row of labels; a 2-D input keeps its
   * shape and its row labels are spread over an N x M grid by repeating each
   * label M times and reshaping, which fails unless there are N labels (or no
   * columns); any deeper input is refused.
   */
  function New(corr: NdArray, rowNames: seq<string>, colNames: seq<string>): (r: Result<Correlations, CorrError>)
    requires corr.Array2? ==> IsRect(corr.grid)
    ensures corr.Deeper? <==> r == Err(TooManyDimensions)
    ensures corr.Array1? ==> r.Ok? && r.value.corrMatrix.rows == [corr.values] && r.value.rowMatrix.rows == [rowNames]
    ensures corr.Array2? ==> (r.Err? <==> corr.grid.width > 0 && |rowNames| != |corr.grid.rows|)
    ensures corr.Array2? && r.Ok? ==> r.value.corrMatrix == corr.grid && r.value.rowMatrix.width == corr.grid.width
    ensures r.Ok? ==> WellShaped(r.value) && r.value.colNames == colNames
  {
    match corr
    case Deeper => Err(TooManyDimensions)
    case Array1(v) => Ok(Correlations(AtLeast2d(v), AtLeast2d(rowNames), colNames))
    case Array2(g) =>
      var n, m := |g.rows|, g.width;
      var flat := Repeat(rowNames, m);
      if |flat| != n * m then
        Err(ReshapeMismatch)
      else
        Ok(Correlations(g, Reshape(flat, n, m), colNames))
  }

  /** The reshape fails exactly when there are columns and the label count is not the row count. */
  lemma NewReshapeFails(g: Matrix<real>, rowNames: seq<string>)
    ensures |rowNames| * g.width != |g.rows| * g.width <==> g.width > 0 && |rowNames| != |g.rows|
  {
    if g.width > 0 {
      MulCancel(|rowNames|, |g.rows|, g.width);
    }
  }

  /** For a 2-D input every cell of the label grid holds the label of its row. */
  lemma {:induction false} LabelGrid(g: Matrix<real>, rowNames: seq<string>, colNames: seq<string>)
    requires IsRect(g)
    ensures var r := New(Array2(g), rowNames, colNames);
      r.Ok? ==>
        && |r.value.rowMatrix.rows| == |g.rows| && r.value.rowMatrix.width == g.width
        && forall i, j :: 0 <= i < |g.rows| && 0 <= j < g.width ==> r.value.rowMatrix.rows[i][j] == rowNames[i]
  {
    var r := New(Array2(g), rowNames, colNames);
    if r.Ok? {
      var n, m := |g.rows|, g.width;
      NewReshapeFails(g, rowNames);
      forall i, j | 0 <= i < n && 0 <= j < m ensures r.value.rowMatrix.rows[i][j] == rowNames[i] {
        IndexInGrid(i, j, n, m);
        RowOfIndex(i, j, m);
      }
    }
  }

  // ---------------------------------------------------------------------------
  // Sorting row indices by absolute value (`np.argsort(np.abs(...), axis=0)`)

  function Abs(x: real): real {
    if x < 0.0 then -x else x
  }

  /**
   * Row `a` comes before row `b` in the ascending order of absolute values;
   * equal values keep their row order, as a stable sort leaves them.
   */
  predicate Below(col: seq<real>, a: nat, b: nat)
    requires a < |col| && b < |col|
  {
    Abs(col[a]) < Abs(col[b]) || (Abs(col[a]) == Abs(col[b]) && a < b)
  }

  /** `s` lists rows of `col` in strictly ascending order. */
  predicate Ascending(col: seq<real>, s: seq<nat>) {
    && (forall i :: 0 <= i < |s| ==> s[i] < |col|)
    && (forall i, j :: 0 <= i < j < |s| ==> Below(col, s[i], s[j]))
  }

  /** The row indices 0 .. n-1. */
  function Range(n: nat): (r: seq<nat>)
    ensures |r| == n && forall i :: 0 <= i < n ==> r[i] == i
  {
    seq(n, i => i)
  }

  lemma InRange(n: nat, x: nat)
    ensures x in multiset(Range(n)) <==> x < n
  {
    if x < n {
      assert Range(n)[x] == x;
    }
  }

  /** Insert row `x` into the ascending list `s`. */
  function Insert(col: seq<real>, x: nat, s: seq<nat>): (r: seq<nat>)
    requires x < |col| && forall i :: 0 <= i < |s| ==> s[i] < |col|
    ensures |r| == |s| + 1 && multiset(r) == multiset(s) + multiset{x}
    ensures forall i :: 0 <= i < |r| ==> r[i] < |col|
    decreases |s|
  {
    if |s| == 0 then [x]
    else if Below(col, x, s[0]) then [x] + s
    else
      assert s == [s[0]] + s[1..];
      [s[0]] + Insert(col, x, s[1..])
  }

  /** Inserting a row not yet listed keeps the list ascending. */
  lemma {:induction false} InsertAscending(col: seq<real>, x: nat, s: seq<nat>)
    requires x < |col| && Ascending(col, s) && x !in s
    ensures Ascending(col, Insert(col, x, s))
    decreases |s|
  {
    if |s| > 0 && !Below(col, x, s[0]) {
      var t := Insert(col, x, s[1..]);
      InsertAscending(col, x, s[1..]);
      var r := [s[0]] + t;
      forall j | 0 < j < |r| ensures Below(col, s[0], r[j]) {
        assert r[j] in multiset(t);
        if r[j] != x {
          assert r[j] in multiset(s[1..]);
          var k :| 1 <= k < |s| && s[k] == r[j];
        }
      }
    }
  }

  /** The stable ascending argsort of the first `n` rows. */
  function ArgsortPrefix(col: seq<real>, n: nat): (r: seq<nat>)
    requires n <= |col|
    ensures |r| == n && multiset(r) == multiset(Range(n))
    ensures forall i :: 0 <= i < n ==> r[i] < n
    decreases n
  {
    if n == 0 then []
    else
      var s := ArgsortPrefix(col, n - 1);
      assert Range(n) == Range(n - 1) + [n - 1];
      var r := Insert(col, n - 1, s);
      assert forall i :: 0 <= i < n ==> r[i] in multiset(Range(n)) by {
        forall i | 0 <= i < n ensures r[i] in multiset(Range(n)) {
          assert r[i] in multiset(r);
        }
      }
      RangeBound(n);
      r
  }

  lemma RangeBound(n: nat)
    ensures forall x :: x in multiset(Range(n)) ==> x < n
  {
    forall x | x in multiset(Range(n)) ensures x < n {
      InRange(n, x);
    }
  }

  /** The argsort lists every row once, in ascending order of absolute value. */
  lemma {:induction false} ArgsortAscending(col: seq<real>, n: nat)
    requires n <= |col|
    ensures Ascending(col, ArgsortPrefix(col, n))
    decreases n
  {
    if n > 0 {
      var s := ArgsortPrefix(col, n - 1);
      ArgsortAscending(col, n - 1);
      InsertAscending(col, n - 1, s);
    }
  }

  /** `np.argsort(np.abs(col))` with a stable sort. */
  function Argsort(col: seq<real>): (r: seq<nat>)
    ensures |r| == |col| && multiset(r) == multiset(Range(|col|))
    ensures forall i :: 0 <= i < |r| ==> r[i] < |col|
  {
    ArgsortPrefix(col, |col|)
  }

  function Reverse<T>(s: seq<T>): (r: seq<T>)
    ensures |r| == |s| && forall i :: 0 <= i < |s| ==> r[i] == s[|s| - 1 - i]
  {
    seq(|s|, i requires 0 <= i < |s| => s[|s| - 1 - i])
  }

  /**
   * The `k` rows of largest absolute value, largest first: the last `k` of
   * the ascending argsort (`[num_rows - k:num_rows]`), reversed (`[::-1]`).
   */
  function TopRows(col: seq<real>, k: nat): (r: seq<nat>)
    requires k <= |col|
    ensures |r| == k && forall i :: 0 <= i < k ==> r[i] < |col|
  {
    Reverse(Argsort(col)[|col| - k..])
  }

  /**
   * The selected rows are listed strongest first (equal strengths: later row
   * first), hence distinct; and every row left out is no stronger than any
   * selected one.
   */
  lemma TopRowsRanked(col: seq<real>, k: nat)
    requires k <= |col|
    ensures var t := TopRows(col, k);
      && (forall a, b :: 0 <= a < b < k ==> Below(col, t[b], t[a]) && t[a] != t[b])
      && (forall i, a :: 0 <= i < |col| && i !in t && 0 <= a < k ==> Below(col, i, t[a]))
  {
    var n := |col|;
    var s := Argsort(col);
    var t := TopRows(col, k);
    ArgsortAscending(col, n);
    assert forall a :: 0 <= a < k ==> t[a] == s[n - 1 - a];
    forall p | n - k <= p < n ensures s[p] in t {
      assert t[n - 1 - p] == s[p];
    }
    forall i, a | 0 <= i < n && i !in t && 0 <= a < k ensures Below(col, i, t[a]) {
      InRange(n, i);
      assert i in multiset(s);
      var p :| 0 <= p < n && s[p] == i;
      assert p < n - k;
    }
  }

  lemma {:induction false} ReverseMultiset<T>(s: seq<T>)
    ensures multiset(Reverse(s)) == multiset(s)
    decreases |s|
  {
    if |s| > 0 {
      var t := s[1..];
      ReverseMultiset(t);
      assert Reverse(s) == Reverse(t) + [s[0]];
      assert s == [s[0]] + t;
    }
  }

  // ---------------------------------------------------------------------------
  // Top n per column

  /** Column `j` of a rectangular matrix. */
  function Column<T>(m: Matrix<T>, j: nat): (r: seq<T>)
    requires IsRect(m) && j < m.width
    ensures |r| == |m.rows| && forall i :: 0 <= i < |m.rows| ==> r[i] == m.rows[i][j]
  {
    seq(|m.rows|, i requires 0 <= i < |m.rows| => m.rows[i][j])
  }

  /** The number of rows returned for a request of `n`: `n` clamped to `[0, num_rows]`. */
  function Clamp(n: int, numRows: nat): (k: nat)
    ensures k <= numRows
    ensures 0 <= n <= numRows ==> k == n
    ensures n > numRows ==> k == numRows
    ensures n < 0 ==> k == 0
  {
    if n > numRows then numRows else if n < 0 then 0 else n
  }

  /** `indices`: a `k x width` grid whose column `j` lists the top `k` rows of column `j`. */
  function Indices(m: Matrix<real>, k: nat): (r: seq<seq<nat>>)
    requires IsRect(m) && k <= |m.rows|
    ensures |r| == k
    ensures forall a :: 0 <= a < k ==> |r[a]| == m.width
    ensures forall a, j :: 0 <= a < k && 0 <= j < m.width ==> r[a][j] < |m.rows|
  {
    seq(k, a requires 0 <= a < k =>
      seq(m.width, j requires 0 <= j < m.width => TopRows(Column(m, j), k)[a]))
  }

  /**
   * numpy's broadcast of two lengths of the same axis: equal lengths agree, a
   * length of 1 stretches to the other, and any other pair is refused.
   */
  function Broadcast(a: nat, b: nat): (r: Option<nat>)
    ensures r.Some? <==> a == b || a == 1 || b == 1
    ensures r.Some? ==> (a == 1 || r.value == a) && (b == 1 || r.value == b)
    ensures r.Some? && a != 1 ==> r.value == a
  {
    if a == b || b == 1 then Some(a) else if a == 1 then Some(b) else None
  }

  /**
   * `np.take_along_axis(m, idx, axis=0)` for a `|idx| x idxWidth` index grid:
   * the widths broadcast to `w`, and entry `(a, j)` is the entry of `m` in the
   * row `idx` names at `(a, j)` and in column `j`, a width of 1 standing for
   * every column.
   */
  function TakeAlongAxis<T>(m: Matrix<T>, idx: seq<seq<nat>>, idxWidth: nat, w: nat): (r: Matrix<T>)
    requires IsRect(m) && Broadcast(m.width, idxWidth) == Some(w)
    requires forall a :: 0 <= a < |idx| ==> |idx[a]| == idxWidth
    requires forall a, j :: 0 <= a < |idx| && 0 <= j < idxWidth ==> idx[a][j] < |m.rows|
    ensures IsRect(r) && |r.rows| == |idx| && r.width == w
    ensures forall a, j :: 0 <= a < |idx| && 0 <= j < w ==>
      r.rows[a][j] == m.rows[idx[a][Stretch(idxWidth, j)]][Stretch(m.width, j)]
    ensures idxWidth == m.width ==>
      forall a, j :: 0 <= a < |idx| && 0 <= j < w ==> r.rows[a][j] == m.rows[idx[a][j]][j]
  {
    Matrix(seq(|idx|, a requires 0 <= a < |idx| =>
      seq(w, j requires 0 <= j < w => m.rows[idx[a][Stretch(idxWidth, j)]][Stretch(m.width, j)])), w)
  }

  /** The column of an axis of length `len` that broadcasting reads for column `j`. */
  function Stretch(len: nat, j: nat): nat {
    if len == 1 then 0 else j
  }

  /** What `top_n_corrs_for_col` returns. */
  datatype TopN = TopN(corrs: Matrix<real>, names: Matrix<string>, colNames: seq<string>)

  /**
   * `top_n_corrs_for_col(n)`: clamp `n` to the number of rows, select the top
   * rows of every column and gather the correlations and their labels from
   * them. The label grid of a 1-D input is one row of all the labels; its
   * width broadcasts against the number of columns (a single label serves
   * every column) and any other mismatch fails.
   */
  function TopNCorrsForCol(c: Correlations, n: int): (r: Result<TopN, CorrError>)
    requires WellShaped(c)
    ensures r.Err? <==> Broadcast(c.rowMatrix.width, c.corrMatrix.width).None?
    ensures r.Ok? ==>
      var k := Clamp(n, |c.corrMatrix.rows|);
      && IsRect(r.value.corrs) && |r.value.corrs.rows| == k && r.value.corrs.width == c.corrMatrix.width
      && IsRect(r.value.names) && |r.value.names.rows| == k
      && r.value.names.width == Broadcast(c.rowMatrix.width, c.corrMatrix.width).value
      && (c.rowMatrix.width == c.corrMatrix.width ==> r.value.names.width == c.corrMatrix.width)
      && r.value.colNames == c.colNames
  {
    var width := c.corrMatrix.width;
    match Broadcast(c.rowMatrix.width, width)
    case None => Err(LabelShapeMismatch)
    case Some(w) =>
      var numRows := |c.corrMatrix.rows|;
      var k := Clamp(n, numRows);
      var indices := Indices(c.corrMatrix, k);
      Ok(TopN(TakeAlongAxis(c.corrMatrix, indices, width, width),
              TakeAlongAxis(c.rowMatrix, indices, width, w), c.colNames))
  }

  /**
   * Each selected value is a value of the same column, sign kept, and within
   * a column the rows drawn on are distinct.
   */
  lemma {:induction false} TopNPairing(c: Correlations, n: int)
    requires WellShaped(c)
    ensures var r := TopNCorrsForCol(c, n);
      r.Ok? ==>
        var k := Clamp(n, |c.corrMatrix.rows|);
        var idx := Indices(c.corrMatrix, k);
        forall a, j :: 0 <= a < k && 0 <= j < c.corrMatrix.width ==>
          && idx[a][j] < |c.corrMatrix.rows|
          && r.value.corrs.rows[a][j] == c.corrMatrix.rows[idx[a][j]][j]
          && (forall b :: 0 <= b < k && b != a ==> idx[b][j] != idx[a][j])
  {
    var r := TopNCorrsForCol(c, n);
    if r.Ok? {
      var k := Clamp(n, |c.corrMatrix.rows|);
      forall j | 0 <= j < c.corrMatrix.width {
        TopRowsRanked(Column(c.corrMatrix, j), k);
      }
    }
  }

  /**
   * Each selected value is paired with the label of the row it came from:
   * from the label grid's own column when the grid is as wide as the
   * correlations, and from its only column when a single label column
   * broadcasts over all of them.
   */
  lemma TopNNames(c: Correlations, n: int)
    requires WellShaped(c)
    ensures var r := TopNCorrsForCol(c, n);
      r.Ok? ==>
        var k := Clamp(n, |c.corrMatrix.rows|);
        var idx := Indices(c.corrMatrix, k);
        forall a, j :: 0 <= a < k && 0 <= j < c.corrMatrix.width ==>
          && (c.rowMatrix.width == c.corrMatrix.width ==> r.value.names.rows[a][j] == c.rowMatrix.rows[idx[a][j]][j])
          && (c.rowMatrix.width == 1 ==> r.value.names.rows[a][j] == c.rowMatrix.rows[idx[a][j]][0])
  {
    var r := TopNCorrsForCol(c, n);
    if r.Ok? {
      var width := c.corrMatrix.width;
      var k := Clamp(n, |c.corrMatrix.rows|);
      var idx := Indices(c.corrMatrix, k);
      var w := Broadcast(c.rowMatrix.width, width).value;
      assert r.value.names == TakeAlongAxis(c.rowMatrix, idx, width, w);
      forall a, j | 0 <= a < k && 0 <= j < width && (c.rowMatrix.width == width || c.rowMatrix.width == 1)
        ensures r.value.names.rows[a][j] == c.rowMatrix.rows[idx[a][j]][Stretch(c.rowMatrix.width, j)]
      {
        assert Stretch(width, j) == j;
      }
    }
  }

  /** In every column the selected absolute values do not increase from top to bottom. */
  lemma {:induction false} TopNOrdered(c: Correlations, n: int)
    requires WellShaped(c)
    ensures var r := TopNCorrsForCol(c, n);
      r.Ok? ==>
        forall a, b, j :: 0 <= a < b < |r.value.corrs.rows| && 0 <= j < c.corrMatrix.width ==>
          Abs(r.value.corrs.rows[a][j]) >= Abs(r.value.corrs.rows[b][j])
  {
    var r := TopNCorrsForCol(c, n);
    if r.Ok? {
      var k := Clamp(n, |c.corrMatrix.rows|);
      forall j | 0 <= j < c.corrMatrix.width {
        TopRowsRanked(Column(c.corrMatrix, j), k);
      }
    }
  }

  /** Column `j` of `indices` is the top-`k` selection of column `j` of the matrix. */
  lemma IndicesColumn(m: Matrix<real>, k: nat, j: nat)
    requires IsRect(m) && k <= |m.rows| && j < m.width
    ensures forall a :: 0 <= a < k ==> Indices(m, k)[a][j] == TopRows(Column(m, j), k)[a]
  {
  }

  /** Every row not selected for a column is no stronger, in absolute value, than any selected one. */
  lemma {:induction false} TopNDominates(c: Correlations, n: int)
    requires WellShaped(c)
    ensures var r := TopNCorrsForCol(c, n);
      r.Ok? ==>
        var k := Clamp(n, |c.corrMatrix.rows|);
        var idx := Indices(c.corrMatrix, k);
        forall i, a, j ::
          0 <= i < |c.corrMatrix.rows| && 0 <= a < k && 0 <= j < c.corrMatrix.width &&
          (forall b :: 0 <= b < k ==> idx[b][j] != i) ==>
            Abs(c.corrMatrix.rows[i][j]) <= Abs(r.value.corrs.rows[a][j])
  {
    var r := TopNCorrsForCol(c, n);
    if r.Ok? {
      var m := c.corrMatrix;
      var k := Clamp(n, |m.rows|);
      var idx := Indices(m, k);
      forall i, a, j |
        0 <= i < |m.rows| && 0 <= a < k && 0 <= j < m.width &&
        (forall b :: 0 <= b < k ==> idx[b][j] != i)
        ensures Abs(m.rows[i][j]) <= Abs(r.value.corrs.rows[a][j])
      {
        var col := Column(m, j);
        var t := TopRows(col, k);
        IndicesColumn(m, k, j);
        TopRowsRanked(col, k);
        assert i !in t;
        assert Below(col, i, t[a]);
        assert r.value.corrs.rows[a][j] == m.rows[idx[a][j]][j];
      }
    }
  }

  /** The entries of `col` at the rows listed in `s` (rows past the end read as 0). */
  function Gather(col: seq<real>, s: seq<nat>): (r: seq<real>)
    ensures |r| == |s| && forall i :: 0 <= i < |s| && s[i] < |col| ==> r[i] == col[s[i]]
  {
    seq(|s|, i requires 0 <= i < |s| => if s[i] < |col| then col[s[i]] else 0.0)
  }

  /** Inserting a row into a listing adds that row's value to the gathered values. */
  lemma {:induction false} GatherInsert(col: seq<real>, x: nat, s: seq<nat>)
    requires x < |col| && forall i :: 0 <= i < |s| ==> s[i] < |col|
    ensures multiset(Gather(col, Insert(col, x, s))) == multiset(Gather(col, s)) + multiset{col[x]}
    decreases |s|
  {
    var r := Insert(col, x, s);
    if |s| > 0 && !Below(col, x, s[0]) {
      var t := Insert(col, x, s[1..]);
      assert r == [s[0]] + t;
      assert r[1..] == t;
      GatherInsert(col, x, s[1..]);
      GatherCons(col, r);
      GatherCons(col, s);
      calc {
        multiset(Gather(col, r));
        multiset{col[s[0]]} + multiset(Gather(col, t));
        multiset{col[s[0]]} + multiset(Gather(col, s[1..])) + multiset{col[x]};
        multiset(Gather(col, s)) + multiset{col[x]};
      }
    } else if |s| == 0 {
      assert r == [x];
      assert Gather(col, r) == [col[x]];
    } else {
      assert r == [x] + s;
      assert r[1..] == s;
      GatherCons(col, r);
      assert multiset(Gather(col, r)) == multiset(Gather(col, s)) + multiset{col[x]};
    }
  }

  lemma GatherCons(col: seq<real>, s: seq<nat>)
    requires 0 < |s| && s[0] < |col|
    ensures multiset(Gather(col, s)) == multiset{col[s[0]]} + multiset(Gather(col, s[1..]))
  {
    assert Gather(col, s) == [col[s[0]]] + Gather(col, s[1..]);
  }

  /** The argsort of the first `n` rows gathers exactly the first `n` values. */
  lemma {:induction false} GatherArgsort(col: seq<real>, n: nat)
    requires n <= |col|
    ensures multiset(Gather(col, ArgsortPrefix(col, n))) == multiset(col[..n])
    decreases n
  {
    if n > 0 {
      var s := ArgsortPrefix(col, n - 1);
      GatherArgsort(col, n - 1);
      GatherInsert(col, n - 1, s);
      assert ArgsortPrefix(col, n) == Insert(col, n - 1, s);
      PrefixSnoc(col, n);
    }
  }

  lemma PrefixSnoc(col: seq<real>, n: nat)
    requires 0 < n <= |col|
    ensures multiset(col[..n]) == multiset(col[..n - 1]) + multiset{col[n - 1]}
  {
    assert col[..n] == col[..n - 1] + [col[n - 1]];
  }

  /** Selecting every row gathers every value of the column, each as often as it occurs. */
  lemma GatherTopRowsAll(col: seq<real>)
    ensures multiset(Gather(col, TopRows(col, |col|))) == multiset(col)
  {
    var s := Argsort(col);
    assert s[|col| - |col|..] == s;
    GatherArgsort(col, |col|);
    assert col[..|col|] == col;
    GatherReverse(col, s);
    ReverseMultiset(Gather(col, s));
  }

  lemma GatherReverse(col: seq<real>, s: seq<nat>)
    requires forall i :: 0 <= i < |s| ==> s[i] < |col|
    ensures Gather(col, Reverse(s)) == Reverse(Gather(col, s))
  {
  }

  /** Asking for at least as many rows as there are returns every column rearranged, nothing lost or repeated. */
  lemma {:induction false} TopNPermutes(c: Correlations, n: int)
    requires WellShaped(c) && n >= |c.corrMatrix.rows|
    ensures var r := TopNCorrsForCol(c, n);
      r.Ok? ==>
        && |r.value.corrs.rows| == |c.corrMatrix.rows|
        && forall j :: 0 <= j < c.corrMatrix.width ==>
             multiset(Column(r.value.corrs, j)) == multiset(Column(c.corrMatrix, j))
  {
    var r := TopNCorrsForCol(c, n);
    if r.Ok? {
      var numRows := |c.corrMatrix.rows|;
      forall j | 0 <= j < c.corrMatrix.width
        ensures multiset(Column(r.value.corrs, j)) == multiset(Column(c.corrMatrix, j))
      {
        var col := Column(c.corrMatrix, j);
        var t := TopRows(col, numRows);
        IndicesColumn(c.corrMatrix, numRows, j);
        assert Column(r.value.corrs, j) == Gather(col, t);
        GatherTopRowsAll(col);
      }
    }
  }

  /**
   * For an object built from a 2-D input, the label returned at `(a, j)` is
   * `row_names[i]` for the row `i` whose value was returned there.
   */
  lemma {:induction false} TopNLabels(g: Matrix<real>, rowNames: seq<string>, colNames: seq<string>, n: int)
    requires IsRect(g)
    ensures var c := New(Array2(g), rowNames, colNames);
      c.Ok? ==>
        var r := TopNCorrsForCol(c.value, n);
        var idx := Indices(g, Clamp(n, |g.rows|));
        && r.Ok?
        && forall a, j :: 0 <= a < |r.value.names.rows| && 0 <= j < g.width ==>
             && idx[a][j] < |rowNames|
             && r.value.corrs.rows[a][j] == g.rows[idx[a][j]][j]
             && r.value.names.rows[a][j] == rowNames[idx[a][j]]
  {
    var c := New(Array2(g), rowNames, colNames);
    if c.Ok? {
      LabelGrid(g, rowNames, colNames);
      TopNPairing(c.value, n);
      TopNNames(c.value, n);
      NewReshapeFails(g, rowNames);
    }
  }

  /**
   * The 2 x 1 case of `tests/test_correlations.py`: from the column `[0.8, -1]` labelled `row1`,
   * `row2`, the top entry is `-1` (the larger absolute value, sign kept) with
   * label `row2`.
   */
  lemma TwoByOneExample(g: Matrix<real>, rowNames: seq<string>, colNames: seq<string>, n: int)
    requires IsRect(g) && g.width == 1 && |g.rows| == 2 && g.rows[0][0] == 0.8 && g.rows[1][0] == -1.0
    requires rowNames == ["row1", "row2"] && n == 1
    ensures var c := New(Array2(g), rowNames, colNames);
      && c.Ok?
      && var r := TopNCorrsForCol(c.value, n);
      && r.Ok?
      && r.value.corrs.rows == [[-1.0]]
      && r.value.names.rows == [["row2"]]
  {
    var c := New(Array2(g), rowNames, colNames);
    TopNLabels(g, rowNames, colNames, n);
    TopNDominates(c.value, n);
    var r := TopNCorrsForCol(c.value, n);
    var idx := Indices(g, 1);
    var top := idx[0][0];
    assert top < 2;
    // the other row is not selected, so it is no larger in absolute value
    assert Abs(g.rows[1 - top][0]) <= Abs(g.rows[top][0]);
    assert top == 1;
    assert r.value.corrs.rows[0] == [-1.0];
    assert r.value.names.rows[0] == ["row2"];
  }

  /**
   * The 1 x 1 case of `tests/test_correlations.py`: a 1-D input `[1]` labelled `row1` is one row, and
   * its top entry is `1` labelled `row1`.
   */
  lemma OneByOneExample(values: seq<real>, rowNames: seq<string>, colNames: seq<string>)
    requires values == [1.0] && rowNames == ["row1"]
    ensures var c := New(Array1(values), rowNames, colNames);
      && c.Ok?
      && var r := TopNCorrsForCol(c.value, 1);
      && r.Ok?
      && r.value.corrs.rows == [[1.0]]
      && r.value.names.rows == [["row1"]]
  {
    var c := New(Array1(values), rowNames, colNames);
    TopNPairing(c.value, 1);
    var r := TopNCorrsForCol(c.value, 1);
    assert Indices(c.value.corrMatrix, 1)[0][0] == 0;
    assert r.value.corrs.rows[0] == [1.0];
    assert r.value.names.rows[0] == ["row1"];
  }

  /**
   * Of three rows whose absolute values are all different, the top two are
   * the strongest row and then the middle one, whatever order the rows
   * come in.
   */
  lemma TopTwoOfThree(col: seq<real>, lo: nat, mid: nat, hi: nat)
    requires |col| == 3 && lo < 3 && mid < 3 && hi < 3
    requires Abs(col[lo]) < Abs(col[mid]) < Abs(col[hi])
    ensures TopRows(col, 2)[0] == hi && TopRows(col, 2)[1] == mid
  {
    var t := Argsort(col);
    ArgsortAscending(col, |col|);
    assert Below(col, t[0], t[1]) && Below(col, t[1], t[2]);
    StrongestOfThree(col, t[0], t[1], t[2], lo, mid, hi);
  }

  /** Three distinct rows ordered by strength are the rows `lo`, `mid`, `hi`. */
  lemma StrongestOfThree(col: seq<real>, x: nat, y: nat, z: nat, lo: nat, mid: nat, hi: nat)
    requires |col| == 3 && x < 3 && y < 3 && z < 3 && x != y && y != z && x != z
    requires Abs(col[x]) <= Abs(col[y]) <= Abs(col[z])
    requires lo < 3 && mid < 3 && hi < 3 && Abs(col[lo]) < Abs(col[mid]) < Abs(col[hi])
    ensures z == hi && y == mid
  {
  }

  /** The rows the 3 x 3 case of `tests/test_correlations.py` selects in each column. */
  lemma ThreeByThreeIndices(g: Matrix<real>)
    requires IsRect(g) && g.width == 3 && |g.rows| == 3
    requires g.rows[0][0] == 3.0 && g.rows[0][1] == 0.0 && g.rows[0][2] == 9.0
    requires g.rows[1][0] == 2.0 && g.rows[1][1] == 1.0 && g.rows[1][2] == 7.0
    requires g.rows[2][0] == 1.0 && g.rows[2][1] == 2.0 && g.rows[2][2] == 8.0
    ensures var idx := Indices(g, 2);
      && idx[0][0] == 0 && idx[0][1] == 2 && idx[0][2] == 0
      && idx[1][0] == 1 && idx[1][1] == 1 && idx[1][2] == 2
  {
    TopTwoOfThree(Column(g, 0), 2, 1, 0);
    TopTwoOfThree(Column(g, 1), 0, 1, 2);
    TopTwoOfThree(Column(g, 2), 1, 2, 0);
    IndicesColumn(g, 2, 0);
    IndicesColumn(g, 2, 1);
    IndicesColumn(g, 2, 2);
  }

  /**
   * The 3 x 3 case of `tests/test_correlations.py`: the top two of each column of
   * `[[3, 0, 9], [2, 1, 7], [1, 2, 8]]` are `[[3, 2, 9], [2, 1, 8]]`, from the
   * rows labelled `[[row1, row3, row1], [row2, row2, row3]]` (stated entry by
   * entry, with the shapes).
   */
  lemma ThreeByThreeExample(g: Matrix<real>, rowNames: seq<string>, colNames: seq<string>, n: int)
    requires IsRect(g) && g.width == 3 && |g.rows| == 3
    requires g.rows[0][0] == 3.0 && g.rows[0][1] == 0.0 && g.rows[0][2] == 9.0
    requires g.rows[1][0] == 2.0 && g.rows[1][1] == 1.0 && g.rows[1][2] == 7.0
    requires g.rows[2][0] == 1.0 && g.rows[2][1] == 2.0 && g.rows[2][2] == 8.0
    requires rowNames == ["row1", "row2", "row3"] && n == 2
    ensures var c := New(Array2(g), rowNames, colNames);
      && c.Ok?
      && var r := TopNCorrsForCol(c.value, n);
      && r.Ok?
      && var corrs, names := r.value.corrs.rows, r.value.names.rows;
      && |corrs| == |names| == 2 && |corrs[0]| == |corrs[1]| == |names[0]| == |names[1]| == 3
      && corrs[0][0] == 3.0 && corrs[0][1] == 2.0 && corrs[0][2] == 9.0
      && corrs[1][0] == 2.0 && corrs[1][1] == 1.0 && corrs[1][2] == 8.0
      && names[0][0] == "row1" && names[0][1] == "row3" && names[0][2] == "row1"
      && names[1][0] == "row2" && names[1][1] == "row2" && names[1][2] == "row3"
  {
    TopNLabels(g, rowNames, colNames, n);
    ThreeByThreeIndices(g);
  }
}
