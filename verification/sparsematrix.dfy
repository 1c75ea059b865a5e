/** The sparse rating matrices of the toolkit: the contextual matrix
    (rows = user-item pairs, columns = context situations) and the plain
    user-item matrix. A matrix is the list of its stored cells, no cell
    stored twice; the list order stands for the library's iteration order.
    Models the CARSKit additions to SparseMatrix (getGlobalAvg, getAverage)
    and the cell operations the rest of the toolkit uses. */
module SparseMatrices {
  import opened Sums
  import opened Doubles

  datatype Entry = Entry(row: nat, col: nat, val: real)

  type Matrix = seq<Entry>

  /** The cells (row, column) that hold a stored value. */
  function Keys(m: Matrix): set<(nat, nat)> {
    if |m| == 0 then {} else {(m[0].row, m[0].col)} + Keys(m[1..])
  }

  /** No cell is stored twice. */
  predicate WellFormed(m: Matrix) {
    |m| == 0 || ((m[0].row, m[0].col) !in Keys(m[1..]) && WellFormed(m[1..]))
  }

  predicate Has(m: Matrix, r: nat, c: nat) {
    (r, c) in Keys(m)
  }

  lemma {:induction false} KeysMember(m: Matrix, e: Entry)
    requires e in m
    ensures Has(m, e.row, e.col)
  {
    if m[0] != e {
      KeysMember(m[1..], e);
    }
  }

  /** In a well-formed matrix two positions hold two different cells. */
  lemma {:induction false} WellFormedDistinct(m: Matrix, i: nat, j: nat)
    requires WellFormed(m)
    requires i < j < |m|
    ensures (m[i].row, m[i].col) != (m[j].row, m[j].col)
  {
    if i == 0 {
      assert m[j] == m[1..][j - 1];
      KeysMember(m[1..], m[j]);
    } else {
      WellFormedDistinct(m[1..], i - 1, j - 1);
    }
  }

  function Val(e: Entry): real {
    e.val
  }

  /** SparseMatrix.get: the stored value, 0 for a cell that is not stored. */
  function Get(m: Matrix, r: nat, c: nat): (v: real)
    ensures !Has(m, r, c) ==> v == 0.0
    ensures WellFormed(m) ==> forall e :: e in m && e.row == r && e.col == c ==> v == e.val
  {
    if |m| == 0 then 0.0
    else if m[0].row == r && m[0].col == c then
      assert WellFormed(m) ==> forall e :: e in m[1..] ==> (e.row, e.col) != (r, c) by {
        forall e | e in m[1..] && WellFormed(m) ensures (e.row, e.col) != (r, c) {
          KeysMember(m[1..], e);
        }
      }
      m[0].val
    else Get(m[1..], r, c)
  }

  /** SparseMatrix.set / Table.put: the cell gets the value, overwriting a
      stored one in place or being appended. */
  function Put(m: Matrix, r: nat, c: nat, v: real): (m': Matrix)
    requires WellFormed(m)
    ensures WellFormed(m')
    ensures Keys(m') == Keys(m) + {(r, c)}
    ensures Get(m', r, c) == v
    ensures forall r2: nat, c2: nat :: !(r2 == r && c2 == c) ==> Get(m', r2, c2) == Get(m, r2, c2)
    ensures |m'| == if Has(m, r, c) then |m| else |m| + 1
  {
    if |m| == 0 then [Entry(r, c, v)]
    else if m[0].row == r && m[0].col == c then
      assert ([Entry(r, c, v)] + m[1..])[1..] == m[1..];
      [Entry(r, c, v)] + m[1..]
    else
      var t := Put(m[1..], r, c, v);
      assert ([m[0]] + t)[1..] == t;
      [m[0]] + t
  }

  /** The stored cells of one row, in order. */
  function RowOf(m: Matrix, r: nat): (s: Matrix)
    ensures |s| <= |m|
    ensures forall e :: e in s <==> e in m && e.row == r
  {
    if |m| == 0 then []
    else if m[0].row == r then [m[0]] + RowOf(m[1..], r)
    else RowOf(m[1..], r)
  }

  /** The stored cells of one column, in order. */
  function ColOf(m: Matrix, c: nat): (s: Matrix)
    ensures |s| <= |m|
    ensures forall e :: e in s <==> e in m && e.col == c
  {
    if |m| == 0 then []
    else if m[0].col == c then [m[0]] + ColOf(m[1..], c)
    else ColOf(m[1..], c)
  }

  /** The stored cells whose row is in a set, in order. */
  function RowsIn(m: Matrix, rows: set<nat>): (s: Matrix)
    ensures |s| <= |m|
    ensures forall e :: e in s <==> e in m && e.row in rows
  {
    if |m| == 0 then []
    else if m[0].row in rows then [m[0]] + RowsIn(m[1..], rows)
    else RowsIn(m[1..], rows)
  }

  /** The stored cells whose column is in a set, in order. */
  function ColsIn(m: Matrix, cols: set<nat>): (s: Matrix)
    ensures |s| <= |m|
    ensures forall e :: e in s <==> e in m && e.col in cols
  {
    if |m| == 0 then []
    else if m[0].col in cols then [m[0]] + ColsIn(m[1..], cols)
    else ColsIn(m[1..], cols)
  }

  function Total(m: Matrix): real {
    SumOf(m, Val)
  }

  /** The row indices that hold at least one stored cell (SparseMatrix.rows). */
  function Rows(m: Matrix): (rs: set<nat>)
    ensures forall r :: r in rs <==> exists i :: 0 <= i < |m| && m[i].row == r
  {
    set i | 0 <= i < |m| :: m[i].row
  }

  /** SparseMatrix.getGlobalAvg without its cache: sum over size, so NaN for
      a matrix with no stored cell. */
  function GlobalAvg(m: Matrix): (a: Double)
    ensures |m| == 0 <==> a == NaN
    ensures |m| > 0 ==> a == Num(Total(m) / |m| as real)
  {
    Div(Total(m), |m| as real)
  }

  /** SparseMatrix.getGlobalAvg with its cache: the stored value is reused
      unless it is exactly 0, in which case the mean is recomputed and kept.
      Returns the value and the new cache. */
  function GlobalAvgCached(cache: Double, m: Matrix): (r: (Double, Double))
    ensures r.0 == r.1
    ensures cache != Num(0.0) ==> r.0 == cache
    ensures cache == Num(0.0) ==> r.0 == GlobalAvg(m)
  {
    var a := if cache == Num(0.0) then GlobalAvg(m) else cache;
    (a, a)
  }

  /** Asking twice for the mean of an unchanged matrix gives the same value,
      whether the first call filled the cache or not. */
  lemma GlobalAvgCachedStable(cache: Double, m: Matrix)
    ensures GlobalAvgCached(GlobalAvgCached(cache, m).1, m).0 == GlobalAvgCached(cache, m).0
  {
  }

  /** The mean of a row's or column's stored cells, or the fallback when
      it has none: `sv.getCount() > 0 ? sv.mean() : fallback`. */
  function MeanOrElse(cells: Matrix, fallback: real): (a: real)
    ensures |cells| == 0 ==> a == fallback
  {
    if |cells| > 0 then Total(cells) / |cells| as real else fallback
  }

  /** With the cells and the fallback in a range, so is the result. */
  lemma MeanOrElseBounds(cells: Matrix, fallback: real, lo: real, hi: real)
    requires forall e :: e in cells ==> lo <= e.val <= hi
    requires |cells| == 0 ==> lo <= fallback <= hi
    ensures lo <= MeanOrElse(cells, fallback) <= hi
  {
    if |cells| > 0 {
      MeanOfCellsBounds(cells, lo, hi);
    }
  }

  /** The stored cells of the listed rows, row after row; a row listed twice
      contributes twice, as in the loop over the list. */
  function ListedCells(m: Matrix, rows: seq<nat>): (s: Matrix)
    ensures forall e :: e in s ==> e in m && e.row in rows
  {
    if |rows| == 0 then [] else RowOf(m, rows[0]) + ListedCells(m, rows[1..])
  }

  /** SparseMatrix.getAverage(uiList): the mean of the stored cells of the
      listed rows, or 0 when none of them holds a cell. */
  function Average(m: Matrix, rows: seq<nat>): (a: real)
    ensures |ListedCells(m, rows)| == 0 <==> (forall k :: 0 <= k < |rows| ==> RowOf(m, rows[k]) == [])
    ensures |ListedCells(m, rows)| == 0 ==> a == 0.0
    ensures |ListedCells(m, rows)| > 0 ==> a == Total(ListedCells(m, rows)) / |ListedCells(m, rows)| as real
  {
    ListedEmpty(m, rows);
    var cells := ListedCells(m, rows);
    if |cells| == 0 then 0.0 else Total(cells) / |cells| as real
  }

  lemma {:induction false} ListedEmpty(m: Matrix, rows: seq<nat>)
    ensures |ListedCells(m, rows)| == 0 <==> (forall k :: 0 <= k < |rows| ==> RowOf(m, rows[k]) == [])
  {
    if |rows| > 0 {
      ListedEmpty(m, rows[1..]);
      assert forall k :: 1 <= k < |rows| ==> rows[k] == rows[1..][k - 1];
    }
  }

  /** The average of listed rows lies within the range of the stored values. */
  lemma AverageBounds(m: Matrix, rows: seq<nat>, lo: real, hi: real)
    requires forall e :: e in m ==> lo <= e.val <= hi
    requires |ListedCells(m, rows)| > 0
    ensures lo <= Average(m, rows) <= hi
  {
    MeanOfCellsBounds(ListedCells(m, rows), lo, hi);
  }

  /** The mean of non-empty cells lies within the range of their values. */
  lemma MeanOfCellsBounds(cells: Matrix, lo: real, hi: real)
    requires |cells| > 0
    requires forall e :: e in cells ==> lo <= e.val <= hi
    ensures lo <= Total(cells) / |cells| as real <= hi
  {
    forall i | 0 <= i < |cells|
      ensures lo <= Val(cells[i]) <= hi
    {
      assert cells[i] in cells;
    }
    SumOfBounds(cells, Val, lo, hi);
    DivBounds(Total(cells), |cells| as real, lo, hi);
  }
}
