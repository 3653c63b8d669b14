/**
 The feature matrix as the script handles it: a block of rows with a fixed
 column count. `scipy.sparse` storage (CSR) is not modelled; a matrix is the
 sequence of its rows, and the column count is kept even when there are no
 rows, as a sparse matrix's shape is.
 */
module Matrices {

  /** One cell of a table or matrix; `NaN` stands for pandas' missing value. */
  datatype Cell = Num(x: real) | Text(s: string) | NaN

  datatype Matrix = Matrix(width: nat, rows: seq<seq<Cell>>) {
    /** Every row has exactly `width` cells. */
    predicate Valid() {
      forall i :: 0 <= i < |rows| ==> |rows[i]| == width
    }
  }

  /** `sparse.hstack((a, b))`: row i of the result is row i of `a` followed by row i of `b`.
      scipy refuses blocks whose row counts differ. */
  function HStack(a: Matrix, b: Matrix): (r: Matrix)
    requires a.Valid() && b.Valid() && |a.rows| == |b.rows|
    ensures r.Valid() && r.width == a.width + b.width && |r.rows| == |a.rows|
    ensures forall i :: 0 <= i < |r.rows| ==> r.rows[i] == a.rows[i] + b.rows[i]
    ensures forall i :: 0 <= i < |r.rows| ==> r.rows[i][..a.width] == a.rows[i] && r.rows[i][a.width..] == b.rows[i]
  {
    Matrix(a.width + b.width, seq(|a.rows|, i requires 0 <= i < |a.rows| => a.rows[i] + b.rows[i]))
  }

  function Min(a: int, b: int): int {
    if a <= b then a else b
  }

  /** Python's `m[:n]`, which stops at the last row when `n` is past the end. */
  function RowsTo(m: Matrix, n: nat): (r: Matrix)
    ensures r.width == m.width && |r.rows| == Min(n, |m.rows|)
    ensures m.Valid() ==> r.Valid()
    ensures forall i :: 0 <= i < |r.rows| ==> r.rows[i] == m.rows[i]
  {
    Matrix(m.width, m.rows[..Min(n, |m.rows|)])
  }

  /** Python's `m[n:]`, which is empty when `n` is past the end. */
  function RowsFrom(m: Matrix, n: nat): (r: Matrix)
    ensures r.width == m.width && |r.rows| == |m.rows| - Min(n, |m.rows|)
    ensures m.Valid() ==> r.Valid()
    ensures forall i :: 0 <= i < |r.rows| ==> r.rows[i] == m.rows[Min(n, |m.rows|) + i]
  {
    Matrix(m.width, m.rows[Min(n, |m.rows|)..])
  }

  /** Cutting at `n` and gluing the two parts back gives the matrix again: every
      row lands in exactly one part, in order; with `n` inside the matrix the
      first part has exactly `n` rows. */
  lemma SplitRows(m: Matrix, n: nat)
    ensures RowsTo(m, n).rows + RowsFrom(m, n).rows == m.rows
    ensures n <= |m.rows| ==> |RowsTo(m, n).rows| == n && |RowsFrom(m, n).rows| == |m.rows| - n
  {
    assert m.rows[..Min(n, |m.rows|)] + m.rows[Min(n, |m.rows|)..] == m.rows;
  }

  /** Cutting a side-by-side matrix at row `n` cuts both blocks at row `n`:
      row i of the first part is row i of `a` and of `b`, row i of the second
      part is row n + i of each. */
  lemma {:induction false} SplitHStack(a: Matrix, b: Matrix, n: nat)
    requires a.Valid() && b.Valid() && |a.rows| == |b.rows| && n <= |a.rows|
    ensures forall i :: 0 <= i < n ==> RowsTo(HStack(a, b), n).rows[i] == a.rows[i] + b.rows[i]
    ensures forall i :: 0 <= i < |a.rows| - n ==> RowsFrom(HStack(a, b), n).rows[i] == a.rows[n + i] + b.rows[n + i]
  {
    var x := HStack(a, b);
    assert Min(n, |x.rows|) == n;
  }
}
