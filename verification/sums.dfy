/**
 * Finite sums over vectors and square matrices of reals, in the ascending
 * order in which the derivative assembler accumulates them.
 */
module Sums {

  /** The sum of the first `n` entries of `s`, added in ascending index order. */
  function SumTo(s: seq<real>, n: nat): real
    requires n <= |s|
  {
    if n == 0 then 0.0 else SumTo(s, n - 1) + s[n - 1]
  }

  /** Every row of `m` has at least `cols` entries and there are at least `rows` rows. */
  ghost predicate Covers(m: seq<seq<real>>, rows: nat, cols: nat)
  {
    rows <= |m| && forall r :: 0 <= r < rows ==> cols <= |m[r]|
  }

  /** The sum of column `k` of `m` over its first `n` rows. */
  function ColumnSum(m: seq<seq<real>>, k: nat, n: nat): real
    requires n <= |m|
    requires forall r :: 0 <= r < n ==> k < |m[r]|
  {
    if n == 0 then 0.0 else ColumnSum(m, k, n - 1) + m[n - 1][k]
  }

  /** The sum of all entries of the `rows` x `cols` top-left block of `m`, row by row. */
  function MatrixSum(m: seq<seq<real>>, rows: nat, cols: nat): real
    requires Covers(m, rows, cols)
  {
    if rows == 0 then 0.0 else MatrixSum(m, rows - 1, cols) + SumTo(m[rows - 1], cols)
  }

  /** The same block summed column by column. */
  function ColumnTotals(m: seq<seq<real>>, rows: nat, cols: nat): real
    requires Covers(m, rows, cols)
  {
    if cols == 0 then 0.0 else ColumnTotals(m, rows, cols - 1) + ColumnSum(m, cols - 1, rows)
  }

  /** A vector whose first `n` entries are zero sums to zero. */
  lemma {:induction false} SumToZero(s: seq<real>, n: nat)
    requires n <= |s|
    requires forall k :: 0 <= k < n ==> s[k] == 0.0
    ensures SumTo(s, n) == 0.0
  {
    if n > 0 {
      SumToZero(s, n - 1);
    }
  }

  /** Changing entry `j` of a vector changes its prefix sums by exactly that change. */
  lemma {:induction false} SumToUpdate(s: seq<real>, s': seq<real>, j: nat, n: nat)
    requires n <= |s| && n <= |s'|
    requires forall k :: 0 <= k < n && k != j ==> s'[k] == s[k]
    ensures SumTo(s', n) == SumTo(s, n) + (if j < n then s'[j] - s[j] else 0.0)
  {
    if n > 0 {
      SumToUpdate(s, s', j, n - 1);
    }
  }

  /** A column whose first `n` entries are zero sums to zero. */
  lemma {:induction false} ColumnSumZero(m: seq<seq<real>>, k: nat, n: nat)
    requires n <= |m|
    requires forall r :: 0 <= r < n ==> k < |m[r]| && m[r][k] == 0.0
    ensures ColumnSum(m, k, n) == 0.0
  {
    if n > 0 {
      ColumnSumZero(m, k, n - 1);
    }
  }

  /** Changing the entry in row `r0` of column `k` changes the column sum by exactly that change. */
  lemma {:induction false} ColumnSumUpdate(m: seq<seq<real>>, m': seq<seq<real>>, r0: nat, k: nat, n: nat)
    requires n <= |m| && n <= |m'|
    requires forall r :: 0 <= r < n ==> k < |m[r]| && k < |m'[r]|
    requires forall r :: 0 <= r < n && r != r0 ==> m'[r][k] == m[r][k]
    ensures ColumnSum(m', k, n) == ColumnSum(m, k, n) + (if r0 < n then m'[r0][k] - m[r0][k] else 0.0)
  {
    if n > 0 {
      ColumnSumUpdate(m, m', r0, k, n - 1);
    }
  }

  /** Adding one more row to the block adds that row's sum to the column-wise total. */
  lemma {:induction false} ColumnTotalsAddRow(m: seq<seq<real>>, rows: nat, cols: nat)
    requires Covers(m, rows + 1, cols)
    ensures ColumnTotals(m, rows + 1, cols) == ColumnTotals(m, rows, cols) + SumTo(m[rows], cols)
  {
    if cols > 0 {
      ColumnTotalsAddRow(m, rows, cols - 1);
    }
  }

  /** Summing a block row by row or column by column gives the same total. */
  lemma {:induction false} SumExchange(m: seq<seq<real>>, rows: nat, cols: nat)
    requires Covers(m, rows, cols)
    ensures ColumnTotals(m, rows, cols) == MatrixSum(m, rows, cols)
  {
    if rows == 0 {
      ZeroRowsTotal(m, cols);
    } else {
      SumExchange(m, rows - 1, cols);
      ColumnTotalsAddRow(m, rows - 1, cols);
    }
  }

  /** With no rows every column sums to zero. */
  lemma {:induction false} ZeroRowsTotal(m: seq<seq<real>>, cols: nat)
    ensures ColumnTotals(m, 0, cols) == 0.0
  {
    if cols > 0 {
      ZeroRowsTotal(m, cols - 1);
    }
  }

  /** An `n` x `n` block whose entries are mirror negatives of each other. */
  ghost predicate Antisymmetric(m: seq<seq<real>>, n: nat)
    requires Covers(m, n, n)
  {
    forall i, j :: 0 <= i < n && 0 <= j < n ==> m[i][j] == -m[j][i]
  }

  /** In an antisymmetric block each column sum is the negated sum of the matching row. */
  lemma {:induction false} AntisymmetricColumn(m: seq<seq<real>>, n: nat, k: nat, rows: nat)
    requires Covers(m, n, n) && Antisymmetric(m, n)
    requires k < n && rows <= n
    ensures ColumnSum(m, k, rows) == -SumTo(m[k], rows)
  {
    if rows > 0 {
      AntisymmetricColumn(m, n, k, rows - 1);
    }
  }

  /** In an antisymmetric block the column-wise total is the negated row-wise total. */
  lemma {:induction false} AntisymmetricTotals(m: seq<seq<real>>, n: nat, cols: nat)
    requires Covers(m, n, n) && Antisymmetric(m, n)
    requires cols <= n
    ensures ColumnTotals(m, n, cols) == -MatrixSum(m, cols, n)
  {
    if cols > 0 {
      AntisymmetricTotals(m, n, cols - 1);
      AntisymmetricColumn(m, n, cols - 1, n);
    }
  }

  /** An antisymmetric block sums to zero. */
  lemma AntisymmetricSumsToZero(m: seq<seq<real>>, n: nat)
    requires Covers(m, n, n) && Antisymmetric(m, n)
    ensures MatrixSum(m, n, n) == 0.0
  {
    SumExchange(m, n, n);
    AntisymmetricTotals(m, n, n);
  }
}
