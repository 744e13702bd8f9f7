/** The 9x9 Sudoku grid and what it means for it to be solved.

    A grid is a list of 9 rows of 9 integers, as the program keeps it. The
    program marks an empty cell with None; here the empty sentinel is 0. */
module Grid {
  import opened Permutations

  type Board = seq<seq<int>>

  /** Nine rows of nine cells: the only shape the program indexes. */
  predicate IsBoard(b: Board) {
    |b| == 9 && forall y :: 0 <= y < 9 ==> |b[y]| == 9
  }

  /** A value the checkers accept in a cell. */
  predicate IsDigit(v: int) {
    1 <= v <= 9
  }

  /** Row y holds nine digits, no two equal. */
  ghost predicate RowValid(b: Board, y: int)
    requires IsBoard(b) && 0 <= y < 9
  {
    && (forall x :: 0 <= x < 9 ==> IsDigit(b[y][x]))
    && (forall x1, x2 :: 0 <= x1 < x2 < 9 ==> b[y][x1] != b[y][x2])
  }

  /** Column x holds nine digits, no two equal. */
  ghost predicate ColValid(b: Board, x: int)
    requires IsBoard(b) && 0 <= x < 9
  {
    && (forall y :: 0 <= y < 9 ==> IsDigit(b[y][x]))
    && (forall y1, y2 :: 0 <= y1 < y2 < 9 ==> b[y1][x] != b[y2][x])
  }

  /** Every row and every column holds nine distinct digits. */
  ghost predicate RowsColsValid(b: Board)
    requires IsBoard(b)
  {
    forall i :: 0 <= i < 9 ==> RowValid(b, i) && ColValid(b, i)
  }

  /** The cell (y, x) lies in the 3x3 box whose top-left corner is (row, col). */
  predicate InBox(row: int, col: int, y: int, x: int) {
    row <= y < row + 3 && col <= x < col + 3
  }

  /** The 3x3 box with top-left corner (row, col) holds nine distinct digits. */
  ghost predicate BoxValid(b: Board, row: int, col: int)
    requires IsBoard(b) && 0 <= row <= 6 && 0 <= col <= 6
  {
    && (forall y, x :: InBox(row, col, y, x) ==> IsDigit(b[y][x]))
    && (forall y1, x1, y2, x2 ::
          InBox(row, col, y1, x1) && InBox(row, col, y2, x2) && (y1 != y2 || x1 != x2)
          ==> b[y1][x1] != b[y2][x2])
  }

  /** Each of the nine boxes, with corners at rows and columns 0, 3 and 6, holds nine distinct digits. */
  ghost predicate SquaresValid(b: Board)
    requires IsBoard(b)
  {
    forall row, col :: row in {0, 3, 6} && col in {0, 3, 6} ==> BoxValid(b, row, col)
  }

  /** A solved grid, as both checkers together judge it. */
  ghost predicate Solved(b: Board)
    requires IsBoard(b)
  {
    RowsColsValid(b) && SquaresValid(b)
  }

  /** The cells of `b` row after row. */
  ghost function Flatten(b: Board): seq<int>
    decreases |b|
  {
    if b == [] then [] else Flatten(b[..|b| - 1]) + b[|b| - 1]
  }

  /** The number of empty (0) cells of `b`. */
  ghost function ZeroCount(b: Board): nat {
    multiset(Flatten(b))[0]
  }

  /** Nine distinct digits are each of 1..9 once: a valid row holds every digit. */
  lemma RowHoldsEveryDigit(b: Board, y: int, d: int)
    requires IsBoard(b) && 0 <= y < 9 && RowValid(b, y) && IsDigit(d)
    ensures exists x :: 0 <= x < 9 && b[y][x] == d
  {
    var r := seq(9, x requires 0 <= x < 9 => b[y][x] - 1);
    assert IsPermutation(r, 9);
    Covers(r, 9, d - 1);
  }

  /** A valid column holds every digit. */
  lemma ColHoldsEveryDigit(b: Board, x: int, d: int)
    requires IsBoard(b) && 0 <= x < 9 && ColValid(b, x) && IsDigit(d)
    ensures exists y :: 0 <= y < 9 && b[y][x] == d
  {
    var c := seq(9, y requires 0 <= y < 9 => b[y][x] - 1);
    assert IsPermutation(c, 9);
    Covers(c, 9, d - 1);
  }

  /** A valid box holds every digit. */
  lemma BoxHoldsEveryDigit(b: Board, row: int, col: int, d: int)
    requires IsBoard(b) && 0 <= row <= 6 && 0 <= col <= 6 && BoxValid(b, row, col) && IsDigit(d)
    ensures exists y, x :: InBox(row, col, y, x) && b[y][x] == d
  {
    var q := seq(9, t requires 0 <= t < 9 => b[row + t / 3][col + t % 3] - 1);
    forall t1, t2 | 0 <= t1 < t2 < 9 ensures q[t1] != q[t2] {
      assert InBox(row, col, row + t1 / 3, col + t1 % 3);
      assert InBox(row, col, row + t2 / 3, col + t2 % 3);
    }
    forall t | 0 <= t < 9 ensures 0 <= q[t] < 9 {
      assert InBox(row, col, row + t / 3, col + t % 3);
    }
    Covers(q, 9, d - 1);
    var t :| 0 <= t < 9 && q[t] == d - 1;
    assert InBox(row, col, row + t / 3, col + t % 3);
  }

  /** A grid with an empty cell anywhere is neither row/column-valid nor box-valid. */
  lemma EmptyCellFailsChecks(b: Board, y: int, x: int)
    requires IsBoard(b) && 0 <= y < 9 && 0 <= x < 9 && b[y][x] == 0
    ensures !RowsColsValid(b)
    ensures !SquaresValid(b)
  {
    assert !RowValid(b, y);
    var row, col := y / 3 * 3, x / 3 * 3;
    assert InBox(row, col, y, x);
    assert !BoxValid(b, row, col);
  }

  /** A zero count above 0 means some cell holds 0. */
  lemma {:induction false} ZeroCountWitness(b: Board)
    requires ZeroCount(b) > 0
    ensures exists y, x :: 0 <= y < |b| && 0 <= x < |b[y]| && b[y][x] == 0
    decreases |b|
  {
    var n := |b|;
    assert b != [];
    var last := b[n - 1];
    if 0 in last {
      var x :| 0 <= x < |last| && last[x] == 0;
      assert b[n - 1][x] == 0;
    } else {
      assert multiset(last)[0] == 0;
      var front := b[..n - 1];
      assert ZeroCount(front) > 0;
      ZeroCountWitness(front);
      var y, x :| 0 <= y < |front| && 0 <= x < |front[y]| && front[y][x] == 0;
      assert b[y][x] == 0;
    }
  }

  /** Two grids of the same shape with their empty cells in the same places have equally many. */
  lemma {:induction false} SameZerosSameCount(a: Board, b: Board)
    requires |a| == |b|
    requires forall y :: 0 <= y < |a| ==> |a[y]| == |b[y]|
    requires forall y, x :: 0 <= y < |a| && 0 <= x < |a[y]| ==> (a[y][x] == 0 <==> b[y][x] == 0)
    ensures ZeroCount(a) == ZeroCount(b)
    decreases |a|
  {
    var n := |a|;
    if n > 0 {
      SameZerosSameCount(a[..n - 1], b[..n - 1]);
      RowZeros(a[n - 1], b[n - 1]);
    }
  }

  lemma {:induction false} RowZeros(r: seq<int>, q: seq<int>)
    requires |r| == |q|
    requires forall x :: 0 <= x < |r| ==> (r[x] == 0 <==> q[x] == 0)
    ensures multiset(r)[0] == multiset(q)[0]
    decreases |r|
  {
    var n := |r|;
    if n > 0 {
      RowZeros(r[..n - 1], q[..n - 1]);
      assert r == r[..n - 1] + [r[n - 1]];
      assert q == q[..n - 1] + [q[n - 1]];
    }
  }
}
