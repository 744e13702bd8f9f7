/** The two constraint checkers of sudoku_utils.py.

    Both scan the grid with a fresh nine-slot "seen" table per row, column or
    box (slot v-1 records that digit v has been met; the program starts each
    slot at None, here `false`) and return false at the first cell that is
    not a digit 1..9 or that repeats a digit already seen. */
module Checkers {
  import opened Grid

  /** checkRowsCols: row i and column i are scanned together, for i = 0..8. */
  method CheckRowsCols(board: Board) returns (ok: bool)
    requires IsBoard(board)
    ensures ok <==> RowsColsValid(board)
  {
    for i := 0 to 9
      invariant forall k :: 0 <= k < i ==> RowValid(board, k) && ColValid(board, k)
    {
      var rowsNums := new bool[9](_ => false);
      var colsNums := new bool[9](_ => false);
      for j := 0 to 9
        invariant forall x :: 0 <= x < j ==> IsDigit(board[i][x])
        invariant forall x1, x2 :: 0 <= x1 < x2 < j ==> board[i][x1] != board[i][x2]
        invariant forall v :: 0 <= v < 9 ==> (rowsNums[v] <==> exists x :: 0 <= x < j && board[i][x] == v + 1)
        invariant forall y :: 0 <= y < j ==> IsDigit(board[y][i])
        invariant forall y1, y2 :: 0 <= y1 < y2 < j ==> board[y1][i] != board[y2][i]
        invariant forall v :: 0 <= v < 9 ==> (colsNums[v] <==> exists y :: 0 <= y < j && board[y][i] == v + 1)
      {
        var valRows := board[i][j];
        var valCols := board[j][i];

        // rows
        if 1 <= valRows <= 9 {
          if !rowsNums[valRows - 1] {
            rowsNums[valRows - 1] := true;
          } else {
            // repeated value
            assert !RowValid(board, i);
            return false;
          }
        } else {
          // value outside 1..9
          assert !RowValid(board, i);
          return false;
        }

        // cols
        if 1 <= valCols <= 9 {
          if !colsNums[valCols - 1] {
            colsNums[valCols - 1] := true;
          } else {
            assert !ColValid(board, i);
            return false;
          }
        } else {
          assert !ColValid(board, i);
          return false;
        }
      }
    }
    return true;
  }

  /** The cell (y, x) of the box with corner (row, col) is among the first `t`
      cells of that box in the order the scan visits them (row by row). */
  ghost predicate Visited(row: int, col: int, t: int, y: int, x: int) {
    InBox(row, col, y, x) && 3 * (y - row) + (x - col) < t
  }

  /** After visiting the first `t` cells of a box: they are distinct digits,
      and `seen` marks exactly the digits met so far. */
  ghost predicate Scanned(b: Board, row: int, col: int, t: int, seen: seq<bool>)
    requires IsBoard(b) && 0 <= row <= 6 && 0 <= col <= 6
  {
    && |seen| == 9
    && (forall y, x :: Visited(row, col, t, y, x) ==> IsDigit(b[y][x]))
    && (forall y1, x1, y2, x2 ::
          Visited(row, col, t, y1, x1) && Visited(row, col, t, y2, x2) && (y1 != y2 || x1 != x2)
          ==> b[y1][x1] != b[y2][x2])
    && (forall v :: 0 <= v < 9 ==> (seen[v] <==> exists y, x :: Visited(row, col, t, y, x) && b[y][x] == v + 1))
  }

  /** Visiting a digit not yet seen, and marking it, extends the scan by one cell. */
  lemma ScanStep(b: Board, row: int, col: int, rowStep: int, colStep: int, seen: seq<bool>, next: seq<bool>)
    requires IsBoard(b) && 0 <= row <= 6 && 0 <= col <= 6
    requires 0 <= rowStep < 3 && 0 <= colStep < 3
    requires Scanned(b, row, col, 3 * rowStep + colStep, seen)
    requires IsDigit(b[row + rowStep][col + colStep]) && !seen[b[row + rowStep][col + colStep] - 1]
    requires next == seen[b[row + rowStep][col + colStep] - 1 := true]
    ensures Scanned(b, row, col, 3 * rowStep + (colStep + 1), next)
  {
    var t := 3 * rowStep + colStep;
    var y, x := row + rowStep, col + colStep;
    assert forall y', x' :: Visited(row, col, t + 1, y', x') <==> Visited(row, col, t, y', x') || (y' == y && x' == x);
    assert Visited(row, col, t + 1, y, x);
  }

  /** A cell that is not a digit, or repeats a digit already seen, spoils its box. */
  lemma ScanReject(b: Board, row: int, col: int, rowStep: int, colStep: int, seen: seq<bool>)
    requires IsBoard(b) && 0 <= row <= 6 && 0 <= col <= 6
    requires 0 <= rowStep < 3 && 0 <= colStep < 3
    requires Scanned(b, row, col, 3 * rowStep + colStep, seen)
    requires !IsDigit(b[row + rowStep][col + colStep]) || seen[b[row + rowStep][col + colStep] - 1]
    ensures !BoxValid(b, row, col)
  {
    var y, x := row + rowStep, col + colStep;
    assert InBox(row, col, y, x);
    if IsDigit(b[y][x]) {
      var y', x' :| Visited(row, col, 3 * rowStep + colStep, y', x') && b[y'][x'] == b[y][x];
      assert InBox(row, col, y', x');
    }
  }

  /** A scan that visited all nine cells found the box valid. */
  lemma ScanComplete(b: Board, row: int, col: int, seen: seq<bool>)
    requires IsBoard(b) && 0 <= row <= 6 && 0 <= col <= 6
    requires Scanned(b, row, col, 9, seen)
    ensures BoxValid(b, row, col)
  {
    assert forall y, x :: InBox(row, col, y, x) ==> Visited(row, col, 9, y, x);
  }

  /** The scan of one box inside checkSquares (its loops over row_step and
      col_step): true when the box holds nine distinct digits. */
  method CheckSquare(board: Board, row: int, col: int) returns (ok: bool)
    requires IsBoard(board) && 0 <= row <= 6 && 0 <= col <= 6
    ensures ok <==> BoxValid(board, row, col)
  {
    var nums := new bool[9](_ => false);
    for rowStep := 0 to 3
      invariant Scanned(board, row, col, 3 * rowStep, nums[..])
    {
      var y := row + rowStep;
      for colStep := 0 to 3
        invariant Scanned(board, row, col, 3 * rowStep + colStep, nums[..])
      {
        var x := col + colStep;
        var val := board[y][x];
        if 1 <= val <= 9 {
          if !nums[val - 1] {
            ghost var seen := nums[..];
            nums[val - 1] := true;
            ScanStep(board, row, col, rowStep, colStep, seen, nums[..]);
          } else {
            // repeated value
            ScanReject(board, row, col, rowStep, colStep, nums[..]);
            return false;
          }
        } else {
          // value outside 1..9
          ScanReject(board, row, col, rowStep, colStep, nums[..]);
          return false;
        }
      }
    }
    ScanComplete(board, row, col, nums[..]);
    return true;
  }

  /** checkSquares: the boxes with corners (row, col), row and col in 0, 3, 6,
      each scanned in turn; the first box found invalid ends the check. */
  method CheckSquares(board: Board) returns (ok: bool)
    requires IsBoard(board)
    ensures ok <==> SquaresValid(board)
  {
    var row := 0;
    while row < 9
      invariant row in {0, 3, 6, 9}
      invariant forall r, c :: r in {0, 3, 6} && c in {0, 3, 6} && r < row ==> BoxValid(board, r, c)
    {
      var col := 0;
      while col < 9
        invariant col in {0, 3, 6, 9}
        invariant forall c :: c in {0, 3, 6} && c < col ==> BoxValid(board, row, c)
      {
        var boxOk := CheckSquare(board, row, col);
        if !boxOk {
          return false;
        }
        col := col + 3;
      }
      row := row + 3;
    }
    return true;
  }
}
