/** The main script: generate a solved grid, check it, and blank out the
    cells the clear table marks with 0 by multiplying cell by cell. */
module Play {
  import opened Permutations
  import opened Grid
  import opened Checkers
  import opened Generator
  import opened ClearTable

  function Min(a: int, b: int): (m: int)
    ensures m <= a && m <= b && (m == a || m == b)
  {
    if a <= b then a else b
  }

  /** One row of the masking step; like `zip`, it stops at the shorter row. */
  function MaskRow(row: seq<int>, clear: seq<int>): (out: seq<int>)
    ensures |out| == Min(|row|, |clear|)
    ensures forall x :: 0 <= x < |out| && clear[x] == 1 ==> out[x] == row[x]
    ensures forall x :: 0 <= x < |out| && clear[x] == 0 ==> out[x] == 0
    ensures forall x :: 0 <= x < |out| && row[x] != 0 ==> (out[x] == 0 <==> clear[x] == 0)
  {
    seq(Min(|row|, |clear|), x requires 0 <= x < Min(|row|, |clear|) => row[x] * clear[x])
  }

  /** The masking step of the script: each cell of the board times the
      matching cell of the clear table, pairing rows as `zip` does. */
  function ApplyMask(board: Board, clearTable: Board): (playable: Board)
    ensures |playable| == Min(|board|, |clearTable|)
    ensures forall y :: 0 <= y < |playable| ==> |playable[y]| == Min(|board[y]|, |clearTable[y]|)
    ensures forall y, x :: 0 <= y < |playable| && 0 <= x < |playable[y]| ==>
      x < |board[y]| && x < |clearTable[y]| &&
      (clearTable[y][x] == 1 ==> playable[y][x] == board[y][x]) &&
      (clearTable[y][x] == 0 ==> playable[y][x] == 0) &&
      (board[y][x] != 0 ==> (playable[y][x] == 0 <==> clearTable[y][x] == 0))
    ensures IsBoard(board) && IsBoard(clearTable) ==> IsBoard(playable)
  {
    seq(Min(|board|, |clearTable|), y requires 0 <= y < Min(|board|, |clearTable|) =>
      MaskRow(board[y], clearTable[y]))
  }

  /** On a grid without empty cells, the masked grid has exactly as many
      empty cells as the clear table has zeros. */
  lemma MaskedZeroCount(board: Board, clearTable: Board)
    requires IsBoard(board) && IsBoard(clearTable)
    requires forall y, x :: 0 <= y < 9 && 0 <= x < 9 ==> board[y][x] != 0
    ensures ZeroCount(ApplyMask(board, clearTable)) == ZeroCount(clearTable)
  {
    var playable := ApplyMask(board, clearTable);
    forall y, x | 0 <= y < 9 && 0 <= x < 9 ensures playable[y][x] == 0 <==> clearTable[y][x] == 0 {
      assert playable[y] == MaskRow(board[y], clearTable[y]);
    }
    SameZerosSameCount(playable, clearTable);
  }

  /** Once the clear table blanks at least one cell, the masked grid passes
      neither check, whatever the grid was. */
  lemma MaskedBoardFailsChecks(board: Board, clearTable: Board)
    requires IsBoard(board) && IsBoard(clearTable)
    requires ZeroCount(clearTable) > 0
    ensures !RowsColsValid(ApplyMask(board, clearTable))
    ensures !SquaresValid(ApplyMask(board, clearTable))
  {
    ZeroCountWitness(clearTable);
    var y, x :| 0 <= y < 9 && 0 <= x < 9 && clearTable[y][x] == 0;
    EmptyCellFailsChecks(ApplyMask(board, clearTable), y, x);
  }

  /** With 0 percent to clear the mask leaves the grid as it is; with 100
      percent it empties every cell. */
  lemma ClearNoneOrAll(board: Board, perm: seq<int>)
    requires IsBoard(board) && IsPermutation(perm, 81)
    ensures ApplyMask(board, GetClearTable(0, perm)) == board
    ensures forall y, x :: 0 <= y < 9 && 0 <= x < 9 ==> ApplyMask(board, GetClearTable(100, perm))[y][x] == 0
  {
    var kept := ApplyMask(board, GetClearTable(0, perm));
    forall y | 0 <= y < 9 ensures kept[y] == board[y] {
      assert forall x :: 0 <= x < 9 ==> kept[y][x] == board[y][x];
    }
  }

  /** The script with the default 40 percent: the generated grid passes both
      checks, and the puzzle shown has 32 empty cells, agrees with the grid on
      every other cell, and (being incomplete) passes neither check. The five
      arguments are the outcomes of the shuffles the script draws. */
  method NewPuzzle(rowPosInGrid: seq<int>, rowGridPos: seq<int>, colPosInGrid: seq<int>, colGridPos: seq<int>,
                   clearPerm: seq<int>)
    returns (solution: Board, linesOk: bool, squaresOk: bool, puzzle: Board)
    requires IsPermutation(rowPosInGrid, 3) && IsPermutation(rowGridPos, 3)
    requires IsPermutation(colPosInGrid, 3) && IsPermutation(colGridPos, 3)
    requires IsPermutation(clearPerm, 81)
    ensures IsBoard(solution) && Solved(solution)
    ensures linesOk && squaresOk
    ensures IsBoard(puzzle)
    ensures puzzle == ApplyMask(solution, GetClearTable(40, clearPerm))
    ensures ZeroCount(puzzle) == 32
    ensures forall y, x :: 0 <= y < 9 && 0 <= x < 9 ==> (puzzle[y][x] == 0 <==> GetClearTable(40, clearPerm)[y][x] == 0)
    ensures forall y, x :: 0 <= y < 9 && 0 <= x < 9 && puzzle[y][x] != 0 ==> puzzle[y][x] == solution[y][x]
    ensures !RowsColsValid(puzzle) && !SquaresValid(puzzle)
  {
    solution := GenerateSudokuBoard(rowPosInGrid, rowGridPos, colPosInGrid, colGridPos);
    var clearTable := GetClearTable(40, clearPerm);
    linesOk := CheckRowsCols(solution);
    squaresOk := CheckSquares(solution);
    puzzle := ApplyMask(solution, clearTable);
    MaskedZeroCount(solution, clearTable);
    MaskedBoardFailsChecks(solution, clearTable);
  }
}
