/** generate_sudoku_board of sudoku_utils.py: a canonical cyclic grid whose
    rows and columns are rearranged by band-preserving permutations.

    Each of the four calls to `random.shuffle` on the list [0, 1, 2] is
    replaced by its outcome, a permutation of 0..2 supplied by the caller. */
module Generator {
  import opened Permutations
  import opened Grid

  /** The nested comprehension of get_random_positions: for each band b of
      `bands`, in order, and for each offset g of `offsets`, in order, b*3 + g. */
  function BandPositions(bands: seq<int>, offsets: seq<int>): (r: seq<int>)
    requires |offsets| == 3
    ensures |r| == 3 * |bands|
  {
    if bands == [] then []
    else seq(3, k requires 0 <= k < 3 => bands[0] * 3 + offsets[k]) + BandPositions(bands[1..], offsets)
  }

  /** Entry 3a + k of the list is band a of `bands` combined with offset k of `offsets`. */
  lemma {:induction false} BandPositionsAt(bands: seq<int>, offsets: seq<int>, a: int, k: int)
    requires |offsets| == 3 && 0 <= a < |bands| && 0 <= k < 3
    ensures BandPositions(bands, offsets)[3 * a + k] == bands[a] * 3 + offsets[k]
  {
    if a > 0 {
      BandPositionsAt(bands[1..], offsets, a - 1, k);
    }
  }

  /** Index i of a 9-list lies in band i / 3 at offset i % 3. */
  lemma Split3(i: int)
    requires 0 <= i < 9
    ensures i == 3 * (i / 3) + i % 3 && 0 <= i / 3 < 3 && 0 <= i % 3 < 3
  {
  }

  lemma Join3(a: int, k: int)
    requires 0 <= k < 3
    ensures (a * 3 + k) / 3 == a && (a * 3 + k) % 3 == k
  {
  }

  /** get_random_positions: band order `posInGrid` composed with the order
      `gridPos` inside a band. */
  function RandomPositions(posInGrid: seq<int>, gridPos: seq<int>): (r: seq<int>)
    requires IsPermutation(posInGrid, 3) && IsPermutation(gridPos, 3)
    ensures |r| == 9
    ensures forall i :: 0 <= i < 9 ==> r[i] / 3 == posInGrid[i / 3] && r[i] % 3 == gridPos[i % 3]
  {
    var r := BandPositions(posInGrid, gridPos);
    assert forall i :: 0 <= i < 9 ==> r[i] / 3 == posInGrid[i / 3] && r[i] % 3 == gridPos[i % 3] by {
      forall i | 0 <= i < 9 ensures r[i] / 3 == posInGrid[i / 3] && r[i] % 3 == gridPos[i % 3] {
        Split3(i);
        BandPositionsAt(posInGrid, gridPos, i / 3, i % 3);
        Join3(posInGrid[i / 3], gridPos[i % 3]);
      }
    }
    r
  }

  /** p keeps each band 0-2, 3-5, 6-8 together: two indices are sent to the
      same band exactly when they come from the same band. */
  ghost predicate BandPreserving(p: seq<int>)
    requires |p| == 9
  {
    forall i, j :: 0 <= i < 9 && 0 <= j < 9 ==> (p[i] / 3 == p[j] / 3 <==> i / 3 == j / 3)
  }

  /** The positions are a band-preserving permutation of 0..8. */
  lemma RandomPositionsPermute(posInGrid: seq<int>, gridPos: seq<int>)
    requires IsPermutation(posInGrid, 3) && IsPermutation(gridPos, 3)
    ensures IsPermutation(RandomPositions(posInGrid, gridPos), 9)
    ensures BandPreserving(RandomPositions(posInGrid, gridPos))
  {
    var r := RandomPositions(posInGrid, gridPos);
    forall i | 0 <= i < 9 ensures 0 <= r[i] < 9 {
      assert r[i] == 3 * (r[i] / 3) + r[i] % 3;
    }
    forall i, j | 0 <= i < j < 9 ensures r[i] != r[j] {
      Split3(i);
      Split3(j);
    }
    forall i, j | 0 <= i < 9 && 0 <= j < 9 ensures r[i] / 3 == r[j] / 3 <==> i / 3 == j / 3 {
      Split3(i);
      Split3(j);
    }
  }

  /** The canonical grid: row y is 1..9 shifted left by 3y + y/3. */
  function BaseBoard(): (b: Board)
    ensures IsBoard(b)
  {
    seq(9, y requires 0 <= y < 9 => seq(9, x requires 0 <= x < 9 => (y * 3 + x + y / 3) % 9 + 1))
  }

  /** How far row y of the canonical grid is shifted, reduced below 9. */
  function Shift(y: int): int {
    3 * (y % 3) + y / 3
  }

  lemma BaseCell(y: int, x: int)
    requires 0 <= y < 9 && 0 <= x < 9
    ensures 0 <= Shift(y) < 9
    ensures BaseBoard()[y][x] == (Shift(y) + x) % 9 + 1
  {
    var q := y / 3;
    assert y * 3 + x + q == 9 * q + (Shift(y) + x);
  }

  lemma ShiftInjective(y1: int, y2: int)
    requires 0 <= y1 < 9 && 0 <= y2 < 9 && y1 != y2
    ensures Shift(y1) != Shift(y2)
  {
    Split3(y1);
    Split3(y2);
  }

  lemma ModDistinct(a: int, b: int)
    requires a != b && -9 < b - a < 9
    ensures a % 9 != b % 9
  {
  }

  /** Row and column i of the canonical grid are nine distinct digits. */
  lemma BaseLinesValid()
    ensures RowsColsValid(BaseBoard())
  {
    var b := BaseBoard();
    forall i | 0 <= i < 9 ensures RowValid(b, i) && ColValid(b, i) {
      forall x | 0 <= x < 9 ensures IsDigit(b[i][x]) && IsDigit(b[x][i]) {
        BaseCell(i, x);
        BaseCell(x, i);
      }
      forall x1, x2 | 0 <= x1 < x2 < 9 ensures b[i][x1] != b[i][x2] {
        BaseCell(i, x1);
        BaseCell(i, x2);
        ModDistinct(Shift(i) + x1, Shift(i) + x2);
      }
      forall y1, y2 | 0 <= y1 < y2 < 9 ensures b[y1][i] != b[y2][i] {
        BaseCell(y1, i);
        BaseCell(y2, i);
        ShiftInjective(y1, y2);
        ModDistinct(Shift(y1) + i, Shift(y2) + i);
      }
    }
  }

  /** Inside the band that starts at row (or column) `row`, index y is `row` plus its offset. */
  lemma InBand(row: int, y: int)
    requires row in {0, 3, 6} && row <= y < row + 3
    ensures y / 3 == row / 3 && y % 3 == y - row
  {
  }

  /** Each box of the canonical grid holds nine distinct digits. */
  lemma BaseBoxesValid()
    ensures SquaresValid(BaseBoard())
  {
    var b := BaseBoard();
    forall row, col | row in {0, 3, 6} && col in {0, 3, 6} ensures BoxValid(b, row, col) {
      forall y, x | InBox(row, col, y, x) ensures IsDigit(b[y][x]) {
        BaseCell(y, x);
      }
      forall y1, x1, y2, x2 |
        InBox(row, col, y1, x1) && InBox(row, col, y2, x2) && (y1 != y2 || x1 != x2)
        ensures b[y1][x1] != b[y2][x2]
      {
        BaseCell(y1, x1);
        BaseCell(y2, x2);
        InBand(row, y1);
        InBand(row, y2);
        // within the box, Shift(y) + x is row / 3 + 3 * (y - row) + x
        ModDistinct(Shift(y1) + x1, Shift(y2) + x2);
      }
    }
  }

  /** The canonical grid is solved. */
  lemma BaseBoardValid()
    ensures RowsColsValid(BaseBoard())
    ensures SquaresValid(BaseBoard())
  {
    BaseLinesValid();
    BaseBoxesValid();
  }

  /** The grid that the scatter loop builds: cell (rowPos[y], colPos[x]) receives base[y][x]. */
  function ShuffledBoard(base: Board, rowPos: seq<int>, colPos: seq<int>): (s: Board)
    requires IsBoard(base) && IsPermutation(rowPos, 9) && IsPermutation(colPos, 9)
    ensures IsBoard(s)
    ensures forall y, x :: 0 <= y < 9 && 0 <= x < 9 ==> s[rowPos[y]][colPos[x]] == base[y][x]
  {
    seq(9, yNew requires 0 <= yNew < 9 =>
      seq(9, xNew requires 0 <= xNew < 9 => base[Inverse(rowPos, 9, yNew)][Inverse(colPos, 9, xNew)]))
  }

  /** Row i of the rearranged grid is a rearrangement of a row of `base`, and likewise for columns. */
  lemma ShuffledLinesValid(base: Board, rowPos: seq<int>, colPos: seq<int>)
    requires IsBoard(base) && RowsColsValid(base)
    requires IsPermutation(rowPos, 9) && IsPermutation(colPos, 9)
    ensures RowsColsValid(ShuffledBoard(base, rowPos, colPos))
  {
    var s := ShuffledBoard(base, rowPos, colPos);
    forall i | 0 <= i < 9 ensures RowValid(s, i) && ColValid(s, i) {
      var y := Inverse(rowPos, 9, i);
      var x := Inverse(colPos, 9, i);
      assert RowValid(base, y) && ColValid(base, x);
      forall j | 0 <= j < 9 ensures IsDigit(s[i][j]) && IsDigit(s[j][i]) {
        assert RowValid(base, Inverse(rowPos, 9, j));
      }
      forall x1, x2 | 0 <= x1 < x2 < 9 ensures s[i][x1] != s[i][x2] {
        var c1, c2 := Inverse(colPos, 9, x1), Inverse(colPos, 9, x2);
        assert s[i][x1] == base[y][c1] && s[i][x2] == base[y][c2];
        assert c1 != c2;
      }
      forall y1, y2 | 0 <= y1 < y2 < 9 ensures s[y1][i] != s[y2][i] {
        var r1, r2 := Inverse(rowPos, 9, y1), Inverse(rowPos, 9, y2);
        assert s[y1][i] == base[r1][x] && s[y2][i] == base[r2][x];
        assert r1 != r2;
      }
    }
  }

  /** The corner of the band that holds index r. */
  lemma Corner(r: int)
    requires 0 <= r < 9
    ensures r / 3 * 3 in {0, 3, 6} && r / 3 * 3 <= r < r / 3 * 3 + 3
  {
  }

  /** Two cells of one box of the rearranged grid come from two cells of one box of `base`. */
  lemma ShuffledBoxPair(base: Board, rowPos: seq<int>, colPos: seq<int>,
                        row: int, col: int, y1: int, x1: int, y2: int, x2: int)
    requires IsBoard(base) && SquaresValid(base)
    requires IsPermutation(rowPos, 9) && IsPermutation(colPos, 9)
    requires BandPreserving(rowPos) && BandPreserving(colPos)
    requires row in {0, 3, 6} && col in {0, 3, 6}
    requires InBox(row, col, y1, x1) && InBox(row, col, y2, x2) && (y1 != y2 || x1 != x2)
    ensures ShuffledBoard(base, rowPos, colPos)[y1][x1] != ShuffledBoard(base, rowPos, colPos)[y2][x2]
  {
    var r1, r2 := Inverse(rowPos, 9, y1), Inverse(rowPos, 9, y2);
    var c1, c2 := Inverse(colPos, 9, x1), Inverse(colPos, 9, x2);
    InBand(row, y1);
    InBand(row, y2);
    InBand(col, x1);
    InBand(col, x2);
    assert rowPos[r1] / 3 == rowPos[r2] / 3;
    assert colPos[c1] / 3 == colPos[c2] / 3;
    assert r1 / 3 == r2 / 3 && c1 / 3 == c2 / 3;
    var baseRow, baseCol := r1 / 3 * 3, c1 / 3 * 3;
    Corner(r1);
    Corner(r2);
    Corner(c1);
    Corner(c2);
    assert BoxValid(base, baseRow, baseCol);
    assert InBox(baseRow, baseCol, r1, c1) && InBox(baseRow, baseCol, r2, c2);
    assert r1 != r2 || c1 != c2;
  }

  /** Rearranging a solved grid's rows and columns by band-preserving permutations keeps its boxes valid. */
  lemma ShuffledBoxesValid(base: Board, rowPos: seq<int>, colPos: seq<int>)
    requires IsBoard(base) && RowsColsValid(base) && SquaresValid(base)
    requires IsPermutation(rowPos, 9) && IsPermutation(colPos, 9)
    requires BandPreserving(rowPos) && BandPreserving(colPos)
    ensures SquaresValid(ShuffledBoard(base, rowPos, colPos))
  {
    var s := ShuffledBoard(base, rowPos, colPos);
    forall row, col | row in {0, 3, 6} && col in {0, 3, 6} ensures BoxValid(s, row, col) {
      forall y1, x1, y2, x2 |
        InBox(row, col, y1, x1) && InBox(row, col, y2, x2) && (y1 != y2 || x1 != x2)
        ensures s[y1][x1] != s[y2][x2]
      {
        ShuffledBoxPair(base, rowPos, colPos, row, col, y1, x1, y2, x2);
      }
      forall y, x | InBox(row, col, y, x) ensures IsDigit(s[y][x]) {
        assert RowValid(base, Inverse(rowPos, 9, y));
      }
    }
  }

  /** For every outcome of the four shuffles, the generated grid is solved. */
  lemma GeneratedBoardValid(rowPosInGrid: seq<int>, rowGridPos: seq<int>, colPosInGrid: seq<int>, colGridPos: seq<int>)
    requires IsPermutation(rowPosInGrid, 3) && IsPermutation(rowGridPos, 3)
    requires IsPermutation(colPosInGrid, 3) && IsPermutation(colGridPos, 3)
    ensures IsPermutation(RandomPositions(rowPosInGrid, rowGridPos), 9)
    ensures IsPermutation(RandomPositions(colPosInGrid, colGridPos), 9)
    ensures Solved(ShuffledBoard(BaseBoard(), RandomPositions(rowPosInGrid, rowGridPos), RandomPositions(colPosInGrid, colGridPos)))
  {
    var rowPos := RandomPositions(rowPosInGrid, rowGridPos);
    var colPos := RandomPositions(colPosInGrid, colGridPos);
    RandomPositionsPermute(rowPosInGrid, rowGridPos);
    RandomPositionsPermute(colPosInGrid, colGridPos);
    BaseBoardValid();
    ShuffledLinesValid(BaseBoard(), rowPos, colPos);
    ShuffledBoxesValid(BaseBoard(), rowPos, colPos);
  }

  /** The scatter loop of generate_sudoku_board: into a grid of empty cells,
      column by column, cell (rowPos[y], colPos[x]) receives base[y][x]. */
  method ScatterBoard(base: Board, rowPos: seq<int>, colPos: seq<int>) returns (board: Board)
    requires IsBoard(base) && IsPermutation(rowPos, 9) && IsPermutation(colPos, 9)
    ensures board == ShuffledBoard(base, rowPos, colPos)
  {
    // every cell starts out empty (None)
    var shuffledBoard := new int[9, 9]((_, _) => 0);

    for xOrig := 0 to 9
      invariant forall x, y :: 0 <= x < xOrig && 0 <= y < 9 ==> shuffledBoard[rowPos[y], colPos[x]] == base[y][x]
    {
      var xNew := colPos[xOrig];
      for yOrig := 0 to 9
        invariant forall x, y :: 0 <= x < xOrig && 0 <= y < 9 ==> shuffledBoard[rowPos[y], colPos[x]] == base[y][x]
        invariant forall y :: 0 <= y < yOrig ==> shuffledBoard[rowPos[y], xNew] == base[y][xOrig]
      {
        var yNew := rowPos[yOrig];
        shuffledBoard[yNew, xNew] := base[yOrig][xOrig];
      }
    }

    board := seq(9, y requires 0 <= y < 9 reads shuffledBoard =>
      seq(9, x requires 0 <= x < 9 reads shuffledBoard => shuffledBoard[y, x]));

    // every cell was written: each (y, x) is (rowPos[r], colPos[c]) for some r, c
    ghost var spec := ShuffledBoard(base, rowPos, colPos);
    forall y | 0 <= y < 9 ensures board[y] == spec[y] {
      forall x | 0 <= x < 9 ensures board[y][x] == spec[y][x] {
        var r, c := Inverse(rowPos, 9, y), Inverse(colPos, 9, x);
        assert board[y][x] == shuffledBoard[rowPos[r], colPos[c]];
      }
    }
  }

  /** generate_sudoku_board. The four arguments are the outcomes of the
      shuffles, in the order the program draws them: band order, then order
      within a band, for the rows and then for the columns. */
  method GenerateSudokuBoard(rowPosInGrid: seq<int>, rowGridPos: seq<int>, colPosInGrid: seq<int>, colGridPos: seq<int>)
    returns (board: Board)
    requires IsPermutation(rowPosInGrid, 3) && IsPermutation(rowGridPos, 3)
    requires IsPermutation(colPosInGrid, 3) && IsPermutation(colGridPos, 3)
    ensures IsBoard(board)
    ensures board == ShuffledBoard(BaseBoard(), RandomPositions(rowPosInGrid, rowGridPos), RandomPositions(colPosInGrid, colGridPos))
    ensures forall y, x :: 0 <= y < 9 && 0 <= x < 9 ==> board[y][x] != 0
    ensures RowsColsValid(board) && SquaresValid(board)
  {
    var base := BaseBoard();
    var newRowPositions := RandomPositions(rowPosInGrid, rowGridPos);
    var newColPositions := RandomPositions(colPosInGrid, colGridPos);
    GeneratedBoardValid(rowPosInGrid, rowGridPos, colPosInGrid, colGridPos);
    board := ScatterBoard(base, newRowPositions, newColPositions);
    assert forall y :: 0 <= y < 9 ==> RowValid(board, y);
  }
}
