# Sudoku board generator: a verified model

This project models the core of a small Sudoku tool. Its `sudoku_utils.py` does four things:

- It generates a solved 9x9 grid. It starts from a canonical cyclic grid and rearranges the rows and the columns. The new row and column orders come from shuffling the band order 0..2 and the order inside a band 0..2.
- It checks a grid. One checker covers rows and columns, the other the nine 3x3 boxes.
- It builds a "clear table" of 0/1 cells. A given percentage of the 81 cells are 0, at shuffled places.

`main.py` generates a grid, reports both checks, and multiplies the grid by the clear table cell by cell to get the puzzle.

The model fixes the square size at 3, so the grid is 9x9.

- A grid is `seq<seq<int>>`. The empty cell (`None` in the program) is 0.
- Every `random.shuffle` becomes a parameter: the permutation it applied. Every property is proved for all such permutations.
  - The four shuffles of `[0, 1, 2]` are permutations of 0..2.
  - The shuffle of the flat clear table is a permutation `perm` of 0..80. Entry i of the shuffled list is entry `perm[i]` of the list before the shuffle.
- The checkers, the scatter loop of the generator and the main script are methods.
  - Each checker keeps its "seen" table in a local array.
  - The scatter loop fills a local two-dimensional array.
- The band positions, the canonical grid, the clear table and the masking step are functions, as in the program.

Modules:

- `Permutations`: permutations, their inverses, shuffling.
- `Grid`: the grid, its validity predicates, and empty-cell counts.
- `Checkers`: `checkRowsCols` and `checkSquares`.
- `Generator`: `generate_sudoku_board` with `get_random_positions`.
- `ClearTable`: `get_clear_table`.
- `Play`: the main script.

## Model

| member | source | states |
|---|---|---|
| Checkers.CheckRowsCols | sudoku_utils.py:3-35 | returns true exactly when every row and every column holds nine distinct values, each in 1..9. A cell that is empty, outside 1..9 or a repeat makes it return false |
| Checkers.CheckSquare | sudoku_utils.py:43-57 | the scan of one box returns true exactly when the 3x3 box at that corner holds nine distinct values in 1..9 |
| Checkers.CheckSquares | sudoku_utils.py:37-58 | returns true exactly when all nine boxes, with corners at rows and columns 0, 3, 6, are valid |
| Grid.RowHoldsEveryDigit | sudoku_utils.py:7-23 | a row that passes the row check contains every digit 1..9 |
| Grid.ColHoldsEveryDigit | sudoku_utils.py:7-34 | a column that passes the column check contains every digit 1..9 |
| Grid.BoxHoldsEveryDigit | sudoku_utils.py:41-57 | a box that passes the box check contains every digit 1..9 |
| Grid.EmptyCellFailsChecks | sudoku_utils.py:15-57 | a grid with an empty cell anywhere fails the row/column check and also fails the box check |
| Permutations.Shuffled | sudoku_utils.py:106 | entry i of the shuffled list is entry perm[i] of the list before the shuffle, for a permutation perm of its indices |
| Permutations.ShuffledMultiset | sudoku_utils.py:106 | shuffling keeps the length and keeps every element with its multiplicity |
| Generator.BandPositionsAt | sudoku_utils.py:74-76 | entry 3a+k of the comprehension is band a of the band order times 3, plus offset k of the in-band order |
| Generator.RandomPositions | sudoku_utils.py:64-76 | nine positions. Position i lies in band `posInGrid[i/3]` at offset `gridPos[i%3]` |
| Generator.RandomPositionsPermute | sudoku_utils.py:64-76 | the positions are a permutation of 0..8 that keeps each band 0-2, 3-5, 6-8 together: two indices land in the same band exactly when they come from the same band |
| Generator.BaseBoard | sudoku_utils.py:78-79 | the canonical grid has nine rows of nine cells |
| Generator.BaseCell | sudoku_utils.py:78-79 | cell (y, x) of the canonical grid is `(s + x) % 9 + 1`, with shift `s = 3*(y%3) + y/3` in 0..8. So row y is 1..9 rotated by s |
| Generator.BaseLinesValid | sudoku_utils.py:78-79 | every row and column of the canonical grid holds nine distinct digits |
| Generator.BaseBoxesValid | sudoku_utils.py:78-79 | every box of the canonical grid holds nine distinct digits |
| Generator.BaseBoardValid | sudoku_utils.py:78-79 | the canonical grid passes both checks |
| Generator.ShuffledBoard | sudoku_utils.py:87-94 | the rearranged grid has nine rows of nine cells, and cell (rowPos[y], colPos[x]) holds cell (y, x) of the original |
| Generator.ShuffledLinesValid | sudoku_utils.py:87-94 | rearranging rows and columns by any permutations keeps every row and column valid |
| Generator.ShuffledBoxPair | sudoku_utils.py:87-94 | with band-preserving permutations, two distinct cells of one new box come from two distinct cells of one box of the original, so they differ |
| Generator.ShuffledBoxesValid | sudoku_utils.py:87-94 | rearranging a solved grid by band-preserving permutations keeps every box valid |
| Generator.GeneratedBoardValid | sudoku_utils.py:60-96 | for every outcome of the four shuffles, both position lists are permutations and the generated grid passes both checks |
| Generator.ScatterBoard | sudoku_utils.py:87-94 | the loop over original columns and rows, writing into a grid of empty cells, yields exactly the rearranged grid: every cell is written |
| Generator.GenerateSudokuBoard | sudoku_utils.py:60-96 | the generated grid is 9x9 and is the canonical grid rearranged by the two position lists. No cell is left empty, and it passes both checks for every outcome of the shuffles |
| ClearTable.NumClear | sudoku_utils.py:102-103 | the number of cells to clear is 81 * percent / 100 rounded down, at most 81 |
| ClearTable.Unshuffled | sudoku_utils.py:105 | the flat list has 81 entries. The first `numClear` are 0 and the rest are 1, so it holds `numClear` zeros and `81 - numClear` ones |
| ClearTable.Rows | sudoku_utils.py:107 | the 1D-to-2D step gives nine rows of nine. Cell (y, x) is entry 9y+x, and reading the rows in order gives the flat list back |
| ClearTable.GetClearTable | sudoku_utils.py:98-110 | a 9x9 table of 0/1 cells with exactly 81 * percent / 100 zeros, for every shuffle outcome. At 0 percent every cell is 1; at 100 percent every cell is 0 |
| Play.MaskRow | main.py:12 | one row of the product is as long as the shorter of its two rows. It keeps the grid cell where the mask is 1 and is 0 where the mask is 0. On a non-empty grid cell it is 0 exactly when the mask is 0 |
| Play.ApplyMask | main.py:12 | the product pairs rows as `zip` does and keeps the 9x9 shape. Each cell is the grid's where the mask is 1 and 0 where the mask is 0. On a non-empty grid cell it is 0 exactly when the mask is 0 |
| Play.MaskedZeroCount | main.py:12 | on a grid without empty cells, the puzzle has exactly as many empty cells as the mask has zeros |
| Play.MaskedBoardFailsChecks | main.py:12 | once the mask has a zero, the puzzle fails the row/column check and also fails the box check |
| Play.ClearNoneOrAll | main.py:5-12 | clearing 0 percent leaves the grid unchanged; clearing 100 percent empties every cell |
| Play.NewPuzzle | main.py:3-12 | the script with the default 40 percent. Both checks report OK on the generated grid. The puzzle is the grid masked by the clear table and has exactly 32 empty cells, exactly where the clear table has its zeros. Every non-empty cell agrees with the solved grid, and the puzzle itself fails both checks |

## Left out

- Printing: the `print` calls of `get_clear_table` and of the main script are left out. The two checker verdicts ("OK"/"BAD") are returned as booleans.
- Randomness: every `random.shuffle` outcome is a parameter, and properties are proved for all outcomes. Which permutations are likely is not modelled.
- Square size: only the default 3 is modelled. The program's `get_random_positions` and the slicing in `get_clear_table` hard-code 3 and 9 anyway.
- Percentages outside 0..100: `GetClearTable` requires `0 <= percentClear <= 100`. The program does not guard against other values, and with them its list lengths stop making sense.
- Cell types: cells are integers. Python would also accept other values such as floats or strings, which make the checkers behave differently or raise an error. `None` is modelled as 0, which both checkers reject as they reject `None`.
- Checkers.CheckRowsCols, Checkers.CheckSquares: the grid must have exactly nine rows of nine cells. On a smaller grid the program raises IndexError at the first missing cell it reads, unless an earlier cell already made it return False; the model covers neither. On a larger one it looks only at the top-left 9x9 part, which the model does not cover.
- Checkers.CheckSquare: the inner two loops of `checkSquares` are a separate method, one call per box. The order of visits and the early `return False` are unchanged.
- Generator.ScatterBoard: the scatter loop of `generate_sudoku_board` is a separate method that works on any 9x9 base grid and any permutations of 0..8. `GenerateSudokuBoard` calls it once.
- Generator.ScatterBoard: position lists that are not permutations are not covered. With them the program's loop leaves some cells `None` and overwrites others. The generator never passes such lists: `RandomPositionsPermute` proves its lists are permutations.
- The in-place `random.shuffle` of the flat clear table is modelled as a function from the unshuffled list and a permutation to the shuffled list. The list is not updated in place.
