/** get_clear_table: which cells of a solved grid are blanked.

    A table of 81 cells holds 0 (clear this cell) or 1 (keep it). The program
    lays out the zeros first and the ones after them, shuffles that flat list
    and cuts it into nine rows of nine. The shuffle outcome is a parameter. */
module ClearTable {
  import opened Permutations
  import opened Grid

  /** How many of the 81 cells are cleared: 81 * percent / 100, rounded down. */
  function NumClear(percentClear: int): (n: nat)
    requires 0 <= percentClear <= 100
    ensures n <= 81
    ensures n * 100 <= 81 * percentClear < (n + 1) * 100
  {
    81 * percentClear / 100
  }

  /** `n` copies of `v`. */
  function Repeat(n: nat, v: int): (s: seq<int>)
    ensures |s| == n
    ensures forall i :: 0 <= i < n ==> s[i] == v
  {
    seq(n, _ => v)
  }

  lemma {:induction false} RepeatCount(n: nat, v: int, w: int)
    ensures multiset(Repeat(n, v))[w] == if v == w then n else 0
  {
    if n > 0 {
      RepeatCount(n - 1, v, w);
      assert Repeat(n, v) == Repeat(n - 1, v) + [v];
    }
  }

  /** The flat table before the shuffle: `numClear` zeros, then ones up to 81 cells. */
  function Unshuffled(numClear: nat): (s: seq<int>)
    requires numClear <= 81
    ensures |s| == 81
    ensures multiset(s)[0] == numClear && multiset(s)[1] == 81 - numClear
    ensures forall i :: 0 <= i < 81 ==> (s[i] == 0 <==> i < numClear)
    ensures forall i :: 0 <= i < 81 ==> (s[i] == 1 <==> numClear <= i)
  {
    RepeatCount(numClear, 0, 0);
    RepeatCount(numClear, 0, 1);
    RepeatCount(81 - numClear, 1, 0);
    RepeatCount(81 - numClear, 1, 1);
    Repeat(numClear, 0) + Repeat(81 - numClear, 1)
  }

  /** The 1D to 2D step: row n is the slice of cells 9n .. 9n+8. */
  function Rows(flat: seq<int>): (b: Board)
    requires |flat| == 81
    ensures IsBoard(b)
    ensures forall y, x :: 0 <= y < 9 && 0 <= x < 9 ==> b[y][x] == flat[9 * y + x]
    ensures Flatten(b) == flat
  {
    var b := seq(9, n requires 0 <= n < 9 => flat[9 * n..9 * n + 9]);
    FlattenPrefix(b, flat, 9);
    assert b[..9] == b;
    b
  }

  /** Reading the first k slices row after row gives back the first 9k cells. */
  lemma {:induction false} FlattenPrefix(b: Board, flat: seq<int>, k: nat)
    requires |flat| == 81 && |b| == 9 && k <= 9
    requires forall n :: 0 <= n < 9 ==> b[n] == flat[9 * n..9 * n + 9]
    ensures Flatten(b[..k]) == flat[..9 * k]
  {
    if k > 0 {
      FlattenPrefix(b, flat, k - 1);
      assert b[..k][..k - 1] == b[..k - 1];
      assert flat[..9 * k] == flat[..9 * (k - 1)] + flat[9 * (k - 1)..9 * k];
    }
  }

  /** get_clear_table with square size 3. `perm` is the outcome of the shuffle:
      cell i of the shuffled list is cell perm[i] of the unshuffled one. */
  function GetClearTable(percentClear: int, perm: seq<int>): (table: Board)
    requires 0 <= percentClear <= 100
    requires IsPermutation(perm, 81)
    ensures IsBoard(table)
    ensures forall y, x :: 0 <= y < 9 && 0 <= x < 9 ==> table[y][x] == 0 || table[y][x] == 1
    ensures ZeroCount(table) == NumClear(percentClear)
    ensures percentClear == 0 ==> forall y, x :: 0 <= y < 9 && 0 <= x < 9 ==> table[y][x] == 1
    ensures percentClear == 100 ==> forall y, x :: 0 <= y < 9 && 0 <= x < 9 ==> table[y][x] == 0
  {
    var numClear := NumClear(percentClear);
    var clearTable := Unshuffled(numClear);
    var shuffled := Shuffled(clearTable, perm);
    ShuffledMultiset(clearTable, perm);
    Rows(shuffled)
  }
}
