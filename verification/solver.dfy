/**
 The state every strategy inherits from `NQueensSolver` (n_queens_solver.py): the board size,
 the `solutions` and `metrics` buffers, the shared metric record, and the `is_safe`
 placement test written with signed diagonal differences.
 */
module Solver {
  import opened Board

  datatype Option<T> = None | Some(value: T)

  /**
   The integer part of a metric record. The wall-clock fields `time` and `efficiency` are
   not modelled; `iterations` is absent from the BFS, DFS and A* records.
   */
  datatype Metric = Metric(name: string, solutionsFound: nat, iterations: Option<nat>)

  datatype NQueensSolver = NQueensSolver(n: nat, solutions: seq<seq<int>>, metrics: seq<Metric>)

  /** `NQueensSolver(N)`: a solver for size N whose buffers start empty. */
  function NewSolver(n: nat): (r: NQueensSolver)
    ensures r.n == n && |r.solutions| == 0 && |r.metrics| == 0
  {
    NQueensSolver(n, [], [])
  }

  /** The loop of `is_safe` from row i on. */
  function IsSafeFrom(board: seq<int>, row: int, col: int, i: nat): (r: bool)
    requires row <= |board|
    ensures r <==> forall k :: i <= k < row ==>
                     board[k] != col && board[k] - k != col - row && board[k] + k != col + row
    decreases row - i
  {
    if i >= row then true
    else if board[i] == col || board[i] - i == col - row || board[i] + i == col + row then false
    else IsSafeFrom(board, row, col, i + 1)
  }

  /**
   `is_safe(board, row, col)`: no earlier row holds column col or lies on one of the two
   diagonals through (row, col).
   */
  function IsSafe(board: seq<int>, row: int, col: int): (r: bool)
    requires row <= |board|
    ensures r <==> forall i :: 0 <= i < row ==>
                     board[i] != col && board[i] - i != col - row && board[i] + i != col + row
  {
    IsSafeFrom(board, row, col, 0)
  }

  /** The signed-difference test of `is_safe` and the absolute-value test of `is_valid_move` agree. */
  lemma IsSafeIsValidMove(board: seq<int>, row: int, col: int)
    requires row <= |board|
    ensures IsSafe(board, row, col) == IsValidMove(board, row, col)
  {
    forall i | 0 <= i < row
      ensures (board[i] - i != col - row && board[i] + i != col + row)
              <==> Abs(board[i] - col) != Abs(i - row)
    {
    }
  }

  /** `is_safe` reads only the rows before `row`. */
  lemma IsSafeReadsPrefix(board: seq<int>, other: seq<int>, row: int, col: int)
    requires 0 <= row <= |board| && row <= |other|
    requires board[..row] == other[..row]
    ensures IsSafe(board, row, col) == IsSafe(other, row, col)
  {
    forall i | 0 <= i < row
      ensures board[i] == other[i]
    {
      assert board[i] == board[..row][i];
    }
  }

  /** Row 0 (or any row number up to 0) has nothing above it, so every column is safe there. */
  lemma IsSafeFirstRow(board: seq<int>, row: int, col: int)
    requires row <= 0 && row <= |board|
    ensures IsSafe(board, row, col)
  {
  }
}
