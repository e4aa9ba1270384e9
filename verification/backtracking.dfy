/**
 methods/backtracking.py: `backtrack(state, row)` extends the placed rows one row at a time,
 trying columns 0..N-1 in order and recursing only on a valid move; a board of N rows is
 recorded. `Backtrack` is the list of boards one call records, in recording order;
 `TryColumns` is the `for col` loop from a given column on.
 */
module Backtracking {
  import opened Board
  import opened Lex
  import opened Solver

  function Backtrack(n: nat, state: seq<int>, row: nat): (r: seq<seq<int>>)
    requires |state| == row <= n
    ensures forall s :: s in r ==> |s| == n && s[..row] == state
    ensures IsPrefix(state, n) ==> forall s :: s in r ==> IsSolution(s, n)
    ensures forall b :: IsSolution(b, n) && b[..row] == state ==> b in r
    ensures Sorted(r)
    decreases n - row, 1, 0
  {
    if row == n then
      assert forall b :: |b| == n && b[..row] == state ==> b == state;
      [state]
    else TryColumns(n, state, row, 0)
  }

  function TryColumns(n: nat, state: seq<int>, row: nat, col: nat): (r: seq<seq<int>>)
    requires |state| == row < n && col <= n
    ensures forall s :: s in r ==> |s| == n && s[..row] == state && col <= s[row] < n
    ensures IsPrefix(state, n) ==> forall s :: s in r ==> IsSolution(s, n)
    ensures forall b :: IsSolution(b, n) && b[..row] == state && col <= b[row] ==> b in r
    ensures Sorted(r)
    decreases n - row, 0, n - col
  {
    if col == n then []
    else
      var here := if IsValidMove(state, row, col) then Backtrack(n, state + [col], row + 1) else [];
      var rest := TryColumns(n, state, row, col + 1);
      BranchFacts(n, state, row, col, here);
      CompleteBranch(n, state, row, col, here, rest);
      OrderedBranches(state, row, col, here, rest);
      here + rest
  }

  /** What every board recorded below the choice `col` for row `row` looks like. */
  lemma BranchFacts(n: nat, state: seq<int>, row: nat, col: nat, here: seq<seq<int>>)
    requires |state| == row < n && col < n
    requires here == [] || IsValidMove(state, row, col)
    requires forall s :: s in here ==> |s| == n && s[..row + 1] == state + [col]
    requires IsPrefix(state + [col], n) ==> forall s :: s in here ==> IsSolution(s, n)
    ensures forall s :: s in here ==> s[..row] == state && s[row] == col
    ensures IsPrefix(state, n) ==> forall s :: s in here ==> IsSolution(s, n)
  {
    forall s | s in here
      ensures s[..row] == state && s[row] == col
    {
      assert s[..row] == s[..row + 1][..row];
      assert s[row] == s[..row + 1][row];
    }
    if IsPrefix(state, n) && here != [] {
      ExtendPrefix(state, n, col);
    }
  }

  lemma CompleteBranch(n: nat, state: seq<int>, row: nat, col: nat, here: seq<seq<int>>, rest: seq<seq<int>>)
    requires |state| == row < n && col < n
    requires IsValidMove(state, row, col) ==>
               forall b :: IsSolution(b, n) && b[..row + 1] == state + [col] ==> b in here
    requires forall b :: IsSolution(b, n) && b[..row] == state && col + 1 <= b[row] ==> b in rest
    ensures forall b :: IsSolution(b, n) && b[..row] == state && col <= b[row] ==> b in here + rest
  {
    forall b | IsSolution(b, n) && b[..row] == state && col <= b[row]
      ensures b in here + rest
    {
      if b[row] == col {
        RowIsValidMove(b, row);
        assert b[..row + 1] == b[..row] + [b[row]];
        assert b in here;
      } else {
        assert b in rest;
      }
    }
  }

  lemma OrderedBranches(state: seq<int>, row: nat, col: nat, here: seq<seq<int>>, rest: seq<seq<int>>)
    requires Sorted(here) && Sorted(rest)
    requires forall s :: s in here ==> |s| > row && s[..row] == state && s[row] == col
    requires forall s :: s in rest ==> |s| > row && s[..row] == state && col + 1 <= s[row]
    ensures Sorted(here + rest)
  {
    forall x, y | x in here && y in rest
      ensures Less(x, y)
    {
      LessAt(x, y, row);
    }
    SortedAppend(here, rest);
  }

  /**
   `solve()`: the boards `backtrack([], 0)` records, with the integer fields of the metric
   record. The recorded boards are exactly the solutions of the n-queens problem, each
   once, in increasing lexicographic order.
   */
  function Solve(n: nat): (r: (seq<seq<int>>, Metric))
    ensures forall b :: b in r.0 <==> IsSolution(b, n)
    ensures Sorted(r.0)
    ensures r.1.solutionsFound == |r.0| && r.1.iterations == Some(|r.0|)
  {
    var all := Backtrack(n, [], 0);
    assert IsPrefix([], n);
    (all, Metric("Backtracking", |all|, Some(|all|)))
  }
}
