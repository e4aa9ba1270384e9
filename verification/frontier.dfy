/**
 The padded boards the BFS, DFS and A* solvers keep on their frontiers (methods/bfs_dfs.py,
 methods/a_star.py): N entries, the placed rows first and `Empty` (-1) after them. This
 module holds the pieces those three files repeat — the goal test, `state.index(-1)` and
 `get_possible_next_states` — and relates a padded board to the backtracking search from its
 placed rows: the solutions below a frontier board are the ones backtracking records from
 that prefix, and `TreeSize` counts the boards a search expands below it.
 */
module Frontier {
  import opened Board
  import opened Lex
  import Backtracking

  /** `[-1] * N`. */
  function EmptyBoard(n: nat): (r: seq<int>)
    ensures |r| == n && forall i :: 0 <= i < n ==> r[i] == Empty
  {
    seq(n, _ => Empty)
  }

  /** The number of leading placed rows: the position of the first `Empty`, or |s| if none. */
  function Depth(s: seq<int>): (d: nat)
    ensures d <= |s|
    ensures forall i :: 0 <= i < d ==> s[i] != Empty
    ensures d < |s| ==> s[d] == Empty
    decreases |s|
  {
    if |s| == 0 || s[0] == Empty then 0 else 1 + Depth(s[1..])
  }

  /** The first empty position is determined by the entries before it and at it. */
  lemma {:induction false} DepthIs(s: seq<int>, d: nat)
    requires d <= |s|
    requires forall i :: 0 <= i < d ==> s[i] != Empty
    requires d < |s| ==> s[d] == Empty
    ensures Depth(s) == d
    decreases |s|
  {
    if |s| > 0 && s[0] != Empty {
      DepthIs(s[1..], d - 1);
    }
  }

  /** `state.index(v)`: the first position holding v. */
  function IndexOf(s: seq<int>, v: int): (k: nat)
    requires v in s
    ensures k < |s| && s[k] == v && v !in s[..k]
    decreases |s|
  {
    if s[0] == v then 0
    else
      var k := 1 + IndexOf(s[1..], v);
      assert s[..k] == [s[0]] + s[1..][..k - 1];
      k
  }

  /**
   A board as it sits on a frontier: N entries, the first Depth(s) of them a valid prefix
   (in range, pairwise non-attacking), and `Empty` after that.
   */
  predicate IsPartial(s: seq<int>, n: nat)
  {
    |s| == n && IsPrefix(s[..Depth(s)], n) && forall i :: Depth(s) <= i < n ==> s[i] == Empty
  }

  /** `is_goal_state` of the BFS, DFS and A* solvers. */
  predicate IsGoalState(s: seq<int>)
  {
    Empty !in s && IsValidBoard(s)
  }

  lemma IndexOfEmpty(s: seq<int>)
    requires Empty in s
    ensures IndexOf(s, Empty) == Depth(s)
  {
    DepthIs(s, IndexOf(s, Empty));
  }

  /** On a frontier board, the goal test holds exactly when every row is placed. */
  lemma PartialGoal(s: seq<int>, n: nat)
    requires IsPartial(s, n)
    ensures IsGoalState(s) <==> Depth(s) == n
    ensures Empty in s <==> Depth(s) < n
  {
    if Depth(s) == n {
      assert s[..n] == s;
      forall i | 0 <= i < n
        ensures s[i] != Empty
      {
        assert s[..n][i] == s[i];
      }
    } else {
      assert s[Depth(s)] == Empty;
    }
  }

  /** The loop of `get_possible_next_states` from column col on, filling row k. */
  function Expand(n: nat, s: seq<int>, k: nat, col: nat): (r: seq<seq<int>>)
    requires k < |s| && col <= n
    ensures |r| <= n - col
    decreases n - col
  {
    if col == n then []
    else if IsValidMove(s, k, col) then [s[k := col]] + Expand(n, s, k, col + 1)
    else Expand(n, s, k, col + 1)
  }

  /** Every board `Expand` yields fills row k of s with a valid column from col on and changes nothing else. */
  lemma {:induction false} ExpandMembers(n: nat, s: seq<int>, k: nat, col: nat)
    requires k < |s| && col <= n
    ensures forall t :: t in Expand(n, s, k, col) ==>
              |t| == |s| && col <= t[k] < n && IsValidMove(s, k, t[k])
              && forall j :: 0 <= j < |s| && j != k ==> t[j] == s[j]
    decreases n - col
  {
    if col < n {
      ExpandMembers(n, s, k, col + 1);
    }
  }

  /** `Expand` misses no valid column from col on. */
  lemma {:induction false} ExpandCovers(n: nat, s: seq<int>, k: nat, col: nat)
    requires k < |s| && col <= n
    ensures forall c :: col <= c < n && IsValidMove(s, k, c) ==> s[k := c] in Expand(n, s, k, col)
    decreases n - col
  {
    if col < n {
      ExpandCovers(n, s, k, col + 1);
    }
  }

  /** The boards of r hold strictly increasing columns in row k. */
  predicate ColumnsIncrease(r: seq<seq<int>>, k: nat)
  {
    forall i, j :: 0 <= i < j < |r| ==> k < |r[i]| && k < |r[j]| && r[i][k] < r[j][k]
  }

  /** `Expand` lists its boards in increasing order of the column in row k. */
  lemma {:induction false} ExpandOrdered(n: nat, s: seq<int>, k: nat, col: nat)
    requires k < |s| && col <= n
    ensures ColumnsIncrease(Expand(n, s, k, col), k)
    decreases n - col
  {
    if col < n {
      ExpandOrdered(n, s, k, col + 1);
      ExpandMembers(n, s, k, col + 1);
      var rest := Expand(n, s, k, col + 1);
      if IsValidMove(s, k, col) {
        ConsIncrease(s[k := col], rest, k);
      }
    }
  }

  lemma ConsIncrease(t: seq<int>, rest: seq<seq<int>>, k: nat)
    requires k < |t| && ColumnsIncrease(rest, k)
    requires forall u :: u in rest ==> k < |u| && t[k] < u[k]
    ensures ColumnsIncrease([t] + rest, k)
  {
    var r := [t] + rest;
    forall i, j | 0 <= i < j < |r|
      ensures k < |r[i]| && k < |r[j]| && r[i][k] < r[j][k]
    {
      assert r[j] == rest[j - 1];
      if i == 0 {
        assert r[j] in rest;
      } else {
        assert r[i] == rest[i - 1];
      }
    }
  }

  lemma ExpandShape(n: nat, s: seq<int>, k: nat, col: nat)
    requires k < |s| && col <= n
    ensures forall t :: t in Expand(n, s, k, col) ==>
              |t| == |s| && col <= t[k] < n && IsValidMove(s, k, t[k])
              && forall j :: 0 <= j < |s| && j != k ==> t[j] == s[j]
    ensures forall c :: col <= c < n && IsValidMove(s, k, c) ==> s[k := c] in Expand(n, s, k, col)
    ensures ColumnsIncrease(Expand(n, s, k, col), k)
  {
    ExpandMembers(n, s, k, col);
    ExpandCovers(n, s, k, col);
    ExpandOrdered(n, s, k, col);
  }

  /** `get_possible_next_states(state)`: `Expand` on the first empty row, from column 0. */
  function Successors(n: nat, s: seq<int>): (r: seq<seq<int>>)
    requires Empty in s
    ensures |r| <= n
  {
    Expand(n, s, IndexOf(s, Empty), 0)
  }

  /**
   The successors of a board fill its first empty row: one board per column that is a valid
   move there, none missing, in increasing column order, each equal to s in every other row.
   */
  lemma SuccessorsShape(n: nat, s: seq<int>)
    requires Empty in s
    ensures forall t :: t in Successors(n, s) ==>
              |t| == |s| && 0 <= t[IndexOf(s, Empty)] < n && IsValidMove(s, IndexOf(s, Empty), t[IndexOf(s, Empty)])
              && forall j :: 0 <= j < |s| && j != IndexOf(s, Empty) ==> t[j] == s[j]
    ensures forall c :: 0 <= c < n && IsValidMove(s, IndexOf(s, Empty), c) ==> s[IndexOf(s, Empty) := c] in Successors(n, s)
    ensures ColumnsIncrease(Successors(n, s), IndexOf(s, Empty))
  {
    ExpandShape(n, s, IndexOf(s, Empty), 0);
  }

  /** The solutions below a frontier board: what backtracking records from its placed rows. */
  function SubSols(n: nat, s: seq<int>): seq<seq<int>>
    requires IsPartial(s, n)
  {
    Backtracking.Backtrack(n, s[..Depth(s)], Depth(s))
  }

  function SubSolsAll(n: nat, xs: seq<seq<int>>): seq<seq<int>>
    requires forall x :: x in xs ==> IsPartial(x, n)
    decreases |xs|
  {
    if |xs| == 0 then [] else SubSols(n, xs[0]) + SubSolsAll(n, xs[1..])
  }

  /** The boards a search expands or records below the placed rows p, p's own board included. */
  function TreeSize(n: nat, p: seq<int>): (r: nat)
    requires |p| <= n
    ensures r >= 1
    decreases n - |p|, 1, 0
  {
    if |p| == n then 1 else 1 + TreeSizeCols(n, p, 0)
  }

  function TreeSizeCols(n: nat, p: seq<int>, col: nat): nat
    requires |p| < n && col <= n
    decreases n - |p|, 0, n - col
  {
    if col == n then 0
    else (if IsValidMove(p, |p|, col) then TreeSize(n, p + [col]) else 0) + TreeSizeCols(n, p, col + 1)
  }

  function Nodes(n: nat, s: seq<int>): nat
    requires IsPartial(s, n)
  {
    TreeSize(n, s[..Depth(s)])
  }

  function NodesAll(n: nat, xs: seq<seq<int>>): nat
    requires forall x :: x in xs ==> IsPartial(x, n)
    decreases |xs|
  {
    if |xs| == 0 then 0 else Nodes(n, xs[0]) + NodesAll(n, xs[1..])
  }

  lemma {:induction false} SubSolsAllAppend(n: nat, a: seq<seq<int>>, b: seq<seq<int>>)
    requires forall x :: x in a ==> IsPartial(x, n)
    requires forall x :: x in b ==> IsPartial(x, n)
    ensures SubSolsAll(n, a + b) == SubSolsAll(n, a) + SubSolsAll(n, b)
    ensures NodesAll(n, a + b) == NodesAll(n, a) + NodesAll(n, b)
    decreases |a|
  {
    if |a| > 0 {
      assert (a + b)[1..] == a[1..] + b;
      SubSolsAllAppend(n, a[1..], b);
    } else {
      assert a + b == b;
    }
  }

  lemma PopLastSols(n: nat, xs: seq<seq<int>>)
    requires |xs| > 0
    requires forall x :: x in xs ==> IsPartial(x, n)
    ensures SubSolsAll(n, xs) == SubSolsAll(n, xs[..|xs| - 1]) + SubSols(n, xs[|xs| - 1])
  {
    var below := xs[..|xs| - 1];
    var last := xs[|xs| - 1];
    assert xs == below + [last];
    SubSolsAllAppend(n, below, [last]);
    SubSolsAllSingle(n, last);
  }

  lemma PopLastNodes(n: nat, xs: seq<seq<int>>)
    requires |xs| > 0
    requires forall x :: x in xs ==> IsPartial(x, n)
    ensures NodesAll(n, xs) == NodesAll(n, xs[..|xs| - 1]) + Nodes(n, xs[|xs| - 1])
  {
    var below := xs[..|xs| - 1];
    var last := xs[|xs| - 1];
    assert xs == below + [last];
    SubSolsAllAppend(n, below, [last]);
    SubSolsAllSingle(n, last);
  }

  /** Taking the last board off a frontier splits its solutions and its tree at that board. */
  lemma PopLast(n: nat, xs: seq<seq<int>>)
    requires |xs| > 0
    requires forall x :: x in xs ==> IsPartial(x, n)
    ensures forall x :: x in xs[..|xs| - 1] ==> IsPartial(x, n)
    ensures IsPartial(xs[|xs| - 1], n)
    ensures SubSolsAll(n, xs) == SubSolsAll(n, xs[..|xs| - 1]) + SubSols(n, xs[|xs| - 1])
    ensures NodesAll(n, xs) == NodesAll(n, xs[..|xs| - 1]) + Nodes(n, xs[|xs| - 1])
  {
    PopLastSols(n, xs);
    PopLastNodes(n, xs);
  }

  lemma SubSolsAllSingle(n: nat, x: seq<int>)
    requires IsPartial(x, n)
    ensures SubSolsAll(n, [x]) == SubSols(n, x)
    ensures NodesAll(n, [x]) == Nodes(n, x)
  {
    assert [x][1..] == [];
  }

  /** The board with nothing placed is a frontier board whose solutions are all of backtracking's. */
  lemma RootPartial(n: nat)
    ensures IsPartial(EmptyBoard(n), n) && Depth(EmptyBoard(n)) == 0
    ensures SubSols(n, EmptyBoard(n)) == Backtracking.Backtrack(n, [], 0)
  {
    DepthIs(EmptyBoard(n), 0);
    assert EmptyBoard(n)[..0] == [];
    assert IsPrefix([], n);
  }

  /** A fully placed frontier board is a goal, is its own only solution, and expands nothing. */
  lemma CompleteBoard(n: nat, s: seq<int>)
    requires IsPartial(s, n) && Depth(s) == n
    ensures IsGoalState(s)
    ensures SubSols(n, s) == [s] && Nodes(n, s) == 1
  {
    PartialGoal(s, n);
    assert s[..n] == s;
  }

  /** Filling the first empty row of a frontier board with a valid column gives a frontier board one row deeper. */
  lemma ChildPartial(n: nat, s: seq<int>, c: int)
    requires IsPartial(s, n) && Depth(s) < n
    requires 0 <= c < n && IsValidMove(s, Depth(s), c)
    ensures IsPartial(s[Depth(s) := c], n) && Depth(s[Depth(s) := c]) == Depth(s) + 1
    ensures s[Depth(s) := c][..Depth(s) + 1] == s[..Depth(s)] + [c]
  {
    var d := Depth(s);
    var p := s[..d];
    var t := s[d := c];
    DepthIs(t, d + 1);
    assert t[..d + 1] == p + [c];
    assert IsValidMove(p, d, c) by {
      assert Clear(s, d, c);
      forall i | 0 <= i < d
        ensures p[i] != c && Abs(p[i] - c) != Abs(i - d)
      {
        assert p[i] == s[i];
      }
    }
    ExtendPrefix(p, n, c);
  }

  /** Every board `Expand` produces from a frontier board's first empty row is a frontier board one row deeper. */
  lemma ExpandChildren(n: nat, s: seq<int>, col: nat)
    requires IsPartial(s, n) && Depth(s) < n && col <= n
    ensures forall t :: t in Expand(n, s, Depth(s), col) ==> IsPartial(t, n) && Depth(t) == Depth(s) + 1
  {
    var d := Depth(s);
    ExpandShape(n, s, d, col);
    forall t | t in Expand(n, s, d, col)
      ensures IsPartial(t, n) && Depth(t) == d + 1
    {
      assert t == s[d := t[d]];
      ChildPartial(n, s, t[d]);
    }
  }

  /** The move test in the first empty row reads only the placed rows. */
  lemma MoveReadsPlaced(n: nat, s: seq<int>, col: int)
    requires IsPartial(s, n) && Depth(s) < n
    ensures IsValidMove(s, Depth(s), col) == IsValidMove(s[..Depth(s)], Depth(s), col)
  {
    var d := Depth(s);
    assert forall i :: 0 <= i < d ==> s[..d][i] == s[i];
    assert Clear(s, d, col) == Clear(s[..d], d, col);
  }

  /** A valid column contributes its child's solutions and subtree ahead of the later columns'. */
  lemma ExpandValidChild(n: nat, s: seq<int>, col: nat, rest: seq<seq<int>>)
    requires IsPartial(s, n) && Depth(s) < n && col < n && IsValidMove(s, Depth(s), col)
    requires forall t :: t in rest ==> IsPartial(t, n)
    ensures IsPartial(s[Depth(s) := col], n)
    ensures SubSolsAll(n, [s[Depth(s) := col]] + rest)
            == Backtracking.Backtrack(n, s[..Depth(s)] + [col], Depth(s) + 1) + SubSolsAll(n, rest)
    ensures NodesAll(n, [s[Depth(s) := col]] + rest) == TreeSize(n, s[..Depth(s)] + [col]) + NodesAll(n, rest)
  {
    var t := s[Depth(s) := col];
    ChildPartial(n, s, col);
    SubSolsAllSingle(n, t);
    SubSolsAllAppend(n, [t], rest);
  }

  /** The boards `Expand` produces carry, in order, the solutions of the matching `for col` loop of backtracking. */
  lemma {:induction false} ExpandSols(n: nat, s: seq<int>, col: nat)
    requires IsPartial(s, n) && Depth(s) < n && col <= n
    requires forall t :: t in Expand(n, s, Depth(s), col) ==> IsPartial(t, n)
    ensures SubSolsAll(n, Expand(n, s, Depth(s), col)) == Backtracking.TryColumns(n, s[..Depth(s)], Depth(s), col)
    decreases n - col
  {
    if col < n {
      ExpandChildren(n, s, col + 1);
      ExpandSols(n, s, col + 1);
      ExpandSolsStep(n, s, col);
    } else {
      assert Expand(n, s, Depth(s), col) == [];
    }
  }

  /** One column of `ExpandSols`: column col adds in front what backtracking's column col adds. */
  lemma ExpandSolsStep(n: nat, s: seq<int>, col: nat)
    requires IsPartial(s, n) && Depth(s) < n && col < n
    requires forall t :: t in Expand(n, s, Depth(s), col) ==> IsPartial(t, n)
    requires forall t :: t in Expand(n, s, Depth(s), col + 1) ==> IsPartial(t, n)
    requires SubSolsAll(n, Expand(n, s, Depth(s), col + 1)) == Backtracking.TryColumns(n, s[..Depth(s)], Depth(s), col + 1)
    ensures SubSolsAll(n, Expand(n, s, Depth(s), col)) == Backtracking.TryColumns(n, s[..Depth(s)], Depth(s), col)
  {
    var d := Depth(s);
    var p := s[..d];
    var rest := Expand(n, s, d, col + 1);
    MoveReadsPlaced(n, s, col);
    var here := if IsValidMove(p, d, col) then Backtracking.Backtrack(n, p + [col], d + 1) else [];
    assert Backtracking.TryColumns(n, p, d, col) == here + Backtracking.TryColumns(n, p, d, col + 1);
    if IsValidMove(s, d, col) {
      assert Expand(n, s, d, col) == [s[d := col]] + rest;
      ExpandValidChild(n, s, col, rest);
    } else {
      assert Expand(n, s, d, col) == rest;
    }
  }

  /** The boards `Expand` produces account for every board the matching `for col` loop visits. */
  lemma {:induction false} ExpandNodes(n: nat, s: seq<int>, col: nat)
    requires IsPartial(s, n) && Depth(s) < n && col <= n
    requires forall t :: t in Expand(n, s, Depth(s), col) ==> IsPartial(t, n)
    ensures NodesAll(n, Expand(n, s, Depth(s), col)) == TreeSizeCols(n, s[..Depth(s)], col)
    decreases n - col
  {
    if col < n {
      ExpandChildren(n, s, col + 1);
      ExpandNodes(n, s, col + 1);
      ExpandNodesStep(n, s, col);
    } else {
      assert Expand(n, s, Depth(s), col) == [];
    }
  }

  /** One column of `ExpandNodes`: column col adds the subtree of its child when the move is valid. */
  lemma ExpandNodesStep(n: nat, s: seq<int>, col: nat)
    requires IsPartial(s, n) && Depth(s) < n && col < n
    requires forall t :: t in Expand(n, s, Depth(s), col) ==> IsPartial(t, n)
    requires forall t :: t in Expand(n, s, Depth(s), col + 1) ==> IsPartial(t, n)
    requires NodesAll(n, Expand(n, s, Depth(s), col + 1)) == TreeSizeCols(n, s[..Depth(s)], col + 1)
    ensures NodesAll(n, Expand(n, s, Depth(s), col)) == TreeSizeCols(n, s[..Depth(s)], col)
  {
    var d := Depth(s);
    var rest := Expand(n, s, d, col + 1);
    MoveReadsPlaced(n, s, col);
    if IsValidMove(s, d, col) {
      assert Expand(n, s, d, col) == [s[d := col]] + rest;
      ExpandValidChild(n, s, col, rest);
    } else {
      assert Expand(n, s, d, col) == rest;
    }
  }

  /**
   Expanding a frontier board that still has an empty row replaces it by boards one row
   deeper that hold, in order, exactly its solutions, and leaves one board fewer to visit.
   */
  lemma SuccessorsMatch(n: nat, s: seq<int>)
    requires IsPartial(s, n) && Depth(s) < n
    ensures Empty in s
    ensures forall t :: t in Successors(n, s) ==> IsPartial(t, n) && Depth(t) == Depth(s) + 1
    ensures SubSolsAll(n, Successors(n, s)) == SubSols(n, s)
    ensures NodesAll(n, Successors(n, s)) + 1 == Nodes(n, s)
  {
    PartialGoal(s, n);
    IndexOfEmpty(s);
    ExpandChildren(n, s, 0);
    ExpandSols(n, s, 0);
    ExpandNodes(n, s, 0);
  }
}
