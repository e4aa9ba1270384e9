/**
 methods/bfs_dfs.py: `BFSSolver.solve` and `DFSSolver.solve`. Both start from the board with
 no queen placed, take a board off the frontier (front of a queue, top of a stack), record
 it if it is a goal and otherwise push its successors. Neither pushes a board twice, so the
 frontier holds distinct boards of the backtracking tree: BFS records the solutions in the
 order backtracking does, DFS in exactly the reverse order.
 */
module BfsDfs {
  import opened Board
  import opened Lex
  import opened Solver
  import opened Frontier
  import Backtracking

  /** Both searches start from the empty board, whose solutions are all of backtracking's. */
  lemma StartFacts(n: nat)
    ensures forall x :: x in [EmptyBoard(n)] ==> IsPartial(x, n) && Depth(x) == 0
    ensures SubSolsAll(n, [EmptyBoard(n)]) == Backtracking.Backtrack(n, [], 0)
  {
    RootPartial(n);
    SubSolsAllSingle(n, EmptyBoard(n));
  }

  /**
   The BFS queue during the search: the boards of one level, a (with dA rows placed),
   followed by boards of the next level, b.
   */
  predicate Layered(n: nat, a: seq<seq<int>>, b: seq<seq<int>>, dA: nat)
  {
    (forall x :: x in a ==> IsPartial(x, n) && Depth(x) == dA)
    && (forall x :: x in b ==> IsPartial(x, n) && Depth(x) == dA + 1)
  }

  lemma PopFront(a: seq<seq<int>>, b: seq<seq<int>>)
    requires |a| > 0
    ensures (a + b)[0] == a[0] && (a + b)[1..] == a[1..] + b
    ensures forall x :: x in a[1..] ==> x in a
  {
  }

  /**
   A goal at the front of the queue is a fully placed board, so the next level is empty and
   recording the goal moves it from the solutions still below the queue to the recorded ones.
   */
  lemma BfsRecord(n: nat, a: seq<seq<int>>, b: seq<seq<int>>, dA: nat, solutions: seq<seq<int>>, all: seq<seq<int>>)
    requires |a| > 0 && Layered(n, a, b, dA) && IsGoalState(a[0])
    requires solutions + SubSolsAll(n, b) + SubSolsAll(n, a) == all
    ensures Layered(n, a[1..], b, dA)
    ensures (solutions + [a[0]]) + SubSolsAll(n, b) + SubSolsAll(n, a[1..]) == all
  {
    PopFront(a, b);
    var x := a[0];
    PartialGoal(x, n);
    assert forall y :: y !in b;
    NoMembersEmpty(b);
    CompleteBoard(n, x);
    assert SubSolsAll(n, a) == [x] + SubSolsAll(n, a[1..]);
    AppendNil(solutions + [x]);
    AppendNil(solutions);
    AppendAssoc(solutions, [x], SubSolsAll(n, a[1..]));
  }

  /**
   A board at the front of the queue that is not a goal has an empty row; appending its
   successors to the next level keeps the solutions still below the queue.
   */
  lemma BfsExpand(n: nat, a: seq<seq<int>>, b: seq<seq<int>>, dA: nat, solutions: seq<seq<int>>, all: seq<seq<int>>)
    requires |a| > 0 && Layered(n, a, b, dA) && !IsGoalState(a[0])
    requires solutions + SubSolsAll(n, b) + SubSolsAll(n, a) == all
    ensures Empty in a[0]
    ensures Layered(n, a[1..], b + Successors(n, a[0]), dA)
    ensures solutions + SubSolsAll(n, b + Successors(n, a[0])) + SubSolsAll(n, a[1..]) == all
  {
    PopFront(a, b);
    var x := a[0];
    PartialGoal(x, n);
    SuccessorsMatch(n, x);
    var next := Successors(n, x);
    SubSolsAllAppend(n, b, next);
    var sb, sx, sa := SubSolsAll(n, b), SubSols(n, x), SubSolsAll(n, a[1..]);
    assert SubSolsAll(n, a) == sx + sa;
    assert SubSolsAll(n, b + next) == sb + sx;
    AppendAssoc(solutions, sb, sx);
    AppendAssoc(solutions + sb, sx, sa);
  }

  lemma BfsExpandNodes(n: nat, a: seq<seq<int>>, b: seq<seq<int>>, dA: nat)
    requires |a| > 0 && Layered(n, a, b, dA) && !IsGoalState(a[0])
    ensures Empty in a[0]
    ensures forall x :: x in a[1..] + b + Successors(n, a[0]) ==> IsPartial(x, n)
    ensures NodesAll(n, a[1..]) + NodesAll(n, b + Successors(n, a[0])) < NodesAll(n, a) + NodesAll(n, b)
  {
    PopFront(a, b);
    PartialGoal(a[0], n);
    SuccessorsMatch(n, a[0]);
    SubSolsAllAppend(n, b, Successors(n, a[0]));
  }

  /**
   What the BFS loop keeps: the queue is a level a followed by part of the next level b,
   a is empty only when the whole queue is, and the recorded boards followed by the
   solutions below b and then below a are backtracking's solutions.
   */
  predicate BfsInv(n: nat, queue: seq<seq<int>>, a: seq<seq<int>>, b: seq<seq<int>>, dA: nat,
                   solutions: seq<seq<int>>, all: seq<seq<int>>)
  {
    queue == a + b && Layered(n, a, b, dA) && (|a| > 0 || |b| == 0)
    && solutions + SubSolsAll(n, b) + SubSolsAll(n, a) == all
  }

  /** Once the current level is used up, the next one takes its place. */
  lemma NextLevel(n: nat, queue: seq<seq<int>>, a: seq<seq<int>>, b: seq<seq<int>>, dA: nat,
                  solutions: seq<seq<int>>, all: seq<seq<int>>)
      returns (a2: seq<seq<int>>, b2: seq<seq<int>>, dA2: nat)
    requires queue == a + b && Layered(n, a, b, dA)
    requires solutions + SubSolsAll(n, b) + SubSolsAll(n, a) == all
    ensures BfsInv(n, queue, a2, b2, dA2, solutions, all)
    ensures NodesAll(n, a2) + NodesAll(n, b2) == NodesAll(n, a) + NodesAll(n, b)
  {
    if |a| == 0 {
      assert a == [];
      AppendNil(b);
      AppendNil(solutions);
      AppendNil(solutions + SubSolsAll(n, b));
      a2, b2, dA2 := b, a, dA + 1;
    } else {
      a2, b2, dA2 := a, b, dA;
    }
  }

  /** One turn of the BFS loop that records the goal at the front of the queue. */
  lemma BfsTurnRecord(n: nat, queue: seq<seq<int>>, a: seq<seq<int>>, b: seq<seq<int>>, dA: nat,
                      solutions: seq<seq<int>>, all: seq<seq<int>>)
      returns (a2: seq<seq<int>>, b2: seq<seq<int>>, dA2: nat)
    requires BfsInv(n, queue, a, b, dA, solutions, all) && |queue| > 0 && IsGoalState(queue[0])
    ensures BfsInv(n, queue[1..], a2, b2, dA2, solutions + [queue[0]], all)
    ensures NodesAll(n, a2) + NodesAll(n, b2) < NodesAll(n, a) + NodesAll(n, b)
  {
    PopFront(a, b);
    BfsRecord(n, a, b, dA, solutions, all);
    assert Nodes(n, a[0]) >= 1;
    a2, b2, dA2 := NextLevel(n, queue[1..], a[1..], b, dA, solutions + [queue[0]], all);
  }

  /** One turn of the BFS loop that expands the board at the front of the queue. */
  lemma BfsTurnExpand(n: nat, queue: seq<seq<int>>, a: seq<seq<int>>, b: seq<seq<int>>, dA: nat,
                      solutions: seq<seq<int>>, all: seq<seq<int>>)
      returns (a2: seq<seq<int>>, b2: seq<seq<int>>, dA2: nat)
    requires BfsInv(n, queue, a, b, dA, solutions, all) && |queue| > 0 && !IsGoalState(queue[0])
    ensures Empty in queue[0]
    ensures BfsInv(n, queue[1..] + Successors(n, queue[0]), a2, b2, dA2, solutions, all)
    ensures NodesAll(n, a2) + NodesAll(n, b2) < NodesAll(n, a) + NodesAll(n, b)
  {
    PopFront(a, b);
    BfsExpand(n, a, b, dA, solutions, all);
    BfsExpandNodes(n, a, b, dA);
    var next := Successors(n, a[0]);
    AppendAssoc(a[1..], b, next);
    a2, b2, dA2 := NextLevel(n, queue[1..] + next, a[1..], b + next, dA, solutions, all);
  }

  lemma BfsStart(n: nat) returns (a: seq<seq<int>>, b: seq<seq<int>>, dA: nat)
    ensures BfsInv(n, [EmptyBoard(n)], a, b, dA, [], Backtracking.Backtrack(n, [], 0))
  {
    StartFacts(n);
    a, b, dA := [EmptyBoard(n)], [], 0;
    assert [] + SubSolsAll(n, b) == [];
  }

  lemma BfsDone(n: nat, a: seq<seq<int>>, b: seq<seq<int>>, dA: nat, solutions: seq<seq<int>>, all: seq<seq<int>>)
    requires BfsInv(n, [], a, b, dA, solutions, all)
    ensures solutions == all
  {
    assert a == [] && b == [];
    AppendNil(solutions);
  }

  /**
   `BFSSolver.solve`: the recorded boards are backtracking's solutions in backtracking's
   order, hence exactly the solutions of the n-queens problem, in increasing order.
   */
  method BfsSolve(n: nat) returns (solutions: seq<seq<int>>, metric: Metric)
    ensures solutions == Backtracking.Solve(n).0
    ensures forall b :: b in solutions <==> IsSolution(b, n)
    ensures Sorted(solutions)
    ensures metric == Metric("BFS", |solutions|, None)
  {
    var queue := [EmptyBoard(n)];
    solutions := [];
    var found := 0;
    ghost var all := Backtracking.Backtrack(n, [], 0);
    ghost var a, b, dA := BfsStart(n);
    while |queue| > 0
      invariant BfsInv(n, queue, a, b, dA, solutions, all)
      invariant found == |solutions|
      decreases NodesAll(n, a) + NodesAll(n, b)
    {
      var state := queue[0];
      if IsGoalState(state) {
        a, b, dA := BfsTurnRecord(n, queue, a, b, dA, solutions, all);
        queue := queue[1..];
        solutions := solutions + [state];
        found := found + 1;
        continue;
      }
      a, b, dA := BfsTurnExpand(n, queue, a, b, dA, solutions, all);
      queue := queue[1..];
      queue := queue + Successors(n, state);
    }
    BfsDone(n, a, b, dA, solutions, all);
    metric := Metric("BFS", found, None);
  }

  /**
   One turn of the DFS loop: popping the top board and either recording it (a goal) or
   pushing its successors keeps the recorded boards followed by the solutions still below
   the stack, read from the top down, equal to a fixed list, and shrinks the tree left to visit.
   */
  lemma DfsStep(n: nat, stack: seq<seq<int>>, solutions: seq<seq<int>>, all: seq<seq<int>>)
    requires |stack| > 0
    requires forall x :: x in stack ==> IsPartial(x, n)
    requires solutions + Reverse(SubSolsAll(n, stack)) == all
    ensures IsPartial(stack[|stack| - 1], n)
    ensures IsGoalState(stack[|stack| - 1]) ==>
              var rest := stack[..|stack| - 1];
              (forall x :: x in rest ==> IsPartial(x, n))
              && (solutions + [stack[|stack| - 1]]) + Reverse(SubSolsAll(n, rest)) == all
              && NodesAll(n, rest) < NodesAll(n, stack)
    ensures !IsGoalState(stack[|stack| - 1]) ==>
              Empty in stack[|stack| - 1]
              && var next := stack[..|stack| - 1] + Successors(n, stack[|stack| - 1]);
              (forall x :: x in next ==> IsPartial(x, n))
              && solutions + Reverse(SubSolsAll(n, next)) == all
              && NodesAll(n, next) < NodesAll(n, stack)
  {
    var state := stack[|stack| - 1];
    var below := stack[..|stack| - 1];
    PopLast(n, stack);
    ReverseAppend(SubSolsAll(n, below), SubSols(n, state));
    PartialGoal(state, n);
    if IsGoalState(state) {
      CompleteBoard(n, state);
      assert Reverse([state]) == [state];
      assert Reverse(SubSolsAll(n, stack)) == [state] + Reverse(SubSolsAll(n, below));
    } else {
      SuccessorsMatch(n, state);
      var next := Successors(n, state);
      SubSolsAllAppend(n, below, next);
      ReverseAppend(SubSolsAll(n, below), SubSolsAll(n, next));
    }
  }

  /**
   `DFSSolver.solve`: the recorded boards are backtracking's solutions in reverse order,
   hence exactly the solutions of the n-queens problem, in decreasing order.
   */
  method DfsSolve(n: nat) returns (solutions: seq<seq<int>>, metric: Metric)
    ensures solutions == Reverse(Backtracking.Solve(n).0)
    ensures forall b :: b in solutions <==> IsSolution(b, n)
    ensures SortedDesc(solutions)
    ensures metric == Metric("DFS", |solutions|, None)
  {
    var stack := [EmptyBoard(n)];
    solutions := [];
    var found := 0;
    ghost var all := Reverse(Backtracking.Backtrack(n, [], 0));
    StartFacts(n);
    assert [] + Reverse(SubSolsAll(n, stack)) == all;
    while |stack| > 0
      invariant forall x :: x in stack ==> IsPartial(x, n)
      invariant solutions + Reverse(SubSolsAll(n, stack)) == all
      invariant found == |solutions|
      decreases NodesAll(n, stack)
    {
      DfsStep(n, stack, solutions, all);
      var state := stack[|stack| - 1];
      stack := stack[..|stack| - 1];
      if IsGoalState(state) {
        solutions := solutions + [state];
        found := found + 1;
        continue;
      }
      stack := stack + Successors(n, state);
    }
    assert Reverse<seq<int>>([]) == [] && solutions + [] == solutions;
    ReverseSorted(Backtracking.Solve(n).0);
    ReverseMembers(Backtracking.Solve(n).0);
    metric := Metric("DFS", found, None);
  }
}
