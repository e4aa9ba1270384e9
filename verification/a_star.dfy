/**
 methods/a_star.py: `AStarSolver.solve`. The open list is a priority queue of `(f_cost,
 state)` entries, popped least first under Python's tuple order; `g_cost` maps every board
 ever pushed to its cost. A goal popped from the queue is recorded; any other board pushes
 each successor whose cost is new or lower, with `f = g + heuristic`.

 A frontier board has exactly one parent (the board with its last placed row emptied), and
 that parent is expanded only once, so no successor is ever already in `g_cost`: the
 "lower cost" branch never revises an entry, every board is pushed once, and `g_cost` ends
 holding one entry per node of the backtracking tree, each mapped to its number of placed
 rows. The recorded solutions are backtracking's, each once, in the order of the pops.
 */
module AStar {
  import opened Board
  import opened Lex
  import opened Solver
  import opened Frontier
  import Backtracking

  /** A heap entry `(f_cost, state)`. */
  datatype Entry = Entry(f: int, state: seq<int>)

  /** Python's order on the tuple `(f_cost, state)`: the cost first, then the state lists. */
  predicate EntryLess(a: Entry, b: Entry)
  {
    a.f < b.f || (a.f == b.f && Less(a.state, b.state))
  }

  lemma EntryAsymmetric(a: Entry, b: Entry)
    ensures EntryLess(a, b) ==> !EntryLess(b, a)
  {
    Asymmetric(a.state, b.state);
  }

  lemma EntryTransitive(a: Entry, b: Entry, c: Entry)
    requires EntryLess(a, b) && EntryLess(b, c)
    ensures EntryLess(a, c)
  {
    if a.f == b.f == c.f {
      Transitive(a.state, b.state, c.state);
    }
  }

  lemma EntryTotal(a: Entry, b: Entry)
    ensures a == b || EntryLess(a, b) || EntryLess(b, a)
  {
    Total(a.state, b.state);
  }

  /** The position of a least entry of a non-empty open list (see `MinIndexLeast`). */
  function MinIndex(xs: seq<Entry>): (m: nat)
    requires |xs| > 0
    ensures m < |xs|
    decreases |xs|
  {
    if |xs| == 1 then 0
    else
      var k := 1 + MinIndex(xs[1..]);
      if EntryLess(xs[k], xs[0]) then k else 0
  }

  /** No entry of the list is less than the one at `MinIndex`. */
  lemma {:induction false} MinIndexLeast(xs: seq<Entry>)
    requires |xs| > 0
    ensures forall j :: 0 <= j < |xs| ==> !EntryLess(xs[j], xs[MinIndex(xs)])
    decreases |xs|
  {
    if |xs| == 1 {
      EntryAsymmetric(xs[0], xs[0]);
    } else {
      MinIndexLeast(xs[1..]);
      var k := 1 + MinIndex(xs[1..]);
      assert forall j :: 1 <= j < |xs| ==> xs[j] == xs[1..][j - 1];
      MinStep(xs, k);
    }
  }

  lemma MinStep(xs: seq<Entry>, k: nat)
    requires 0 < k < |xs|
    requires forall j :: 1 <= j < |xs| ==> !EntryLess(xs[j], xs[k])
    ensures EntryLess(xs[k], xs[0]) ==> forall j :: 0 <= j < |xs| ==> !EntryLess(xs[j], xs[k])
    ensures !EntryLess(xs[k], xs[0]) ==> forall j :: 0 <= j < |xs| ==> !EntryLess(xs[j], xs[0])
  {
    EntryAsymmetric(xs[k], xs[0]);
    if !EntryLess(xs[k], xs[0]) {
      forall j | 0 <= j < |xs|
        ensures !EntryLess(xs[j], xs[0])
      {
        EntryAsymmetric(xs[0], xs[0]);
        if j > 0 && EntryLess(xs[j], xs[0]) {
          EntryTotal(xs[j], xs[k]);
          if xs[j] != xs[k] {
            EntryTransitive(xs[k], xs[j], xs[0]);
          }
        }
      }
    }
  }

  /**
   `heapq.heappop`: takes one least entry off the open list. The heap's array layout is not
   modelled; the open list is the multiset of entries it holds.
   */
  function HeapPop(xs: seq<Entry>): (r: (Entry, seq<Entry>))
    requires |xs| > 0
  {
    var m := MinIndex(xs);
    (xs[m], xs[..m] + xs[m + 1..])
  }

  /** The popped entry is one of the list's, no entry is less than it, and nothing else is lost. */
  lemma HeapPopLeast(xs: seq<Entry>)
    requires |xs| > 0
    ensures HeapPop(xs).0 in xs
    ensures forall e :: e in xs ==> !EntryLess(e, HeapPop(xs).0)
    ensures multiset(HeapPop(xs).1) + multiset{HeapPop(xs).0} == multiset(xs)
  {
    var m := MinIndex(xs);
    MinIndexLeast(xs);
    assert xs == xs[..m] + [xs[m]] + xs[m + 1..];
  }

  /** The boards on an open list. */
  function States(xs: seq<Entry>): (r: seq<seq<int>>)
    ensures |r| == |xs| && forall i :: 0 <= i < |xs| ==> r[i] == xs[i].state
  {
    seq(|xs|, i requires 0 <= i < |xs| => xs[i].state)
  }

  /** `g_cost` as a Dafny map from boards to costs. */
  type Costs = map<seq<int>, nat>

  /**
   The inner `for next_state` loop: each successor t gets cost `g_cost[state] + 1`; when t is
   new or that cost is lower, it is stored and `(g + heuristic(t), t)` is pushed.
   */
  function PushChildren(n: nat, g: Costs, open: seq<Entry>, s: seq<int>, ts: seq<seq<int>>): (r: (Costs, seq<Entry>))
    requires s in g
    requires forall t :: t in ts ==> n <= |t|
    ensures s in r.0 && forall k :: k in g ==> k in r.0
    decreases |ts|
  {
    if |ts| == 0 then (g, open)
    else
      var t := ts[0];
      var gNew := g[s] + 1;
      var fCost := gNew + ComputeReward(t, n);
      if t !in g || gNew < g[t] then PushChildren(n, g[t := gNew], open + [Entry(fCost, t)], s, ts[1..])
      else PushChildren(n, g, open, s, ts[1..])
  }

  /** The entries pushed for fresh boards ts, all at cost gNew. */
  function Pushed(n: nat, gNew: nat, ts: seq<seq<int>>): (r: seq<Entry>)
    requires forall t :: t in ts ==> n <= |t|
    ensures |r| == |ts|
    decreases |ts|
  {
    if |ts| == 0 then [] else [Entry(gNew + ComputeReward(ts[0], n), ts[0])] + Pushed(n, gNew, ts[1..])
  }

  lemma PushedCons(n: nat, gNew: nat, ts: seq<seq<int>>)
    requires |ts| > 0 && forall t :: t in ts ==> n <= |t|
    ensures Pushed(n, gNew, ts) == [Entry(gNew + ComputeReward(ts[0], n), ts[0])] + Pushed(n, gNew, ts[1..])
  {
  }

  /** Entry i of `Pushed` is successor i at its cost plus its heuristic. */
  lemma {:induction false} PushedEntries(n: nat, gNew: nat, ts: seq<seq<int>>)
    requires forall t :: t in ts ==> n <= |t|
    ensures forall i :: 0 <= i < |ts| ==> Pushed(n, gNew, ts)[i] == Entry(gNew + ComputeReward(ts[i], n), ts[i])
    decreases |ts|
  {
    if |ts| > 0 {
      var tail := ts[1..];
      assert forall t :: t in tail ==> t in ts;
      PushedEntries(n, gNew, tail);
      var r := Pushed(n, gNew, ts);
      assert r == [Entry(gNew + ComputeReward(ts[0], n), ts[0])] + Pushed(n, gNew, tail);
      forall i | 0 < i < |ts|
        ensures r[i] == Entry(gNew + ComputeReward(ts[i], n), ts[i])
      {
        assert r[i] == Pushed(n, gNew, tail)[i - 1] && tail[i - 1] == ts[i];
      }
    }
  }

  /** Removing position m keeps only members of the original list. */
  lemma SpliceMembers<T>(xs: seq<T>, m: nat)
    requires m < |xs|
    ensures forall x :: x in xs[..m] + xs[m + 1..] ==> x in xs
  {
    assert xs == xs[..m] + [xs[m]] + xs[m + 1..];
  }

  lemma StatesSplice(xs: seq<Entry>, m: nat)
    requires m < |xs|
    ensures States(xs[..m] + xs[m + 1..]) == States(xs)[..m] + States(xs)[m + 1..]
  {
  }

  lemma StatesAppend(a: seq<Entry>, b: seq<Entry>)
    ensures States(a + b) == States(a) + States(b)
  {
  }

  lemma PushedStates(n: nat, gNew: nat, ts: seq<seq<int>>)
    requires forall t :: t in ts ==> n <= |t|
    ensures States(Pushed(n, gNew, ts)) == ts
  {
    PushedEntries(n, gNew, ts);
  }

  predicate DistinctBoards(xs: seq<seq<int>>)
  {
    forall i, j :: 0 <= i < j < |xs| ==> xs[i] != xs[j]
  }

  /** The shape of `g_cost` after the pushes. */
  ghost predicate Extended(g: Costs, s: seq<int>, ts: seq<seq<int>>, g2: Costs)
    requires s in g
  {
    (forall k :: k in g2 <==> k in g || k in ts)
    && (forall k :: k in g2 ==> g2[k] == if k in ts then g[s] + 1 else g[k])
    && |g2| == |g| + |ts|
  }

  /** The conditions under which every successor is pushed: fresh, distinct, not the expanded board. */
  predicate FreshChildren(n: nat, g: Costs, s: seq<int>, ts: seq<seq<int>>)
  {
    s in g && s !in ts && DistinctBoards(ts) && forall t :: t in ts ==> n <= |t| && t !in g
  }

  /** After storing the first successor, the others are still fresh. */
  lemma FreshTail(n: nat, g: Costs, s: seq<int>, ts: seq<seq<int>>)
    requires |ts| > 0 && FreshChildren(n, g, s, ts)
    ensures FreshChildren(n, g[ts[0] := g[s] + 1], s, ts[1..])
  {
    var tail := ts[1..];
    var g1 := g[ts[0] := g[s] + 1];
    forall u | u in tail
      ensures u in ts && u != ts[0] && n <= |u| && u !in g1
    {
      var j :| 0 <= j < |tail| && tail[j] == u;
      assert ts[j + 1] == u;
    }
    forall i, j | 0 <= i < j < |tail|
      ensures tail[i] != tail[j]
    {
      assert tail[i] == ts[i + 1] && tail[j] == ts[j + 1];
    }
  }

  /** One turn of the loop on a fresh successor: it is stored and pushed, and the rest stay fresh. */
  lemma PushFirst(n: nat, g: Costs, open: seq<Entry>, s: seq<int>, ts: seq<seq<int>>) returns (g1: Costs, e: Entry)
    requires |ts| > 0 && FreshChildren(n, g, s, ts)
    ensures g1 == g[ts[0] := g[s] + 1] && FreshChildren(n, g1, s, ts[1..]) && g1[s] == g[s]
    ensures PushChildren(n, g, open, s, ts) == PushChildren(n, g1, open + [e], s, ts[1..])
    ensures Pushed(n, g[s] + 1, ts) == [e] + Pushed(n, g[s] + 1, ts[1..])
  {
    var t := ts[0];
    g1 := g[t := g[s] + 1];
    e := Entry(g[s] + 1 + ComputeReward(t, n), t);
    assert t in ts;
    FreshTail(n, g, s, ts);
    PushedCons(n, g[s] + 1, ts);
  }

  /**
   When the successors are distinct, none of them is already in `g_cost` and none is the
   expanded board, the loop pushes each once, in order, at `f = g_cost[state] + 1 + heuristic`.
   */
  lemma {:induction false} PushFreshOpen(n: nat, g: Costs, open: seq<Entry>, s: seq<int>, ts: seq<seq<int>>)
    requires FreshChildren(n, g, s, ts)
    ensures PushChildren(n, g, open, s, ts).1 == open + Pushed(n, g[s] + 1, ts)
    decreases |ts|
  {
    if |ts| > 0 {
      var g1, e := PushFirst(n, g, open, s, ts);
      PushFreshOpen(n, g1, open + [e], s, ts[1..]);
      AppendAssoc(open, [e], Pushed(n, g[s] + 1, ts[1..]));
    } else {
      assert PushChildren(n, g, open, s, ts) == (g, open) && Pushed(n, g[s] + 1, ts) == [];
      AppendNil(open);
    }
  }

  /**
   Under the same conditions the loop stores each successor at cost `g_cost[state] + 1` and
   leaves every other entry of `g_cost` as it was.
   */
  lemma {:induction false} PushFreshCosts(n: nat, g: Costs, open: seq<Entry>, s: seq<int>, ts: seq<seq<int>>)
    requires FreshChildren(n, g, s, ts)
    ensures Extended(g, s, ts, PushChildren(n, g, open, s, ts).0)
    decreases |ts|
  {
    if |ts| > 0 {
      var g1, e := PushFirst(n, g, open, s, ts);
      PushFreshCosts(n, g1, open + [e], s, ts[1..]);
      forall k
        ensures k in ts <==> k == ts[0] || k in ts[1..]
      {
        assert ts == [ts[0]] + ts[1..];
      }
    }
  }

  /** The board a frontier board was pushed from: its last placed row emptied again. */
  function Parent(k: seq<int>): (r: seq<int>)
    requires 0 < Depth(k)
    ensures |r| == |k| && Depth(r) == Depth(k) - 1
  {
    var d := Depth(k) - 1;
    var r := k[d := Empty];
    DepthIs(r, d);
    r
  }

  /** Every successor of a frontier board has that board as its parent. */
  lemma ChildParent(n: nat, s: seq<int>, t: seq<int>)
    requires IsPartial(s, n) && Depth(s) < n
    requires t in Successors(n, s)
    ensures IsPartial(t, n) && Depth(t) == Depth(s) + 1 && Parent(t) == s
  {
    var d := Depth(s);
    PartialGoal(s, n);
    IndexOfEmpty(s);
    SuccessorsShape(n, s);
    var c := t[d];
    assert t == s[d := c];
    ChildPartial(n, s, c);
    FillThenEmpty(s, d, c);
  }

  lemma FillThenEmpty(s: seq<int>, d: nat, c: int)
    requires d < |s| && s[d] == Empty && c != Empty
    requires forall i :: 0 <= i < d ==> s[i] != Empty
    ensures Depth(s[d := c]) == d + 1 ==> Parent(s[d := c]) == s
  {
  }

  /** The successors of a board are distinct: each fills the empty row with a different column. */
  lemma SuccessorsDistinct(n: nat, s: seq<int>)
    requires Empty in s
    ensures DistinctBoards(Successors(n, s))
  {
    SuccessorsShape(n, s);
  }

  /** The heuristic of every entry on the open list: placed rows plus `compute_reward`. */
  predicate CostsRight(n: nat, open: seq<Entry>)
  {
    forall e :: e in open ==> n <= |e.state| && e.f == Depth(e.state) + ComputeReward(e.state, n)
  }

  /** The open boards are distinct frontier boards, each keyed in `g_cost`. */
  predicate OpenKeyed(n: nat, xs: seq<seq<int>>, g: Costs)
  {
    (forall x :: x in xs ==> IsPartial(x, n) && x in g) && DistinctBoards(xs)
  }

  /** Every key of `g_cost` is a frontier board mapped to its number of placed rows. */
  predicate CostsAreDepths(n: nat, g: Costs)
  {
    forall k :: k in g ==> IsPartial(k, n) && g[k] == Depth(k)
  }

  /** The parent of every key is a key that has already left the open list (it was expanded). */
  predicate ParentsExpanded(g: Costs, xs: seq<seq<int>>)
  {
    forall k :: k in g && 0 < Depth(k) ==> Parent(k) in g && Parent(k) !in xs
  }

  /** The recorded solutions and those still below the open boards are backtracking's, as a multiset. */
  predicate SolutionsKept(n: nat, solutions: seq<seq<int>>, xs: seq<seq<int>>)
  {
    (forall x :: x in xs ==> IsPartial(x, n))
    && multiset(solutions) + multiset(SubSolsAll(n, xs)) == multiset(Backtracking.Backtrack(n, [], 0))
  }

  /** The keys of `g_cost` and the boards still to be pushed below the open ones count the whole tree. */
  predicate NodesKept(n: nat, g: Costs, xs: seq<seq<int>>)
  {
    (forall x :: x in xs ==> IsPartial(x, n))
    && |g| + NodesAll(n, xs) == TreeSize(n, []) + |xs|
  }

  /** The loop invariant of `solve`. */
  predicate AStarInv(n: nat, open: seq<Entry>, g: Costs, solutions: seq<seq<int>>)
  {
    OpenKeyed(n, States(open), g) && CostsRight(n, open) && CostsAreDepths(n, g)
    && ParentsExpanded(g, States(open)) && SolutionsKept(n, solutions, States(open))
    && NodesKept(n, g, States(open))
  }

  /** Removing the board at position m from a frontier splits its solutions at that board. */
  lemma RemoveAtSols(n: nat, xs: seq<seq<int>>, m: nat)
    requires m < |xs|
    requires forall x :: x in xs ==> IsPartial(x, n)
    ensures forall x :: x in xs[..m] + xs[m + 1..] ==> x in xs
    ensures multiset(SubSolsAll(n, xs)) == multiset(SubSolsAll(n, xs[..m] + xs[m + 1..])) + multiset(SubSols(n, xs[m]))
  {
    var a, x, b := xs[..m], xs[m], xs[m + 1..];
    assert xs == a + [x] + b;
    SubSolsAllAppend(n, a + [x], b);
    SubSolsAllAppend(n, a, [x]);
    SubSolsAllAppend(n, a, b);
    SubSolsAllSingle(n, x);
  }

  /** Removing the board at position m from a frontier splits its tree at that board. */
  lemma RemoveAtNodes(n: nat, xs: seq<seq<int>>, m: nat)
    requires m < |xs|
    requires forall x :: x in xs ==> IsPartial(x, n)
    ensures forall x :: x in xs[..m] + xs[m + 1..] ==> x in xs
    ensures NodesAll(n, xs) == NodesAll(n, xs[..m] + xs[m + 1..]) + Nodes(n, xs[m])
  {
    var a, x, b := xs[..m], xs[m], xs[m + 1..];
    assert xs == a + [x] + b;
    SubSolsAllAppend(n, a + [x], b);
    SubSolsAllAppend(n, a, [x]);
    SubSolsAllAppend(n, a, b);
    SubSolsAllSingle(n, x);
  }

  /** Removing position m from a list of distinct boards leaves distinct boards, without xs[m]. */
  lemma DistinctSplice(xs: seq<seq<int>>, m: nat)
    requires m < |xs| && DistinctBoards(xs)
    ensures DistinctBoards(xs[..m] + xs[m + 1..]) && xs[m] !in xs[..m] + xs[m + 1..]
  {
    var ys := xs[..m] + xs[m + 1..];
    forall i | 0 <= i < |ys|
      ensures ys[i] == xs[if i < m then i else i + 1]
    {
    }
  }

  lemma DistinctAppend(a: seq<seq<int>>, b: seq<seq<int>>)
    requires DistinctBoards(a) && DistinctBoards(b)
    requires forall x :: x in a ==> x !in b
    ensures DistinctBoards(a + b)
  {
    var c := a + b;
    forall i, j | 0 <= i < j < |c|
      ensures c[i] != c[j]
    {
      if i < |a| && j >= |a| {
        assert c[i] in a && c[j] == b[j - |a|];
      } else if i >= |a| {
        assert c[i] == b[i - |a|] && c[j] == b[j - |a|];
      }
    }
  }

  /** Popping removes the board at `MinIndex`. */
  lemma PopSplice(open: seq<Entry>)
    requires |open| > 0
    ensures var m := MinIndex(open);
            States(HeapPop(open).1) == States(open)[..m] + States(open)[m + 1..]
  {
    var m := MinIndex(open);
    StatesSplice(open, m);
  }

  lemma PopSplice2(open: seq<Entry>)
    requires |open| > 0
    ensures var m := MinIndex(open);
            HeapPop(open).0.state == States(open)[m]
  {
  }

  lemma PopSplice3(open: seq<Entry>)
    requires |open| > 0
    ensures (forall e :: e in HeapPop(open).1 ==> e in open)
  {
    var m := MinIndex(open);
    SpliceMembers(open, m);
  }

  /**
   Popping from the open list: the popped board is the one at `MinIndex`, and the rest of the
   list keeps the open boards' properties without it.
   */
  lemma PopFacts(n: nat, open: seq<Entry>, g: Costs) returns (m: nat, xs: seq<seq<int>>, rest: seq<Entry>)
    requires |open| > 0 && OpenKeyed(n, States(open), g) && CostsRight(n, open)
    ensures m == MinIndex(open) && xs == States(open) && rest == HeapPop(open).1 && m < |xs|
    ensures States(rest) == xs[..m] + xs[m + 1..] && HeapPop(open).0.state == xs[m]
    ensures IsPartial(xs[m], n) && xs[m] in g
    ensures OpenKeyed(n, States(rest), g) && CostsRight(n, rest) && xs[m] !in States(rest)
    ensures forall x :: x in States(rest) ==> x in xs
  {
    m := MinIndex(open);
    xs := States(open);
    rest := HeapPop(open).1;
    PopSplice(open);
    PopSplice2(open);
    PopKeyed(n, xs, m, g);
    PopCosts(n, open);
  }

  /** Taking out the board at position m keeps the other open boards distinct and keyed. */
  lemma PopKeyed(n: nat, xs: seq<seq<int>>, m: nat, g: Costs)
    requires m < |xs| && OpenKeyed(n, xs, g)
    ensures IsPartial(xs[m], n) && xs[m] in g
    ensures OpenKeyed(n, xs[..m] + xs[m + 1..], g) && xs[m] !in xs[..m] + xs[m + 1..]
    ensures forall x :: x in xs[..m] + xs[m + 1..] ==> x in xs
  {
    assert xs[m] in xs;
    SpliceMembers(xs, m);
    DistinctSplice(xs, m);
  }

  lemma PopCosts(n: nat, open: seq<Entry>)
    requires |open| > 0 && CostsRight(n, open)
    ensures CostsRight(n, HeapPop(open).1)
  {
    PopSplice3(open);
  }

  /** Dropping open boards keeps every parent of a key away from the open list. */
  lemma ParentsShrink(g: Costs, xs: seq<seq<int>>, ys: seq<seq<int>>)
    requires ParentsExpanded(g, xs)
    requires forall y :: y in ys ==> y in xs
    ensures ParentsExpanded(g, ys)
  {
  }

  /** A goal on the frontier is a leaf of the tree and its own only solution. */
  lemma GoalLeaf(n: nat, s: seq<int>)
    requires IsPartial(s, n) && IsGoalState(s)
    ensures SubSols(n, s) == [s] && Nodes(n, s) == 1
  {
    PartialGoal(s, n);
    CompleteBoard(n, s);
  }

  /** Recording a goal taken from position m moves its one solution to the recorded ones. */
  lemma RecordSols(n: nat, xs: seq<seq<int>>, m: nat, solutions: seq<seq<int>>)
    requires m < |xs| && SolutionsKept(n, solutions, xs) && SubSols(n, xs[m]) == [xs[m]]
    ensures SolutionsKept(n, solutions + [xs[m]], xs[..m] + xs[m + 1..])
  {
    var ys := xs[..m] + xs[m + 1..];
    var sols := SubSolsAll(n, ys);
    RemoveAtSols(n, xs, m);
    RecordCount(solutions, xs[m], sols, SubSolsAll(n, xs), Backtracking.Backtrack(n, [], 0));
  }

  lemma RecordCount<T>(a: seq<T>, x: T, b: seq<T>, c: seq<T>, total: seq<T>)
    requires multiset(a) + multiset(c) == multiset(total) && multiset(c) == multiset(b) + multiset([x])
    ensures multiset(a + [x]) + multiset(b) == multiset(total)
  {
  }

  lemma RecordNodes(n: nat, g: Costs, xs: seq<seq<int>>, m: nat)
    requires m < |xs| && NodesKept(n, g, xs) && Nodes(n, xs[m]) == 1
    ensures NodesKept(n, g, xs[..m] + xs[m + 1..])
    ensures NodesAll(n, xs[..m] + xs[m + 1..]) < NodesAll(n, xs)
  {
    RemoveAtNodes(n, xs, m);
  }

  /** Recording a goal popped from the open list keeps the invariant and shrinks the tree left. */
  lemma AStarTurnRecord(n: nat, open: seq<Entry>, g: Costs, solutions: seq<seq<int>>)
    requires |open| > 0 && AStarInv(n, open, g, solutions)
    requires IsGoalState(HeapPop(open).0.state)
    ensures AStarInv(n, HeapPop(open).1, g, solutions + [HeapPop(open).0.state])
    ensures NodesAll(n, States(HeapPop(open).1)) < NodesAll(n, States(open))
  {
    var m, xs, rest := PopFacts(n, open, g);
    ParentsShrink(g, xs, States(rest));
    GoalLeaf(n, xs[m]);
    RecordSols(n, xs, m, solutions);
    RecordNodes(n, g, xs, m);
  }

  /**
   The successors of an open board: frontier boards one row deeper whose parent is that
   board, so none of them is a key yet, and none is the board itself.
   */
  lemma ChildrenFresh(n: nat, g: Costs, xs: seq<seq<int>>, s: seq<int>)
    requires IsPartial(s, n) && Depth(s) < n && s in xs && ParentsExpanded(g, xs)
    ensures Empty in s
    ensures forall t :: t in Successors(n, s) ==>
              IsPartial(t, n) && Depth(t) == Depth(s) + 1 && Parent(t) == s && t !in g
    ensures s !in Successors(n, s) && DistinctBoards(Successors(n, s))
  {
    PartialGoal(s, n);
    SuccessorsDistinct(n, s);
    forall t | t in Successors(n, s)
      ensures IsPartial(t, n) && Depth(t) == Depth(s) + 1 && Parent(t) == s && t !in g
    {
      ChildParent(n, s, t);
    }
  }

  /** The facts about the successors that the expansion lemmas share. */
  predicate Children(n: nat, g: Costs, s: seq<int>, ts: seq<seq<int>>)
  {
    IsPartial(s, n) && Depth(s) < n && s in g && s !in ts && DistinctBoards(ts)
    && forall t :: t in ts ==> IsPartial(t, n) && Depth(t) == Depth(s) + 1 && Parent(t) == s && t !in g
  }

  lemma ExpandKeyed(n: nat, g: Costs, ys: seq<seq<int>>, s: seq<int>, ts: seq<seq<int>>, g2: Costs)
    requires OpenKeyed(n, ys, g) && Children(n, g, s, ts) && Extended(g, s, ts, g2)
    ensures OpenKeyed(n, ys + ts, g2)
  {
    DistinctAppend(ys, ts);
  }

  lemma ExpandDepths(n: nat, g: Costs, s: seq<int>, ts: seq<seq<int>>, g2: Costs)
    requires CostsAreDepths(n, g) && Children(n, g, s, ts) && Extended(g, s, ts, g2)
    ensures CostsAreDepths(n, g2)
  {
  }

  lemma ExpandParents(n: nat, g: Costs, ys: seq<seq<int>>, s: seq<int>, ts: seq<seq<int>>, g2: Costs)
    requires ParentsExpanded(g, ys) && s !in ys && Children(n, g, s, ts) && Extended(g, s, ts, g2)
    ensures ParentsExpanded(g2, ys + ts)
  {
    forall k | k in g2 && 0 < Depth(k)
      ensures Parent(k) in g2 && Parent(k) !in ys + ts
    {
      if k in ts {
        assert Parent(k) == s;
      } else {
        assert Parent(k) in g;
      }
    }
  }

  /** Entries pushed at one cost that is the depth of every board carry the right priorities. */
  lemma PushedCostsRight(n: nat, gNew: nat, ts: seq<seq<int>>)
    requires forall t :: t in ts ==> n <= |t| && Depth(t) == gNew
    ensures CostsRight(n, Pushed(n, gNew, ts))
  {
    PushedEntries(n, gNew, ts);
    var r := Pushed(n, gNew, ts);
    forall e | e in r
      ensures n <= |e.state| && e.f == Depth(e.state) + ComputeReward(e.state, n)
    {
      var i :| 0 <= i < |r| && r[i] == e;
      assert e.state == ts[i] && ts[i] in ts;
    }
  }

  lemma CostsRightAppend(n: nat, a: seq<Entry>, b: seq<Entry>)
    requires CostsRight(n, a) && CostsRight(n, b)
    ensures CostsRight(n, a + b)
  {
  }

  lemma ExpandCostsRight(n: nat, g: Costs, rest: seq<Entry>, s: seq<int>, ts: seq<seq<int>>)
    requires CostsRight(n, rest) && Children(n, g, s, ts) && CostsAreDepths(n, g)
    ensures CostsRight(n, rest + Pushed(n, g[s] + 1, ts))
  {
    assert g[s] == Depth(s);
    forall t | t in ts
      ensures n <= |t| && Depth(t) == g[s] + 1
    {
      assert IsPartial(t, n);
    }
    PushedCostsRight(n, g[s] + 1, ts);
    CostsRightAppend(n, rest, Pushed(n, g[s] + 1, ts));
  }

  /** Expanding the board at position m hands its solutions to its successors. */
  lemma ExpandSolutions(n: nat, xs: seq<seq<int>>, m: nat, solutions: seq<seq<int>>)
    requires m < |xs| && SolutionsKept(n, solutions, xs)
    requires Depth(xs[m]) < n && Empty in xs[m]
    ensures SolutionsKept(n, solutions, xs[..m] + xs[m + 1..] + Successors(n, xs[m]))
  {
    var s := xs[m];
    var ys := xs[..m] + xs[m + 1..];
    var ts := Successors(n, s);
    SuccessorsMatch(n, s);
    RemoveAtSols(n, xs, m);
    SubSolsAllAppend(n, ys, ts);
    ReplaceCount(solutions, SubSolsAll(n, ys), SubSols(n, s), SubSolsAll(n, xs), SubSolsAll(n, ys + ts),
                 Backtracking.Backtrack(n, [], 0));
  }

  /** Trading a part of a multiset sum for something with the same elements keeps the sum. */
  lemma ReplaceCount<T>(a: seq<T>, b: seq<T>, c: seq<T>, whole: seq<T>, swapped: seq<T>, total: seq<T>)
    requires multiset(a) + multiset(whole) == multiset(total)
    requires multiset(whole) == multiset(b) + multiset(c) && swapped == b + c
    ensures multiset(a) + multiset(swapped) == multiset(total)
  {
  }

  /** Expanding the board at position m: each successor becomes a key and an open board. */
  lemma ExpandNodesKept(n: nat, g: Costs, xs: seq<seq<int>>, m: nat, g2: Costs)
    requires m < |xs| && NodesKept(n, g, xs)
    requires Depth(xs[m]) < n && Empty in xs[m]
    requires |g2| == |g| + |Successors(n, xs[m])|
    ensures NodesKept(n, g2, xs[..m] + xs[m + 1..] + Successors(n, xs[m]))
    ensures NodesAll(n, xs[..m] + xs[m + 1..] + Successors(n, xs[m])) < NodesAll(n, xs)
  {
    var s := xs[m];
    var ys := xs[..m] + xs[m + 1..];
    SuccessorsMatch(n, s);
    RemoveAtNodes(n, xs, m);
    SubSolsAllAppend(n, ys, Successors(n, s));
  }

  /**
   What expanding a non-goal board popped from the open list does: the board has an empty
   row, its successors are fresh, and the loop stores and pushes each of them.
   */
  /**
   What popping a non-goal board leaves: the board s taken from position m, the entries rest
   still open, and the invariant's open-list parts for rest.
   */
  ghost predicate Popped(n: nat, open: seq<Entry>, g: Costs, m: nat, s: seq<int>, rest: seq<Entry>)
  {
    |open| > 0 && m == MinIndex(open) && m < |States(open)| && s == States(open)[m]
    && rest == HeapPop(open).1 && s == HeapPop(open).0.state
    && Depth(s) < n && Empty in s
    && OpenKeyed(n, States(rest), g) && CostsRight(n, rest) && ParentsExpanded(g, States(rest))
    && s !in States(rest) && States(rest) == States(open)[..m] + States(open)[m + 1..]
    && Children(n, g, s, Successors(n, s))
  }

  /** Popping a non-goal board: it has an empty row and its successors are fresh. */
  lemma ExpandPop(n: nat, open: seq<Entry>, g: Costs, solutions: seq<seq<int>>)
      returns (m: nat, s: seq<int>, rest: seq<Entry>)
    requires |open| > 0 && AStarInv(n, open, g, solutions)
    requires !IsGoalState(HeapPop(open).0.state)
    ensures Popped(n, open, g, m, s, rest)
  {
    var xs;
    m, xs, rest := PopFacts(n, open, g);
    s := xs[m];
    PartialGoal(s, n);
    ChildrenFresh(n, g, xs, s);
    ParentsShrink(g, xs, States(rest));
  }

  lemma ChildrenAreFresh(n: nat, g: Costs, s: seq<int>, ts: seq<seq<int>>)
    requires Children(n, g, s, ts)
    ensures FreshChildren(n, g, s, ts)
  {
    forall t | t in ts
      ensures n <= |t| && t !in g
    {
      assert IsPartial(t, n);
    }
  }

  /** Pushing fresh successors stores each at cost `g_cost[state] + 1`. */
  lemma ExpandPushCosts(n: nat, g: Costs, rest: seq<Entry>, s: seq<int>, ts: seq<seq<int>>) returns (g2: Costs)
    requires Children(n, g, s, ts)
    ensures g2 == PushChildren(n, g, rest, s, ts).0 && Extended(g, s, ts, g2)
  {
    ChildrenAreFresh(n, g, s, ts);
    PushFreshCosts(n, g, rest, s, ts);
    g2 := PushChildren(n, g, rest, s, ts).0;
  }

  /** Pushing fresh successors appends one entry per successor, in order. */
  lemma ExpandPushOpen(n: nat, g: Costs, rest: seq<Entry>, s: seq<int>, ts: seq<seq<int>>) returns (open2: seq<Entry>)
    requires Children(n, g, s, ts)
    ensures open2 == PushChildren(n, g, rest, s, ts).1 && open2 == rest + Pushed(n, g[s] + 1, ts)
  {
    ChildrenAreFresh(n, g, s, ts);
    PushFreshOpen(n, g, rest, s, ts);
    open2 := PushChildren(n, g, rest, s, ts).1;
  }

  /** The boards on the open list after the pushes: the remaining ones, then the successors. */
  lemma PushedOpenStates(n: nat, gNew: nat, rest: seq<Entry>, ts: seq<seq<int>>)
    requires forall t :: t in ts ==> n <= |t|
    ensures States(rest + Pushed(n, gNew, ts)) == States(rest) + ts
  {
    StatesAppend(rest, Pushed(n, gNew, ts));
    PushedStates(n, gNew, ts);
  }

  /** The open-list and `g_cost` parts of the invariant survive the pushes. */
  lemma ExpandStructure(n: nat, g: Costs, rest: seq<Entry>, s: seq<int>, ts: seq<seq<int>>, g2: Costs, open2: seq<Entry>)
    requires OpenKeyed(n, States(rest), g) && CostsRight(n, rest) && ParentsExpanded(g, States(rest))
    requires CostsAreDepths(n, g) && s !in States(rest)
    requires Children(n, g, s, ts) && Extended(g, s, ts, g2)
    requires open2 == rest + Pushed(n, g[s] + 1, ts) && States(open2) == States(rest) + ts
    ensures OpenKeyed(n, States(open2), g2) && CostsRight(n, open2)
    ensures CostsAreDepths(n, g2) && ParentsExpanded(g2, States(open2))
  {
    ExpandKeyed(n, g, States(rest), s, ts, g2);
    ExpandDepths(n, g, s, ts, g2);
    ExpandParents(n, g, States(rest), s, ts, g2);
    ExpandCostsRight(n, g, rest, s, ts);
  }

  /** The solution and tree counts of the invariant survive the expansion of the board at m. */
  lemma ExpandCounts(n: nat, g: Costs, xs: seq<seq<int>>, m: nat, g2: Costs, zs: seq<seq<int>>, solutions: seq<seq<int>>)
    requires m < |xs| && SolutionsKept(n, solutions, xs) && NodesKept(n, g, xs)
    requires Depth(xs[m]) < n && Empty in xs[m]
    requires |g2| == |g| + |Successors(n, xs[m])|
    requires zs == xs[..m] + xs[m + 1..] + Successors(n, xs[m])
    ensures SolutionsKept(n, solutions, zs) && NodesKept(n, g2, zs)
    ensures NodesAll(n, zs) < NodesAll(n, xs)
  {
    ExpandSolutions(n, xs, m, solutions);
    ExpandNodesKept(n, g, xs, m, g2);
  }

  /** What pushing the successors ts of s leaves on the open list: one entry per successor. */
  predicate Pushes(n: nat, g: Costs, rest: seq<Entry>, s: seq<int>, ts: seq<seq<int>>, open2: seq<Entry>)
  {
    s in g && (forall t :: t in ts ==> n <= |t|)
    && open2 == rest + Pushed(n, g[s] + 1, ts) && States(open2) == States(rest) + ts
  }

  /** Pushing the fresh successors of s: the two halves of `PushChildren` together. */
  lemma ExpandPush(n: nat, g: Costs, rest: seq<Entry>, s: seq<int>, ts: seq<seq<int>>) returns (g2: Costs, open2: seq<Entry>)
    requires Children(n, g, s, ts)
    ensures g2 == PushChildren(n, g, rest, s, ts).0 && open2 == PushChildren(n, g, rest, s, ts).1
    ensures Extended(g, s, ts, g2) && open2 == rest + Pushed(n, g[s] + 1, ts)
  {
    g2 := ExpandPushCosts(n, g, rest, s, ts);
    open2 := ExpandPushOpen(n, g, rest, s, ts);
  }

  lemma PushesHold(n: nat, g: Costs, rest: seq<Entry>, s: seq<int>, ts: seq<seq<int>>, open2: seq<Entry>)
    requires s in g && (forall t :: t in ts ==> n <= |t|) && open2 == rest + Pushed(n, g[s] + 1, ts)
    ensures Pushes(n, g, rest, s, ts, open2)
  {
    PushedOpenStates(n, g[s] + 1, rest, ts);
  }

  /** The whole invariant after an expansion, from its structural and counting parts. */
  lemma ExpandInv(n: nat, g: Costs, open: seq<Entry>, m: nat, s: seq<int>, rest: seq<Entry>,
                  g2: Costs, open2: seq<Entry>, solutions: seq<seq<int>>)
    requires AStarInv(n, open, g, solutions) && Popped(n, open, g, m, s, rest)
    requires Pushes(n, g, rest, s, Successors(n, s), open2) && Extended(g, s, Successors(n, s), g2)
    ensures AStarInv(n, open2, g2, solutions) && NodesAll(n, States(open2)) < NodesAll(n, States(open))
  {
    var ts := Successors(n, s);
    ExpandStructure(n, g, rest, s, ts, g2, open2);
    ExpandCounts(n, g, States(open), m, g2, States(open2), solutions);
  }

  /**
   Expanding a non-goal board popped from the open list: it has an empty row, none of its
   successors is in `g_cost` yet, and pushing them keeps the invariant and shrinks the tree left.
   */
  lemma AStarTurnExpand(n: nat, open: seq<Entry>, g: Costs, solutions: seq<seq<int>>)
      returns (s: seq<int>, g2: Costs, open2: seq<Entry>)
    requires |open| > 0 && AStarInv(n, open, g, solutions)
    requires !IsGoalState(HeapPop(open).0.state)
    ensures s == HeapPop(open).0.state && Empty in s && FreshChildren(n, g, s, Successors(n, s))
    ensures g2 == PushChildren(n, g, HeapPop(open).1, s, Successors(n, s)).0
    ensures open2 == PushChildren(n, g, HeapPop(open).1, s, Successors(n, s)).1
    ensures AStarInv(n, open2, g2, solutions) && NodesAll(n, States(open2)) < NodesAll(n, States(open))
  {
    var m, rest;
    m, s, rest := ExpandPop(n, open, g, solutions);
    var ts := Successors(n, s);
    g2, open2 := ExpandPush(n, g, rest, s, ts);
    ChildrenAreFresh(n, g, s, ts);
    PushesHold(n, g, rest, s, ts, open2);
    ExpandInv(n, g, open, m, s, rest, g2, open2, solutions);
  }

  lemma AStarStart(n: nat)
    ensures AStarInv(n, [Entry(0, EmptyBoard(n))], map[EmptyBoard(n) := 0], [])
  {
    var root := EmptyBoard(n);
    RootPartial(n);
    SubSolsAllSingle(n, root);
    assert States([Entry(0, root)]) == [root];
    assert ComputeReward(root, n) == 0 by {
      assert DiagFree(root, n);
    }
  }

  lemma AStarDoneSols(n: nat, solutions: seq<seq<int>>)
    requires SolutionsKept(n, solutions, [])
    ensures multiset(solutions) == multiset(Backtracking.Solve(n).0)
    ensures forall b :: b in solutions <==> IsSolution(b, n)
    ensures forall b :: b in solutions ==> multiset(solutions)[b] == 1
  {
    var all := Backtracking.Solve(n).0;
    assert multiset(solutions) == multiset(all);
    forall b
      ensures b in solutions <==> b in all
    {
      assert b in solutions <==> b in multiset(solutions);
      assert b in all <==> b in multiset(all);
    }
    forall b | b in solutions
      ensures multiset(solutions)[b] == 1
    {
      SortedOnce(all, b);
    }
  }

  lemma AStarDoneNodes(n: nat, g: Costs)
    requires NodesKept(n, g, [])
    ensures |g| == TreeSize(n, [])
  {
  }

  /** A strictly increasing list holds each of its members once. */
  lemma {:induction false} SortedOnce(xs: seq<seq<int>>, b: seq<int>)
    requires Sorted(xs) && b in xs
    ensures multiset(xs)[b] == 1
    decreases |xs|
  {
    assert xs == [xs[0]] + xs[1..];
    if b == xs[0] {
      forall y | y in xs[1..]
        ensures y != b
      {
        var j :| 0 <= j < |xs[1..]| && xs[1..][j] == y;
        assert xs[j + 1] == y;
        Irreflexive(b);
      }
      assert b !in xs[1..];
      assert b !in multiset(xs[1..]);
    } else {
      SortedOnce(xs[1..], b);
    }
  }

  /**
   `solve()`: the A* search from the empty board. The solutions it records are exactly the
   n-queens solutions, each once; as a multiset they are backtracking's. The final `g_cost`
   maps every board it holds to its number of placed rows and holds one board per node of
   the backtracking tree.
   */
  method AStarSolve(n: nat) returns (solutions: seq<seq<int>>, metric: Metric, gCost: Costs)
    ensures multiset(solutions) == multiset(Backtracking.Solve(n).0)
    ensures forall b :: b in solutions <==> IsSolution(b, n)
    ensures forall b :: b in solutions ==> multiset(solutions)[b] == 1
    ensures forall k :: k in gCost ==> IsPartial(k, n) && gCost[k] == Depth(k)
    ensures |gCost| == TreeSize(n, [])
    ensures metric == Metric("A*", |solutions|, None)
  {
    var root := EmptyBoard(n);
    var open := [Entry(0, root)];
    gCost := map[root := 0];
    solutions := [];
    var found := 0;
    AStarStart(n);
    while |open| > 0
      invariant AStarInv(n, open, gCost, solutions)
      invariant found == |solutions|
      decreases NodesAll(n, States(open))
    {
      var popped := HeapPop(open);
      var state := popped.0.state;
      if IsGoalState(state) {
        AStarTurnRecord(n, open, gCost, solutions);
        open := popped.1;
        solutions := solutions + [state];
        found := found + 1;
        continue;
      }
      ghost var s, g2, open2 := AStarTurnExpand(n, open, gCost, solutions);
      var pushed := PushChildren(n, gCost, popped.1, state, Successors(n, state));
      gCost, open := pushed.0, pushed.1;
    }
    assert States(open) == [];
    AStarDoneSols(n, solutions);
    AStarDoneNodes(n, gCost);
    metric := Metric("A*", found, None);
  }

  /**
   `heuristic` is `compute_reward`, which compares the sentinel -1 like a column: on a board
   of size 4 with only row 0 placed at column 0, rows 0 and 1 count as a diagonal pair.
   */
  lemma HeuristicCountsSentinels()
    ensures ComputeReward([0, Empty, Empty, Empty], 4) == 1
  {
  }
}
