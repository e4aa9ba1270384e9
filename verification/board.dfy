/**
 The board model every strategy shares. A board is a sequence indexed by row whose entry
 is the column of that row's queen; the incremental searches pad the rows without a queen
 yet with the sentinel `Empty` (-1). This module holds the conflict checks the solvers
 repeat in every file (`is_valid_move`, `is_valid_board`, `compute_reward`), each written
 once, together with the declarative notions they are proved against.
 */
module Board {

  /** The sentinel for a row that holds no queen yet. */
  const Empty: int := -1

  function Abs(x: int): nat
  {
    if x < 0 then -x else x
  }

  /** Rows i and j of b lie on a common diagonal. */
  predicate DiagAttack(b: seq<int>, i: int, j: int)
    requires 0 <= i < |b| && 0 <= j < |b|
  {
    Abs(b[i] - b[j]) == Abs(i - j)
  }

  /** Rows i and j of b share a column or a diagonal. */
  predicate Attack(b: seq<int>, i: int, j: int)
    requires 0 <= i < |b| && 0 <= j < |b|
  {
    b[i] == b[j] || DiagAttack(b, i, j)
  }

  /** No two rows of b attack each other. */
  predicate NonAttacking(b: seq<int>)
  {
    forall i, j :: 0 <= i < j < |b| ==> !Attack(b, i, j)
  }

  /** No two of the first n rows share a diagonal (columns are not compared). */
  predicate DiagFree(b: seq<int>, n: nat)
    requires n <= |b|
  {
    forall i, j :: 0 <= i < j < n ==> !DiagAttack(b, i, j)
  }

  predicate InRange(b: seq<int>, n: int)
  {
    forall i :: 0 <= i < |b| ==> 0 <= b[i] < n
  }

  predicate Distinct(b: seq<int>)
  {
    forall i, j :: 0 <= i < j < |b| ==> b[i] != b[j]
  }

  /** A permutation of 0..n-1. */
  predicate IsPerm(b: seq<int>, n: nat)
  {
    |b| == n && InRange(b, n) && Distinct(b)
  }

  /** The placed rows of a board under construction: every queen on the board, none attacked. */
  predicate IsPrefix(p: seq<int>, n: nat)
  {
    |p| <= n && InRange(p, n) && NonAttacking(p)
  }

  /** A complete solution of the n-queens problem. */
  predicate IsSolution(b: seq<int>, n: nat)
  {
    |b| == n && InRange(b, n) && NonAttacking(b)
  }

  /** The rows before `row` leave (row, col) unattacked. */
  predicate Clear(state: seq<int>, row: int, col: int)
    requires row <= |state|
  {
    forall i :: 0 <= i < row ==> state[i] != col && Abs(state[i] - col) != Abs(i - row)
  }

  /** The loop of `is_valid_move` from row i on. */
  function ValidMoveFrom(state: seq<int>, row: int, col: int, i: nat): (r: bool)
    requires row <= |state|
    ensures r <==> forall k :: i <= k < row ==> state[k] != col && Abs(state[k] - col) != Abs(k - row)
    decreases row - i
  {
    if i >= row then true
    else if state[i] == col || Abs(state[i] - col) == Abs(i - row) then false
    else ValidMoveFrom(state, row, col, i + 1)
  }

  /** `is_valid_move(state, row, col)`: no earlier row shares the column or a diagonal. */
  function IsValidMove(state: seq<int>, row: int, col: int): (r: bool)
    requires row <= |state|
    ensures r <==> Clear(state, row, col)
  {
    ValidMoveFrom(state, row, col, 0)
  }

  /** The inner loop of `is_valid_board`: row i against rows j.. */
  function NoAttackFrom(state: seq<int>, i: nat, j: nat): (r: bool)
    requires i < j <= |state|
    ensures r <==> forall k :: j <= k < |state| ==> !Attack(state, i, k)
    decreases |state| - j
  {
    if j == |state| then true
    else if state[i] == state[j] || Abs(state[i] - state[j]) == Abs(i - j) then
      assert Attack(state, i, j);
      false
    else NoAttackFrom(state, i, j + 1)
  }

  /** The outer loop of `is_valid_board` from row i on. */
  function ValidBoardFrom(state: seq<int>, i: nat): (r: bool)
    requires i <= |state|
    ensures r <==> forall a, b :: i <= a < b < |state| ==> !Attack(state, a, b)
    decreases |state| - i
  {
    if i == |state| then true
    else NoAttackFrom(state, i, i + 1) && ValidBoardFrom(state, i + 1)
  }

  /** `is_valid_board(state)`: true exactly when no two rows attack each other. */
  function IsValidBoard(state: seq<int>): (r: bool)
    ensures r <==> NonAttacking(state)
  {
    ValidBoardFrom(state, 0)
  }

  /** The inner loop of `compute_reward`: diagonal conflicts of row i with rows j..n-1. */
  function RowReward(s: seq<int>, n: nat, i: nat, j: nat): (r: nat)
    requires n <= |s| && i < j <= n
    ensures r <= n - j
    ensures r == 0 <==> forall k :: j <= k < n ==> !DiagAttack(s, i, k)
    decreases n - j
  {
    if j == n then 0
    else if Abs(s[i] - s[j]) == Abs(i - j) then
      assert DiagAttack(s, i, j);
      1 + RowReward(s, n, i, j + 1)
    else RowReward(s, n, i, j + 1)
  }

  /** The outer loop of `compute_reward` from row i on. */
  function RewardFrom(s: seq<int>, n: nat, i: nat): (r: nat)
    requires n <= |s| && i <= n
    ensures r == 0 <==> forall a, b :: i <= a < b < n ==> !DiagAttack(s, a, b)
    decreases n - i
  {
    if i == n then 0 else RowReward(s, n, i, i + 1) + RewardFrom(s, n, i + 1)
  }

  /** Rows i..n-1 hold (n - i)(n - i - 1)/2 pairs, so at most that many conflicts. */
  lemma {:induction false} RewardFromBound(s: seq<int>, n: nat, i: nat)
    requires n <= |s| && i <= n
    ensures 2 * RewardFrom(s, n, i) <= (n - i) * (n - i - 1)
    decreases n - i
  {
    if i < n {
      RewardFromBound(s, n, i + 1);
      var m: int := n - i - 1;
      assert RowReward(s, n, i, i + 1) <= m;
      assert (m + 1) * m == 2 * m + m * (m - 1) by { PairsStep(m); }
    }
  }

  lemma PairsStep(m: int)
    ensures (m + 1) * m == 2 * m + m * (m - 1)
  {
  }

  /**
   `compute_reward(state)` (lower is better): the number of row pairs i < j < n on a common
   diagonal. Equal columns are not counted.
   */
  function ComputeReward(s: seq<int>, n: nat): (r: nat)
    requires n <= |s|
    ensures r == 0 <==> DiagFree(s, n)
  {
    RewardFrom(s, n, 0)
  }

  /** `compute_reward` lies in 0..N(N-1)/2. */
  lemma RewardBound(s: seq<int>, n: nat)
    requires n <= |s|
    ensures 2 * ComputeReward(s, n) <= n * (n - 1)
  {
    RewardFromBound(s, n, 0);
  }

  /** The pairs of rows a < b, with i <= a and b < n, that share a diagonal. */
  function DiagPairs(s: seq<int>, n: nat, i: nat): set<(int, int)>
    requires n <= |s|
  {
    set a, b | i <= a < b < n && DiagAttack(s, a, b) :: (a, b)
  }

  /** The pairs (i, k), with j <= k < n, that share a diagonal. */
  function RowPairs(s: seq<int>, n: nat, i: nat, j: nat): set<(int, int)>
    requires n <= |s| && i < n
  {
    set k | j <= k < n && DiagAttack(s, i, k) :: (i, k)
  }

  /** The inner loop counts the diagonal partners of row i among rows j..n-1. */
  lemma {:induction false} RowRewardCount(s: seq<int>, n: nat, i: nat, j: nat)
    requires n <= |s| && i < j <= n
    ensures RowReward(s, n, i, j) == |RowPairs(s, n, i, j)|
    decreases n - j
  {
    if j == n {
      assert RowPairs(s, n, i, j) == {};
    } else {
      RowRewardCount(s, n, i, j + 1);
      RowPairsSplit(s, n, i, j);
    }
  }

  /** Row j is a diagonal partner of row i or not; the partners after it are counted separately. */
  lemma RowPairsSplit(s: seq<int>, n: nat, i: nat, j: nat)
    requires n <= |s| && i < j < n
    ensures |RowPairs(s, n, i, j)| == (if DiagAttack(s, i, j) then 1 else 0) + |RowPairs(s, n, i, j + 1)|
  {
    var head: set<(int, int)> := if DiagAttack(s, i, j) then {(i, j)} else {};
    assert RowPairs(s, n, i, j) == head + RowPairs(s, n, i, j + 1);
    DisjointCard(head, RowPairs(s, n, i, j + 1));
  }

  /** The diagonal pairs from row i on split into those starting at row i and those from row i + 1 on. */
  lemma DiagPairsSplit(s: seq<int>, n: nat, i: nat)
    requires n <= |s| && i < n
    ensures |DiagPairs(s, n, i)| == |RowPairs(s, n, i, i + 1)| + |DiagPairs(s, n, i + 1)|
  {
    forall p | p in DiagPairs(s, n, i)
      ensures p in RowPairs(s, n, i, i + 1) + DiagPairs(s, n, i + 1)
    {
      var a, b :| i <= a < b < n && DiagAttack(s, a, b) && p == (a, b);
      if a == i {
        assert p in RowPairs(s, n, i, i + 1);
      } else {
        assert p in DiagPairs(s, n, i + 1);
      }
    }
    assert DiagPairs(s, n, i) == RowPairs(s, n, i, i + 1) + DiagPairs(s, n, i + 1);
    DisjointCard(RowPairs(s, n, i, i + 1), DiagPairs(s, n, i + 1));
  }

  /** One row of the outer loop adds the diagonal pairs that start at that row. */
  lemma RewardFromStep(s: seq<int>, n: nat, i: nat)
    requires n <= |s| && i < n
    requires RewardFrom(s, n, i + 1) == |DiagPairs(s, n, i + 1)|
    ensures RewardFrom(s, n, i) == |DiagPairs(s, n, i)|
  {
    RowRewardCount(s, n, i, i + 1);
    DiagPairsSplit(s, n, i);
  }

  /** The outer loop from row i on counts the diagonal pairs whose first row is at least i. */
  lemma {:induction false} RewardFromCount(s: seq<int>, n: nat, i: nat)
    requires n <= |s| && i <= n
    ensures RewardFrom(s, n, i) == |DiagPairs(s, n, i)|
    decreases n - i
  {
    if i == n {
      assert DiagPairs(s, n, i) == {};
    } else {
      RewardFromCount(s, n, i + 1);
      RewardFromStep(s, n, i);
    }
  }

  /** Two disjoint sets together have as many elements as both. */
  lemma DisjointCard<T>(a: set<T>, b: set<T>)
    requires a * b == {}
    ensures |a + b| == |a| + |b|
  {
  }

  /** `compute_reward` is the number of pairs of rows i < j < n that share a diagonal. */
  lemma RewardCountsPairs(s: seq<int>, n: nat)
    requires n <= |s|
    ensures ComputeReward(s, n) == |DiagPairs(s, n, 0)|
  {
    RewardFromCount(s, n, 0);
  }

  /** `is_goal_state` of the permutation-based strategies: a reward of zero. */
  predicate RewardGoal(s: seq<int>, n: nat)
    requires n <= |s|
  {
    ComputeReward(s, n) == 0
  }

  /** Appending an unattacked, in-range column to a valid prefix gives a valid prefix, and only then. */
  lemma ExtendPrefix(p: seq<int>, n: nat, c: int)
    requires IsPrefix(p, n) && |p| < n
    ensures IsPrefix(p + [c], n) <==> 0 <= c < n && IsValidMove(p, |p|, c)
  {
    var q := p + [c];
    if 0 <= c < n && IsValidMove(p, |p|, c) {
      forall i, j | 0 <= i < j < |q|
        ensures !Attack(q, i, j)
      {
        if j < |p| {
          assert q[i] == p[i] && q[j] == p[j];
          assert !Attack(p, i, j);
        } else {
          assert Clear(p, |p|, c);
          assert q[i] == p[i] && q[j] == c && j == |p|;
          assert p[i] != c && Abs(p[i] - c) != Abs(i - |p|);
        }
      }
    }
    if IsPrefix(q, n) {
      assert q[|p|] == c;
      forall i | 0 <= i < |p|
        ensures p[i] != c && Abs(p[i] - c) != Abs(i - |p|)
      {
        assert q[i] == p[i];
        assert !Attack(q, i, |p|);
      }
      assert Clear(p, |p|, c);
    }
  }

  /** In a non-attacking board each row is a valid move against the rows above it. */
  lemma RowIsValidMove(b: seq<int>, k: nat)
    requires NonAttacking(b) && k < |b|
    ensures IsValidMove(b[..k], k, b[k])
  {
    forall i | 0 <= i < k
      ensures b[..k][i] != b[k] && Abs(b[..k][i] - b[k]) != Abs(i - k)
    {
      assert !Attack(b, i, k);
    }
  }

  /** A prefix of a solution is a valid prefix. */
  lemma SolutionPrefix(b: seq<int>, n: nat, k: nat)
    requires IsSolution(b, n) && k <= n
    ensures IsPrefix(b[..k], n)
  {
    var p := b[..k];
    forall i, j | 0 <= i < j < |p|
      ensures !Attack(p, i, j)
    {
      assert p[i] == b[i] && p[j] == b[j];
      assert !Attack(b, i, j);
    }
  }

  /** A board of n rows is a solution exactly when it is a permutation free of diagonal conflicts. */
  lemma SolutionIsDiagFreePerm(b: seq<int>, n: nat)
    requires |b| == n
    ensures IsSolution(b, n) <==> IsPerm(b, n) && DiagFree(b, n)
  {
    if IsSolution(b, n) {
      forall i, j | 0 <= i < j < n
        ensures b[i] != b[j] && !DiagAttack(b, i, j)
      {
        assert !Attack(b, i, j);
      }
    }
  }

  // ----- Counting: the pigeonhole facts the permutation arguments use -----

  function RangeSet(n: nat): (r: set<int>)
    ensures forall v :: v in r <==> 0 <= v < n
  {
    if n == 0 then {} else RangeSet(n - 1) + {n - 1}
  }

  function Members(s: seq<int>): (r: set<int>)
    ensures forall v :: v in r <==> v in s
  {
    set v | v in s
  }

  lemma {:induction false} RangeSetSize(n: nat)
    ensures |RangeSet(n)| == n
  {
    if n > 0 {
      RangeSetSize(n - 1);
      var prev := RangeSet(n - 1);
      assert n - 1 !in prev;
      assert |prev + {n - 1}| == |prev| + 1;
    }
  }

  lemma {:induction false} MembersSize(s: seq<int>)
    ensures |Members(s)| <= |s|
    ensures Distinct(s) ==> |Members(s)| == |s|
    decreases |s|
  {
    if |s| > 0 {
      var init := s[..|s| - 1];
      MembersSize(init);
      assert Members(s) == Members(init) + {s[|s| - 1]};
      if Distinct(s) {
        assert Distinct(init);
        assert s[|s| - 1] !in Members(init);
      }
    }
  }

  /** A permutation of 0..n-1 holds every column. */
  lemma PermCovers(s: seq<int>, n: nat)
    requires IsPerm(s, n)
    ensures forall v :: 0 <= v < n ==> v in s
  {
    MembersSize(s);
    RangeSetSize(n);
    assert Members(s) <= RangeSet(n);
    var missing := RangeSet(n) - Members(s);
    assert |RangeSet(n)| == |Members(s)| + |missing|;
    assert |missing| == 0;
    assert missing == {};
    forall v | 0 <= v < n
      ensures v in s
    {
      assert v in RangeSet(n) && v !in missing;
    }
  }

  /** Fewer than n entries leave some column of 0..n-1 unused. */
  lemma FreshColumn(s: seq<int>, n: nat) returns (c: int)
    requires |s| < n
    ensures 0 <= c < n && c !in s
  {
    MembersSize(s);
    RangeSetSize(n);
    var free := RangeSet(n) - Members(s);
    var common := RangeSet(n) * Members(s);
    assert RangeSet(n) == common + free;
    assert |RangeSet(n)| == |common| + |free|;
    assert Members(s) == common + (Members(s) - common);
    assert |Members(s)| == |common| + |Members(s) - common|;
    assert |free| > 0;
    c :| c in free;
  }
}
