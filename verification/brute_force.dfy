/**
 methods/brute_force.py: every permutation of 0..N-1, in the order `itertools.permutations`
 yields them, is kept when its diagonal conflict count is zero.
 */
module BruteForce {
  import opened Board
  import opened Lex
  import opened Solver
  import Backtracking

  /** `range(n)` as a list. */
  function Range(n: nat): (r: seq<int>)
    ensures |r| == n && forall i :: 0 <= i < n ==> r[i] == i
  {
    seq(n, i => i)
  }

  predicate Increasing(pool: seq<int>)
  {
    forall i, j :: 0 <= i < j < |pool| ==> pool[i] < pool[j]
  }

  /** p uses every position of pool exactly once: same length, no repeats, only pool's values. */
  predicate IsArrangement(p: seq<int>, pool: seq<int>)
  {
    |p| == |pool| && Distinct(p) && forall k :: 0 <= k < |p| ==> p[k] in pool
  }

  function Remove(pool: seq<int>, i: nat): (r: seq<int>)
    requires i < |pool|
    ensures |r| == |pool| - 1
    ensures forall k :: 0 <= k < i ==> r[k] == pool[k]
    ensures forall k :: i <= k < |r| ==> r[k] == pool[k + 1]
  {
    pool[..i] + pool[i + 1..]
  }

  function Prepend(x: int, ps: seq<seq<int>>): (r: seq<seq<int>>)
    ensures |r| == |ps| && forall j :: 0 <= j < |ps| ==> r[j] == [x] + ps[j]
  {
    seq(|ps|, j requires 0 <= j < |ps| => [x] + ps[j])
  }

  /**
   `itertools.permutations(pool)`: for each position of pool in turn, that element followed
   by every arrangement of the rest. On distinct elements these are exactly the
   arrangements of pool, and on an increasing pool they come in increasing order.
   */
  function Permutations(pool: seq<int>): (r: seq<seq<int>>)
    ensures forall p :: p in r ==> |p| == |pool|
    ensures Distinct(pool) ==> forall p :: p in r <==> IsArrangement(p, pool)
    ensures Increasing(pool) ==> Sorted(r)
    decreases |pool|, 1, 0
  {
    if |pool| == 0 then
      assert forall p :: IsArrangement(p, pool) ==> p == [];
      [[]]
    else PermsFrom(pool, 0)
  }

  /** The arrangements of pool that start with one of pool[i..], in the same order. */
  function PermsFrom(pool: seq<int>, i: nat): (r: seq<seq<int>>)
    requires i <= |pool|
    ensures forall p :: p in r ==> |p| == |pool| && |p| > 0 && p[0] in pool[i..]
    ensures Distinct(pool) ==> forall p :: p in r <==> IsArrangement(p, pool) && |p| > 0 && p[0] in pool[i..]
    ensures Increasing(pool) ==> Sorted(r)
    decreases |pool|, 0, |pool| - i
  {
    if i == |pool| then []
    else
      var rest := Remove(pool, i);
      var here := Prepend(pool[i], Permutations(rest));
      var later := PermsFrom(pool, i + 1);
      PermsFromStep(pool, i, Permutations(rest), here, later);
      here + later
  }

  lemma PermsFromStep(pool: seq<int>, i: nat, tails: seq<seq<int>>, here: seq<seq<int>>, later: seq<seq<int>>)
    requires i < |pool|
    requires forall q :: q in tails ==> |q| == |pool| - 1
    requires Distinct(Remove(pool, i)) ==> forall q :: q in tails <==> IsArrangement(q, Remove(pool, i))
    requires Increasing(Remove(pool, i)) ==> Sorted(tails)
    requires here == Prepend(pool[i], tails)
    requires forall p :: p in later ==> |p| == |pool| && |p| > 0 && p[0] in pool[i + 1..]
    requires Distinct(pool) ==> forall p :: p in later <==> IsArrangement(p, pool) && |p| > 0 && p[0] in pool[i + 1..]
    requires Increasing(pool) ==> Sorted(later)
    ensures forall p :: p in here + later ==> |p| == |pool| && |p| > 0 && p[0] in pool[i..]
    ensures Distinct(pool) ==> forall p :: p in here + later <==> IsArrangement(p, pool) && |p| > 0 && p[0] in pool[i..]
    ensures Increasing(pool) ==> Sorted(here + later)
  {
    HereShape(pool, i, tails, here);
    forall p | p in later
      ensures p[0] in pool[i..]
    {
      var j :| 0 <= j < |pool[i + 1..]| && pool[i + 1..][j] == p[0];
      assert pool[i..][j + 1] == p[0];
    }
    if Distinct(pool) {
      RemoveMembers(pool, i);
      HereMembers(pool, i, tails, here, later);
    }
    if Increasing(pool) {
      assert Increasing(Remove(pool, i));
      HereOrder(pool, i, tails, here, later);
    }
  }

  lemma HereShape(pool: seq<int>, i: nat, tails: seq<seq<int>>, here: seq<seq<int>>)
    requires i < |pool|
    requires forall q :: q in tails ==> |q| == |pool| - 1
    requires here == Prepend(pool[i], tails)
    ensures forall p :: p in here ==> |p| == |pool| && |p| > 0 && p[0] in pool[i..] && p[0] == pool[i]
    ensures forall p :: p in here ==> p[1..] in tails
  {
    forall p | p in here
      ensures |p| == |pool| && |p| > 0 && p[0] in pool[i..] && p[0] == pool[i] && p[1..] in tails
    {
      var j :| 0 <= j < |here| && here[j] == p;
      assert p == [pool[i]] + tails[j];
      assert pool[i..][0] == pool[i];
    }
  }

  lemma RemoveMembers(pool: seq<int>, i: nat)
    requires i < |pool| && Distinct(pool)
    ensures Distinct(Remove(pool, i))
    ensures forall x :: x in Remove(pool, i) <==> x in pool && x != pool[i]
  {
    var r := Remove(pool, i);
    forall x | x in pool && x != pool[i]
      ensures x in r
    {
      var k :| 0 <= k < |pool| && pool[k] == x;
      if k < i {
        assert r[k] == x;
      } else {
        assert r[k - 1] == x;
      }
    }
    forall a, b | 0 <= a < b < |r|
      ensures r[a] != r[b]
    {
      var a' := if a < i then a else a + 1;
      var b' := if b < i then b else b + 1;
      assert r[a] == pool[a'] && r[b] == pool[b'] && a' < b';
    }
    forall x | x in r
      ensures x in pool && x != pool[i]
    {
      var k :| 0 <= k < |r| && r[k] == x;
      if k < i {
        assert r[k] == pool[k];
      } else {
        assert r[k] == pool[k + 1];
      }
    }
  }

  /** Every arrangement `Prepend` builds from pool[i] and an arrangement of the rest is an arrangement of pool. */
  lemma HereSound(pool: seq<int>, i: nat, tails: seq<seq<int>>, here: seq<seq<int>>)
    requires i < |pool| && Distinct(pool)
    requires forall q :: q in tails <==> IsArrangement(q, Remove(pool, i))
    requires here == Prepend(pool[i], tails)
    ensures forall p :: p in here ==> IsArrangement(p, pool) && |p| > 0 && p[0] in pool[i..]
  {
    RemoveMembers(pool, i);
    var rest := Remove(pool, i);
    forall q | q in tails
      ensures IsArrangement([pool[i]] + q, pool)
    {
      var p := [pool[i]] + q;
      forall a, b | 0 <= a < b < |p|
        ensures p[a] != p[b]
      {
        if a == 0 {
          assert p[b] == q[b - 1] && q[b - 1] in rest;
        } else {
          assert p[a] == q[a - 1] && p[b] == q[b - 1];
        }
      }
      forall k | 0 <= k < |p|
        ensures p[k] in pool
      {
        if k > 0 {
          assert p[k] == q[k - 1] && q[k - 1] in rest;
        }
      }
    }
    forall p | p in here
      ensures IsArrangement(p, pool) && |p| > 0 && p[0] in pool[i..]
    {
      var j :| 0 <= j < |here| && here[j] == p;
      assert p == [pool[i]] + tails[j];
      assert pool[i..][0] == pool[i];
    }
  }

  /** Every arrangement of pool starting at or after position i is built here or later. */
  lemma HereComplete(pool: seq<int>, i: nat, tails: seq<seq<int>>, here: seq<seq<int>>, later: seq<seq<int>>)
    requires i < |pool| && Distinct(pool)
    requires forall q :: q in tails <==> IsArrangement(q, Remove(pool, i))
    requires here == Prepend(pool[i], tails)
    requires forall p :: p in later <==> IsArrangement(p, pool) && |p| > 0 && p[0] in pool[i + 1..]
    ensures forall p :: IsArrangement(p, pool) && |p| > 0 && p[0] in pool[i..] ==> p in here + later
  {
    RemoveMembers(pool, i);
    var rest := Remove(pool, i);
    forall p | IsArrangement(p, pool) && |p| > 0 && p[0] in pool[i..]
      ensures p in here + later
    {
      var j :| i <= j < |pool| && pool[j] == p[0];
      if j == i {
        var q := p[1..];
        forall a, b | 0 <= a < b < |q|
          ensures q[a] != q[b]
        {
          assert q[a] == p[a + 1] && q[b] == p[b + 1];
        }
        forall k | 0 <= k < |q|
          ensures q[k] in rest
        {
          assert q[k] == p[k + 1] && p[k + 1] != p[0];
        }
        assert IsArrangement(q, rest);
        var t :| 0 <= t < |tails| && tails[t] == q;
        assert here[t] == p;
      } else {
        assert pool[i + 1..][j - i - 1] == p[0];
        assert p in later;
      }
    }
  }

  lemma HereMembers(pool: seq<int>, i: nat, tails: seq<seq<int>>, here: seq<seq<int>>, later: seq<seq<int>>)
    requires i < |pool| && Distinct(pool)
    requires forall q :: q in tails <==> IsArrangement(q, Remove(pool, i))
    requires here == Prepend(pool[i], tails)
    requires forall p :: p in later <==> IsArrangement(p, pool) && |p| > 0 && p[0] in pool[i + 1..]
    ensures forall p :: p in here + later <==> IsArrangement(p, pool) && |p| > 0 && p[0] in pool[i..]
  {
    HereSound(pool, i, tails, here);
    HereComplete(pool, i, tails, here, later);
    forall p | p in later
      ensures p[0] in pool[i..]
    {
      var j :| 0 <= j < |pool[i + 1..]| && pool[i + 1..][j] == p[0];
      assert pool[i..][j + 1] == p[0];
    }
  }

  lemma HereOrder(pool: seq<int>, i: nat, tails: seq<seq<int>>, here: seq<seq<int>>, later: seq<seq<int>>)
    requires i < |pool| && Increasing(pool)
    requires Sorted(tails) && Sorted(later)
    requires here == Prepend(pool[i], tails)
    requires forall p :: p in later ==> |p| > 0 && p[0] in pool[i + 1..]
    ensures Sorted(here + later)
  {
    forall a, b | 0 <= a < b < |here|
      ensures Less(here[a], here[b])
    {
      ConsLess(pool[i], tails[a], tails[b]);
    }
    forall x, y | x in here && y in later
      ensures Less(x, y)
    {
      var a :| 0 <= a < |here| && here[a] == x;
      assert x[0] == pool[i];
      var j :| 0 <= j < |pool[i + 1..]| && pool[i + 1..][j] == y[0];
      assert y[0] == pool[i + 1 + j];
      assert x[..0] == y[..0];
      LessAt(x, y, 0);
    }
    SortedAppend(here, later);
  }

  /** The candidates of `solve` are the permutations of 0..N-1, in increasing order. */
  lemma CandidatesArePermutations(n: nat)
    ensures forall p :: p in Permutations(Range(n)) <==> IsPerm(p, n)
    ensures Sorted(Permutations(Range(n)))
  {
    var pool := Range(n);
    assert Distinct(pool) && Increasing(pool);
    forall p
      ensures IsArrangement(p, pool) <==> IsPerm(p, n)
    {
      if IsArrangement(p, pool) {
        forall k | 0 <= k < |p|
          ensures 0 <= p[k] < n
        {
          assert p[k] in pool;
        }
      }
      if IsPerm(p, n) {
        forall k | 0 <= k < |p|
          ensures p[k] in pool
        {
          assert pool[p[k]] == p[k];
        }
      }
    }
  }

  /** The `for perm ...: if self.is_goal_state(perm)` loop: the candidates with zero reward, in order. */
  function KeepGoals(xs: seq<seq<int>>, n: nat): (r: seq<seq<int>>)
    requires forall p :: p in xs ==> |p| == n
    ensures forall p :: p in r <==> p in xs && RewardGoal(p, n)
    ensures Sorted(xs) ==> Sorted(r)
    decreases |xs|
  {
    if |xs| == 0 then []
    else
      var rest := KeepGoals(xs[1..], n);
      assert forall p :: p in xs <==> p == xs[0] || p in xs[1..];
      if RewardGoal(xs[0], n) then
        if Sorted(xs) then
          assert Sorted(xs[1..]);
          assert forall y :: y in xs[1..] ==> Less(xs[0], y);
          SortedAppend([xs[0]], rest);
          [xs[0]] + rest
        else [xs[0]] + rest
      else
        if Sorted(xs) then
          assert Sorted(xs[1..]);
          rest
        else rest
  }

  /** On a permutation, a zero reward means a solution, and only then. */
  lemma RewardZeroIffSolution(p: seq<int>, n: nat)
    requires IsPerm(p, n)
    ensures RewardGoal(p, n) <==> IsSolution(p, n)
  {
    SolutionIsDiagFreePerm(p, n);
  }

  /** `compute_reward` does not see two queens in one column: [0, 0] scores 0 yet is no solution. */
  lemma RewardIgnoresColumns()
    ensures RewardGoal([0, 0], 2) && !IsSolution([0, 0], 2)
  {
    assert Attack([0, 0], 0, 1);
    assert DiagFree([0, 0], 2);
  }

  /**
   `solve()`: the recorded boards, with the integer fields of the metric record. They are
   exactly the boards backtracking records, in the same order.
   */
  function Solve(n: nat): (r: (seq<seq<int>>, Metric))
    ensures r.0 == Backtracking.Solve(n).0
    ensures forall b :: b in r.0 <==> IsSolution(b, n)
    ensures r.1.solutionsFound == |r.0| && r.1.iterations == Some(|r.0|)
  {
    var cands := Permutations(Range(n));
    CandidatesArePermutations(n);
    var all := KeepGoals(cands, n);
    forall b
      ensures b in all <==> IsSolution(b, n)
    {
      if b in cands {
        RewardZeroIffSolution(b, n);
      }
      if IsSolution(b, n) {
        SolutionIsDiagFreePerm(b, n);
        RewardZeroIffSolution(b, n);
      }
    }
    SortedUnique(all, Backtracking.Solve(n).0);
    (all, Metric("Brute Force", |all|, Some(|all|)))
  }
}
