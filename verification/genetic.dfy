/**
 methods/genetic.py: the deterministic pieces of `GeneticSolver`. A board is a permutation
 of 0..N-1 read row by row. Each random outcome (the two sampled rows of `mutate`, the
 crossover point, the columns `random.choice` draws inside `fix_state`, a restart
 `random_state`) is a parameter.
 */
module Genetic {
  import opened Board
  import opened Lex
  import opened Solver
  import Frontier

  // ----- mutate -----

  /** `mutate(state)` with the sampled rows i and j: the queens of the two rows trade columns. */
  function Mutate(state: seq<int>, i: nat, j: nat): (r: seq<int>)
    requires i < |state| && j < |state|
    ensures |r| == |state| && r[i] == state[j] && r[j] == state[i]
    ensures forall k :: 0 <= k < |state| && k != i && k != j ==> r[k] == state[k]
    ensures multiset(r) == multiset(state)
  {
    state[i := state[j]][j := state[i]]
  }

  /** Swapping the same two rows again gives the board back. */
  lemma MutateTwice(state: seq<int>, i: nat, j: nat)
    requires i < |state| && j < |state|
    ensures Mutate(Mutate(state, i, j), i, j) == state
  {
  }

  /** A mutated permutation is a permutation. */
  lemma MutateKeepsPerm(state: seq<int>, n: nat, i: nat, j: nat)
    requires IsPerm(state, n) && i < n && j < n
    ensures IsPerm(Mutate(state, i, j), n)
  {
    var r := Mutate(state, i, j);
    var from := (k: int) => if k == i then j else if k == j then i else k;
    forall k | 0 <= k < n
      ensures r[k] == state[from(k)] && 0 <= from(k) < n
    {
    }
    forall a, b | 0 <= a < b < n
      ensures r[a] != r[b]
    {
      assert from(a) != from(b);
      if from(a) < from(b) {
        assert state[from(a)] != state[from(b)];
      } else {
        assert state[from(b)] != state[from(a)];
      }
    }
  }

  // ----- fix_state -----

  /**
   One turn of the `for col in state` loop: the `while col in seen` loop keeps the row's own
   column when it is unused and otherwise takes the first unused column among the draws of
   `random.choice(range(N))`. None when the supplied draws run out before an unused column
   comes up (the Python loop would keep drawing).
   */
  function Pick(col: int, draws: seq<int>, seen: seq<int>): (r: Option<int>)
    ensures col !in seen ==> r == Some(col)
    ensures r.Some? ==> r.value !in seen && (r.value == col || r.value in draws)
    ensures r.None? <==> col in seen && forall d :: d in draws ==> d in seen
    decreases |draws|
  {
    if col !in seen then Some(col)
    else if |draws| == 0 then None
    else Pick(draws[0], draws[1..], seen)
  }

  /** The loop of `fix_state` from some row on, with `fixed` the columns placed so far. */
  function FixFrom(state: seq<int>, draws: seq<seq<int>>, fixed: seq<int>): (r: Option<seq<int>>)
    requires |draws| == |state|
    ensures r.Some? ==> |r.value| == |fixed| + |state|
    decreases |state|
  {
    if |state| == 0 then Some(fixed)
    else match Pick(state[0], draws[0], fixed)
      case None => None
      case Some(c) => FixFrom(state[1..], draws[1..], fixed + [c])
  }

  /** `fix_state(state)`, with `draws[k]` the columns drawn while repairing row k. */
  function FixState(state: seq<int>, draws: seq<seq<int>>): (r: Option<seq<int>>)
    requires |draws| == |state|
    ensures r.Some? ==> |r.value| == |state|
  {
    FixFrom(state, draws, [])
  }

  /**
   What the repair loop produces: the rows fixed so far, then one row per remaining row. A row
   keeps its column exactly when no earlier row of the output holds it; the output has no
   repeated column when `fixed` has none; and every column comes from the row itself or its draws.
   */
  lemma {:induction false} FixFromFacts(state: seq<int>, draws: seq<seq<int>>, fixed: seq<int>)
    requires |draws| == |state| && FixFrom(state, draws, fixed).Some?
    ensures var r := FixFrom(state, draws, fixed).value;
            |r| == |fixed| + |state| && r[..|fixed|] == fixed
            && (forall k :: 0 <= k < |state| ==>
                  (r[|fixed| + k] == state[k] <==> state[k] !in r[..|fixed| + k]))
            && (forall k :: 0 <= k < |state| ==> r[|fixed| + k] == state[k] || r[|fixed| + k] in draws[k])
            && (Distinct(fixed) ==> Distinct(r))
    decreases |state|
  {
    if |state| > 0 {
      var c := Pick(state[0], draws[0], fixed).value;
      var fixed1 := fixed + [c];
      FixFromFacts(state[1..], draws[1..], fixed1);
      var r := FixFrom(state, draws, fixed).value;
      assert r == FixFrom(state[1..], draws[1..], fixed1).value;
      assert r[..|fixed1|] == fixed1;
      assert r[..|fixed|] == fixed1[..|fixed|];
      forall k | 0 <= k < |state|
        ensures (r[|fixed| + k] == state[k] <==> state[k] !in r[..|fixed| + k])
        ensures r[|fixed| + k] == state[k] || r[|fixed| + k] in draws[k]
      {
        if k == 0 {
          assert r[|fixed|] == c && r[..|fixed|] == fixed;
        } else {
          assert |fixed| + k == |fixed1| + (k - 1);
          assert state[1..][k - 1] == state[k] && draws[1..][k - 1] == draws[k];
        }
      }
      if Distinct(fixed) {
        forall a, b | 0 <= a < b < |fixed1|
          ensures fixed1[a] != fixed1[b]
        {
          if b == |fixed| {
            assert fixed1[a] == fixed[a] && fixed1[b] == c;
          } else {
            assert fixed1[a] == fixed[a] && fixed1[b] == fixed[b];
          }
        }
      }
    }
  }

  /** Draws in 0..n-1 that hold every column of 0..n-1: each row's repair can always find a free column. */
  predicate CoveringDraws(draws: seq<seq<int>>, n: nat)
  {
    forall k :: 0 <= k < |draws| ==> InRange(draws[k], n) && forall c :: 0 <= c < n ==> c in draws[k]
  }

  /** With covering draws and at most n rows in all, the loop finishes, and with in-range input its columns are in range. */
  lemma {:induction false} FixFromDone(state: seq<int>, draws: seq<seq<int>>, fixed: seq<int>, n: nat)
    requires |draws| == |state| && |fixed| + |state| <= n && CoveringDraws(draws, n)
    requires InRange(fixed, n) && InRange(state, n)
    ensures FixFrom(state, draws, fixed).Some? && InRange(FixFrom(state, draws, fixed).value, n)
    decreases |state|
  {
    if |state| > 0 {
      var free := FreshColumn(fixed, n);
      assert free in draws[0];
      var c := Pick(state[0], draws[0], fixed).value;
      assert c == state[0] || c in draws[0];
      assert 0 <= c < n;
      var fixed1 := fixed + [c];
      assert CoveringDraws(draws[1..], n) by {
        forall k | 0 <= k < |draws[1..]|
          ensures InRange(draws[1..][k], n) && forall c :: 0 <= c < n ==> c in draws[1..][k]
        {
          assert draws[1..][k] == draws[k + 1];
        }
      }
      assert InRange(state[1..], n);
      FixFromDone(state[1..], draws[1..], fixed1, n);
    }
  }

  /** On N rows over 0..N-1 and covering draws, `fix_state` returns a permutation of 0..N-1. */
  lemma FixStatePerm(state: seq<int>, draws: seq<seq<int>>, n: nat)
    requires |state| == n && |draws| == n && InRange(state, n) && CoveringDraws(draws, n)
    ensures FixState(state, draws).Some? && IsPerm(FixState(state, draws).value, n)
  {
    FixFromDone(state, draws, [], n);
    FixFromFacts(state, draws, []);
  }

  /**
   A row does not always keep its column when it is the first row holding it: on [0, 0, 1]
   the draw 1 repairs row 1, and row 2 then loses its column 1 to the draw 2.
   */
  lemma FixStateMovesFirstOccurrence()
    ensures FixState([0, 0, 1], [[], [1], [2]]) == Some([0, 1, 2])
  {
    var state, draws := [0, 0, 1], [[], [1], [2]];
    assert Pick(0, [], []) == Some(0);
    assert state[1..] == [0, 1] && draws[1..] == [[1], [2]] && [] + [0] == [0];
    assert Pick(0, [1], [0]) == Some(1);
    assert [0, 1][1..] == [1] && [[1], [2]][1..] == [[2]] && [0] + [1] == [0, 1];
    assert Pick(1, [2], [0, 1]) == Some(2);
    assert [1][1..] == [] && [[2]][1..] == [] && [0, 1] + [2] == [0, 1, 2];
    assert FixFrom([1], [[2]], [0, 1]) == Some([0, 1, 2]);
    assert FixFrom([0, 1], [[1], [2]], [0]) == Some([0, 1, 2]);
  }

  // ----- compute_similarity -----

  /** The number of rows among the first k where a and b place their queens in the same column. */
  function Agree(a: seq<int>, b: seq<int>, k: nat): (c: nat)
    requires k <= |a| && k <= |b|
    ensures c <= k
    ensures c == k <==> a[..k] == b[..k]
    ensures c == 0 <==> forall i :: 0 <= i < k ==> a[i] != b[i]
  {
    if k == 0 then 0
    else
      assert a[..k] == a[..k - 1] + [a[k - 1]] && b[..k] == b[..k - 1] + [b[k - 1]];
      if a[k - 1] == b[k - 1] then Agree(a, b, k - 1) + 1 else Agree(a, b, k - 1)
  }

  lemma {:induction false} AgreeSymmetric(a: seq<int>, b: seq<int>, k: nat)
    requires k <= |a| && k <= |b|
    ensures Agree(a, b, k) == Agree(b, a, k)
  {
    if k > 0 {
      AgreeSymmetric(a, b, k - 1);
    }
  }

  /** Multiplying by a positive number keeps the sign. */
  lemma MulSign(x: real, y: real)
    requires y > 0.0
    ensures x > 0.0 <==> x * y > 0.0
  {
    if x > 0.0 {
      assert x * y > 0.0;
    } else {
      assert x * y <= 0.0;
    }
  }

  /** The share c / n of n rows times n is c again. */
  lemma ShareTimes(c: nat, n: nat)
    requires 0 < n
    ensures (c as real / n as real) * n as real == c as real
  {
  }

  /** The share c / n of n rows lies between 0 and 1, and is 1 exactly when c == n. */
  lemma ShareBounds(c: nat, n: nat)
    requires 0 < n && c <= n
    ensures var r := c as real / n as real; 0.0 <= r <= 1.0 && (r == 1.0 <==> c == n)
  {
    var r, m := c as real / n as real, n as real;
    ShareTimes(c, n);
    MulSign(0.0 - r, m);
    assert (0.0 - r) * m == 0.0 - r * m;
    MulSign(r - 1.0, m);
    assert (r - 1.0) * m == r * m - m;
    MulSign(1.0 - r, m);
    assert (1.0 - r) * m == m - r * m;
    if r == 1.0 {
      assert r * m == m;
    }
  }

  /** The share c / n is above 0.8 exactly when 5c > 4n. */
  lemma ShareAbove(c: nat, n: nat)
    requires 0 < n
    ensures c as real / n as real > 0.8 <==> 5 * c > 4 * n
  {
    var r, m := c as real / n as real, n as real;
    ShareTimes(c, n);
    MulSign(r - 0.8, m);
    assert (r - 0.8) * m == r * m - 0.8 * m;
  }

  /** The facts about the share c / n that the similarity test relies on. */
  lemma ShareFacts(c: nat, n: nat)
    requires 0 < n && c <= n
    ensures var r := c as real / n as real; 0.0 <= r <= 1.0 && (r == 1.0 <==> c == n)
    ensures c as real / n as real > 0.8 <==> 5 * c > 4 * n
  {
    ShareBounds(c, n);
    ShareAbove(c, n);
  }

  /** `compute_similarity(state1, state2)`: the share of rows on which the two boards agree. */
  function Similarity(a: seq<int>, b: seq<int>): (r: real)
    requires 0 < |a| <= |b|
    ensures 0.0 <= r <= 1.0
    ensures r == 1.0 <==> a == b[..|a|]
  {
    var c := Agree(a, b, |a|);
    ShareFacts(c, |a|);
    assert a[..|a|] == a;
    c as real / |a| as real
  }

  /** Similarity between boards of equal length does not depend on their order. */
  lemma SimilaritySymmetric(a: seq<int>, b: seq<int>)
    requires 0 < |a| == |b|
    ensures Similarity(a, b) == Similarity(b, a)
  {
    AgreeSymmetric(a, b, |a|);
  }

  /** The `> 0.8` test of `crossover`: more than four rows in five agree. */
  predicate TooSimilar(a: seq<int>, b: seq<int>)
    requires 0 < |a| <= |b|
  {
    Similarity(a, b) > 0.8
  }

  /** The similarity test in whole numbers: five times the agreeing rows exceed four times the rows. */
  lemma TooSimilarCount(a: seq<int>, b: seq<int>)
    requires 0 < |a| <= |b|
    ensures TooSimilar(a, b) <==> 5 * Agree(a, b, |a|) > 4 * |a|
  {
    ShareFacts(Agree(a, b, |a|), |a|);
  }

  // ----- crossover -----

  /**
   `crossover(parent1, parent2)` with crossover point k, the repair draws, and the restart board
   `random_state()` would return: the head of parent1 and the tail of parent2, repaired, or
   the restart board when the repaired child is more than 80% like either parent. None when the
   repair does not finish within its draws, and None when N < 2: `randint(1, N - 1)` then has an
   empty range and raises `ValueError`, so no child is made.
   */
  function Crossover(p1: seq<int>, p2: seq<int>, k: nat, draws: seq<seq<int>>, restart: seq<int>): (r: Option<seq<int>>)
    requires |p1| == |p2| && |draws| == |p1| && (2 <= |p1| ==> 1 <= k < |p1|)
    ensures |p1| < 2 ==> r.None?
    ensures r.Some? && !(r.value == restart) ==> |r.value| == |p1|
  {
    if |p1| < 2 then None
    else
    var child := p1[..k] + p2[k..];
    match FixState(child, draws)
      case None => None
      case Some(c) => Some(if TooSimilar(c, p1) || TooSimilar(c, p2) then restart else c)
  }

  /**
   The child is a permutation whenever the parents and the restart board are: the cut keeps N
   in-range rows, and the repair makes them distinct. It is the restart board exactly when the
   repaired child is too much like a parent; otherwise row i < k keeps parent1's column and
   row i >= k parent2's, unless an earlier row of the child already holds that column.
   */
  lemma CrossoverChild(p1: seq<int>, p2: seq<int>, k: nat, draws: seq<seq<int>>, restart: seq<int>, n: nat)
    requires |p1| == n && |p2| == n && 1 <= k < n && |draws| == n
    requires IsPerm(p1, n) && IsPerm(p2, n) && IsPerm(restart, n) && CoveringDraws(draws, n)
    ensures var r := Crossover(p1, p2, k, draws, restart);
            r.Some? && IsPerm(r.value, n)
    ensures var c := FixState(p1[..k] + p2[k..], draws).value;
            var r := Crossover(p1, p2, k, draws, restart).value;
            (r == restart || r == c)
            && (TooSimilar(c, p1) || TooSimilar(c, p2) ==> r == restart)
            && (!TooSimilar(c, p1) && !TooSimilar(c, p2) ==> r == c)
            && (forall i :: 0 <= i < n ==>
                  (c[i] == (if i < k then p1[i] else p2[i]) <==> (if i < k then p1[i] else p2[i]) !in c[..i]))
  {
    var child := p1[..k] + p2[k..];
    forall i | 0 <= i < n
      ensures child[i] == if i < k then p1[i] else p2[i]
    {
    }
    assert InRange(child, n);
    FixStatePerm(child, draws, n);
    FixFromFacts(child, draws, []);
  }

  // ----- canonical_form -----

  /** Equal entries of a board without repeated columns sit in the same row. */
  lemma SameEntry(s: seq<int>, i: int, j: int)
    requires Distinct(s) && 0 <= i < |s| && 0 <= j < |s| && s[i] == s[j]
    ensures i == j
  {
  }

  /**
   The "rotation" step `tuple(state.index(i) for i in range(len(state)))`: entry v is the
   row holding column v, which is the inverse permutation (the reflection of the board in
   its main diagonal).
   */
  function Inverse(s: seq<int>): (r: seq<int>)
    requires IsPerm(s, |s|)
    ensures IsPerm(r, |s|)
    ensures forall v :: 0 <= v < |s| ==> s[r[v]] == v
  {
    PermCovers(s, |s|);
    var r := seq(|s|, v requires 0 <= v < |s| => Frontier.IndexOf(s, v));
    assert forall v :: 0 <= v < |s| ==> s[r[v]] == v;
    assert Distinct(r) by {
      forall a, b | 0 <= a < b < |r|
        ensures r[a] != r[b]
      {
        assert s[r[a]] == a && s[r[b]] == b;
      }
    }
    r
  }

  /** The inverse undoes the permutation from the other side as well. */
  lemma InverseLeft(s: seq<int>)
    requires IsPerm(s, |s|)
    ensures forall i :: 0 <= i < |s| ==> Inverse(s)[s[i]] == i
  {
    var r := Inverse(s);
    forall i | 0 <= i < |s|
      ensures r[s[i]] == i
    {
      SameEntry(s, r[s[i]], i);
    }
  }

  /** Taking the inverse twice gives the permutation back. */
  lemma InverseInverse(s: seq<int>)
    requires IsPerm(s, |s|)
    ensures Inverse(Inverse(s)) == s
  {
    var r := Inverse(s);
    var rr := Inverse(r);
    InverseLeft(s);
    forall i | 0 <= i < |s|
      ensures rr[i] == s[i]
    {
      assert r[rr[i]] == i && r[s[i]] == i;
      SameEntry(r, rr[i], s[i]);
    }
  }

  /** Reflecting in the main diagonal keeps the diagonal conflicts away. */
  lemma InverseDiagFree(s: seq<int>)
    requires IsPerm(s, |s|) && DiagFree(s, |s|)
    ensures DiagFree(Inverse(s), |s|)
  {
    var r := Inverse(s);
    forall a, b | 0 <= a < b < |s|
      ensures !DiagAttack(r, a, b)
    {
      var i, j := r[a], r[b];
      assert s[i] == a && s[j] == b;
      if i < j {
        assert !DiagAttack(s, i, j);
      } else {
        assert !DiagAttack(s, j, i);
      }
    }
  }

  /** Reversing the rows of a permutation gives a permutation. */
  lemma ReversePerm(s: seq<int>)
    requires IsPerm(s, |s|)
    ensures IsPerm(Reverse(s), |s|)
  {
    var r := Reverse(s);
    ReverseIndex(s);
    forall a, b | 0 <= a < b < |r|
      ensures r[a] != r[b]
    {
      assert r[a] == s[|s| - 1 - a] && r[b] == s[|s| - 1 - b];
    }
  }

  /** Reflecting the rows top to bottom keeps the diagonal conflicts away. */
  lemma ReverseDiagFree(s: seq<int>)
    requires DiagFree(s, |s|)
    ensures DiagFree(Reverse(s), |s|)
  {
    var r := Reverse(s);
    ReverseIndex(s);
    forall a, b | 0 <= a < b < |s|
      ensures !DiagAttack(r, a, b)
    {
      var i, j := |s| - 1 - b, |s| - 1 - a;
      assert r[a] == s[j] && r[b] == s[i];
      assert !DiagAttack(s, i, j);
    }
  }

  /** `min(...)` over a list of boards: a least one under Python's list order. */
  function MinBoard(xs: seq<seq<int>>): (m: seq<int>)
    requires |xs| > 0
    ensures m in xs
    decreases |xs|
  {
    if |xs| == 1 then xs[0]
    else
      var rest := MinBoard(xs[1..]);
      if Less(rest, xs[0]) then rest else xs[0]
  }

  /** No board of the list is below the one `MinBoard` picks. */
  lemma {:induction false} MinBoardLeast(xs: seq<seq<int>>)
    requires |xs| > 0
    ensures forall x :: x in xs ==> !Less(x, MinBoard(xs))
    decreases |xs|
  {
    var m := MinBoard(xs);
    Irreflexive(xs[0]);
    if |xs| > 1 {
      var rest := MinBoard(xs[1..]);
      MinBoardLeast(xs[1..]);
      forall x | x in xs
        ensures !Less(x, m)
      {
        if x != xs[0] {
          assert x in xs[1..];
        }
        if Less(rest, xs[0]) {
          Asymmetric(rest, xs[0]);
        } else {
          Total(rest, xs[0]);
          if x != xs[0] && Less(xs[0], rest) && Less(x, xs[0]) {
            Transitive(x, xs[0], rest);
          }
        }
      }
    }
  }

  /** The eight candidates `canonical_form` compares: the four "rotations" and their reversals. */
  function Candidates(s: seq<int>): (r: seq<seq<int>>)
    requires IsPerm(s, |s|)
    ensures |r| == 8
  {
    var r1 := Inverse(s);
    var r2 := Inverse(r1);
    var r3 := Inverse(r2);
    [s, r1, r2, r3, Reverse(s), Reverse(r1), Reverse(r2), Reverse(r3)]
  }

  /** `canonical_form(state)`: the least of the candidates. */
  function CanonicalForm(s: seq<int>): seq<int>
    requires IsPerm(s, |s|)
  {
    MinBoard(Candidates(s))
  }

  /** The three "rotations" only alternate s and its inverse, so the candidates are s, s⁻¹ and their reversals. */
  lemma CandidatesAreFour(s: seq<int>)
    requires IsPerm(s, |s|)
    ensures forall x :: x in Candidates(s) <==>
              x == s || x == Inverse(s) || x == Reverse(s) || x == Reverse(Inverse(s))
  {
    InverseInverse(s);
    InverseInverse(Inverse(s));
  }

  /**
   The canonical form is one of s, s⁻¹, rev s and rev s⁻¹, and none of these is below it;
   in particular it is never above s itself.
   */
  lemma CanonicalLeast(s: seq<int>)
    requires IsPerm(s, |s|)
    ensures var c := CanonicalForm(s);
            (c == s || c == Inverse(s) || c == Reverse(s) || c == Reverse(Inverse(s)))
            && !Less(s, c) && !Less(Inverse(s), c) && !Less(Reverse(s), c) && !Less(Reverse(Inverse(s)), c)
  {
    CandidatesAreFour(s);
    MinBoardLeast(Candidates(s));
    assert s in Candidates(s) && Inverse(s) in Candidates(s);
    assert Reverse(s) in Candidates(s) && Reverse(Inverse(s)) in Candidates(s);
  }

  /** The canonical form of a solution is a solution of the same size. */
  lemma CanonicalSolution(s: seq<int>, n: nat)
    requires IsSolution(s, n)
    ensures IsPerm(s, |s|) && IsSolution(CanonicalForm(s), n)
  {
    SolutionIsDiagFreePerm(s, n);
    CanonicalLeast(s);
    var c := CanonicalForm(s);
    var t := Inverse(s);
    InverseDiagFree(s);
    ReversePerm(s);
    ReverseDiagFree(s);
    ReversePerm(t);
    ReverseDiagFree(t);
    SolutionIsDiagFreePerm(c, n);
  }

  /** A board given entry by entry is the inverse when it undoes s. */
  lemma InverseIs(s: seq<int>, t: seq<int>)
    requires IsPerm(s, |s|) && |t| == |s| && forall v :: 0 <= v < |s| ==> 0 <= t[v] < |s| && s[t[v]] == v
    ensures Inverse(s) == t
  {
    var r := Inverse(s);
    forall v | 0 <= v < |s|
      ensures r[v] == t[v]
    {
      SameEntry(s, r[v], t[v]);
    }
  }

  /** A board given entry by entry is the reversal when it reads s bottom up. */
  lemma ReverseIs(s: seq<int>, t: seq<int>)
    requires |t| == |s| && forall i :: 0 <= i < |s| ==> t[i] == s[|s| - 1 - i]
    ensures Reverse(s) == t
  {
    ReverseIndex(s);
  }

  /** The canonical form is whichever of s, s⁻¹, rev s and rev s⁻¹ has none of the four below it. */
  lemma CanonicalOfFour(s: seq<int>, inv: seq<int>, rev: seq<int>, revInv: seq<int>, least: seq<int>)
    requires IsPerm(s, |s|) && Inverse(s) == inv && Reverse(s) == rev && Reverse(inv) == revInv
    requires least == s || least == inv || least == rev || least == revInv
    requires !Less(s, least) && !Less(inv, least) && !Less(rev, least) && !Less(revInv, least)
    ensures CanonicalForm(s) == least
  {
    CanonicalLeast(s);
    Total(CanonicalForm(s), least);
  }

  /** The reflections of (2, 1, 3, 0). */
  lemma FirstReflections()
    ensures IsPerm([2, 1, 3, 0], 4) && Inverse([2, 1, 3, 0]) == [3, 1, 0, 2]
    ensures Reverse([2, 1, 3, 0]) == [0, 3, 1, 2] && Reverse([3, 1, 0, 2]) == [2, 0, 1, 3]
  {
    assert IsPerm([2, 1, 3, 0], 4);
    InverseIs([2, 1, 3, 0], [3, 1, 0, 2]);
    ReverseIs([2, 1, 3, 0], [0, 3, 1, 2]);
    ReverseIs([3, 1, 0, 2], [2, 0, 1, 3]);
  }

  /** No reflection of (2, 1, 3, 0) is below its reversal (0, 3, 1, 2). */
  lemma FirstOrder()
    ensures !Less([2, 1, 3, 0], [0, 3, 1, 2]) && !Less([3, 1, 0, 2], [0, 3, 1, 2])
    ensures !Less([0, 3, 1, 2], [0, 3, 1, 2]) && !Less([2, 0, 1, 3], [0, 3, 1, 2])
  {
    var s, inv, rev, revInv := [2, 1, 3, 0], [3, 1, 0, 2], [0, 3, 1, 2], [2, 0, 1, 3];
    Irreflexive(rev);
    LessAt(rev, s, 0);
    Asymmetric(rev, s);
    LessAt(rev, inv, 0);
    Asymmetric(rev, inv);
    LessAt(rev, revInv, 0);
    Asymmetric(rev, revInv);
  }

  /** (2, 1, 3, 0) has canonical form (0, 3, 1, 2). */
  lemma CanonicalOfFirst()
    ensures IsPerm([2, 1, 3, 0], 4) && CanonicalForm([2, 1, 3, 0]) == [0, 3, 1, 2]
  {
    FirstReflections();
    FirstOrder();
    CanonicalOfFour([2, 1, 3, 0], [3, 1, 0, 2], [0, 3, 1, 2], [2, 0, 1, 3], [0, 3, 1, 2]);
  }

  /** The reflections of (0, 3, 1, 2). */
  lemma SecondReflections()
    ensures IsPerm([0, 3, 1, 2], 4) && Inverse([0, 3, 1, 2]) == [0, 2, 3, 1]
    ensures Reverse([0, 3, 1, 2]) == [2, 1, 3, 0] && Reverse([0, 2, 3, 1]) == [1, 3, 2, 0]
  {
    assert IsPerm([0, 3, 1, 2], 4);
    InverseIs([0, 3, 1, 2], [0, 2, 3, 1]);
    ReverseIs([0, 3, 1, 2], [2, 1, 3, 0]);
    ReverseIs([0, 2, 3, 1], [1, 3, 2, 0]);
  }

  /** No reflection of (0, 3, 1, 2) is below its inverse (0, 2, 3, 1). */
  lemma SecondOrder()
    ensures !Less([0, 3, 1, 2], [0, 2, 3, 1]) && !Less([0, 2, 3, 1], [0, 2, 3, 1])
    ensures !Less([2, 1, 3, 0], [0, 2, 3, 1]) && !Less([1, 3, 2, 0], [0, 2, 3, 1])
  {
    var s, inv, rev, revInv := [0, 3, 1, 2], [0, 2, 3, 1], [2, 1, 3, 0], [1, 3, 2, 0];
    Irreflexive(inv);
    assert inv[..1] == s[..1];
    LessAt(inv, s, 1);
    Asymmetric(inv, s);
    LessAt(inv, rev, 0);
    Asymmetric(inv, rev);
    LessAt(inv, revInv, 0);
    Asymmetric(inv, revInv);
  }

  /** (0, 3, 1, 2) has canonical form (0, 2, 3, 1). */
  lemma CanonicalOfSecond()
    ensures IsPerm([0, 3, 1, 2], 4) && CanonicalForm([0, 3, 1, 2]) == [0, 2, 3, 1]
  {
    SecondReflections();
    SecondOrder();
    CanonicalOfFour([0, 3, 1, 2], [0, 2, 3, 1], [2, 1, 3, 0], [1, 3, 2, 0], [0, 2, 3, 1]);
  }

  /**
   `canonical_form` is not idempotent: the form of (2, 1, 3, 0) is (0, 3, 1, 2), whose own form
   is (0, 2, 3, 1), so one arrangement class can be recorded under two different forms.
   */
  lemma CanonicalNotIdempotent()
    ensures IsPerm([2, 1, 3, 0], 4) && IsPerm(CanonicalForm([2, 1, 3, 0]), 4)
    ensures CanonicalForm(CanonicalForm([2, 1, 3, 0])) != CanonicalForm([2, 1, 3, 0])
  {
    CanonicalOfFirst();
    CanonicalOfSecond();
  }

  // ----- expected_solutions_count and the early stop -----

  /** The table of `expected_solutions_count`. */
  const Precomputed: map<nat, nat> := map[1 := 1, 4 := 2, 8 := 92, 10 := 724, 12 := 14200]

  /** `expected_solutions_count()`: the table's entry for N, or 0 (`dict.get(N, 0)`). */
  function ExpectedSolutionsCount(n: nat): (r: nat)
    ensures n in Precomputed ==> r == Precomputed[n]
    ensures n !in Precomputed ==> r == 0
  {
    if n in Precomputed then Precomputed[n] else 0
  }

  /** The stop test of the generation loop: as many recorded canonical forms as the table's count. */
  predicate EarlyStop(found: set<seq<int>>, n: nat)
  {
    |found| == ExpectedSolutionsCount(n)
  }

  /** For N outside the table the loop stops after a generation exactly when nothing has been recorded. */
  lemma EarlyStopOutsideTable(found: set<seq<int>>, n: nat)
    requires n !in Precomputed
    ensures EarlyStop(found, n) <==> found == {}
  {
    if |found| == 0 {
      assert found == {};
    }
  }

  /** Two queens in rows d apart that share no column and no diagonal. */
  predicate Apart(x: int, y: int, d: int)
  {
    x != y && x - y != d && y - x != d
  }

  /** The only column choices for four rows with no two queens attacking. */
  lemma FourColumns(x0: int, x1: int, x2: int, x3: int)
    requires 0 <= x0 < 4 && 0 <= x1 < 4 && 0 <= x2 < 4 && 0 <= x3 < 4
    requires Apart(x0, x1, 1) && Apart(x0, x2, 2) && Apart(x0, x3, 3)
    requires Apart(x1, x2, 1) && Apart(x1, x3, 2) && Apart(x2, x3, 1)
    ensures (x0 == 1 && x1 == 3 && x2 == 0 && x3 == 2) || (x0 == 2 && x1 == 0 && x2 == 3 && x3 == 1)
  {
  }

  /** The two solutions for N = 4. */
  lemma FourQueens(b: seq<int>)
    ensures IsSolution(b, 4) <==> b == [1, 3, 0, 2] || b == [2, 0, 3, 1]
  {
    if IsSolution(b, 4) {
      assert !Attack(b, 0, 1) && !Attack(b, 0, 2) && !Attack(b, 0, 3);
      assert !Attack(b, 1, 2) && !Attack(b, 1, 3) && !Attack(b, 2, 3);
      assert 0 <= b[0] < 4 && 0 <= b[1] < 4 && 0 <= b[2] < 4 && 0 <= b[3] < 4;
      FourColumns(b[0], b[1], b[2], b[3]);
      assert b == [b[0], b[1], b[2], b[3]];
    }
    if b == [1, 3, 0, 2] || b == [2, 0, 3, 1] {
      forall i, j | 0 <= i < j < 4
        ensures !Attack(b, i, j)
      {
      }
    }
  }

  /**
   The table's entries for N = 1 and N = 4 are the numbers of solutions: any list that holds
   each solution once, such as the sorted list `Backtracking.Solve(n).0`, has that length.
   */
  lemma TableMatchesSearch(n: nat, sols: seq<seq<int>>)
    requires n == 1 || n == 4
    requires Sorted(sols) && forall b :: b in sols <==> IsSolution(b, n)
    ensures |sols| == ExpectedSolutionsCount(n)
  {
    if n == 1 {
      forall b
        ensures b in sols <==> b in [[0]]
      {
        if IsSolution(b, n) {
          assert b == [b[0]];
        }
        assert IsSolution([0], n);
      }
      SortedUnique(sols, [[0]]);
    } else {
      LessAt([1, 3, 0, 2], [2, 0, 3, 1], 0);
      forall b
        ensures b in sols <==> b in [[1, 3, 0, 2], [2, 0, 3, 1]]
      {
        FourQueens(b);
      }
      SortedUnique(sols, [[1, 3, 0, 2], [2, 0, 3, 1]]);
    }
  }

  /** The inverses of the two solutions for N = 4: each is the other's. */
  lemma FourInverses()
    ensures IsPerm([1, 3, 0, 2], 4) && IsPerm([2, 0, 3, 1], 4)
    ensures Inverse([1, 3, 0, 2]) == [2, 0, 3, 1] && Inverse([2, 0, 3, 1]) == [1, 3, 0, 2]
  {
    assert IsPerm([1, 3, 0, 2], 4) && IsPerm([2, 0, 3, 1], 4);
    InverseIs([1, 3, 0, 2], [2, 0, 3, 1]);
    InverseIs([2, 0, 3, 1], [1, 3, 0, 2]);
  }

  /** The reversals of the two solutions for N = 4: each is the other's. */
  lemma FourReverses()
    ensures Reverse([1, 3, 0, 2]) == [2, 0, 3, 1] && Reverse([2, 0, 3, 1]) == [1, 3, 0, 2]
  {
    ReverseIs([1, 3, 0, 2], [2, 0, 3, 1]);
    ReverseIs([2, 0, 3, 1], [1, 3, 0, 2]);
  }

  /** Both solutions for N = 4 have the canonical form (1, 3, 0, 2). */
  lemma FourForms()
    ensures IsPerm([1, 3, 0, 2], 4) && CanonicalForm([1, 3, 0, 2]) == [1, 3, 0, 2]
    ensures IsPerm([2, 0, 3, 1], 4) && CanonicalForm([2, 0, 3, 1]) == [1, 3, 0, 2]
  {
    var a, c := [1, 3, 0, 2], [2, 0, 3, 1];
    FourInverses();
    FourReverses();
    Irreflexive(a);
    LessAt(a, c, 0);
    Asymmetric(a, c);
    CanonicalOfFour(a, c, c, a, a);
    CanonicalOfFour(c, a, a, c, a);
  }

  /** Every solution for N = 4 has the canonical form (1, 3, 0, 2). */
  lemma FourCanonical(b: seq<int>)
    requires IsSolution(b, 4)
    ensures IsPerm(b, 4) && CanonicalForm(b) == [1, 3, 0, 2]
  {
    FourQueens(b);
    FourForms();
  }

  /**
   The harvest after each generation: the canonical form of every goal board of the
   population joins the recorded set. Population boards are full boards, as `random_state`,
   `crossover` and `mutate` produce them.
   */
  function Harvest(population: seq<seq<int>>, found: set<seq<int>>, n: nat): (r: set<seq<int>>)
    requires forall s :: s in population ==> IsPerm(s, n)
    ensures found <= r
    decreases |population|
  {
    if |population| == 0 then found
    else
      var s := population[0];
      assert s in population;
      assert IsPerm(s, n);
      assert IsPerm(s, |s|);
      var next := if RewardGoal(s, n) && CanonicalForm(s) !in found then found + {CanonicalForm(s)} else found;
      Harvest(population[1..], next, n)
  }

  /** The canonical form of a board when it is a solution, as a set of at most one form. */
  function SolutionForm(b: seq<int>, n: nat): (r: set<seq<int>>)
    ensures r != {} <==> IsPerm(b, |b|) && IsSolution(b, n)
  {
    if IsPerm(b, |b|) && IsSolution(b, n) then {CanonicalForm(b)} else {}
  }

  /** The canonical forms of the solutions on a list of boards. */
  function SolutionForms(boards: seq<seq<int>>, n: nat): set<seq<int>>
  {
    set b | b in boards && IsPerm(b, |b|) && IsSolution(b, n) :: CanonicalForm(b)
  }

  /** Splitting off the first board of the list. */
  lemma SolutionFormsCons(boards: seq<seq<int>>, n: nat)
    requires |boards| > 0
    ensures SolutionForms(boards, n) == SolutionForm(boards[0], n) + SolutionForms(boards[1..], n)
  {
    assert forall b :: b in boards <==> b == boards[0] || b in boards[1..];
  }

  /** One board of the harvest: a goal board adds its form, any other board adds nothing. */
  lemma HarvestStep(population: seq<seq<int>>, found: set<seq<int>>, n: nat)
    requires |population| > 0 && forall s :: s in population ==> IsPerm(s, n)
    ensures Harvest(population, found, n) == Harvest(population[1..], found + SolutionForm(population[0], n), n)
  {
    var s := population[0];
    assert s in population && IsPerm(s, n);
    SolutionIsDiagFreePerm(s, n);
    assert RewardGoal(s, n) <==> IsSolution(s, n);
    var next := if RewardGoal(s, n) && CanonicalForm(s) !in found then found + {CanonicalForm(s)} else found;
    assert Harvest(population, found, n) == Harvest(population[1..], next, n);
    if IsSolution(s, n) {
      assert SolutionForm(s, n) == {CanonicalForm(s)};
    } else {
      assert SolutionForm(s, n) == {};
    }
    assert next == found + SolutionForm(s, n);
  }

  /** The harvest adds exactly the canonical forms of the population's solutions. */
  lemma {:induction false} HarvestForms(population: seq<seq<int>>, found: set<seq<int>>, n: nat)
    requires forall s :: s in population ==> IsPerm(s, n)
    ensures Harvest(population, found, n) == found + SolutionForms(population, n)
    decreases |population|
  {
    if |population| == 0 {
      assert SolutionForms(population, n) == {};
    } else {
      var head := SolutionForm(population[0], n);
      HarvestStep(population, found, n);
      HarvestForms(population[1..], found + head, n);
      SolutionFormsCons(population, n);
    }
  }

  /** Harvesting keeps the recorded set among the classes of the solutions. */
  lemma HarvestWithinClasses(population: seq<seq<int>>, found: set<seq<int>>, n: nat, sols: seq<seq<int>>)
    requires forall s :: s in population ==> IsPerm(s, n)
    requires forall b :: IsSolution(b, n) ==> b in sols
    requires found <= CanonicalClasses(sols)
    ensures Harvest(population, found, n) <= CanonicalClasses(sols)
  {
    HarvestForms(population, found, n);
  }

  /** The canonical forms of the boards of a solution list: the classes the early stop is meant to count. */
  function CanonicalClasses(sols: seq<seq<int>>): set<seq<int>>
  {
    set b | b in sols && IsPerm(b, |b|) :: CanonicalForm(b)
  }

  /** The stop test as intended: as many recorded forms as there are classes among the solutions. */
  predicate AllClassesFound(found: set<seq<int>>, sols: seq<seq<int>>)
  {
    |found| == |CanonicalClasses(sols)|
  }

  /** A subset as large as its superset is the whole superset. */
  lemma SubsetCard<T>(a: set<T>, b: set<T>)
    requires a <= b && |a| == |b|
    ensures a == b
  {
    assert b == a + (b - a);
    assert |b - a| == 0;
  }

  /** When only canonical forms of solutions are recorded, the intended test fires exactly when every class is recorded. */
  lemma AllClassesFoundIff(found: set<seq<int>>, sols: seq<seq<int>>)
    requires found <= CanonicalClasses(sols)
    ensures AllClassesFound(found, sols) <==> found == CanonicalClasses(sols)
  {
    if |found| == |CanonicalClasses(sols)| {
      SubsetCard(found, CanonicalClasses(sols));
    }
  }

  /** Every canonical form among the solutions for N = 4 is (1, 3, 0, 2). */
  lemma FourClassesWithin(sols: seq<seq<int>>)
    requires forall b :: b in sols ==> IsSolution(b, 4)
    ensures CanonicalClasses(sols) <= {[1, 3, 0, 2]}
  {
    forall f | f in CanonicalClasses(sols)
      ensures f == [1, 3, 0, 2]
    {
      var b :| b in sols && IsPerm(b, |b|) && f == CanonicalForm(b);
      FourCanonical(b);
    }
  }

  /** A nonempty list of solutions has at least one class. */
  lemma ClassesNonEmpty(sols: seq<seq<int>>, n: nat)
    requires |sols| > 0 && forall b :: b in sols ==> IsSolution(b, n)
    ensures CanonicalClasses(sols) != {}
  {
    var b := sols[0];
    assert b in sols;
    SolutionIsDiagFreePerm(b, n);
    assert CanonicalForm(b) in CanonicalClasses(sols);
  }

  /** The solutions for N = 4 form a single class, (1, 3, 0, 2). */
  lemma FourClassSet(sols: seq<seq<int>>)
    requires forall b :: b in sols <==> IsSolution(b, 4)
    ensures CanonicalClasses(sols) == {[1, 3, 0, 2]}
  {
    FourClassesWithin(sols);
    FourQueens([1, 3, 0, 2]);
    assert [1, 3, 0, 2] in sols;
    ClassesNonEmpty(sols, 4);
  }

  /**
   The early stop never fires for N = 4: the recorded forms are canonical forms of solutions,
   both solutions share one form, and the table asks for two.
   */
  lemma FourNeverStops(found: set<seq<int>>, sols: seq<seq<int>>)
    requires forall b :: b in sols ==> IsSolution(b, 4)
    requires found <= CanonicalClasses(sols)
    ensures |found| <= 1 && !EarlyStop(found, 4)
  {
    FourClassesWithin(sols);
    AtMostOne(found, [1, 3, 0, 2]);
  }

  /** A subset of a singleton has at most one element. */
  lemma AtMostOne<T>(a: set<T>, x: T)
    requires a <= {x}
    ensures |a| <= 1
  {
    if x in a {
      assert a == {x};
    } else {
      assert a == {};
    }
  }

  /** The intended test for N = 4 fires as soon as the one class (1, 3, 0, 2) is recorded. */
  lemma FourClasses(found: set<seq<int>>, sols: seq<seq<int>>)
    requires forall b :: b in sols <==> IsSolution(b, 4)
    requires found <= CanonicalClasses(sols)
    ensures AllClassesFound(found, sols) <==> [1, 3, 0, 2] in found
  {
    FourClassSet(sols);
    AllClassesFoundIff(found, sols);
  }
}
