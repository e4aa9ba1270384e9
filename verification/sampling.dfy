/**
 `tuple(random.sample(range(N), N))`, the fresh board of the genetic strategy (`random_state`)
 and the episode start of the reinforcement strategy (`random_initial_state`). The random
 draw is a parameter: the index of the drawn arrangement among all arrangements of 0..N-1.
 */
module Sampling {
  import opened Board
  import BruteForce

  /** The arrangements `random.sample(range(n), n)` can return, one per index. */
  function Arrangements(n: nat): seq<seq<int>>
  {
    BruteForce.Permutations(BruteForce.Range(n))
  }

  /** A random full board: the arrangement of 0..n-1 the draw selects. */
  function RandomPermutation(n: nat, pick: nat): (r: seq<int>)
    requires pick < |Arrangements(n)|
    ensures IsPerm(r, n)
  {
    BruteForce.CandidatesArePermutations(n);
    assert Arrangements(n)[pick] in Arrangements(n);
    Arrangements(n)[pick]
  }

  /** Every permutation of 0..n-1 is the outcome of some draw. */
  lemma EveryPermutationDrawn(n: nat, p: seq<int>) returns (pick: nat)
    requires IsPerm(p, n)
    ensures pick < |Arrangements(n)| && RandomPermutation(n, pick) == p
  {
    BruteForce.CandidatesArePermutations(n);
    assert p in Arrangements(n);
    pick :| pick < |Arrangements(n)| && Arrangements(n)[pick] == p;
  }
}
