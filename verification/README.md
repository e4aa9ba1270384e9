# N-Queens solvers, modelled in Dafny

This project models the core of a Python N-Queens benchmark. The benchmark solves the
N-Queens puzzle with seven strategies and records a metric for each:

- recursive backtracking;
- brute force over permutations;
- breadth-first and depth-first search;
- A*;
- a genetic algorithm;
- Q-learning.

A board is a sequence of columns indexed by row. The searches that build boards row by
row pad the empty rows with the sentinel `-1` (`Board.Empty`).

Modules, one per source file or shared concept:

- `Lex` — Python's order on lists: `min`, `heapq` and the recording order all rely on it.
- `Board` — the conflict checks (`is_valid_move`, `is_valid_board`), the diagonal
  conflict count `compute_reward`, and the notions of permutation and solution.
- `Solver` — `NQueensSolver.__init__`, the signed-difference `is_safe`, and the metric record.
- `Backtracking` — `backtrack`. This is the reference search: the other searches are proved
  equal to it.
- `BruteForce` — `itertools.permutations(range(N))` in its lexicographic order, and the
  reward filter.
- `Frontier` — what BFS, DFS and A* share:
  - the padded board;
  - `state.index(-1)`;
  - `get_possible_next_states`;
  - the link between a padded board and the backtracking search from its placed rows.
- `BfsDfs` — the queue and stack loops, as Dafny `while` loops with their invariants.
- `AStar` — the heap loop with its `g_cost` map.
- `Sampling` — `random.sample(range(N), N)`. The draw is a parameter that names one of the
  permutations.
- `Genetic` — the deterministic pieces of the genetic strategy:
  - `mutate`, `fix_state`, `crossover`, `compute_similarity`;
  - `canonical_form`, `expected_solutions_count`;
  - the harvest of solutions after a generation, and the early-stop test.
- `Reinforcement` — the pieces of the Q-learning strategy:
  - `apply_action`, `is_goal_state`, `get_best_action` (`np.argmax`);
  - the Q-table initialisation and update;
  - the episode loop, driven by given actions.

Every random outcome becomes a parameter: sampled rows, crossover points, `random.choice`
columns, start boards, and explore-or-exploit actions.

Main results:

- Backtracking and brute force record the same boards in the same order (lists in one,
  tuples in the other): every solution exactly once, in strictly increasing lexicographic
  order.
- BFS records those boards in that order.
- DFS records them in reverse order.
- A* records the same solutions as a multiset, each once.
- A*'s `g_cost` ends up holding exactly one entry per node of the search tree, and each entry
  is the board's number of placed rows.

## Behaviour worth knowing

- `fix_state` replaces a repeated column by a column drawn with `random.choice`. An earlier
  replacement can take a value that appears later in the row, so a first occurrence may
  itself be replaced (`Genetic.FixStateMovesFirstOccurrence`).
- The similarity test of `crossover` is strict: a child is replaced only when more than 80%
  of its rows agree with a parent.
- `crossover` draws its cut with `random.randint(1, N - 1)`. For N < 2 that range is empty
  and Python raises `ValueError`. The crossover loop runs before the first harvest, so for
  N = 1 the genetic `solve` stops before it records anything (`Genetic.Crossover`).
- The three "rotations" of `canonical_form` compute the inverse permutation and then undo it.
  So the candidates are s, s⁻¹ and their reversals. The canonical form is not idempotent
  (`Genetic.CanonicalNotIdempotent`).
- A* breaks ties between equal costs by comparing the boards as lists. Its heuristic also
  counts the `-1` sentinels as columns (`AStar.HeuristicCountsSentinels`).
- The genetic metric reports the number of recorded canonical forms as its `iterations`.
- Q-learning:
  - An episode starts from a full permutation, and `apply_action` leaves a full board as it
    is. So an episode that starts on a goal skips its loop and records nothing, and one that
    does not never leaves its loop. `solve` returns only when every start board is a goal,
    and then it records no solution (`Reinforcement.SolveReturnsIff`).
  - `get_all_possible_states` names `itertools`, which the file never imports
    (methods/reinforcement.py:76). `solve` therefore stops with a `NameError` before its
    first episode.
  - The model builds the Q-table as if the import were present.

## Model

| member | source | states |
|---|---|---|
| Solver.NewSolver | n_queens_solver.py:2-5 | a fresh solver keeps N and starts with no solutions and no metrics |
| Solver.IsSafe | n_queens_solver.py:7-14 | a placement at (row, col) is safe iff no earlier row i has column col, or board[i]-i == col-row, or board[i]+i == col+row |
| Solver.IsSafeIsValidMove | n_queens_solver.py:7-14 | the signed-difference `is_safe` agrees with the abs-form `is_valid_move` on every board, row and column |
| Solver.IsSafeReadsPrefix | n_queens_solver.py:9 | `is_safe` reads only rows 0..row-1: boards that agree there get the same answer |
| Solver.IsSafeFirstRow | n_queens_solver.py:9-14 | row 0 is always safe, because the loop over earlier rows is empty |
| Board.IsValidMove | methods/backtracking.py:44-49 | true iff no earlier row shares the column or a diagonal (equal column and row distances) with (row, col) |
| Board.IsValidBoard | methods/bfs_dfs.py:72-78 | true iff no pair of rows shares a column or a diagonal |
| Board.ComputeReward | methods/brute_force.py:41-48 | the conflict count is zero iff no pair i < j < N lies on a common diagonal |
| Board.RewardCountsPairs | methods/brute_force.py:41-48 | the conflict count equals the number of pairs of rows i < j < N that lie on a common diagonal |
| Board.RewardBound | methods/brute_force.py:41-48 | the conflict count is at most N(N-1)/2 |
| Board.SolutionIsDiagFreePerm | methods/brute_force.py:46 | an N-row board is a solution iff it is a permutation of 0..N-1 with no diagonal pair |
| Board.ExtendPrefix | methods/backtracking.py:40-42 | appending column c to a valid placement of fewer than N rows gives a valid placement iff c is in 0..N-1 and passes `is_valid_move` |
| Board.SolutionPrefix | methods/backtracking.py:40-42 | every prefix of a solution is a valid placement, so backtracking can reach every solution |
| Backtracking.Backtrack | methods/backtracking.py:31-42 | every recorded board extends `state` to N rows; from a valid placement every recorded board is a solution; every solution extending `state` is recorded; the records are in strictly increasing order |
| Backtracking.TryColumns | methods/backtracking.py:40-42 | the same for the column loop from col on: the recorded boards put a column >= col in this row, and every solution that does is recorded |
| Backtracking.Solve | methods/backtracking.py:20-29 | records exactly the solutions, each once, in strictly increasing lexicographic order; `iterations` and `solutions_found` both equal the number recorded |
| BruteForce.Permutations | methods/brute_force.py:20 | for a pool of distinct values, exactly the arrangements of the pool; in increasing order when the pool is increasing |
| BruteForce.CandidatesArePermutations | methods/brute_force.py:20 | the candidates are exactly the permutations of 0..N-1, in strictly increasing lexicographic order |
| BruteForce.KeepGoals | methods/brute_force.py:20-26 | keeps exactly the candidates whose conflict count is 0; a sorted candidate list gives a sorted result |
| BruteForce.RewardZeroIffSolution | methods/brute_force.py:37-39 | on a permutation, `is_goal_state` holds iff the board is a solution |
| BruteForce.RewardIgnoresColumns | methods/brute_force.py:46 | the count ignores shared columns: [0, 0] scores 0 but is not a solution |
| BruteForce.Solve | methods/brute_force.py:20-35 | the recorded list equals backtracking's list; it holds exactly the solutions; `iterations` and `solutions_found` equal its length |
| Frontier.Depth | methods/bfs_dfs.py:54 | the number of leading rows that hold a queen; the row after them, if any, is `-1` |
| Frontier.IndexOf | methods/bfs_dfs.py:54 | `list.index`: the position of the first occurrence of the value |
| Frontier.IndexOfEmpty | methods/bfs_dfs.py:54 | `state.index(-1)` is the number of placed rows |
| Frontier.PartialGoal | methods/bfs_dfs.py:48-50 | on a frontier board, `is_goal_state` holds iff all N rows are placed, and `-1` occurs iff some row is still empty, so `state.index(-1)` never fails on a board that is expanded |
| Frontier.SuccessorsShape | methods/bfs_dfs.py:52-63 | every successor differs from the board only in its first `-1` row, which holds a column that passes `is_valid_move`; every such column gives a successor; the columns strictly increase |
| Frontier.ChildPartial | methods/bfs_dfs.py:57-61 | a successor of a frontier board is a frontier board with one more placed row |
| Frontier.RootPartial | methods/bfs_dfs.py:22 | the start board `[-1] * N` is a frontier board whose solutions are all of backtracking's |
| Frontier.CompleteBoard | methods/bfs_dfs.py:29-34 | a frontier board with every row placed is a goal and is the only solution below itself |
| Frontier.SuccessorsMatch | methods/bfs_dfs.py:52-63 | the successors are frontier boards one row deeper; their solutions, in order, are those below the board; the number of nodes left strictly decreases |
| BfsDfs.BfsSolve | methods/bfs_dfs.py:22-46 | BFS records backtracking's list: every solution once, in strictly increasing order; the metric is "BFS" with `solutions_found` equal to the number recorded |
| BfsDfs.DfsStep | methods/bfs_dfs.py:98-111 | one pop from the stack keeps "recorded + reversed solutions below the stack = all solutions reversed", and strictly shrinks the nodes left |
| BfsDfs.DfsSolve | methods/bfs_dfs.py:95-119 | DFS records the reverse of backtracking's list: every solution once, in strictly decreasing order; the metric is "DFS" with `solutions_found` equal to the number recorded |
| AStar.EntryTotal | methods/a_star.py:27 | Python's order on `(f_cost, state)` relates every two distinct heap entries |
| AStar.EntryTransitive | methods/a_star.py:27 | that order is transitive |
| AStar.HeapPopLeast | methods/a_star.py:27 | `heappop` returns an entry of the heap that no other entry precedes, and leaves the other entries |
| AStar.ChildrenFresh | methods/a_star.py:38-45 | the successors of a popped board are frontier boards one row deeper, have it as their parent, and are absent from `g_cost`, so the "lower cost" branch never revises an entry |
| AStar.PushFreshOpen | methods/a_star.py:38-45 | fresh successors are all pushed, in order, each with f = g + 1 + heuristic |
| AStar.PushFreshCosts | methods/a_star.py:43-44 | `g_cost` gains exactly the fresh successors, each at the popped board's cost plus 1 |
| AStar.AStarSolve | methods/a_star.py:21-53 | records exactly the solutions, each once, as a multiset equal to backtracking's; every `g_cost` key is a frontier board mapped to its number of placed rows; `g_cost` holds one board per node of the search tree; the metric is "A*" with `solutions_found` equal to the number recorded |
| AStar.HeuristicCountsSentinels | methods/a_star.py:87-98 | the heuristic counts `-1` rows as columns: [0, -1, -1, -1] scores 1 |
| Sampling.RandomPermutation | methods/genetic.py:72-74 | a drawn board is a permutation of 0..N-1 |
| Sampling.EveryPermutationDrawn | methods/reinforcement.py:70-72 | every permutation of 0..N-1 is the outcome of some draw |
| Genetic.Mutate | methods/genetic.py:87-92 | the two sampled rows trade columns, every other row keeps its column, and the multiset of columns is unchanged |
| Genetic.MutateTwice | methods/genetic.py:91 | swapping the same two rows again restores the board |
| Genetic.MutateKeepsPerm | methods/genetic.py:87-92 | a mutated permutation is a permutation |
| Genetic.Pick | methods/genetic.py:99-100 | an unseen column is kept; otherwise a drawn column not yet used is taken; nothing is taken iff the column and every draw are already used |
| Genetic.FixFromFacts | methods/genetic.py:94-103 | the repaired board has the input's length; row k keeps its column iff that column is not already in the output before row k; otherwise the row holds one of its draws; the output has no repeated column |
| Genetic.FixFromDone | methods/genetic.py:98-102 | when each row's draws cover 0..N-1, repair finishes with every column in 0..N-1 |
| Genetic.FixStatePerm | methods/genetic.py:94-103 | repairing a length-N row over 0..N-1 gives a permutation, whichever unused columns are drawn |
| Genetic.FixStateMovesFirstOccurrence | methods/genetic.py:98-102 | repair can move a first occurrence: (0, 0, 1) with draws 1 then 2 becomes (0, 1, 2) |
| Genetic.Agree | methods/genetic.py:116 | the number of equal positions is at most the length; it is the full length iff the boards are equal; it is zero iff they differ everywhere |
| Genetic.Similarity | methods/genetic.py:114-116 | the similarity lies in [0, 1] and is 1 iff the two boards are equal |
| Genetic.SimilaritySymmetric | methods/genetic.py:114-116 | the similarity of equal-length boards does not depend on their order |
| Genetic.TooSimilarCount | methods/genetic.py:83 | similarity > 0.8 iff 5 × (equal positions) > 4 × N |
| Genetic.Crossover | methods/genetic.py:76-78 | for N < 2 no child is made, because the cut `randint(1, N - 1)` has an empty range |
| Genetic.CrossoverChild | methods/genetic.py:76-85 | the child is a permutation; it is the restart board exactly when the repaired splice `p1[:k] + p2[k:]` is too similar to a parent, and the repaired splice otherwise; each row of the repaired splice keeps its spliced column iff that column is not used earlier |
| Genetic.Inverse | methods/genetic.py:109 | `tuple(state.index(i) …)` is a permutation that undoes the board: s[r[v]] == v |
| Genetic.InverseInverse | methods/genetic.py:108-110 | the inverse of the inverse is the board itself, so the three "rotations" alternate s and s⁻¹ |
| Genetic.InverseDiagFree | methods/genetic.py:109 | the inverse of a permutation with no diagonal pair has none |
| Genetic.ReverseDiagFree | methods/genetic.py:111 | the reversal of a board with no diagonal pair has none |
| Genetic.MinBoardLeast | methods/genetic.py:112 | `min` returns a candidate that no candidate precedes in list order |
| Genetic.CandidatesAreFour | methods/genetic.py:107-111 | the eight candidates are exactly s, s⁻¹, rev s and rev s⁻¹ |
| Genetic.CanonicalLeast | methods/genetic.py:105-112 | the canonical form is one of the four candidates, and none of them precedes it (in particular it is at most s) |
| Genetic.CanonicalSolution | methods/genetic.py:105-112 | the canonical form of a solution is a solution |
| Genetic.CanonicalNotIdempotent | methods/genetic.py:105-112 | the canonical form of (2, 1, 3, 0) is (0, 3, 1, 2), whose canonical form is (0, 2, 3, 1) |
| Genetic.TableMatchesSearch | methods/genetic.py:131-135 | the table's entries for N = 1 and N = 4 are the numbers of solutions (those are the two sizes the model checks) |
| Genetic.EarlyStopOutsideTable | methods/genetic.py:56-57 | for N outside the table the loop breaks iff nothing has been recorded |
| Genetic.HarvestForms | methods/genetic.py:48-51 | a generation adds to the recorded set exactly the canonical forms of its solutions |
| Genetic.HarvestWithinClasses | methods/genetic.py:48-51 | the recorded set stays within the canonical forms of the solutions |
| Genetic.FourCanonical | methods/genetic.py:105-112 | both solutions for N = 4 have the canonical form (1, 3, 0, 2) |
| Genetic.FourNeverStops | methods/genetic.py:56 | for N = 4 at most one form is ever recorded, so the test against the table's 2 never fires |
| Genetic.AllClassesFoundIff | methods/genetic.py:56 | compared with the number of classes, the test fires iff every class of the solutions has been recorded |
| Genetic.FourClasses | methods/genetic.py:56 | for N = 4 the corrected test fires iff (1, 3, 0, 2) has been recorded |
| Reinforcement.ApplyAction | methods/reinforcement.py:91-98 | if one of the first N rows holds `-1`, the first such row gets the action and nothing else changes; otherwise the board is returned unchanged |
| Reinforcement.ApplyActionFull | methods/reinforcement.py:93-98 | a full permutation is never changed by an action |
| Reinforcement.ApplyActionIsChild | methods/reinforcement.py:94-97 | on a frontier board the action fills the first empty row, like the searches' successors |
| Reinforcement.Run | methods/reinforcement.py:35-57 | the loop never ends by skipping; a recorded board has the start board's length and conflict count 0 |
| Reinforcement.Episode | methods/reinforcement.py:32-57 | the loop is skipped iff the start is a goal; what an episode records is a goal of the same length |
| Reinforcement.RunFromFull | methods/reinforcement.py:35-51 | from a full permutation that is not a goal the loop never ends, whatever actions it takes |
| Reinforcement.EpisodeFromFull | methods/reinforcement.py:32-57 | an episode that starts from a full permutation records nothing; it never ends iff its start is not a goal |
| Reinforcement.RecordedIsSolution | methods/reinforcement.py:51-56 | a recorded full permutation is a solution |
| Reinforcement.ArgMax | methods/reinforcement.py:102 | `np.argmax`: a position exists iff the row is nonempty; it holds the largest value, and every earlier value is strictly smaller |
| Reinforcement.ArgMaxUnique | methods/reinforcement.py:102 | any position with those two properties is the one returned |
| Reinforcement.InitQTable | methods/reinforcement.py:27-28 | the table has a row exactly for each permutation of 0..N-1, and each row is N zeros |
| Reinforcement.GetBestAction | methods/reinforcement.py:100-102 | an action exists iff the board has a nonempty row; the action is a position of the row's largest value, and every earlier position holds a strictly smaller value |
| Reinforcement.FreshBestAction | methods/reinforcement.py:100-102 | before any update, the best action from every start board is column 0 |
| Reinforcement.QUpdate | methods/reinforcement.py:45-46 | only entry (state, action) changes; for alpha in [0, 1] its new value lies between its old value and the target |
| Reinforcement.Solve | methods/reinforcement.py:31-68 | when `solve` returns, every recorded board has N rows and conflict count 0, and the metric is "Reinforcement Learning" with one iteration per episode and `solutions_found` equal to the number recorded |
| Reinforcement.RecordedIff | methods/reinforcement.py:31-59 | the episodes all finish iff every start board is a goal, and then none records a board |
| Reinforcement.SolveReturnsIff | methods/reinforcement.py:31-68 | `solve` returns iff every start board is a goal, and then `solutions_found` is 0 |

## Left out

- Visualisation, `os.makedirs`, `print` and the driver main.py: rendering, filesystem and
  console I/O.
- The `time` and `efficiency` metric fields: they come from the wall clock.
- The genetic generation loop:
  - the sort by reward;
  - parent sampling;
  - the `random.random() < mutation_rate` test;
  - the diversity injection every tenth generation;
  - the mutation-rate adaptation (float arithmetic).

  Its parts are modelled instead: `Mutate`, `Crossover`, `RandomPermutation`, `Harvest` and
  `EarlyStop`.
- The genetic metric record: its integer fields are just the size of the recorded set.
- Genetic.Similarity: uses exact division of rationals. The rounding of Python's float
  quotient is not modelled.
- Reinforcement.QUpdate: alpha, gamma and the values are reals, not IEEE floats. The target
  `reward + gamma * q[next][best]` is a parameter.
- The Q-learning episode loop: the explore-or-exploit choice and the explored action are
  given as the list of actions, not drawn from a random source. The `total_rewards` list is
  never read, so it is not modelled.
- Reinforcement.Run: returns Stuck when the given actions run out. The Python loop would keep
  drawing actions. From the full boards `solve` starts on, `RunFromFull` shows that more
  actions would not help.
- Genetic.FixState: returns None when a row's draws run out. The Python loop would keep
  drawing. `CoveringDraws` states when this cannot happen.
- Reinforcement.InitQTable: builds the table as if `itertools` were imported. The source
  raises `NameError` there.
- AStar.HeapPopLeast: `heapq`'s array layout is not modelled. The heap is a list, and the pop
  takes its least entry. The order on entries is total and the entries are distinct, so this
  is the entry `heappop` returns.
- Genetic.TableMatchesSearch: checked against the search only for N = 1 and N = 4. The
  larger entries (92, 724, 14200) are not verified.

## Findings

| source | as written | input that shows it | evidently intended | confidence | as-written member | corrected member |
|---|---|---|---|---|---|---|
| methods/genetic.py:56 | the loop stops when the number of recorded canonical forms equals `expected_solutions_count()`, which is the total number of solutions | N = 4: both solutions (1, 3, 0, 2) and (2, 0, 3, 1) have the canonical form (1, 3, 0, 2), so at most 1 form is recorded, never the table's 2, and all generations always run | stop when every class of solutions has been recorded, i.e. compare with the number of distinct canonical forms | high (proved; not executed) | Genetic.FourNeverStops | Genetic.AllClassesFoundIff |
