/**
 methods/reinforcement.py: `ReinforcementSolver`. Episodes start from a random full board
 (`random_initial_state`), take actions that drop a queen into the first empty row
 (`apply_action`), and record the board once the reward reaches 0. The random draws (the
 start board, the explore-or-exploit choice and the explored action) are parameters: an
 episode is given the start board and the actions it would take.
 */
module Reinforcement {
  import opened Board
  import opened Solver
  import Frontier
  import Sampling
  import BruteForce

  // ----- apply_action -----

  /**
   `apply_action(state, action)`: the first of the N rows that holds `Empty` gets the action's
   column; a board without an empty row among its first N comes back unchanged.
   */
  function ApplyAction(state: seq<int>, action: int, n: nat): (r: seq<int>)
    requires n <= |state|
    ensures |r| == |state|
    ensures (forall row :: 0 <= row < n ==> state[row] != Empty) ==> r == state
    ensures (exists row :: 0 <= row < n && state[row] == Empty) ==>
              exists row :: 0 <= row < n && state[row] == Empty && r == state[row := action]
                && forall k :: 0 <= k < row ==> state[k] != Empty
  {
    var d := Frontier.Depth(state);
    if d < n then state[d := action] else state
  }

  /** On a board every row of which holds a queen, every action leaves the board as it is. */
  lemma ApplyActionFull(state: seq<int>, action: int, n: nat)
    requires IsPerm(state, n)
    ensures ApplyAction(state, action, n) == state
  {
  }

  /** On a frontier board with a row left, the action places the next queen, as the searches' children do. */
  lemma ApplyActionIsChild(state: seq<int>, action: int, n: nat)
    requires Frontier.IsPartial(state, n) && Frontier.Depth(state) < n
    ensures ApplyAction(state, action, n) == state[Frontier.Depth(state) := action]
  {
  }

  // ----- is_goal_state and the episode loop -----

  /** `is_goal_state`: the reward, which counts only diagonal conflicts, is 0. */
  predicate IsGoal(state: seq<int>, n: nat)
    requires n <= |state|
  {
    RewardGoal(state, n)
  }

  /**
   How the `while not is_goal_state(state)` loop of one episode ends over the actions it is
   given: it is still running when they run out (Stuck), it is never entered because the
   start board is already a goal (Skipped), or it records a board and breaks (Found).
   */
  datatype Outcome = Stuck | Skipped | Found(board: seq<int>)

  /**
   The body of the loop run over the given actions: apply the action and record the board if
   it is now a goal. Stuck when the actions run out first; the Python loop would keep drawing.
   */
  function Run(state: seq<int>, actions: seq<int>, n: nat): (r: Outcome)
    requires n <= |state|
    ensures !r.Skipped?
    ensures r.Found? ==> |r.board| == |state| && IsGoal(r.board, n)
    decreases |actions|
  {
    if |actions| == 0 then Stuck
    else
      var next := ApplyAction(state, actions[0], n);
      if IsGoal(next, n) then Found(next) else Run(next, actions[1..], n)
  }

  /** One episode from `start`: a start that is already a goal skips the loop and records nothing. */
  function Episode(start: seq<int>, actions: seq<int>, n: nat): (r: Outcome)
    requires n <= |start|
    ensures r.Skipped? <==> IsGoal(start, n)
    ensures r.Found? ==> |r.board| == |start| && IsGoal(r.board, n)
  {
    if IsGoal(start, n) then Skipped else Run(start, actions, n)
  }

  /** From a full board no action changes anything, so a board that is not a goal never becomes one. */
  lemma {:induction false} RunFromFull(state: seq<int>, actions: seq<int>, n: nat)
    requires IsPerm(state, n) && !IsGoal(state, n)
    ensures Run(state, actions, n) == Stuck
    decreases |actions|
  {
    if |actions| > 0 {
      ApplyActionFull(state, actions[0], n);
      RunFromFull(state, actions[1..], n);
    }
  }

  /**
   An episode that starts from a full board records nothing, whatever actions it takes: it is
   skipped when the start is a goal and never ends otherwise.
   */
  lemma EpisodeFromFull(start: seq<int>, actions: seq<int>, n: nat)
    requires IsPerm(start, n)
    ensures !Episode(start, actions, n).Found?
    ensures Episode(start, actions, n).Stuck? <==> !IsGoal(start, n)
  {
    if !IsGoal(start, n) {
      RunFromFull(start, actions, n);
    }
  }

  /** What an episode records is an n-queens solution when it is a full board. */
  lemma RecordedIsSolution(start: seq<int>, actions: seq<int>, n: nat)
    requires n <= |start| && Episode(start, actions, n).Found?
    requires IsPerm(Episode(start, actions, n).board, n)
    ensures IsSolution(Episode(start, actions, n).board, n)
  {
    var s := Episode(start, actions, n).board;
    SolutionIsDiagFreePerm(s, n);
  }

  // ----- np.argmax and get_best_action -----

  /** `np.argmax(values)`: the first position of the largest value; None for an empty row (numpy raises). */
  function ArgMax(values: seq<real>): (r: Option<nat>)
    ensures r.Some? <==> |values| > 0
    ensures r.Some? ==> (r.value < |values|
              && (forall k :: 0 <= k < |values| ==> values[k] <= values[r.value])
              && (forall k :: 0 <= k < r.value ==> values[k] < values[r.value]))
    decreases |values|
  {
    if |values| == 0 then None
    else match ArgMax(values[1..])
      case None => Some(0)
      case Some(i) => if values[1..][i] > values[0] then Some(i + 1) else Some(0)
  }

  /** The first position of the largest value is unique: any position with both properties is ArgMax's. */
  lemma ArgMaxUnique(values: seq<real>, i: nat)
    requires i < |values|
    requires forall k :: 0 <= k < |values| ==> values[k] <= values[i]
    requires forall k :: 0 <= k < i ==> values[k] < values[i]
    ensures ArgMax(values) == Some(i)
  {
    var j := ArgMax(values).value;
    assert values[i] <= values[j] && values[j] <= values[i];
  }

  /** `[0] * N`, the row of a fresh Q-table entry. */
  function Zeros(n: nat): (r: seq<real>)
    ensures |r| == n && forall k :: 0 <= k < n ==> r[k] == 0.0
  {
    seq(n, _ => 0.0)
  }

  /** On a fresh row the best action is column 0. */
  lemma ArgMaxZeros(n: nat)
    requires n > 0
    ensures ArgMax(Zeros(n)) == Some(0)
  {
    ArgMaxUnique(Zeros(n), 0);
  }

  /** The Q-table: one row of action values per board. */
  type QTable = map<seq<int>, seq<real>>

  /**
   The loop at the start of `solve`: one row of N zeros for every arrangement of 0..N-1
   (`get_all_possible_states`).
   */
  function InitQTable(n: nat): (q: QTable)
    ensures forall s :: s in q <==> IsPerm(s, n)
    ensures forall s :: s in q ==> q[s] == Zeros(n)
  {
    BruteForce.CandidatesArePermutations(n);
    map s | s in Sampling.Arrangements(n) :: Zeros(n)
  }

  /**
   `get_best_action(state)`: the first position of the largest value in the board's row. None
   where Python raises: a board without a row (KeyError) or an empty row (numpy's ValueError).
   */
  function GetBestAction(q: QTable, state: seq<int>): (r: Option<nat>)
    ensures r.Some? <==> state in q && |q[state]| > 0
    ensures r.Some? ==> r.value < |q[state]| && forall k :: 0 <= k < |q[state]| ==> q[state][k] <= q[state][r.value]
    ensures r.Some? ==> forall k :: 0 <= k < r.value ==> q[state][k] < q[state][r.value]
  {
    if state in q then ArgMax(q[state]) else None
  }

  /** Before any update, the best action from every start board is column 0. */
  lemma FreshBestAction(n: nat, state: seq<int>)
    requires n > 0 && IsPerm(state, n)
    ensures GetBestAction(InitQTable(n), state) == Some(0)
  {
    ArgMaxZeros(n);
  }

  /**
   The update of line 45-46: entry (state, action) moves by alpha times the gap to
   `reward + gamma * q[next][best_next]`; every other entry stays.
   */
  function QUpdate(q: QTable, state: seq<int>, action: nat, target: real, alpha: real): (r: QTable)
    requires state in q && action < |q[state]|
    ensures r.Keys == q.Keys && |r[state]| == |q[state]|
    ensures forall s :: s in q && s != state ==> r[s] == q[s]
    ensures forall k :: 0 <= k < |q[state]| && k != action ==> r[state][k] == q[state][k]
    ensures 0.0 <= alpha <= 1.0 ==>
              (q[state][action] <= target ==> q[state][action] <= r[state][action] <= target)
              && (target <= q[state][action] ==> target <= r[state][action] <= q[state][action])
  {
    var cur := q[state][action];
    var moved := StepToward(cur, target, alpha);
    var r := q[state := q[state][action := moved]];
    assert r[state][action] == moved;
    assert r.Keys == q.Keys;
    r
  }

  /** A product with a non-negative factor has the other factor's sign. */
  lemma MulSigns(a: real, b: real)
    requires a >= 0.0
    ensures b >= 0.0 ==> a * b >= 0.0
    ensures b <= 0.0 ==> a * b <= 0.0
  {
  }

  /** A step of size alpha from x toward t; for alpha in [0, 1] it stays between x and t. */
  function StepToward(x: real, t: real, alpha: real): (r: real)
    ensures 0.0 <= alpha <= 1.0 ==>
              (x <= t ==> x <= r <= t) && (t <= x ==> t <= r <= x)
  {
    var g := t - x;
    if 0.0 <= alpha <= 1.0 then
      MulSigns(alpha, g);
      MulSigns(1.0 - alpha, g);
      assert alpha * g + (1.0 - alpha) * g == g;
      x + alpha * g
    else x + alpha * g
  }

  // ----- solve -----

  /** The draws of one episode: which arrangement `random_initial_state` returns, and the actions taken. */
  datatype EpisodeDraw = EpisodeDraw(pick: nat, actions: seq<int>)

  /** The draws a run can make: every start index names an arrangement of 0..n-1. */
  predicate ValidDraws(n: nat, draws: seq<EpisodeDraw>)
  {
    forall e :: e in draws ==> e.pick < |Sampling.Arrangements(n)|
  }

  /** A board the episode loop can record: N rows and reward 0. */
  predicate Recordable(s: seq<int>, n: nat)
  {
    |s| == n && IsGoal(s, n)
  }

  /** The episode one draw describes, started from the arrangement `random_initial_state` returns. */
  function DrawnEpisode(n: nat, d: EpisodeDraw): (r: Outcome)
    requires d.pick < |Sampling.Arrangements(n)|
    ensures r.Found? ==> Recordable(r.board, n)
  {
    Episode(Sampling.RandomPermutation(n, d.pick), d.actions, n)
  }

  /** The start board of the draw's episode is a goal, so the episode is skipped. */
  predicate GoalStart(n: nat, d: EpisodeDraw)
    requires d.pick < |Sampling.Arrangements(n)|
  {
    IsGoal(Sampling.RandomPermutation(n, d.pick), n)
  }

  /**
   The boards the episodes record, in episode order (`self.all_solutions`); None when some
   episode's loop is still running when its actions run out.
   */
  function Recorded(n: nat, draws: seq<EpisodeDraw>): (r: Option<seq<seq<int>>>)
    requires ValidDraws(n, draws)
    ensures r.Some? ==> |r.value| <= |draws|
    ensures r.Some? ==> forall s :: s in r.value ==> Recordable(s, n)
    decreases |draws|
  {
    if |draws| == 0 then Some([])
    else
      assert draws[0] in draws;
      match DrawnEpisode(n, draws[0])
        case Stuck => None
        case Skipped => Recorded(n, draws[1..])
        case Found(s) =>
          match Recorded(n, draws[1..])
            case None => None
            case Some(rest) => Some([s] + rest)
  }

  /**
   The episode loop of `solve` and its metric: "Reinforcement Learning", one iteration per
   episode, and the number of recorded boards. None when `solve` does not return: some
   episode's loop never ends, and no metric is appended.
   */
  function Solve(n: nat, draws: seq<EpisodeDraw>): (r: Option<(seq<seq<int>>, Metric)>)
    requires ValidDraws(n, draws)
    ensures r.Some? ==> r.value.1 == Metric("Reinforcement Learning", |r.value.0|, Some(|draws|))
    ensures r.Some? ==> forall s :: s in r.value.0 ==> Recordable(s, n)
  {
    match Recorded(n, draws)
      case None => None
      case Some(sols) => Some((sols, Metric("Reinforcement Learning", |sols|, Some(|draws|))))
  }

  /** The draws after the first are valid too. */
  lemma ValidDrawsTail(n: nat, draws: seq<EpisodeDraw>)
    requires ValidDraws(n, draws) && |draws| > 0
    ensures ValidDraws(n, draws[1..])
  {
    forall e | e in draws[1..]
      ensures e.pick < |Sampling.Arrangements(n)|
    {
      assert e in draws;
    }
  }

  /**
   Every episode starts from a full board, and `apply_action` never changes a full board: an
   episode either is skipped, when its start is already a solution, or never ends. So the
   episodes all finish exactly when every start board is a goal, and then nothing is recorded.
   */
  lemma {:induction false} RecordedIff(n: nat, draws: seq<EpisodeDraw>)
    requires ValidDraws(n, draws)
    ensures Recorded(n, draws).Some? <==> forall i :: 0 <= i < |draws| ==> GoalStart(n, draws[i])
    ensures Recorded(n, draws).Some? ==> Recorded(n, draws).value == []
    decreases |draws|
  {
    if |draws| > 0 {
      ValidDrawsTail(n, draws);
      RecordedIff(n, draws[1..]);
      assert draws[0] in draws;
      EpisodeFromFull(Sampling.RandomPermutation(n, draws[0].pick), draws[0].actions, n);
      assert forall i :: 1 <= i < |draws| ==> draws[i] == draws[1..][i - 1];
    }
  }

  /**
   `solve` returns, and appends its metric, exactly when every episode starts from a solution;
   it then records nothing and reports 0 solutions found.
   */
  lemma SolveReturnsIff(n: nat, draws: seq<EpisodeDraw>)
    requires ValidDraws(n, draws)
    ensures Solve(n, draws).Some? <==> forall i :: 0 <= i < |draws| ==> GoalStart(n, draws[i])
    ensures Solve(n, draws).Some? ==> Solve(n, draws).value.0 == [] && Solve(n, draws).value.1.solutionsFound == 0
  {
    RecordedIff(n, draws);
  }
}
