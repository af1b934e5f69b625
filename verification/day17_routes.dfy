/** Day 17: the graph the search explores. A state is a cell together with the
    heading the crucible arrived with. From a state the crucible turns (or, from
    `Start`, picks any direction) and runs straight for a number of cells
    between the minimum and maximum run length, paying the heat loss of every
    cell it enters. A route is a start state followed by such runs. */
module CrucibleRoutes {
  import opened Crucible

  /** A non-empty map (`map.len()` and `map[0].len()` are at least 1) whose
      rows are at least as wide as the first: the search reads only the first
      `map[0].len()` columns of each row, and a shorter row would panic. */
  predicate Wide(g: Grid)
  {
    |g| >= 1 && |g[0]| >= 1 && forall i :: 0 <= i < |g| ==> |g[i]| >= |g[0]|
  }

  predicate InGrid(g: Grid, i: int, j: int)
  {
    |g| >= 1 && 0 <= i < |g| && 0 <= j < |g[0]|
  }

  /** The heat loss of a cell, 0 outside the map. */
  function Cell(g: Grid, i: int, j: int): nat
  {
    if 0 <= i < |g| && 0 <= j < |g[i]| then g[i][j] else 0
  }

  datatype State = State(row: int, col: int, heading: Heading)

  /** The cell `k` steps from `u` in direction `d`. */
  function Along(u: State, d: Direction, k: int): (int, int)
  {
    match d
    case Up => (u.row - k, u.col)
    case Right => (u.row, u.col + k)
    case Down => (u.row + k, u.col)
    case Left => (u.row, u.col - k)
  }

  /** `Along` is the Rust code's `i + diff_i * distance, j + diff_j * distance`. */
  lemma AlongIsDiff(u: State, d: Direction, k: int)
    ensures Along(u, d, k) == (u.row + Diff(d).0 * k, u.col + Diff(d).1 * k)
  {
  }

  /** The state reached by running `k` cells in direction `d` from `u`. */
  function Target(u: State, d: Direction, k: int): State
  {
    State(Along(u, d, k).0, Along(u, d, k).1, Moving(d))
  }

  /** The heat lost on a run: the sum of the cells entered, steps 1 to `k`. */
  function JumpCost(g: Grid, u: State, d: Direction, k: int): nat
  {
    if k <= 0 then 0 else JumpCost(g, u, d, k - 1) + Cell(g, Along(u, d, k).0, Along(u, d, k).1)
  }

  /** The search problem: the map, the run-length bounds and the start states. */
  datatype Problem = Problem(grid: Grid, minStep: int, maxStep: int, seeds: set<State>)

  /** A run of `k` cells in direction `d` is a legal move from `u`. */
  predicate IsJump(p: Problem, u: State, d: Direction, k: int)
  {
    InGrid(p.grid, u.row, u.col) && !Excluded(u.heading, d)
    && 1 <= k && p.minStep <= k <= p.maxStep
    && InGrid(p.grid, Along(u, d, k).0, Along(u, d, k).1)
  }

  /** On a straight line out of the map, every later cell is out of the map too. */
  lemma OutStaysOut(g: Grid, u: State, d: Direction, k: int, k': int)
    requires InGrid(g, u.row, u.col) && 1 <= k <= k'
    requires !InGrid(g, Along(u, d, k).0, Along(u, d, k).1)
    ensures !InGrid(g, Along(u, d, k').0, Along(u, d, k').1)
  {
  }

  /** The allowed start states: the top-left cell, before any move or heading
      right or down. None of them is the end of a run. */
  predicate SeedState(s: State)
  {
    s.row == 0 && s.col == 0 && (s.heading == Start || s.heading == Moving(Right) || s.heading == Moving(Down))
  }

  lemma SeedsAreNotTargets(p: Problem, u: State, d: Direction, k: int, s: State)
    requires SeedState(s) && IsJump(p, u, d, k)
    ensures Target(u, d, k) != s
  {
  }

  datatype Run = Run(dir: Direction, len: int)

  /** A route: a start state followed by runs. */
  datatype Route = Route(start: State, runs: seq<Run>)

  /** The state after the runs `rs` from `s`. */
  function EndOf(s: State, rs: seq<Run>): State
  {
    if |rs| == 0 then s
    else
      var last := rs[|rs| - 1];
      Target(EndOf(s, rs[..|rs| - 1]), last.dir, last.len)
  }

  /** Every run of `rs` is a legal move from where the previous runs ended. */
  predicate Legal(p: Problem, s: State, rs: seq<Run>)
  {
    |rs| == 0 ||
    (var last := rs[|rs| - 1];
     Legal(p, s, rs[..|rs| - 1]) && IsJump(p, EndOf(s, rs[..|rs| - 1]), last.dir, last.len))
  }

  /** The heat lost along the runs `rs` from `s`. */
  function CostOf(p: Problem, s: State, rs: seq<Run>): nat
  {
    if |rs| == 0 then 0
    else
      var last := rs[|rs| - 1];
      CostOf(p, s, rs[..|rs| - 1]) + JumpCost(p.grid, EndOf(s, rs[..|rs| - 1]), last.dir, last.len)
  }

  predicate ValidRoute(p: Problem, r: Route)
  {
    r.start in p.seeds && Legal(p, r.start, r.runs)
  }

  function End(r: Route): State
  {
    EndOf(r.start, r.runs)
  }

  function Cost(p: Problem, r: Route): nat
  {
    CostOf(p, r.start, r.runs)
  }

  /** A state on the bottom-right cell. */
  predicate IsGoal(p: Problem, u: State)
  {
    |p.grid| >= 1 && u.row == |p.grid| - 1 && u.col == |p.grid[0]| - 1
  }

  /** Extending a route by one legal run ends at that run's target and adds its heat loss. */
  lemma Extend(p: Problem, r: Route, d: Direction, k: int)
    requires ValidRoute(p, r) && IsJump(p, End(r), d, k)
    ensures var r' := Route(r.start, r.runs + [Run(d, k)]);
      ValidRoute(p, r') && End(r') == Target(End(r), d, k)
      && Cost(p, r') == Cost(p, r) + JumpCost(p.grid, End(r), d, k)
  {
    assert (r.runs + [Run(d, k)])[..|r.runs|] == r.runs;
  }

  /** Every state a route reaches lies on the map. */
  lemma RouteInGrid(p: Problem, r: Route)
    requires ValidRoute(p, r) && |r.runs| > 0
    ensures InGrid(p.grid, End(r).row, End(r).col)
  {
  }
}
