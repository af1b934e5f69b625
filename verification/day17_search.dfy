/** Day 17: `min_heat_loss` of `main.rs` and of `working.rs`.

    Both are Dijkstra's algorithm over (cell, heading) states with lazy
    deletion: a priority queue of (cost, state) entries, a map `best` of the
    cheapest cost seen per state, and entries that are skipped when popped
    if `best` already holds something cheaper. The queue is a multiset here
    and a pop takes an entry of least cost; which of several equally cheap
    entries comes out first is left open. */
module CrucibleSearch {
  import opened Wrappers
  import opened Text
  import opened Crucible
  import opened CrucibleRoutes

  datatype Entry = Entry(cost: int, state: State)

  /** The outcome of a search: the cost at the first pop of the goal, or an
      empty queue. */
  datatype Outcome = Reached(cost: nat) | Exhausted

  // ---------------------------------------------------------------------------
  // Relaxing the runs out of one state

  /** `dirs` lists every direction. */
  predicate CoversAll(dirs: seq<Direction>)
  {
    Up in dirs && Right in dirs && Down in dirs && Left in dirs
  }

  /** `best` already accounts for the run (`d`, `k`) out of `u` at cost `c`. */
  predicate Covered(p: Problem, u: State, c: int, best: map<State, int>, d: Direction, k: int)
  {
    Target(u, d, k) in best && best[Target(u, d, k)] <= c + JumpCost(p.grid, u, d, k)
  }

  /** No run out of `u` at cost `c` can improve `best`. */
  ghost predicate Saturated(p: Problem, u: State, c: int, best: map<State, int>)
  {
    forall d, k :: IsJump(p, u, d, k) ==> Covered(p, u, c, best, d, k)
  }

  /** The length of the straight run from `u` to `t`. */
  function RunLength(u: State, t: State): int
  {
    (if t.row >= u.row then t.row - u.row else u.row - t.row)
    + (if t.col >= u.col then t.col - u.col else u.col - t.col)
  }

  /** Entry `x` is what a run out of `u` at cost `c` pushes: the run in the
      direction of `x`'s heading whose length is the distance to `x`'s cell. */
  predicate PushedFrom(p: Problem, u: State, c: int, x: Entry)
  {
    x.state.heading.Moving? &&
    var d, k := x.state.heading.dir, RunLength(u, x.state);
    IsJump(p, u, d, k) && x == Entry(c + JumpCost(p.grid, u, d, k), Target(u, d, k))
  }

  /** Each legal run pushes an entry recognised by `PushedFrom`. */
  lemma RunPushes(p: Problem, u: State, c: int, d: Direction, k: int)
    requires IsJump(p, u, d, k)
    ensures PushedFrom(p, u, c, Entry(c + JumpCost(p.grid, u, d, k), Target(u, d, k)))
  {
    assert RunLength(u, Target(u, d, k)) == k;
  }

  /** `best` only gains keys and its values only go down. */
  predicate Monotone(best0: map<State, int>, best: map<State, int>)
  {
    forall t :: t in best0 ==> t in best && best[t] <= best0[t]
  }

  /** Every key that was added or lowered was pushed with its new cost. */
  ghost predicate Recorded(p: Problem, u: State, c: int, best0: map<State, int>, best: map<State, int>, frontier: multiset<Entry>)
  {
    forall t :: t in best && (t !in best0 || best[t] < best0[t]) ==>
      Entry(best[t], t) in frontier && PushedFrom(p, u, c, Entry(best[t], t))
  }

  /** Every entry that was pushed comes from a run out of `u` and costs at least
      what `best` holds for its state. */
  ghost predicate Fresh(p: Problem, u: State, c: int, best: map<State, int>, f0: multiset<Entry>, frontier: multiset<Entry>)
  {
    forall x :: x in frontier - f0 ==> x.state in best && x.cost >= best[x.state] && PushedFrom(p, u, c, x)
  }

  lemma CoveredMonotone(p: Problem, u: State, c: int, best0: map<State, int>, best1: map<State, int>, d: Direction, k: int)
    requires Monotone(best0, best1) && Covered(p, u, c, best0, d, k)
    ensures Covered(p, u, c, best1, d, k)
  {
  }

  /** What holds after the runs of length below `k` in direction `d` have been relaxed. */
  ghost predicate RayInv(p: Problem, u: State, c: int, d: Direction, best0: map<State, int>, f0: multiset<Entry>,
                         best: map<State, int>, frontier: multiset<Entry>, k: int)
  {
    1 <= k
    && Monotone(best0, best) && f0 <= frontier
    && Recorded(p, u, c, best0, best, frontier)
    && Fresh(p, u, c, best, f0, frontier)
    && (forall j :: 1 <= j < k && IsJump(p, u, d, j) ==> Covered(p, u, c, best, d, j))
    && (Saturated(p, u, c, best0) ==> best == best0 && frontier == f0)
  }

  /** Relaxing run `k` with an improvement keeps the loop invariant. */
  lemma RayImproved(p: Problem, u: State, c: int, d: Direction, best0: map<State, int>, f0: multiset<Entry>,
                    best: map<State, int>, frontier: multiset<Entry>, k: int, t: State, cost: int,
                    best': map<State, int>, frontier': multiset<Entry>)
    requires RayInv(p, u, c, d, best0, f0, best, frontier, k)
    requires IsJump(p, u, d, k) && t == Target(u, d, k) && cost == c + JumpCost(p.grid, u, d, k)
    requires t !in best || cost < best[t]
    requires best' == best[t := cost] && frontier' == frontier + multiset{Entry(cost, t)}
    ensures RayInv(p, u, c, d, best0, f0, best', frontier', k + 1)
  {
    RunPushes(p, u, c, d, k);
    RecordPush(p, u, c, best0, f0, best, frontier, t, cost, best', frontier');
    MonotoneUpdate(best, t, cost);
    forall j | 1 <= j < k + 1 && IsJump(p, u, d, j)
      ensures Covered(p, u, c, best', d, j)
    {
      if j < k {
        CoveredMonotone(p, u, c, best, best', d, j);
      }
    }
    assert Saturated(p, u, c, best0) ==> Covered(p, u, c, best0, d, k);
  }

  /** Run `k` that is too short, or that `best` already covers, keeps the loop invariant. */
  lemma RayKept(p: Problem, u: State, c: int, d: Direction, best0: map<State, int>, f0: multiset<Entry>,
                best: map<State, int>, frontier: multiset<Entry>, k: int)
    requires RayInv(p, u, c, d, best0, f0, best, frontier, k)
    requires IsJump(p, u, d, k) ==> Covered(p, u, c, best, d, k)
    ensures RayInv(p, u, c, d, best0, f0, best, frontier, k + 1)
  {
  }

  lemma MonotoneUpdate(best: map<State, int>, t: State, cost: int)
    requires t !in best || cost < best[t]
    ensures Monotone(best, best[t := cost])
  {
  }

  /** Writing and pushing an improved entry that a run out of `u` produced
      keeps the records of the relaxation. */
  lemma RecordPush(p: Problem, u: State, c: int, best0: map<State, int>, f0: multiset<Entry>,
                   best: map<State, int>, frontier: multiset<Entry>, t: State, cost: int,
                   best': map<State, int>, frontier': multiset<Entry>)
    requires Monotone(best0, best) && f0 <= frontier
    requires Recorded(p, u, c, best0, best, frontier) && Fresh(p, u, c, best, f0, frontier)
    requires PushedFrom(p, u, c, Entry(cost, t)) && (t !in best || cost < best[t])
    requires best' == best[t := cost] && frontier' == frontier + multiset{Entry(cost, t)}
    ensures Monotone(best0, best') && f0 <= frontier'
    ensures Recorded(p, u, c, best0, best', frontier') && Fresh(p, u, c, best', f0, frontier')
  {
    forall x | x in frontier' - f0
      ensures x.state in best' && x.cost >= best'[x.state] && PushedFrom(p, u, c, x)
    {
      if x != Entry(cost, t) {
        assert x in frontier - f0;
      }
    }
  }

  /** Once a run leaves the map, no longer run in that direction is legal. */
  lemma RayOut(p: Problem, u: State, d: Direction, k: int)
    requires InGrid(p.grid, u.row, u.col) && 1 <= k
    requires !InGrid(p.grid, Along(u, d, k).0, Along(u, d, k).1)
    ensures forall j :: j >= k ==> !IsJump(p, u, d, j)
  {
    forall j | j >= k
      ensures !IsJump(p, u, d, j)
    {
      OutStaysOut(p.grid, u, d, k, j);
    }
  }

  /** The inner loop of `min_heat_loss` for one direction `d`: run 1, 2, ...
      cells out of `u`, stop at the map's edge, add each entered cell's heat
      loss, and from `min_step` on record the run's target when it is new or
      strictly cheaper. */
  method Ray(p: Problem, u: State, c: int, d: Direction, best0: map<State, int>, f0: multiset<Entry>)
    returns (best: map<State, int>, frontier: multiset<Entry>)
    requires Wide(p.grid) && InGrid(p.grid, u.row, u.col) && !Excluded(u.heading, d)
    ensures Monotone(best0, best) && f0 <= frontier
    ensures Recorded(p, u, c, best0, best, frontier)
    ensures Fresh(p, u, c, best, f0, frontier)
    ensures forall k :: IsJump(p, u, d, k) ==> Covered(p, u, c, best, d, k)
    ensures Saturated(p, u, c, best0) ==> best == best0 && frontier == f0
  {
    best, frontier := best0, f0;
    var cost := c;
    var k := 1;
    while k <= p.maxStep
      invariant cost == c + JumpCost(p.grid, u, d, k - 1)
      invariant RayInv(p, u, c, d, best0, f0, best, frontier, k)
    {
      var out;
      best, frontier, cost, out := RayAdvance(p, u, c, d, best0, f0, best, frontier, k, cost);
      if out {
        break;
      }
      k := k + 1;
    }
    assert forall j :: j >= k ==> !IsJump(p, u, d, j);
    RayDone(p, u, c, d, best0, f0, best, frontier, k);
  }

  /** One pass of the inner loop: step `k` cells out of `u`. Leaving the map
      ends the direction; otherwise the cell's heat loss is added and, from
      `min_step` on, the target is recorded when new or strictly cheaper. */
  method RayAdvance(p: Problem, u: State, c: int, d: Direction, best0: map<State, int>, f0: multiset<Entry>,
                    best: map<State, int>, frontier: multiset<Entry>, k: int, cost: int)
    returns (best': map<State, int>, frontier': multiset<Entry>, cost': int, out: bool)
    requires Wide(p.grid) && InGrid(p.grid, u.row, u.col) && !Excluded(u.heading, d)
    requires 1 <= k <= p.maxStep && cost == c + JumpCost(p.grid, u, d, k - 1)
    requires RayInv(p, u, c, d, best0, f0, best, frontier, k)
    ensures out ==> best' == best && frontier' == frontier && forall j :: j >= k ==> !IsJump(p, u, d, j)
    ensures !out ==> cost' == c + JumpCost(p.grid, u, d, k)
    ensures !out ==> RayInv(p, u, c, d, best0, f0, best', frontier', k + 1)
  {
    best', frontier', cost', out := best, frontier, cost, false;
    var (ni, nj) := Along(u, d, k);
    if !InGrid(p.grid, ni, nj) {
      RayOut(p, u, d, k);
      out := true;
      return;
    }
    RayStep(p, u, d, k);
    cost' := cost + p.grid[ni][nj];
    if k >= p.minStep {
      var t := State(ni, nj, Moving(d));
      assert t == Target(u, d, k);
      if t !in best || cost' < best[t] {
        best' := best[t := cost'];
        frontier' := frontier + multiset{Entry(cost', t)};
        RayImproved(p, u, c, d, best0, f0, best, frontier, k, t, cost', best', frontier');
      } else {
        RayKept(p, u, c, d, best0, f0, best, frontier, k);
      }
    } else {
      RayKept(p, u, c, d, best0, f0, best, frontier, k);
    }
  }

  /** One more cell on the map: the run's heat loss grows by that cell, and
      from `min_step` on the run is a legal move. */
  lemma RayStep(p: Problem, u: State, d: Direction, k: int)
    requires Wide(p.grid) && InGrid(p.grid, u.row, u.col) && !Excluded(u.heading, d)
    requires 1 <= k <= p.maxStep && InGrid(p.grid, Along(u, d, k).0, Along(u, d, k).1)
    ensures JumpCost(p.grid, u, d, k) == JumpCost(p.grid, u, d, k - 1) + p.grid[Along(u, d, k).0][Along(u, d, k).1]
    ensures k >= p.minStep ==> IsJump(p, u, d, k)
  {
    assert |p.grid[Along(u, d, k).0]| >= |p.grid[0]|;
  }

  /** When no run of length `k` or more is legal, the loop invariant gives
      the postcondition of `Ray`. */
  lemma RayDone(p: Problem, u: State, c: int, d: Direction, best0: map<State, int>, f0: multiset<Entry>,
                best: map<State, int>, frontier: multiset<Entry>, k: int)
    requires RayInv(p, u, c, d, best0, f0, best, frontier, k)
    requires forall j :: j >= k ==> !IsJump(p, u, d, j)
    ensures Monotone(best0, best) && f0 <= frontier
    ensures Recorded(p, u, c, best0, best, frontier)
    ensures Fresh(p, u, c, best, f0, frontier)
    ensures forall j :: IsJump(p, u, d, j) ==> Covered(p, u, c, best, d, j)
    ensures Saturated(p, u, c, best0) ==> best == best0 && frontier == f0
  {
  }

  /** Every direction is listed in `dirs`. */
  lemma InDirs(dirs: seq<Direction>, d: Direction)
    requires CoversAll(dirs)
    ensures d in dirs
  {
    match d
    case Up =>
    case Right =>
    case Down =>
    case Left =>
  }

  /** What holds after the directions `dirs[..n]` have been handled. */
  ghost predicate ExpandInv(p: Problem, u: State, c: int, dirs: seq<Direction>, best0: map<State, int>, f0: multiset<Entry>,
                            best: map<State, int>, frontier: multiset<Entry>, n: int)
  {
    0 <= n <= |dirs|
    && Monotone(best0, best) && f0 <= frontier
    && Recorded(p, u, c, best0, best, frontier)
    && Fresh(p, u, c, best, f0, frontier)
    && (forall d, k :: d in dirs[..n] && IsJump(p, u, d, k) ==> Covered(p, u, c, best, d, k))
    && (Saturated(p, u, c, best0) ==> best == best0 && frontier == f0)
  }

  /** Relaxing the runs in direction `dirs[n]` keeps the loop invariant. */
  lemma ExpandRay(p: Problem, u: State, c: int, dirs: seq<Direction>, best0: map<State, int>, f0: multiset<Entry>,
                  best: map<State, int>, frontier: multiset<Entry>, n: int,
                  best1: map<State, int>, frontier1: multiset<Entry>)
    requires ExpandInv(p, u, c, dirs, best0, f0, best, frontier, n) && n < |dirs|
    requires Monotone(best, best1) && frontier <= frontier1
    requires Recorded(p, u, c, best, best1, frontier1) && Fresh(p, u, c, best1, frontier, frontier1)
    requires forall k :: IsJump(p, u, dirs[n], k) ==> Covered(p, u, c, best1, dirs[n], k)
    requires Saturated(p, u, c, best) ==> best1 == best && frontier1 == frontier
    ensures ExpandInv(p, u, c, dirs, best0, f0, best1, frontier1, n + 1)
  {
    ComposeSteps(p, u, c, best0, f0, best, frontier, best1, frontier1);
    assert dirs[..n + 1] == dirs[..n] + [dirs[n]];
  }

  /** Skipping an excluded direction keeps the loop invariant. */
  lemma ExpandSkip(p: Problem, u: State, c: int, dirs: seq<Direction>, best0: map<State, int>, f0: multiset<Entry>,
                   best: map<State, int>, frontier: multiset<Entry>, n: int)
    requires ExpandInv(p, u, c, dirs, best0, f0, best, frontier, n) && n < |dirs|
    requires Excluded(u.heading, dirs[n])
    ensures ExpandInv(p, u, c, dirs, best0, f0, best, frontier, n + 1)
  {
    assert dirs[..n + 1] == dirs[..n] + [dirs[n]];
  }

  /** Once every direction has been handled, no run out of `u` improves `best`. */
  lemma ExpandDone(p: Problem, u: State, c: int, dirs: seq<Direction>, best0: map<State, int>, f0: multiset<Entry>,
                   best: map<State, int>, frontier: multiset<Entry>)
    requires ExpandInv(p, u, c, dirs, best0, f0, best, frontier, |dirs|) && CoversAll(dirs)
    ensures Saturated(p, u, c, best)
  {
    assert dirs[..|dirs|] == dirs;
    forall d, k | IsJump(p, u, d, k)
      ensures Covered(p, u, c, best, d, k)
    {
      InDirs(dirs, d);
    }
  }

  /** The body of `min_heat_loss` after a pop: relax the runs in every
      direction of `dirs` that the turn rule allows. */
  method Expand(p: Problem, dirs: seq<Direction>, u: State, c: int, best0: map<State, int>, f0: multiset<Entry>)
    returns (best: map<State, int>, frontier: multiset<Entry>)
    requires Wide(p.grid) && InGrid(p.grid, u.row, u.col)
    requires CoversAll(dirs)
    ensures Monotone(best0, best) && f0 <= frontier
    ensures Recorded(p, u, c, best0, best, frontier)
    ensures Fresh(p, u, c, best, f0, frontier)
    ensures Saturated(p, u, c, best)
    ensures Saturated(p, u, c, best0) ==> best == best0 && frontier == f0
  {
    best, frontier := best0, f0;
    var n := 0;
    while n < |dirs|
      invariant ExpandInv(p, u, c, dirs, best0, f0, best, frontier, n)
    {
      if !Excluded(u.heading, dirs[n]) {
        var best1, frontier1 := Ray(p, u, c, dirs[n], best, frontier);
        ExpandRay(p, u, c, dirs, best0, f0, best, frontier, n, best1, frontier1);
        best, frontier := best1, frontier1;
      } else {
        ExpandSkip(p, u, c, dirs, best0, f0, best, frontier, n);
      }
      n := n + 1;
    }
    ExpandDone(p, u, c, dirs, best0, f0, best, frontier);
  }

  /** Two rounds of relaxation out of the same state compose. */
  lemma ComposeSteps(p: Problem, u: State, c: int,
                     best0: map<State, int>, f0: multiset<Entry>,
                     best1: map<State, int>, f1: multiset<Entry>,
                     best2: map<State, int>, f2: multiset<Entry>)
    requires Monotone(best0, best1) && f0 <= f1
    requires Recorded(p, u, c, best0, best1, f1) && Fresh(p, u, c, best1, f0, f1)
    requires Monotone(best1, best2) && f1 <= f2
    requires Recorded(p, u, c, best1, best2, f2) && Fresh(p, u, c, best2, f1, f2)
    ensures Monotone(best0, best2) && f0 <= f2
    ensures Recorded(p, u, c, best0, best2, f2) && Fresh(p, u, c, best2, f0, f2)
    ensures forall d, k :: Covered(p, u, c, best1, d, k) ==> Covered(p, u, c, best2, d, k)
  {
    forall x | x in f2 - f0
      ensures x.state in best2 && x.cost >= best2[x.state] && PushedFrom(p, u, c, x)
    {
      if x !in f2 - f1 {
        assert x in f1 - f0;
      }
    }
  }

  // ---------------------------------------------------------------------------
  // The search invariant. `dist` holds the states that have been expanded
  // (settled) with the cost they were expanded at; `floor` is the cost of
  // the last expansion.

  /** Queued entries lie on the map. An entry of a state in `best` costs at
      least what `best` holds; any other entry is a start state at cost 0. */
  predicate EntriesOk(p: Problem, best: map<State, int>, frontier: multiset<Entry>)
  {
    forall x :: x in frontier ==>
      InGrid(p.grid, x.state.row, x.state.col)
      && if x.state in best then x.cost >= best[x.state] else x.state in p.seeds && x.cost == 0
  }

  /** Start states are never written to `best`. */
  predicate SeedsOut(p: Problem, best: map<State, int>)
  {
    forall t :: t in best ==> t !in p.seeds
  }

  /** Settled states lie on the map, are not the goal, and keep the cost they
      were settled at in `best` (0 for a start state). */
  predicate SettledOk(p: Problem, best: map<State, int>, dist: map<State, int>)
  {
    forall u :: u in dist ==>
      InGrid(p.grid, u.row, u.col) && !IsGoal(p, u)
      && if u in best then dist[u] == best[u] else u in p.seeds && dist[u] == 0
  }

  /** Costs only grow: queued entries lie above the floor, settled costs below it. */
  predicate FloorOk(frontier: multiset<Entry>, dist: map<State, int>, floor: int)
  {
    (forall x :: x in frontier ==> x.cost >= floor)
    && (forall u :: u in dist ==> dist[u] <= floor)
  }

  /** Every run out of a settled state has been relaxed. */
  ghost predicate RelaxedAll(p: Problem, best: map<State, int>, dist: map<State, int>)
  {
    forall u :: u in dist ==> Saturated(p, u, dist[u], best)
  }

  /** Unsettled states in `best` and unsettled start states are still queued. */
  predicate Pending(p: Problem, best: map<State, int>, frontier: multiset<Entry>, dist: map<State, int>)
  {
    (forall t :: t in best && t !in dist ==> Entry(best[t], t) in frontier)
    && (forall s :: s in p.seeds && s !in dist ==> Entry(0, s) in frontier)
  }

  /** Every queued entry is the cost of a route to its state. */
  ghost predicate Witnessed(p: Problem, frontier: multiset<Entry>)
  {
    forall x :: x in frontier ==> HasRoute(p, x)
  }

  /** Some route reaches the state of `x` at the cost of `x`. */
  ghost predicate HasRoute(p: Problem, x: Entry)
  {
    exists r :: ValidRoute(p, r) && End(r) == x.state && Cost(p, r) == x.cost
  }

  /** Settled costs are optimal. */
  ghost predicate Optimal(p: Problem, dist: map<State, int>)
  {
    forall r :: ValidRoute(p, r) && End(r) in dist ==> dist[End(r)] <= Cost(p, r)
  }

  ghost predicate Inv(p: Problem, best: map<State, int>, frontier: multiset<Entry>, dist: map<State, int>, floor: int)
  {
    EntriesOk(p, best, frontier) && SeedsOut(p, best) && SettledOk(p, best, dist)
    && FloorOk(frontier, dist, floor) && RelaxedAll(p, best, dist)
    && Pending(p, best, frontier, dist) && Witnessed(p, frontier) && Optimal(p, dist)
  }

  /** The start states of a well-formed problem. */
  predicate WellFormed(p: Problem)
  {
    Wide(p.grid) && forall s :: s in p.seeds ==> SeedState(s)
  }

  /** The key fact of Dijkstra's algorithm: a route to a state that has not
      been settled is at least as expensive as some queued entry. */
  lemma {:induction false} FrontierBound(p: Problem, best: map<State, int>, frontier: multiset<Entry>,
                                         dist: map<State, int>, s: State, rs: seq<Run>)
    returns (x: Entry)
    requires RelaxedAll(p, best, dist) && Pending(p, best, frontier, dist) && Optimal(p, dist)
    requires ValidRoute(p, Route(s, rs)) && EndOf(s, rs) !in dist
    ensures x in frontier && x.cost <= CostOf(p, s, rs)
    decreases |rs|
  {
    if |rs| == 0 {
      x := Entry(0, s);
    } else {
      var prefix := rs[..|rs| - 1];
      var last := rs[|rs| - 1];
      var v := EndOf(s, prefix);
      var t := EndOf(s, rs);
      assert ValidRoute(p, Route(s, prefix));
      if v !in dist {
        x := FrontierBound(p, best, frontier, dist, s, prefix);
      } else {
        assert IsJump(p, v, last.dir, last.len);
        assert Covered(p, v, dist[v], best, last.dir, last.len);
        assert dist[v] <= CostOf(p, s, prefix) by {
          assert End(Route(s, prefix)) == v;
        }
        x := Entry(best[t], t);
      }
    }
  }

  /** Every entry in the queue is no cheaper than `c`. */
  predicate Least(c: int, frontier: multiset<Entry>)
  {
    forall x :: x in frontier ==> c <= x.cost
  }

  lemma {:induction false} LeastExists(m: multiset<Entry>) returns (e: Entry)
    requires m != multiset{}
    ensures e in m && Least(e.cost, m)
    decreases |m|
  {
    var y :| y in m;
    var rest := m - multiset{y};
    if rest == multiset{} {
      e := y;
      forall x | x in m
        ensures y.cost <= x.cost
      {
        assert rest[x] == 0;
      }
    } else {
      var z := LeastExists(rest);
      e := if y.cost <= z.cost then y else z;
      forall x | x in m
        ensures e.cost <= x.cost
      {
        if x != y {
          assert x in rest;
        }
      }
    }
  }

  /** An entry of least cost in a non-empty queue (`BinaryHeap::pop` on
      `Reverse` entries). */
  method PopLeast(f: multiset<Entry>) returns (e: Entry)
    requires f != multiset{}
    ensures e in f && Least(e.cost, f)
  {
    ghost var least := LeastExists(f);
    e :| e in f && Least(e.cost, f);
  }

  lemma RemoveShrinks<T>(f: multiset<T>, x: T)
    requires x in f
    ensures |f - multiset{x}| < |f|
  {
    assert f == (f - multiset{x}) + multiset{x};
  }

  /** Popping the goal: its cost is achieved by a route and no route to the
      goal is cheaper. */
  lemma GoalStep(p: Problem, best: map<State, int>, f0: multiset<Entry>, dist: map<State, int>, floor: int, e: Entry)
    returns (r0: Route)
    requires Inv(p, best, f0, dist, floor)
    requires e in f0 && Least(e.cost, f0) && IsGoal(p, e.state)
    ensures e.cost >= 0 && GoalRoute(p, r0, e.cost) && LowerBound(p, e.cost)
  {
    r0 :| ValidRoute(p, r0) && End(r0) == e.state && Cost(p, r0) == e.cost;
    forall r | ValidRoute(p, r) && IsGoal(p, End(r))
      ensures e.cost <= Cost(p, r)
    {
      var x := FrontierBound(p, best, f0, dist, r.start, r.runs);
    }
  }

  /** With an empty queue no route reaches the goal. */
  lemma EmptyStep(p: Problem, best: map<State, int>, dist: map<State, int>, floor: int)
    requires Inv(p, best, multiset{}, dist, floor)
    ensures Unreachable(p)
  {
    forall r | ValidRoute(p, r) && IsGoal(p, End(r))
      ensures false
    {
      var x := FrontierBound(p, best, multiset{}, dist, r.start, r.runs);
    }
  }

  /** Popping a stale entry keeps the invariant. */
  lemma StaleStep(p: Problem, best: map<State, int>, f0: multiset<Entry>, dist: map<State, int>, floor: int, e: Entry)
    requires Inv(p, best, f0, dist, floor)
    requires e in f0 && e.state in best && best[e.state] < e.cost
    ensures Inv(p, best, f0 - multiset{e}, dist, floor)
  {
    var f1 := f0 - multiset{e};
    forall t | t in best && t !in dist
      ensures Entry(best[t], t) in f1
    {
      assert Entry(best[t], t) != e;
    }
    forall s | s in p.seeds && s !in dist
      ensures Entry(0, s) in f1
    {
      assert Entry(0, s) != e;
    }
  }

  /** What `Expand` guarantees about a pop of `e`. */
  ghost predicate Expanded(p: Problem, e: Entry, best0: map<State, int>, f: multiset<Entry>, best1: map<State, int>, f1: multiset<Entry>)
  {
    Monotone(best0, best1) && f <= f1
    && Recorded(p, e.state, e.cost, best0, best1, f1)
    && Fresh(p, e.state, e.cost, best1, f, f1)
    && Saturated(p, e.state, e.cost, best1)
  }

  /** A popped entry that is not stale carries the cost `best` holds for its
      state, or 0 for a start state. */
  lemma PoppedCost(p: Problem, best0: map<State, int>, f0: multiset<Entry>, e: Entry)
    requires EntriesOk(p, best0, f0) && e in f0
    requires !(e.state in best0 && best0[e.state] < e.cost)
    ensures InGrid(p.grid, e.state.row, e.state.col)
    ensures e.state in best0 ==> e.cost == best0[e.state]
    ensures e.state !in best0 ==> e.state in p.seeds && e.cost == 0
  {
  }

  /** Keys written by an expansion cost at least the popped cost and are not start states. */
  lemma ImprovedKeys(p: Problem, e: Entry, best0: map<State, int>, f: multiset<Entry>, best1: map<State, int>, f1: multiset<Entry>)
    requires WellFormed(p) && Expanded(p, e, best0, f, best1, f1)
    ensures forall t :: t in best1 && (t !in best0 || best1[t] < best0[t]) ==> best1[t] >= e.cost && t !in p.seeds
  {
    forall t | t in best1 && (t !in best0 || best1[t] < best0[t])
      ensures best1[t] >= e.cost && t !in p.seeds
    {
      assert PushedFrom(p, e.state, e.cost, Entry(best1[t], t));
      var d, k := t.heading.dir, RunLength(e.state, t);
      if t in p.seeds {
        SeedsAreNotTargets(p, e.state, d, k, t);
      }
    }
  }

  /** Entries pushed by an expansion of `e` extend a route to `e`. */
  lemma PushedWitnessed(p: Problem, e: Entry, f: multiset<Entry>, f1: multiset<Entry>)
    requires exists r :: ValidRoute(p, r) && End(r) == e.state && Cost(p, r) == e.cost
    requires Witnessed(p, f) && f <= f1
    requires forall x :: x in f1 - f ==> PushedFrom(p, e.state, e.cost, x)
    ensures Witnessed(p, f1)
  {
    var r :| ValidRoute(p, r) && End(r) == e.state && Cost(p, r) == e.cost;
    forall x | x in f1
      ensures exists r' :: ValidRoute(p, r') && End(r') == x.state && Cost(p, r') == x.cost
    {
      if x !in f {
        assert x in f1 - f;
        var d, k := x.state.heading.dir, RunLength(e.state, x.state);
        Extend(p, r, d, k);
        assert ValidRoute(p, Route(r.start, r.runs + [Run(d, k)]));
      }
    }
  }

  lemma SettleEntries(p: Problem, e: Entry, best0: map<State, int>, f0: multiset<Entry>, best1: map<State, int>, f1: multiset<Entry>)
    requires WellFormed(p) && EntriesOk(p, best0, f0) && SeedsOut(p, best0)
    requires e in f0 && Expanded(p, e, best0, f0 - multiset{e}, best1, f1)
    ensures EntriesOk(p, best1, f1) && SeedsOut(p, best1)
  {
    var f := f0 - multiset{e};
    ImprovedKeys(p, e, best0, f, best1, f1);
    forall x | x in f1
      ensures InGrid(p.grid, x.state.row, x.state.col)
      ensures if x.state in best1 then x.cost >= best1[x.state] else x.state in p.seeds && x.cost == 0
    {
      if x in f {
        assert x in f0;
      } else {
        assert x in f1 - f;
      }
    }
  }

  /** A state popped again at a cost that is not stale was settled at that cost. */
  lemma ResettleSame(p: Problem, best0: map<State, int>, f0: multiset<Entry>, dist: map<State, int>, e: Entry)
    requires EntriesOk(p, best0, f0) && SettledOk(p, best0, dist) && e in f0
    requires !(e.state in best0 && best0[e.state] < e.cost)
    ensures e.state in dist ==> dist[e.state] == e.cost
  {
  }

  /** The queue after an expansion lies at or above the popped cost. */
  lemma SettleFloor(p: Problem, e: Entry, f0: multiset<Entry>, dist: map<State, int>, floor: int, f1: multiset<Entry>)
    requires FloorOk(f0, dist, floor) && e in f0 && Least(e.cost, f0)
    requires f0 - multiset{e} <= f1
    requires forall x :: x in f1 - (f0 - multiset{e}) ==> x.cost >= e.cost
    ensures FloorOk(f1, dist[e.state := e.cost], e.cost)
  {
    var f := f0 - multiset{e};
    forall x | x in f1
      ensures x.cost >= e.cost
    {
      if x in f {
        assert x in f0;
      } else {
        assert x in f1 - f;
      }
    }
  }

  /** Settled states keep their cost in `best`. */
  lemma SettleSettled(p: Problem, e: Entry, best0: map<State, int>, f0: multiset<Entry>, dist: map<State, int>, floor: int,
                      best1: map<State, int>)
    requires EntriesOk(p, best0, f0) && SettledOk(p, best0, dist) && FloorOk(f0, dist, floor)
    requires e in f0 && !IsGoal(p, e.state) && !(e.state in best0 && best0[e.state] < e.cost)
    requires Monotone(best0, best1)
    requires forall t :: t in best1 && (t !in best0 || best1[t] < best0[t]) ==> best1[t] >= e.cost && t !in p.seeds
    ensures SettledOk(p, best1, dist[e.state := e.cost])
  {
    PoppedCost(p, best0, f0, e);
    var dist1 := dist[e.state := e.cost];
    forall u | u in dist1
      ensures if u in best1 then dist1[u] == best1[u] else u in p.seeds && dist1[u] == 0
    {
      if u != e.state {
        assert dist[u] <= floor <= e.cost;
      }
    }
  }

  /** Relaxation stays done once `best` only goes down. */
  lemma SettleRelaxed(p: Problem, e: Entry, best0: map<State, int>, dist: map<State, int>, best1: map<State, int>)
    requires RelaxedAll(p, best0, dist) && Monotone(best0, best1)
    requires Saturated(p, e.state, e.cost, best1)
    ensures RelaxedAll(p, best1, dist[e.state := e.cost])
  {
    var dist1 := dist[e.state := e.cost];
    forall v | v in dist1 && v != e.state
      ensures Saturated(p, v, dist1[v], best1)
    {
      forall d, k | IsJump(p, v, d, k)
        ensures Covered(p, v, dist1[v], best1, d, k)
      {
        assert Covered(p, v, dist[v], best0, d, k);
      }
    }
  }

  lemma SettlePending(p: Problem, e: Entry, best0: map<State, int>, f0: multiset<Entry>, dist: map<State, int>,
                      best1: map<State, int>, f1: multiset<Entry>)
    requires Pending(p, best0, f0, dist) && e in f0
    requires Expanded(p, e, best0, f0 - multiset{e}, best1, f1)
    ensures Pending(p, best1, f1, dist[e.state := e.cost])
  {
    var f := f0 - multiset{e};
    forall t | t in best1 && t !in dist && t != e.state
      ensures Entry(best1[t], t) in f1
    {
      if t in best0 && best1[t] == best0[t] {
        assert Entry(best0[t], t) != e;
        assert Entry(best0[t], t) in f;
      }
    }
    forall s | s in p.seeds && s !in dist && s != e.state
      ensures Entry(0, s) in f1
    {
      assert Entry(0, s) != e;
      assert Entry(0, s) in f;
    }
  }

  lemma SettleOptimal(p: Problem, e: Entry, best0: map<State, int>, f0: multiset<Entry>, dist: map<State, int>)
    requires RelaxedAll(p, best0, dist) && Pending(p, best0, f0, dist) && Optimal(p, dist)
    requires e in f0 && Least(e.cost, f0)
    requires e.state in dist ==> dist[e.state] == e.cost
    ensures Optimal(p, dist[e.state := e.cost])
  {
    forall r | ValidRoute(p, r) && End(r) == e.state && e.state !in dist
      ensures e.cost <= Cost(p, r)
    {
      var x := FrontierBound(p, best0, f0, dist, r.start, r.runs);
    }
  }

  /** Expanding a popped entry that is not stale keeps the invariant, with the
      entry's state settled at the entry's cost. */
  lemma SettleStep(p: Problem, best0: map<State, int>, f0: multiset<Entry>, dist: map<State, int>, floor: int,
                   e: Entry, best1: map<State, int>, f1: multiset<Entry>)
    requires WellFormed(p) && Inv(p, best0, f0, dist, floor)
    requires e in f0 && Least(e.cost, f0) && !IsGoal(p, e.state)
    requires !(e.state in best0 && best0[e.state] < e.cost)
    requires Expanded(p, e, best0, f0 - multiset{e}, best1, f1)
    ensures Inv(p, best1, f1, dist[e.state := e.cost], e.cost)
  {
    SettleBooks(p, best0, f0, dist, floor, e, best1, f1);
    SettleProofs(p, best0, f0, dist, floor, e, best1, f1);
  }

  /** The bookkeeping half of `SettleStep`. */
  lemma SettleBooks(p: Problem, best0: map<State, int>, f0: multiset<Entry>, dist: map<State, int>, floor: int,
                    e: Entry, best1: map<State, int>, f1: multiset<Entry>)
    requires WellFormed(p) && EntriesOk(p, best0, f0) && SeedsOut(p, best0) && SettledOk(p, best0, dist)
    requires FloorOk(f0, dist, floor) && RelaxedAll(p, best0, dist) && Pending(p, best0, f0, dist)
    requires e in f0 && Least(e.cost, f0) && !IsGoal(p, e.state)
    requires !(e.state in best0 && best0[e.state] < e.cost)
    requires Expanded(p, e, best0, f0 - multiset{e}, best1, f1)
    ensures EntriesOk(p, best1, f1) && SeedsOut(p, best1) && SettledOk(p, best1, dist[e.state := e.cost])
    ensures FloorOk(f1, dist[e.state := e.cost], e.cost) && RelaxedAll(p, best1, dist[e.state := e.cost])
    ensures Pending(p, best1, f1, dist[e.state := e.cost])
  {
    var f := f0 - multiset{e};
    SettleEntries(p, e, best0, f0, best1, f1);
    ImprovedKeys(p, e, best0, f, best1, f1);
    SettleSettled(p, e, best0, f0, dist, floor, best1);
    assert forall x :: x in f1 - f ==> x.cost >= e.cost;
    SettleFloor(p, e, f0, dist, floor, f1);
    SettleRelaxed(p, e, best0, dist, best1);
    SettlePending(p, e, best0, f0, dist, best1, f1);
  }

  /** The optimality and witness half of `SettleStep`. */
  lemma SettleProofs(p: Problem, best0: map<State, int>, f0: multiset<Entry>, dist: map<State, int>, floor: int,
                     e: Entry, best1: map<State, int>, f1: multiset<Entry>)
    requires EntriesOk(p, best0, f0) && SettledOk(p, best0, dist)
    requires RelaxedAll(p, best0, dist) && Pending(p, best0, f0, dist) && Witnessed(p, f0) && Optimal(p, dist)
    requires e in f0 && Least(e.cost, f0)
    requires !(e.state in best0 && best0[e.state] < e.cost)
    requires Expanded(p, e, best0, f0 - multiset{e}, best1, f1)
    ensures Witnessed(p, f1) && Optimal(p, dist[e.state := e.cost])
  {
    ResettleSame(p, best0, f0, dist, e);
    SettleOptimal(p, e, best0, f0, dist);
    SettleWitnessed(p, e, f0, f1);
  }

  /** Entries pushed by an expansion of `e` extend the route that `e` witnesses. */
  lemma SettleWitnessed(p: Problem, e: Entry, f0: multiset<Entry>, f1: multiset<Entry>)
    requires Witnessed(p, f0) && e in f0 && f0 - multiset{e} <= f1
    requires forall x :: x in f1 - (f0 - multiset{e}) ==> PushedFrom(p, e.state, e.cost, x)
    ensures Witnessed(p, f1)
  {
    var f := f0 - multiset{e};
    assert Witnessed(p, f) by {
      forall x | x in f
        ensures exists r :: ValidRoute(p, r) && End(r) == x.state && Cost(p, r) == x.cost
      {
        assert x in f0;
      }
    }
    PushedWitnessed(p, e, f, f1);
  }

  /** All states on the map. */
  function AllStates(g: Grid): (all: set<State>)
    ensures forall u: State :: InGrid(g, u.row, u.col) ==> u in all
  {
    var all := set i, j, h | 0 <= i < |g| && 0 <= j < (if |g| == 0 then 0 else |g[0]|) && h in AllHeadings :: State(i, j, h);
    forall u: State | InGrid(g, u.row, u.col)
      ensures u in all
    {
      AllHeadingsComplete(u.heading);
    }
    all
  }

  /** The number of states on the map that are not settled. */
  function Unsettled(p: Problem, dist: map<State, int>): nat
  {
    |AllStates(p.grid) - dist.Keys|
  }

  /** Settling a new state on the map shrinks the set of unsettled states. */
  lemma MeasureShrinks(g: Grid, dist: map<State, int>, u: State, c: int)
    requires InGrid(g, u.row, u.col) && u !in dist
    ensures |AllStates(g) - dist[u := c].Keys| < |AllStates(g) - dist.Keys|
  {
    assert AllStates(g) - dist[u := c].Keys == (AllStates(g) - dist.Keys) - {u};
  }

  lemma UpdateSame<K, V>(m: map<K, V>, k: K, v: V)
    requires k in m && m[k] == v
    ensures m[k := v] == m
  {
  }

  /** The initial queue: every start state at cost 0. */
  function Seeded(p: Problem): (f: multiset<Entry>)
    ensures forall x :: x in f <==> x.cost == 0 && x.state in p.seeds
  {
    multiset(set s | s in p.seeds :: Entry(0, s))
  }

  /** The invariant holds before the first pop. */
  lemma InitialInv(p: Problem)
    requires WellFormed(p)
    ensures Inv(p, map[], Seeded(p), map[], 0)
  {
    forall x | x in Seeded(p)
      ensures exists r :: ValidRoute(p, r) && End(r) == x.state && Cost(p, r) == x.cost
    {
      assert ValidRoute(p, Route(x.state, []));
    }
  }

  /** One expansion of the search: relax the runs out of the popped entry
      `e` and settle its state. Either a new state is settled, or the state
      was settled at this cost before and nothing but the pop changes. */
  method Settle(p: Problem, dirs: seq<Direction>, best0: map<State, int>, f0: multiset<Entry>,
                ghost dist: map<State, int>, ghost floor: int, e: Entry)
    returns (best: map<State, int>, frontier: multiset<Entry>)
    requires WellFormed(p) && CoversAll(dirs) && Inv(p, best0, f0, dist, floor)
    requires e in f0 && Least(e.cost, f0) && !IsGoal(p, e.state)
    requires !(e.state in best0 && best0[e.state] < e.cost)
    ensures Inv(p, best, frontier, dist[e.state := e.cost], e.cost)
    ensures Unsettled(p, dist[e.state := e.cost]) < Unsettled(p, dist)
      || (dist[e.state := e.cost] == dist && |frontier| < |f0|)
  {
    PoppedCost(p, best0, f0, e);
    ResettleSame(p, best0, f0, dist, e);
    ghost var settled := e.state in dist;
    assert settled ==> Saturated(p, e.state, e.cost, best0);
    best, frontier := Expand(p, dirs, e.state, e.cost, best0, f0 - multiset{e});
    SettleStep(p, best0, f0, dist, floor, e, best, frontier);
    if settled {
      UpdateSame(dist, e.state, e.cost);
    } else {
      MeasureShrinks(p.grid, dist, e.state, e.cost);
    }
  }

  /** `r` reaches the goal at cost `c`. */
  predicate GoalRoute(p: Problem, r: Route, c: int)
  {
    ValidRoute(p, r) && IsGoal(p, End(r)) && Cost(p, r) == c
  }

  /** No route to the goal costs less than `c`. */
  ghost predicate LowerBound(p: Problem, c: int)
  {
    forall r :: ValidRoute(p, r) && IsGoal(p, End(r)) ==> c <= Cost(p, r)
  }

  /** No route reaches the goal. */
  ghost predicate Unreachable(p: Problem)
  {
    forall r :: ValidRoute(p, r) ==> !IsGoal(p, End(r))
  }

  /** A goal-reaching route of cost `c` exists and none is cheaper. */
  ghost predicate Cheapest(p: Problem, c: int)
  {
    (exists r :: GoalRoute(p, r, c)) && LowerBound(p, c)
  }

  /** What happens after a pop that is not the goal: a stale entry is
      skipped, any other is expanded and its state settled. */
  method Advance(p: Problem, dirs: seq<Direction>, best0: map<State, int>, f0: multiset<Entry>,
                 ghost dist0: map<State, int>, ghost floor0: int, e: Entry)
    returns (best: map<State, int>, frontier: multiset<Entry>, ghost dist: map<State, int>, ghost floor: int)
    requires WellFormed(p) && CoversAll(dirs) && Inv(p, best0, f0, dist0, floor0)
    requires e in f0 && Least(e.cost, f0) && !IsGoal(p, e.state)
    ensures Inv(p, best, frontier, dist, floor)
    ensures Unsettled(p, dist) < Unsettled(p, dist0) || (dist == dist0 && |frontier| < |f0|)
  {
    if e.state in best0 && best0[e.state] < e.cost {
      StaleStep(p, best0, f0, dist0, floor0, e);
      RemoveShrinks(f0, e);
      best, frontier, dist, floor := best0, f0 - multiset{e}, dist0, floor0;
    } else {
      best, frontier := Settle(p, dirs, best0, f0, dist0, floor0, e);
      dist, floor := dist0[e.state := e.cost], e.cost;
    }
  }

  /** The loop of `min_heat_loss` from a given queue: pop an entry of least
      cost until the goal comes out or the queue is empty. */
  method Loop(p: Problem, dirs: seq<Direction>, best: map<State, int>, frontier: multiset<Entry>,
              ghost dist: map<State, int>, ghost floor: int)
    returns (reached: Option<nat>, ghost route: Route)
    requires WellFormed(p) && CoversAll(dirs) && Inv(p, best, frontier, dist, floor)
    ensures reached.Some? ==> GoalRoute(p, route, reached.value) && LowerBound(p, reached.value)
    ensures reached.None? ==> Unreachable(p)
    decreases Unsettled(p, dist), |frontier|, 2
  {
    if frontier == multiset{} {
      EmptyStep(p, best, dist, floor);
      return None, Route(State(0, 0, Start), []);
    }
    reached, route := Pop(p, dirs, best, frontier, dist, floor);
  }

  /** The goal came out of the queue: report its cost. */
  method Finish(p: Problem, best: map<State, int>, frontier: multiset<Entry>, ghost dist: map<State, int>, ghost floor: int,
                e: Entry)
    returns (reached: Option<nat>, ghost route: Route)
    requires Inv(p, best, frontier, dist, floor)
    requires e in frontier && Least(e.cost, frontier) && IsGoal(p, e.state)
    ensures reached == Some(e.cost)
    ensures reached.Some? ==> GoalRoute(p, route, reached.value) && LowerBound(p, reached.value)
  {
    route := GoalStep(p, best, frontier, dist, floor, e);
    reached := Some(e.cost);
  }

  /** Pop an entry of least cost and stop if it is the goal. */
  method Pop(p: Problem, dirs: seq<Direction>, best: map<State, int>, frontier: multiset<Entry>,
             ghost dist: map<State, int>, ghost floor: int)
    returns (reached: Option<nat>, ghost route: Route)
    requires WellFormed(p) && CoversAll(dirs) && Inv(p, best, frontier, dist, floor)
    requires frontier != multiset{}
    ensures reached.Some? ==> GoalRoute(p, route, reached.value) && LowerBound(p, reached.value)
    ensures reached.None? ==> Unreachable(p)
    decreases Unsettled(p, dist), |frontier|, 1
  {
    var e := PopLeast(frontier);
    if IsGoal(p, e.state) {
      reached, route := Finish(p, best, frontier, dist, floor, e);
      return;
    }
    reached, route := Continue(p, dirs, best, frontier, dist, floor, e);
  }

  /** The rest of the loop after popping `e`, which is not the goal. */
  method Continue(p: Problem, dirs: seq<Direction>, best: map<State, int>, frontier: multiset<Entry>,
                  ghost dist: map<State, int>, ghost floor: int, e: Entry)
    returns (reached: Option<nat>, ghost route: Route)
    requires WellFormed(p) && CoversAll(dirs) && Inv(p, best, frontier, dist, floor)
    requires e in frontier && Least(e.cost, frontier) && !IsGoal(p, e.state)
    ensures reached.Some? ==> GoalRoute(p, route, reached.value) && LowerBound(p, reached.value)
    ensures reached.None? ==> Unreachable(p)
    decreases Unsettled(p, dist), |frontier|, 0
  {
    var best1, frontier1;
    ghost var dist1, floor1;
    best1, frontier1, dist1, floor1 := Advance(p, dirs, best, frontier, dist, floor, e);
    reached, route := Loop(p, dirs, best1, frontier1, dist1, floor1);
  }

  /** The search from the start states, each queued at cost 0. */
  method FromSeeds(p: Problem, dirs: seq<Direction>) returns (reached: Option<nat>, ghost route: Route)
    requires WellFormed(p) && CoversAll(dirs)
    ensures reached.Some? ==> GoalRoute(p, route, reached.value) && LowerBound(p, reached.value)
    ensures reached.None? ==> Unreachable(p)
  {
    InitialInv(p);
    reached, route := Loop(p, dirs, map[], Seeded(p), map[], 0);
  }

  /** Dijkstra's search shared by both files: the start states are
      `p.seeds` at cost 0 and `dirs` is the order in which the four
      directions are tried. */
  method Search(p: Problem, dirs: seq<Direction>) returns (out: Outcome)
    requires WellFormed(p)
    requires CoversAll(dirs)
    ensures out.Reached? ==> Cheapest(p, out.cost)
    ensures out.Exhausted? <==> forall r :: ValidRoute(p, r) ==> !IsGoal(p, End(r))
  {
    var reached;
    ghost var route;
    reached, route := FromSeeds(p, dirs);
    if reached.Some? {
      assert GoalRoute(p, route, reached.value);
      out := Reached(reached.value);
    } else {
      out := Exhausted;
    }
  }

  // ---------------------------------------------------------------------------
  // The two entry points

  /** `u64::MAX`, returned when the goal is never popped. */
  function AsU64(out: Outcome): nat
  {
    match out
    case Reached(c) => c
    case Exhausted => U64_MAX
  }

  /** The problem `main.rs` solves: start at the top-left cell heading right
      and heading down. */
  function MainProblem(grid: Grid, minStep: int, maxStep: int): (p: Problem)
    ensures p.seeds == {State(0, 0, Moving(Right)), State(0, 0, Moving(Down))}
  {
    Problem(grid, minStep, maxStep, {State(0, 0, Moving(Right)), State(0, 0, Moving(Down))})
  }

  /** The problem `working.rs` solves: start at the top-left cell with the
      heading (0, 0), which forbids no direction. */
  function WorkingProblem(grid: Grid, minStep: int, maxStep: int): (p: Problem)
    ensures p.seeds == {State(0, 0, Start)}
  {
    Problem(grid, minStep, maxStep, {State(0, 0, Start)})
  }

  /** The least heat loss over the routes to the bottom-right cell, or
      `u64::MAX` when there is none. */
  ghost predicate MinimalLoss(p: Problem, loss: nat)
  {
    ((exists r :: ValidRoute(p, r) && IsGoal(p, End(r))) ==>
      (exists r :: ValidRoute(p, r) && IsGoal(p, End(r)) && Cost(p, r) == loss)
      && forall r :: ValidRoute(p, r) && IsGoal(p, End(r)) ==> loss <= Cost(p, r))
    && ((forall r :: ValidRoute(p, r) ==> !IsGoal(p, End(r))) ==> loss == U64_MAX)
  }

  /** `min_heat_loss` of `main.rs`: directions tried in the order up, right,
      down, left. */
  method MinHeatLoss(grid: Grid, minStep: int, maxStep: int) returns (loss: nat)
    requires Wide(grid)
    ensures MinimalLoss(MainProblem(grid, minStep, maxStep), loss)
  {
    var out := Search(MainProblem(grid, minStep, maxStep), [Up, Right, Down, Left]);
    loss := AsU64(out);
  }

  /** `min_heat_loss` of `working.rs`: directions tried in the order up, down,
      left, right. */
  method MinHeatLossWorking(grid: Grid, minStep: int, maxStep: int) returns (loss: nat)
    requires Wide(grid)
    ensures MinimalLoss(WorkingProblem(grid, minStep, maxStep), loss)
  {
    var out := Search(WorkingProblem(grid, minStep, maxStep), [Up, Down, Left, Right]);
    loss := AsU64(out);
  }
}
