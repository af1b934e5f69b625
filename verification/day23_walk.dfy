/** Day 23 (A Long Walk): the trail map, the cells each tile lets the hiker
    step to, and the backtracking search for the longest hike that reaches
    the last row without stepping on a cell twice. */
module LongWalk {
  import opened Wrappers
  import opened Text

  datatype Direction = North | East | South | West

  /** A cell position, row then column, as unsigned indices. */
  type Cell = (nat, nat)

  /** Two cells one step apart. */
  predicate Adjacent(a: Cell, b: Cell)
  {
    (a.0 == b.0 && (a.1 - b.1 == 1 || b.1 - a.1 == 1))
    || (a.1 == b.1 && (a.0 - b.0 == 1 || b.0 - a.0 == 1))
  }

  /** `Direction::get_next`: the cell one step away. Going north from row 0
      or west from column 0 underflows the unsigned index, which panics;
      that is `None` here. */
  function GetNext(d: Direction, i: nat, j: nat): (r: Option<Cell>)
    ensures r.None? <==> (d == North && i == 0) || (d == West && j == 0)
    ensures r.Some? ==> Adjacent((i, j), r.value)
    ensures r.Some? ==> ((r.value.0 < i <==> d == North) && (r.value.1 > j <==> d == East)
      && (r.value.0 > i <==> d == South) && (r.value.1 < j <==> d == West))
  {
    match d
    case North => if i == 0 then None else Some((i - 1, j))
    case East => Some((i, j + 1))
    case South => Some((i + 1, j))
    case West => if j == 0 then None else Some((i, j - 1))
  }

  /** `Direction::opposite`: never the direction itself, and a step in it
      undoes a step in the given direction. */
  function Opposite(d: Direction): (r: Direction)
    ensures r != d
  {
    match d
    case North => South
    case East => West
    case South => North
    case West => East
  }

  /** A step in the opposite direction undoes a step, and the opposite of
      the opposite is the direction itself. */
  lemma OppositeUndoes(d: Direction, i: nat, j: nat)
    requires GetNext(d, i, j).Some?
    ensures GetNext(Opposite(d), GetNext(d, i, j).value.0, GetNext(d, i, j).value.1) == Some((i, j))
    ensures Opposite(Opposite(d)) == d
  {
  }

  datatype Tile = Forest | Path | Slope(dir: Direction)

  /** The map character of a tile. */
  function TileChar(t: Tile): char
  {
    match t
    case Forest => '#'
    case Path => '.'
    case Slope(North) => '^'
    case Slope(East) => '>'
    case Slope(South) => 'v'
    case Slope(West) => '<'
  }

  /** `Tile::parse`: '#', '.', and the four slope arrows; anything else
      panics, which is `None` here. */
  function ParseTile(c: char): (r: Option<Tile>)
    ensures r.Some? <==> c in "#.^>v<"
    ensures r.Some? ==> TileChar(r.value) == c
  {
    match c
    case '#' => Some(Forest)
    case '.' => Some(Path)
    case '^' => Some(Slope(North))
    case '>' => Some(Slope(East))
    case 'v' => Some(Slope(South))
    case '<' => Some(Slope(West))
    case _ => None
  }

  // ---------------------------------------------------------------------------
  // Tile::get_next

  /** The directions a tile lists, in the Rust code's order. */
  function Directions(t: Tile, part2: bool): seq<Direction>
  {
    match t
    case Forest => []
    case Path => [North, South, West, East]
    case Slope(d) => if part2 then [d, Opposite(d)] else [d]
  }

  /** The cells one step away in each of `ds`. As written (`guarded` false)
      one underflow panics the whole call; guarded, a step off the map is
      dropped. */
  function Steps(ds: seq<Direction>, i: nat, j: nat, guarded: bool): (r: Option<seq<Cell>>)
    ensures r.None? <==> !guarded && exists k :: 0 <= k < |ds| && GetNext(ds[k], i, j).None?
    ensures r.Some? ==> forall c :: c in r.value <==> exists k :: 0 <= k < |ds| && GetNext(ds[k], i, j) == Some(c)
    ensures r.Some? && !guarded ==> (|r.value| == |ds|
      && forall k :: 0 <= k < |ds| ==> GetNext(ds[k], i, j) == Some(r.value[k]))
  {
    if ds == [] then Some([])
    else
      match Steps(ds[1..], i, j, guarded)
      case None => None
      case Some(rest) =>
        match GetNext(ds[0], i, j)
        case None => if guarded then Some(rest) else None
        case Some(c) => Some([c] + rest)
  }

  /** `Tile::get_next`: forest lists nothing, a path its four neighbours in
      the order north, south, west, east, and a slope the cell it points to
      and, only in part 2, the cell behind it. */
  function Successors(t: Tile, i: nat, j: nat, part2: bool, guarded: bool): (r: Option<seq<Cell>>)
    ensures t == Forest ==> r == Some([])
    ensures r.Some? ==> forall c :: c in r.value ==> Adjacent((i, j), c)
    ensures t == Path && !guarded && i > 0 && j > 0 ==> (r.Some? && |r.value| == 4
      && r.value[0] == (i - 1, j) && r.value[1] == (i + 1, j) && r.value[2] == (i, j - 1) && r.value[3] == (i, j + 1))
    ensures t.Slope? && r.Some? && !guarded ==> (|r.value| == (if part2 then 2 else 1)
      && Some(r.value[0]) == GetNext(t.dir, i, j)
      && (part2 ==> Some(r.value[1]) == GetNext(Opposite(t.dir), i, j)))
    ensures r.None? <==> (!guarded && ((t == Path && (i == 0 || j == 0))
      || (t.Slope? && (GetNext(t.dir, i, j).None? || (part2 && GetNext(Opposite(t.dir), i, j).None?)))))
  {
    var ds := Directions(t, part2);
    var r := Steps(ds, i, j, guarded);
    assert t == Path && !guarded && i == 0 ==> GetNext(ds[0], i, j).None?;
    assert t == Path && !guarded && j == 0 ==> GetNext(ds[2], i, j).None?;
    r
  }

  // ---------------------------------------------------------------------------
  // Hike

  /** The map and the marks of the cells on the current path. */
  datatype Hike = Hike(tiles: seq<seq<Tile>>, visited: seq<seq<bool>>)

  /** One map line, a tile per character. */
  function ParseRow(line: string): (r: Option<seq<Tile>>)
    ensures r.Some? <==> forall j :: 0 <= j < |line| ==> ParseTile(line[j]).Some?
    ensures r.Some? ==> (|r.value| == |line|
      && forall j :: 0 <= j < |line| ==> ParseTile(line[j]) == Some(r.value[j]))
  {
    if line == [] then Some([])
    else
      var t :- ParseTile(line[0]);
      var rest :- ParseRow(line[1..]);
      Some([t] + rest)
  }

  /** All map lines, a row per line. */
  function ParseRows(ls: seq<string>): (r: Option<seq<seq<Tile>>>)
    ensures r.Some? <==> forall i :: 0 <= i < |ls| ==> ParseRow(ls[i]).Some?
    ensures r.Some? ==> (|r.value| == |ls|
      && forall i :: 0 <= i < |ls| ==> ParseRow(ls[i]) == Some(r.value[i]))
  {
    if ls == [] then Some([])
    else
      var row :- ParseRows(ls[1..]);
      var first :- ParseRow(ls[0]);
      Some([first] + row)
  }

  /** `Hike::parse`: the tiles, and nothing visited in a grid as tall as the
      map and as wide as its first row. A bad character, or a map with no
      line at all (the first row does not exist), panics. */
  function ParseHike(s: string): (r: Option<Hike>)
    ensures r.Some? <==> |Lines(s)| > 0 && ParseRows(Lines(s)).Some?
    ensures r.Some? ==> (r.value.tiles == ParseRows(Lines(s)).value
      && |r.value.visited| == |r.value.tiles|
      && forall a :: 0 <= a < |r.value.visited| ==> (|r.value.visited[a]| == |r.value.tiles[0]|
        && forall b :: 0 <= b < |r.value.visited[a]| ==> !r.value.visited[a][b]))
  {
    var tiles :- ParseRows(Lines(s));
    if |tiles| == 0 then None
    else Some(Hike(tiles, seq(|tiles|, _ => seq(|tiles[0]|, _ => false))))
  }

  /** A map drawn one newline-terminated line per row. */
  function Draw(tiles: seq<seq<Tile>>): string
  {
    Unlines(seq(|tiles|, a requires 0 <= a < |tiles| => seq(|tiles[a]|, b requires 0 <= b < |tiles[a]| => TileChar(tiles[a][b]))))
  }

  lemma DrawRowParses(row: seq<Tile>)
    ensures ParseRow(seq(|row|, b requires 0 <= b < |row| => TileChar(row[b]))) == Some(row)
  {
    var line := seq(|row|, b requires 0 <= b < |row| => TileChar(row[b]));
    forall b | 0 <= b < |row|
      ensures ParseTile(line[b]) == Some(row[b])
    {
      match row[b]
      case Slope(d) => assert ParseTile(TileChar(Slope(d))) == Some(Slope(d));
      case _ =>
    }
    var r := ParseRow(line).value;
    assert r == row;
  }

  /** Reading a drawn map gives back its tiles, with nothing visited. */
  lemma ParseDraw(tiles: seq<seq<Tile>>)
    requires |tiles| > 0
    ensures ParseHike(Draw(tiles)).Some?
    ensures ParseHike(Draw(tiles)).value.tiles == tiles
  {
    var ls := seq(|tiles|, a requires 0 <= a < |tiles| => seq(|tiles[a]|, b requires 0 <= b < |tiles[a]| => TileChar(tiles[a][b])));
    forall a | 0 <= a < |ls|
      ensures Free(ls[a], '\n')
    {
      assert forall b :: 0 <= b < |ls[a]| ==> ls[a][b] == TileChar(tiles[a][b]);
    }
    LinesUnlines(ls);
    forall a | 0 <= a < |tiles|
      ensures ParseRow(ls[a]) == Some(tiles[a])
    {
      DrawRowParses(tiles[a]);
    }
    var rows := ParseRows(ls).value;
    assert rows == tiles;
  }

  // ---------------------------------------------------------------------------
  // The visited marks

  predicate InBounds<T>(grid: seq<seq<T>>, c: Cell)
  {
    c.0 < |grid| && c.1 < |grid[c.0]|
  }

  /** `visited[i][j] = b`, for a cell on the grid; any other cell leaves
      the grid alone (the Rust code panics before it would matter). */
  function Mark(v: seq<seq<bool>>, c: Cell, b: bool): (r: seq<seq<bool>>)
    ensures |r| == |v| && forall a :: 0 <= a < |v| ==> |r[a]| == |v[a]|
    ensures InBounds(v, c) ==> r[c.0][c.1] == b
    ensures forall a, x :: 0 <= a < |v| && 0 <= x < |v[a]| && (a, x) != c ==> r[a][x] == v[a][x]
  {
    if InBounds(v, c) then v[c.0 := v[c.0][c.1 := b]] else v
  }

  /** The number of unmarked cells, which bounds the depth of the search. */
  function Unvisited(v: seq<seq<bool>>): nat
  {
    if v == [] then 0 else Unvisited(v[..|v| - 1]) + multiset(v[|v| - 1])[false]
  }

  lemma {:induction false} UnvisitedUpdate(v: seq<seq<bool>>, a: nat, row: seq<bool>)
    requires a < |v|
    ensures Unvisited(v[a := row]) + multiset(v[a])[false] == Unvisited(v) + multiset(row)[false]
    decreases |v|
  {
    var w := v[a := row];
    if a < |v| - 1 {
      assert w[..|w| - 1] == v[..|v| - 1][a := row];
      UnvisitedUpdate(v[..|v| - 1], a, row);
    } else {
      assert w[..|w| - 1] == v[..|v| - 1];
    }
  }

  /** Marking an unmarked cell removes one unmarked cell. */
  lemma MarkUnvisited(v: seq<seq<bool>>, c: Cell)
    requires InBounds(v, c) && !v[c.0][c.1]
    ensures Unvisited(Mark(v, c, true)) + 1 == Unvisited(v)
  {
    var row := v[c.0][c.1 := true];
    assert multiset(row) == multiset(v[c.0]) - multiset{false} + multiset{true};
    UnvisitedUpdate(v, c.0, row);
  }

  /** Unmarking an unmarked cell changes nothing. */
  lemma MarkSame(v: seq<seq<bool>>, c: Cell)
    requires InBounds(v, c) && !v[c.0][c.1]
    ensures Mark(v, c, false) == v
  {
    assert v[c.0][c.1 := false] == v[c.0];
  }

  /** Unmarking a cell just marked leaves it unmarked. */
  lemma MarkTwice(v: seq<seq<bool>>, c: Cell)
    requires InBounds(v, c)
    ensures Mark(Mark(v, c, true), c, false) == Mark(v, c, false)
  {
    assert v[c.0][c.1 := true][c.1 := false] == v[c.0][c.1 := false];
  }

  // ---------------------------------------------------------------------------
  // Hike::backtrack

  /** What `backtrack` returns, with the marks it leaves behind. */
  datatype Outcome = Outcome(steps: nat, deadEnd: bool, visited: seq<seq<bool>>)

  /** `Hike::backtrack` from cell `c`: mark it; on the last row the answer is
      (0, not a dead end); otherwise the best of one more step than each
      successor that is neither marked nor forest and is not a dead end, and
      a dead end when that best is 0; unmark it. Any index off the map or
      below 0 panics, which is `None` here, unless `guarded`, which skips
      such cells instead. */
  function Backtrack(tiles: seq<seq<Tile>>, visited: seq<seq<bool>>, c: Cell, part2: bool, guarded: bool): (r: Option<Outcome>)
    ensures r.Some? ==> r.value.visited == Mark(visited, c, false)
    ensures r.Some? ==> (r.value.deadEnd <==> r.value.steps == 0 && c.0 != |tiles| - 1)
    decreases Unvisited(Mark(visited, c, true)), 1
  {
    if !InBounds(visited, c) || |tiles| == 0 then None
    else
      var marked := Mark(visited, c, true);
      MarkTwice(visited, c);
      if c.0 == |tiles| - 1 then Some(Outcome(0, false, Mark(marked, c, false)))
      else if !InBounds(tiles, c) then None
      else
        match Successors(tiles[c.0][c.1], c.0, c.1, part2, guarded)
        case None => None
        case Some(next) =>
          match Explore(tiles, marked, next, 0, 0, part2, guarded)
          case None => None
          case Some(e) => Some(Outcome(e.0, e.0 == 0, Mark(e.1, c, false)))
  }

  /** The best so far after a successor's outcome: one more step than the
      successor's, when that is not a dead end and beats `max`. */
  function Best(max: nat, o: Outcome): nat
  {
    if !o.deadEnd && max < o.steps + 1 then o.steps + 1 else max
  }

  /** The loop of `backtrack` over the successors from position `k` on, with
      the best found so far. */
  function Explore(tiles: seq<seq<Tile>>, visited: seq<seq<bool>>, next: seq<Cell>, k: nat, max: nat,
                   part2: bool, guarded: bool): (r: Option<(nat, seq<seq<bool>>)>)
    ensures r.Some? ==> r.value.1 == visited && r.value.0 >= max
    decreases Unvisited(visited), 0, |next| - k
  {
    if k >= |next| then Some((max, visited))
    else
      var n := next[k];
      if !InBounds(visited, n) then
        if guarded then Explore(tiles, visited, next, k + 1, max, part2, guarded) else None
      else if visited[n.0][n.1] then Explore(tiles, visited, next, k + 1, max, part2, guarded)
      else if !InBounds(tiles, n) then
        if guarded then Explore(tiles, visited, next, k + 1, max, part2, guarded) else None
      else if tiles[n.0][n.1] == Forest then Explore(tiles, visited, next, k + 1, max, part2, guarded)
      else
        MarkUnvisited(visited, n);
        match Backtrack(tiles, visited, n, part2, guarded)
        case None => None
        case Some(o) =>
          MarkSame(visited, n);
          Explore(tiles, o.visited, next, k + 1, Best(max, o), part2, guarded)
  }

  /** A cell the search may step onto: on both grids, unmarked, not forest. */
  ghost predicate Open(tiles: seq<seq<Tile>>, visited: seq<seq<bool>>, c: Cell)
  {
    InBounds(visited, c) && !visited[c.0][c.1] && InBounds(tiles, c) && tiles[c.0][c.1] != Forest
  }

  /** `b` is a successor of `a`, a cell before the last row. */
  ghost predicate Link(tiles: seq<seq<Tile>>, part2: bool, guarded: bool, a: Cell, b: Cell)
  {
    InBounds(tiles, a) && a.0 != |tiles| - 1
    && var ns := Successors(tiles[a.0][a.1], a.0, a.1, part2, guarded);
    ns.Some? && b in ns.value
  }

  /** A hike from `p[0]`: it stops on its first cell on the last row, and
      every other step goes to a successor that is open once the cell it
      leaves is marked. Its length is `|p| - 1`. */
  ghost predicate IsHike(tiles: seq<seq<Tile>>, visited: seq<seq<bool>>, part2: bool, guarded: bool, p: seq<Cell>)
    decreases |p|
  {
    |p| > 0 && InBounds(visited, p[0])
    && (if |p| == 1 then p[0].0 == |tiles| - 1
        else (Link(tiles, part2, guarded, p[0], p[1]) && Open(tiles, Mark(visited, p[0], true), p[1])
          && IsHike(tiles, Mark(visited, p[0], true), part2, guarded, p[1..])))
  }

  lemma OpenMark(tiles: seq<seq<Tile>>, visited: seq<seq<bool>>, c: Cell, x: Cell)
    requires InBounds(visited, c)
    ensures Open(tiles, Mark(visited, c, true), x) <==> Open(tiles, visited, x) && x != c
  {
  }

  /** A hike is a path of successors that ends on the last row, steps only
      on open cells, and never comes back to a cell. */
  lemma {:induction false} HikeIsSimplePath(tiles: seq<seq<Tile>>, visited: seq<seq<bool>>, part2: bool, guarded: bool, p: seq<Cell>)
    requires IsHike(tiles, visited, part2, guarded, p)
    ensures p[|p| - 1].0 == |tiles| - 1
    ensures forall k :: 0 < k < |p| ==> Open(tiles, visited, p[k])
    ensures forall k :: 0 <= k < |p| - 1 ==> Link(tiles, part2, guarded, p[k], p[k + 1])
    ensures forall a, b :: 0 <= a < b < |p| ==> p[a] != p[b]
    decreases |p|
  {
    if |p| > 1 {
      var marked := Mark(visited, p[0], true);
      var q := p[1..];
      HikeIsSimplePath(tiles, marked, part2, guarded, q);
      forall k | 0 < k < |p|
        ensures Open(tiles, visited, p[k]) && p[k] != p[0]
      {
        assert p[k] == q[k - 1];
        OpenMark(tiles, visited, p[0], p[k]);
      }
      forall k | 0 <= k < |p| - 1
        ensures Link(tiles, part2, guarded, p[k], p[k + 1])
      {
        if k > 0 {
          assert p[k] == q[k - 1] && p[k + 1] == q[k];
        }
      }
      forall a, b | 0 <= a < b < |p|
        ensures p[a] != p[b]
      {
        if a > 0 {
          assert p[a] == q[a - 1] && p[b] == q[b - 1];
        }
      }
    }
  }

  /** Conversely, such a path from a cell on the grid is a hike. */
  lemma {:induction false} SimplePathIsHike(tiles: seq<seq<Tile>>, visited: seq<seq<bool>>, part2: bool, guarded: bool, p: seq<Cell>)
    requires |p| > 0 && InBounds(visited, p[0]) && p[|p| - 1].0 == |tiles| - 1
    requires forall k :: 0 < k < |p| ==> Open(tiles, visited, p[k])
    requires forall k :: 0 <= k < |p| - 1 ==> Link(tiles, part2, guarded, p[k], p[k + 1])
    requires forall a, b :: 0 <= a < b < |p| ==> p[a] != p[b]
    ensures IsHike(tiles, visited, part2, guarded, p)
    decreases |p|
  {
    if |p| > 1 {
      var marked := Mark(visited, p[0], true);
      var q := p[1..];
      forall k | 0 <= k < |q|
        ensures Open(tiles, marked, q[k])
      {
        assert q[k] == p[k + 1] != p[0];
        OpenMark(tiles, visited, p[0], q[k]);
      }
      forall k | 0 <= k < |q| - 1
        ensures Link(tiles, part2, guarded, q[k], q[k + 1])
      {
        assert q[k] == p[k + 1] && q[k + 1] == p[k + 2];
      }
      forall a, b | 0 <= a < b < |q|
        ensures q[a] != q[b]
      {
        assert q[a] == p[a + 1] && q[b] == p[b + 1];
      }
      assert q[|q| - 1] == p[|p| - 1];
      assert Link(tiles, part2, guarded, p[0], p[1]);
      SimplePathIsHike(tiles, marked, part2, guarded, q);
    }
  }

  /** What `backtrack` computes is the longest hike from `c`: no hike is
      longer than its steps; unless it reports a dead end, a hike of exactly
      that length exists; and it reports a dead end exactly when there is no
      hike at all. */
  lemma {:induction false} BacktrackLongest(tiles: seq<seq<Tile>>, visited: seq<seq<bool>>, c: Cell, part2: bool, guarded: bool)
    requires Backtrack(tiles, visited, c, part2, guarded).Some?
    ensures var o := Backtrack(tiles, visited, c, part2, guarded).value;
      (forall p {:trigger IsHike(tiles, visited, part2, guarded, p)} :: IsHike(tiles, visited, part2, guarded, p) && p[0] == c ==> |p| - 1 <= o.steps)
      && (!o.deadEnd ==> exists p {:trigger IsHike(tiles, visited, part2, guarded, p)} :: IsHike(tiles, visited, part2, guarded, p) && p[0] == c && |p| - 1 == o.steps)
      && (o.deadEnd <==> !exists p {:trigger IsHike(tiles, visited, part2, guarded, p)} :: IsHike(tiles, visited, part2, guarded, p) && p[0] == c)
    decreases Unvisited(Mark(visited, c, true)), 1
  {
    var o := Backtrack(tiles, visited, c, part2, guarded).value;
    var marked := Mark(visited, c, true);
    if c.0 == |tiles| - 1 {
      assert o.steps == 0 && !o.deadEnd;
      LastRowHikes(tiles, visited, c, part2, guarded);
      HikeWitness(tiles, visited, part2, guarded, [c], c, o.steps);
    } else {
      var next := Successors(tiles[c.0][c.1], c.0, c.1, part2, guarded).value;
      var e := Explore(tiles, marked, next, 0, 0, part2, guarded).value;
      assert o.steps == e.0 && (o.deadEnd <==> e.0 == 0);
      ExploreLongest(tiles, marked, next, 0, 0, part2, guarded);
      HikesThrough(tiles, visited, c, next, e.0, part2, guarded);
      if !o.deadEnd {
        assert next[0..] == next;
        var q :| IsHike(tiles, marked, part2, guarded, q) && q[0] in next[0..] && Open(tiles, marked, q[0]) && |q| == e.0;
        assert ([c] + q)[1..] == q;
        HikeWitness(tiles, visited, part2, guarded, [c] + q, c, o.steps);
      }
    }
  }

  lemma HikeWitness(tiles: seq<seq<Tile>>, visited: seq<seq<bool>>, part2: bool, guarded: bool, w: seq<Cell>, c: Cell, n: nat)
    requires IsHike(tiles, visited, part2, guarded, w) && w[0] == c && |w| - 1 == n
    ensures exists p {:trigger IsHike(tiles, visited, part2, guarded, p)} :: IsHike(tiles, visited, part2, guarded, p) && p[0] == c && |p| - 1 == n
  {
  }

  /** From a cell on the last row the only hike is the cell itself. */
  lemma LastRowHikes(tiles: seq<seq<Tile>>, visited: seq<seq<bool>>, c: Cell, part2: bool, guarded: bool)
    requires InBounds(visited, c) && c.0 == |tiles| - 1
    ensures forall p {:trigger IsHike(tiles, visited, part2, guarded, p)} :: IsHike(tiles, visited, part2, guarded, p) && p[0] == c ==> |p| == 1
    ensures IsHike(tiles, visited, part2, guarded, [c])
  {
  }

  /** A hike from a cell before the last row takes at least one step, and
      is one step longer than a hike from one of the cell's successors with
      the cell marked; so it is no longer than one more than a bound on
      those. */
  lemma HikesThrough(tiles: seq<seq<Tile>>, visited: seq<seq<bool>>, c: Cell, next: seq<Cell>, m: nat,
                     part2: bool, guarded: bool)
    requires InBounds(visited, c) && InBounds(tiles, c) && c.0 != |tiles| - 1
    requires Successors(tiles[c.0][c.1], c.0, c.1, part2, guarded) == Some(next)
    requires forall q {:trigger IsHike(tiles, Mark(visited, c, true), part2, guarded, q)} :: ((IsHike(tiles, Mark(visited, c, true), part2, guarded, q) && q[0] in next[0..]
      && Open(tiles, Mark(visited, c, true), q[0])) ==> |q| <= m)
    ensures forall p {:trigger IsHike(tiles, visited, part2, guarded, p)} :: IsHike(tiles, visited, part2, guarded, p) && p[0] == c ==> 2 <= |p| && |p| - 1 <= m
  {
    forall p | IsHike(tiles, visited, part2, guarded, p) && p[0] == c
      ensures 2 <= |p| && |p| - 1 <= m
    {
      HikeBound(tiles, visited, c, next, m, part2, guarded, p);
    }
  }

  lemma HikeBound(tiles: seq<seq<Tile>>, visited: seq<seq<bool>>, c: Cell, next: seq<Cell>, m: nat,
                  part2: bool, guarded: bool, p: seq<Cell>)
    requires InBounds(visited, c) && InBounds(tiles, c) && c.0 != |tiles| - 1
    requires Successors(tiles[c.0][c.1], c.0, c.1, part2, guarded) == Some(next)
    requires forall q {:trigger IsHike(tiles, Mark(visited, c, true), part2, guarded, q)} :: ((IsHike(tiles, Mark(visited, c, true), part2, guarded, q) && q[0] in next[0..]
      && Open(tiles, Mark(visited, c, true), q[0])) ==> |q| <= m)
    requires IsHike(tiles, visited, part2, guarded, p) && p[0] == c
    ensures 2 <= |p| && |p| - 1 <= m
  {
    HikeStep(tiles, visited, c, next, part2, guarded, p);
    assert |p[1..]| <= m;
  }

  /** The first step of a hike from a cell before the last row goes to one
      of its successors, and the rest is a hike with the cell marked. */
  lemma HikeStep(tiles: seq<seq<Tile>>, visited: seq<seq<bool>>, c: Cell, next: seq<Cell>,
                 part2: bool, guarded: bool, p: seq<Cell>)
    requires InBounds(visited, c) && InBounds(tiles, c) && c.0 != |tiles| - 1
    requires Successors(tiles[c.0][c.1], c.0, c.1, part2, guarded) == Some(next)
    requires IsHike(tiles, visited, part2, guarded, p) && p[0] == c
    ensures 2 <= |p| && p[1..][0] in next[0..]
    ensures IsHike(tiles, Mark(visited, c, true), part2, guarded, p[1..]) && Open(tiles, Mark(visited, c, true), p[1..][0])
  {
    assert next[0..] == next;
    assert p[1..][0] == p[1];
    assert Link(tiles, part2, guarded, p[0], p[1]);
  }

  /** The loop finds the longest hike through the successors from `k` on,
      or keeps `max` when that is longer. */
  lemma {:induction false} ExploreLongest(tiles: seq<seq<Tile>>, visited: seq<seq<bool>>, next: seq<Cell>, k: nat, max: nat,
                                          part2: bool, guarded: bool)
    requires k <= |next| && Explore(tiles, visited, next, k, max, part2, guarded).Some?
    ensures var m := Explore(tiles, visited, next, k, max, part2, guarded).value.0;
      (forall q {:trigger IsHike(tiles, visited, part2, guarded, q)} :: IsHike(tiles, visited, part2, guarded, q) && q[0] in next[k..] && Open(tiles, visited, q[0]) ==> |q| <= m)
      && (m == max || exists q {:trigger IsHike(tiles, visited, part2, guarded, q)} :: IsHike(tiles, visited, part2, guarded, q) && q[0] in next[k..] && Open(tiles, visited, q[0]) && |q| == m)
    decreases Unvisited(visited), 0, |next| - k
  {
    if k < |next| {
      var n := next[k];
      var m := Explore(tiles, visited, next, k, max, part2, guarded).value.0;
      assert forall x :: x in next[k..] <==> x == n || x in next[k + 1..];
      if !Open(tiles, visited, n) {
        ExploreLongest(tiles, visited, next, k + 1, max, part2, guarded);
      } else {
        MarkUnvisited(visited, n);
        var o := Backtrack(tiles, visited, n, part2, guarded).value;
        MarkSame(visited, n);
        BacktrackLongest(tiles, visited, n, part2, guarded);
        var max' := Best(max, o);
        ExploreLongest(tiles, visited, next, k + 1, max', part2, guarded);
      }
    }
  }

  /** Guarded, the search always answers from a cell on both grids. */
  lemma {:induction false} GuardedAnswers(tiles: seq<seq<Tile>>, visited: seq<seq<bool>>, c: Cell, part2: bool)
    requires InBounds(visited, c) && InBounds(tiles, c)
    ensures Backtrack(tiles, visited, c, part2, true).Some?
    decreases Unvisited(Mark(visited, c, true)), 1
  {
    if c.0 != |tiles| - 1 {
      var next := Successors(tiles[c.0][c.1], c.0, c.1, part2, true).value;
      GuardedExplores(tiles, Mark(visited, c, true), next, 0, 0, part2);
    }
  }

  lemma {:induction false} GuardedExplores(tiles: seq<seq<Tile>>, visited: seq<seq<bool>>, next: seq<Cell>, k: nat, max: nat, part2: bool)
    ensures Explore(tiles, visited, next, k, max, part2, true).Some?
    decreases Unvisited(visited), 0, |next| - k
  {
    if k < |next| {
      var n := next[k];
      if !Open(tiles, visited, n) {
        GuardedExplores(tiles, visited, next, k + 1, max, part2);
        assert Explore(tiles, visited, next, k, max, part2, true) == Explore(tiles, visited, next, k + 1, max, part2, true);
      } else {
        MarkUnvisited(visited, n);
        GuardedAnswers(tiles, visited, n, part2);
        var o := Backtrack(tiles, visited, n, part2, true).value;
        MarkSame(visited, n);
        var max' := Best(max, o);
        GuardedExplores(tiles, visited, next, k + 1, max', part2);
        assert Explore(tiles, visited, next, k, max, part2, true) == Explore(tiles, o.visited, next, k + 1, max', part2, true);
      }
    }
  }

  /** As written, the search started on a path cell of row 1 right below
      a path cell of row 0 (the entrance, as `main` starts it on the puzzle
      maps) panics: north is the first successor it tries, and from row 0
      the north neighbour underflows. Guarded, the same search answers. */
  lemma EntrancePanics(tiles: seq<seq<Tile>>, visited: seq<seq<bool>>, j: nat, part2: bool)
    requires |tiles| > 2 && InBounds(tiles, (0, j)) && InBounds(tiles, (1, j))
    requires tiles[0][j] == Path && tiles[1][j] == Path
    requires InBounds(visited, (0, j)) && InBounds(visited, (1, j)) && !visited[0][j]
    ensures Backtrack(tiles, visited, (1, j), part2, false).None?
    ensures Backtrack(tiles, visited, (1, j), part2, true).Some?
  {
    if j > 0 {
      var marked := Mark(visited, (1, j), true);
      var next := Successors(Path, 1, j, part2, false).value;
      assert next[0] == (0, j);
      assert Open(tiles, marked, (0, j));
      assert Backtrack(tiles, marked, (0, j), part2, false).None? by {
        assert Successors(Path, 0, j, part2, false).None?;
      }
      assert Explore(tiles, marked, next, 0, 0, part2, false).None?;
    }
    GuardedAnswers(tiles, visited, (1, j), part2);
  }
}
