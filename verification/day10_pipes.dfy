/** Day 10 (Pipe Maze): the pipe tiles and the cells each connects, the shape
    of the start tile, the search along the loop and the parity count of the
    cells the loop encloses. */
module PipeMaze {
  import opened Wrappers
  import opened Text

  /** A grid position: row `i`, column `j`, both `usize` in the Rust code. */
  datatype Cell = Cell(i: nat, j: nat)

  datatype Pipe = Vertical | Horizontal | NorthEast | NorthWest | SouthWest | SouthEast | Ground

  datatype Dir = North | East | South | West

  type Grid = seq<seq<Pipe>>

  /** The sides a tile opens to, as the puzzle draws them. */
  function Openings(p: Pipe): set<Dir>
  {
    match p
    case Vertical => {North, South}
    case Horizontal => {East, West}
    case NorthEast => {North, East}
    case NorthWest => {North, West}
    case SouthWest => {South, West}
    case SouthEast => {South, East}
    case Ground => {}
  }

  function Opposite(d: Dir): Dir
  {
    match d
    case North => South
    case East => West
    case South => North
    case West => East
  }

  /** Position of a side in the order North, East, South, West. */
  function Rank(d: Dir): nat
  {
    match d
    case North => 0
    case East => 1
    case South => 2
    case West => 3
  }

  /** The neighbour of `c` on side `d`; none when it would have a negative
      coordinate. */
  function Step(c: Cell, d: Dir): Option<Cell>
  {
    match d
    case North => if c.i == 0 then None else Some(Cell(c.i - 1, c.j))
    case East => Some(Cell(c.i, c.j + 1))
    case South => Some(Cell(c.i + 1, c.j))
    case West => if c.j == 0 then None else Some(Cell(c.i, c.j - 1))
  }

  /** Stepping back through the opposite side returns to the cell. */
  lemma StepBack(c: Cell, d: Dir)
    requires Step(c, d).Some?
    ensures Step(Step(c, d).value, Opposite(d)) == Some(c)
  {
  }

  /** Different sides lead to different neighbours. */
  lemma StepInjective(c: Cell, d: Dir, e: Dir)
    requires Step(c, d).Some? && Step(c, d) == Step(c, e)
    ensures d == e
  {
  }

  /** No side the tile opens to leads below row or column zero, so the
      `usize` subtractions of `get_next` do not underflow. */
  predicate Fits(p: Pipe, c: Cell)
  {
    forall d :: d in Openings(p) ==> Step(c, d).Some?
  }

  /** `Pipe::get_next`: the two cells a tile connects. Ground gives the cell
      itself twice. */
  function GetNext(p: Pipe, c: Cell): (r: (Cell, Cell))
    requires Fits(p, c)
    ensures p == Ground ==> r.0 == c && r.1 == c
    ensures p != Ground ==> r.0 != r.1
    ensures forall d :: d in Openings(p) <==> Step(c, d) == Some(r.0) || Step(c, d) == Some(r.1)
  {
    assert North in Openings(p) ==> c.i > 0;
    assert West in Openings(p) ==> c.j > 0;
    match p
    case Vertical => (Cell(c.i + 1, c.j), Cell(c.i - 1, c.j))
    case Horizontal => (Cell(c.i, c.j + 1), Cell(c.i, c.j - 1))
    case NorthEast => (Cell(c.i - 1, c.j), Cell(c.i, c.j + 1))
    case NorthWest => (Cell(c.i - 1, c.j), Cell(c.i, c.j - 1))
    case SouthWest => (Cell(c.i + 1, c.j), Cell(c.i, c.j - 1))
    case SouthEast => (Cell(c.i + 1, c.j), Cell(c.i, c.j + 1))
    case Ground => (c, c)
  }

  /** The tile `p` at `c` connects to `n`: `n` is one of its `get_next` cells. */
  predicate Connects(p: Pipe, c: Cell, n: Cell)
  {
    Fits(p, c) && (GetNext(p, c).0 == n || GetNext(p, c).1 == n)
  }

  /** A tile at `c` connects to its neighbour on side `d` exactly when it
      opens to that side. */
  lemma ConnectsSide(p: Pipe, c: Cell, d: Dir)
    requires Fits(p, c) && Step(c, d).Some?
    ensures Connects(p, c, Step(c, d).value) <==> d in Openings(p)
  {
  }

  /** The test of `get_next` at row 2, column 3. */
  lemma GetNextExamples()
    ensures Connects(Vertical, Cell(2, 3), Cell(3, 3)) && Connects(Vertical, Cell(2, 3), Cell(1, 3))
    ensures Connects(Horizontal, Cell(2, 3), Cell(2, 2)) && Connects(Horizontal, Cell(2, 3), Cell(2, 4))
    ensures Connects(NorthEast, Cell(2, 3), Cell(1, 3)) && Connects(NorthEast, Cell(2, 3), Cell(2, 4))
    ensures Connects(NorthWest, Cell(2, 3), Cell(1, 3)) && Connects(NorthWest, Cell(2, 3), Cell(2, 2))
    ensures Connects(SouthWest, Cell(2, 3), Cell(3, 3)) && Connects(SouthWest, Cell(2, 3), Cell(2, 2))
    ensures Connects(SouthEast, Cell(2, 3), Cell(3, 3)) && Connects(SouthEast, Cell(2, 3), Cell(2, 4))
  {
  }

  // ---------------------------------------------------------------------------
  // Parsing

  const PipeChars: string := "|-LJ7F"

  /** `parse_pipe`: the six pipe characters; 'S', '.' and anything else are
      Ground. */
  function ParsePipe(ch: char): Pipe
  {
    match ch
    case '|' => Vertical
    case '-' => Horizontal
    case 'L' => NorthEast
    case 'J' => NorthWest
    case '7' => SouthWest
    case 'F' => SouthEast
    case _ => Ground
  }

  /** The character the puzzle draws for a tile. */
  function PipeChar(p: Pipe): char
  {
    match p
    case Vertical => '|'
    case Horizontal => '-'
    case NorthEast => 'L'
    case NorthWest => 'J'
    case SouthWest => '7'
    case SouthEast => 'F'
    case Ground => '.'
  }

  /** Every tile is read back from its character. */
  lemma ParsePipeChar(p: Pipe)
    ensures ParsePipe(PipeChar(p)) == p
  {
  }

  /** Exactly the six pipe characters give a pipe, and each gives the tile
      drawn with it. */
  lemma CharParsePipe(ch: char)
    ensures ParsePipe(ch) == Ground <==> ch !in PipeChars
    ensures ch in PipeChars ==> PipeChar(ParsePipe(ch)) == ch
  {
  }

  /** One line of tiles. */
  function ParseRow(line: string): (row: seq<Pipe>)
    ensures |row| == |line|
  {
    seq(|line|, j requires 0 <= j < |line| => ParsePipe(line[j]))
  }

  predicate InText(ls: seq<string>, c: Cell)
  {
    c.i < |ls| && c.j < |ls[c.i]|
  }

  /** `a` comes strictly before `b` in row-major order. */
  predicate Before(a: Cell, b: Cell)
  {
    a.i < b.i || (a.i == b.i && a.j < b.j)
  }

  predicate IsStart(ls: seq<string>, c: Cell)
  {
    InText(ls, c) && ls[c.i][c.j] == 'S'
  }

  ghost predicate HasStart(ls: seq<string>)
  {
    exists c :: IsStart(ls, c)
  }

  /** `start` is the last 'S' in row-major order, or (0, 0) when there is
      none. */
  ghost predicate LastStart(ls: seq<string>, start: Cell)
  {
    (HasStart(ls) ==> IsStart(ls, start) && forall c :: IsStart(ls, c) ==> !Before(start, c))
    && (!HasStart(ls) ==> start == Cell(0, 0))
  }

  /** What the scan knows once it has read every cell before row `i`,
      column `j`. */
  ghost predicate Scanned(ls: seq<string>, start: Cell, found: bool, i: nat, j: nat)
  {
    (found ==>
       IsStart(ls, start) && Before(start, Cell(i, j))
       && forall c :: IsStart(ls, c) && Before(c, Cell(i, j)) ==> !Before(start, c))
    && (!found ==> start == Cell(0, 0) && forall c :: IsStart(ls, c) ==> !Before(c, Cell(i, j)))
  }

  /** `parse_pipes`: the tiles line by line, and the position of the last 'S'. */
  method ParsePipes(s: string) returns (grid: Grid, start: Cell)
    ensures |grid| == |Lines(s)|
    ensures forall i :: 0 <= i < |grid| ==> grid[i] == ParseRow(Lines(s)[i])
    ensures LastStart(Lines(s), start)
  {
    var ls := Lines(s);
    grid := [];
    start := Cell(0, 0);
    ghost var found := false;
    var i := 0;
    while i < |ls|
      invariant i <= |ls|
      invariant |grid| == i && forall k :: 0 <= k < i ==> grid[k] == ParseRow(ls[k])
      invariant Scanned(ls, start, found, i, 0)
    {
      var line := ls[i];
      var row := [];
      var j := 0;
      while j < |line|
        invariant j <= |line|
        invariant row == ParseRow(line[..j])
        invariant Scanned(ls, start, found, i, j)
      {
        if line[j] == 'S' {
          start := Cell(i, j);
          found := true;
        }
        row := row + [ParsePipe(line[j])];
        j := j + 1;
      }
      assert line[..j] == line;
      NextRow(ls, start, found, i);
      grid := grid + [row];
      i := i + 1;
    }
    if found {
      assert HasStart(ls);
    } else {
      forall c | IsStart(ls, c)
        ensures false
      {
        assert Before(c, Cell(|ls|, 0));
      }
    }
  }

  /** Having read a whole line is having read every cell before the next. */
  lemma NextRow(ls: seq<string>, start: Cell, found: bool, i: nat)
    requires i < |ls| && Scanned(ls, start, found, i, |ls[i]|)
    ensures Scanned(ls, start, found, i + 1, 0)
  {
    forall c | IsStart(ls, c) && Before(c, Cell(i + 1, 0))
      ensures Before(c, Cell(i, |ls[i]|))
    {
    }
  }

  // ---------------------------------------------------------------------------
  // The start tile

  /** Every row is at least as long as the first, whose length the Rust code
      takes as the width of the grid. */
  predicate Wide(g: Grid)
  {
    forall i :: 0 <= i < |g| ==> |g[i]| >= |g[0]|
  }

  /** The bounds test of `get_next_from_start`. */
  predicate InBounds(g: Grid, c: Cell)
  {
    c.i < |g| && c.j < |g[0]|
  }

  function At(g: Grid, c: Cell): Pipe
    requires Wide(g) && InBounds(g, c)
  {
    g[c.i][c.j]
  }

  /** `get_next` does not underflow on any in-bounds neighbour of `start`. */
  predicate NeighboursFit(g: Grid, start: Cell)
    requires Wide(g)
  {
    forall d :: Step(start, d).Some? && InBounds(g, Step(start, d).value) ==>
      Fits(At(g, Step(start, d).value), Step(start, d).value)
  }

  /** The neighbour on side `d` of `start` lies in the grid and opens back
      towards `start`. */
  predicate OpensBack(g: Grid, start: Cell, d: Dir)
    requires Wide(g)
  {
    Step(start, d).Some? && InBounds(g, Step(start, d).value)
    && Opposite(d) in Openings(At(g, Step(start, d).value))
  }

  /** One probe of `get_next_from_start`: the neighbour on side `d`, if it is
      in bounds and its `get_next` contains `start`. */
  function Probe(g: Grid, start: Cell, d: Dir): (q: seq<Cell>)
    requires Wide(g) && NeighboursFit(g, start)
  {
    match Step(start, d)
    case None => []
    case Some(n) => if InBounds(g, n) && Connects(At(g, n), n, start) then [n] else []
  }

  /** A probe finds the neighbour exactly when it opens back. */
  lemma ProbeOpensBack(g: Grid, start: Cell, d: Dir)
    requires Wide(g) && NeighboursFit(g, start)
    ensures Probe(g, start, d) == if OpensBack(g, start, d) then [Step(start, d).value] else []
  {
    if Step(start, d).Some? && InBounds(g, Step(start, d).value) {
      var n := Step(start, d).value;
      StepBack(start, d);
      ConnectsSide(At(g, n), n, Opposite(d));
    }
  }

  /** The sides `get_next_from_start` probes, in its order. */
  const Sides: seq<Dir> := [North, East, South, West]

  /** The probes of `sides`, in order. */
  function ProbeAll(g: Grid, start: Cell, sides: seq<Dir>): (q: seq<Cell>)
    requires Wide(g) && NeighboursFit(g, start)
  {
    if |sides| == 0 then [] else Probe(g, start, sides[0]) + ProbeAll(g, start, sides[1..])
  }

  /** `get_next_from_start`: the probes of the four sides. */
  function GetNextFromStart(g: Grid, start: Cell): (q: seq<Cell>)
    requires Wide(g) && NeighboursFit(g, start)
  {
    ProbeAll(g, start, Sides)
  }

  /** The sides among `sides` whose neighbours open back, in order. */
  function OpenSides(g: Grid, start: Cell, sides: seq<Dir>): (ds: seq<Dir>)
    requires Wide(g)
    ensures forall d :: d in ds <==> d in sides && OpensBack(g, start, d)
  {
    if |sides| == 0 then []
    else (if OpensBack(g, start, sides[0]) then [sides[0]] else []) + OpenSides(g, start, sides[1..])
  }

  predicate Ascending(ds: seq<Dir>)
  {
    forall a, b :: 0 <= a < b < |ds| ==> Rank(ds[a]) < Rank(ds[b])
  }

  /** Keeping some of an ascending list of sides keeps it ascending. */
  lemma {:induction false} OpenSidesAscending(g: Grid, start: Cell, sides: seq<Dir>)
    requires Wide(g) && Ascending(sides)
    ensures Ascending(OpenSides(g, start, sides))
  {
    if |sides| > 0 {
      var rest := OpenSides(g, start, sides[1..]);
      OpenSidesAscending(g, start, sides[1..]);
      forall d | d in rest
        ensures Rank(sides[0]) < Rank(d)
      {
        var k :| 1 <= k < |sides| && sides[k] == d;
      }
    }
  }

  /** The probes of `sides` find the neighbours on the sides that open back,
      one for one. */
  lemma {:induction false} ProbeAllSides(g: Grid, start: Cell, sides: seq<Dir>)
    requires Wide(g) && NeighboursFit(g, start)
    ensures |ProbeAll(g, start, sides)| == |OpenSides(g, start, sides)|
    ensures forall k :: 0 <= k < |OpenSides(g, start, sides)| ==>
      Step(start, OpenSides(g, start, sides)[k]) == Some(ProbeAll(g, start, sides)[k])
  {
    if |sides| > 0 {
      ProbeOpensBack(g, start, sides[0]);
      ProbeAllSides(g, start, sides[1..]);
    }
  }

  /** The sides of `start` whose neighbours open back, in the order North,
      East, South, West. */
  function StartSides(g: Grid, start: Cell): (ds: seq<Dir>)
    requires Wide(g)
    ensures forall d :: d in ds <==> OpensBack(g, start, d)
    ensures Ascending(ds)
  {
    forall d: Dir
      ensures d in Sides
    {
      assert Sides[Rank(d)] == d;
    }
    OpenSidesAscending(g, start, Sides);
    OpenSides(g, start, Sides)
  }

  /** `get_next_from_start` lists the neighbours on the sides that open back,
      in the order North, East, South, West. */
  lemma GetNextFromStartSides(g: Grid, start: Cell)
    requires Wide(g) && NeighboursFit(g, start)
    ensures |GetNextFromStart(g, start)| == |StartSides(g, start)|
    ensures forall k :: 0 <= k < |StartSides(g, start)| ==>
      Step(start, StartSides(g, start)[k]) == Some(GetNextFromStart(g, start)[k])
  {
    ProbeAllSides(g, start, Sides);
  }

  function AbsDiff(a: int, b: int): nat
  {
    if a < b then b - a else a - b
  }

  /** `determine_start`: the tile at `start` joining its first two linked
      neighbours. */
  function DetermineStart(start: Cell, next: seq<Cell>): Pipe
    requires |next| >= 2
  {
    if AbsDiff(next[0].i, next[1].i) == 2 then Vertical
    else if AbsDiff(next[0].j, next[1].j) == 2 then Horizontal
    else if start.i - next[0].i == 1 then
      if start.j - next[1].j == 1 then NorthWest else NorthEast
    else if start.j - next[1].j == 1 then SouthWest
    else SouthEast
  }

  /** Given the neighbours on two sides, listed in the order North, East,
      South, West, `determine_start` picks the tile opening to exactly those
      sides. */
  lemma DetermineStartSides(start: Cell, d0: Dir, d1: Dir)
    requires Rank(d0) < Rank(d1) && Step(start, d0).Some? && Step(start, d1).Some?
    ensures Openings(DetermineStart(start, [Step(start, d0).value, Step(start, d1).value])) == {d0, d1}
  {
  }

  /** The start tile chosen from `get_next_from_start` connects `start` to
      exactly its first two neighbours. */
  lemma StartTileConnects(g: Grid, start: Cell)
    requires Wide(g) && NeighboursFit(g, start) && |GetNextFromStart(g, start)| >= 2
    ensures var q := GetNextFromStart(g, start);
      var p := DetermineStart(start, q);
      Fits(p, start) && {GetNext(p, start).0, GetNext(p, start).1} == {q[0], q[1]}
  {
    var q := GetNextFromStart(g, start);
    var ds := StartSides(g, start);
    GetNextFromStartSides(g, start);
    assert q[0] == Step(start, ds[0]).value && q[1] == Step(start, ds[1]).value;
    DetermineStartSides(start, ds[0], ds[1]);
    var p := DetermineStart(start, q);
    assert Fits(p, start);
    var r := GetNext(p, start);
    assert Step(start, ds[0]) == Some(r.0) || Step(start, ds[0]) == Some(r.1);
    assert Step(start, ds[1]) == Some(r.0) || Step(start, ds[1]) == Some(r.1);
    if ds[0] != ds[1] {
      assert q[0] != q[1] by {
        if q[0] == q[1] {
          StepInjective(start, ds[0], ds[1]);
        }
      }
    }
  }

  // ---------------------------------------------------------------------------
  // The search along the loop

  predicate InCells(g: Grid, c: Cell)
  {
    c.i < |g| && c.j < |g[c.i]|
  }

  /** The cells of the grid, as the Rust code's table of visited flags has them. */
  function Cells(g: Grid): (cs: set<Cell>)
  {
    set i, j | 0 <= i < |g| && 0 <= j < |g[i]| :: Cell(i, j)
  }

  lemma CellsMembership(g: Grid, c: Cell)
    ensures c in Cells(g) <==> InCells(g, c)
  {
    if InCells(g, c) {
      assert Cell(c.i, c.j) == c;
    }
  }

  /** The grid with the tile at `c` replaced. */
  function SetTile(g: Grid, c: Cell, p: Pipe): (r: Grid)
    requires InCells(g, c)
    ensures |r| == |g| && forall i :: 0 <= i < |g| ==> |r[i]| == |g[i]|
    ensures forall d :: InCells(g, d) ==> r[d.i][d.j] == if d == c then p else g[d.i][d.j]
  {
    g[c.i := g[c.i][c.j := p]]
  }

  /** The cells the probes find are in bounds, differ from `start` and
      connect to it. */
  lemma {:induction false} ProbeAllLinked(g: Grid, start: Cell, sides: seq<Dir>)
    requires Wide(g) && NeighboursFit(g, start)
    ensures forall c :: c in ProbeAll(g, start, sides) ==>
      InBounds(g, c) && c != start && Connects(At(g, c), c, start)
  {
    if |sides| > 0 {
      ProbeAllLinked(g, start, sides[1..]);
    }
  }

  /** The tile at `a` connects to `b`, or the tile at `b` to `a`. */
  predicate Linked(g: Grid, a: Cell, b: Cell)
  {
    InCells(g, a) && InCells(g, b)
    && (Connects(g[a.i][a.j], a, b) || Connects(g[b.i][b.j], b, a))
  }

  /** A chain of linked cells leads from `a` to `b`. */
  ghost predicate Reachable(g: Grid, a: Cell, b: Cell)
  {
    exists p: seq<Cell> :: |p| >= 1 && p[0] == a && p[|p| - 1] == b &&
      forall k :: 0 <= k < |p| - 1 ==> Linked(g, p[k], p[k + 1])
  }

  lemma ReachableSelf(g: Grid, a: Cell)
    ensures Reachable(g, a, a)
  {
    var p := [a];
    assert p[0] == a && p[|p| - 1] == a;
  }

  lemma ReachableStep(g: Grid, a: Cell, b: Cell, c: Cell)
    requires Reachable(g, a, b) && Linked(g, b, c)
    ensures Reachable(g, a, c)
  {
    var p: seq<Cell> :| |p| >= 1 && p[0] == a && p[|p| - 1] == b &&
      forall k :: 0 <= k < |p| - 1 ==> Linked(g, p[k], p[k + 1]);
    var p' := p + [c];
    forall k | 0 <= k < |p'| - 1
      ensures Linked(g, p'[k], p'[k + 1])
    {
      if k < |p| - 1 {
        assert p'[k] == p[k] && p'[k + 1] == p[k + 1];
      }
    }
    assert p'[0] == a && p'[|p'| - 1] == c;
  }

  /** A cell linked to a set of cells reachable from `a` is reachable too. */
  lemma TiedReachable(g: Grid, a: Cell, loop: set<Cell>, c: Cell)
    requires Tied(g, loop, c) && forall x :: x in loop ==> Reachable(g, a, x)
    ensures Reachable(g, a, c)
  {
    var x :| x in loop && Linked(g, x, c);
    ReachableStep(g, a, x, c);
  }

  /** `c` is linked to some cell of `loop`. */
  ghost predicate Tied(g: Grid, loop: set<Cell>, c: Cell)
  {
    exists p :: p in loop && Linked(g, p, c)
  }

  /** Every cell of `loop` but `start` is linked to another cell of `loop`:
      the cells the search marks hang together through their tiles. */
  ghost predicate Joined(g: Grid, loop: set<Cell>, start: Cell)
  {
    forall c {:trigger Tied(g, loop, c)} :: c in loop && c != start ==> Tied(g, loop, c)
  }

  /** Every cell of `loop` has a tile that fits, and both cells it connects
      lie in `loop` or in `pending`. */
  predicate Closed(g: Grid, loop: set<Cell>, pending: seq<Cell>)
  {
    forall c {:trigger InCells(g, c)} :: c in loop ==>
      InCells(g, c) && Fits(g[c.i][c.j], c)
      && (GetNext(g[c.i][c.j], c).0 in loop || GetNext(g[c.i][c.j], c).0 in pending)
      && (GetNext(g[c.i][c.j], c).1 in loop || GetNext(g[c.i][c.j], c).1 in pending)
  }

  /** How far a level of the search is from ending: an empty queue is done,
      a queue holding an unmarked cell is about to mark one, and a queue of
      marked cells only is about to become a queue of unmarked cells. */
  ghost function Phase(q: seq<Cell>, loop: set<Cell>): nat
  {
    if |q| == 0 then 0 else if forall c :: c in q ==> c in loop then 2 else 1
  }

  lemma TiedGrows(g: Grid, loop: set<Cell>, more: set<Cell>, c: Cell)
    requires Tied(g, loop, c) && loop <= more
    ensures Tied(g, more, c)
  {
  }

  /** Marking a cell linked to the marked ones keeps them joined, and keeps
      every queued cell tied. */
  lemma MarkKeepsJoined(g: Grid, loop: set<Cell>, start: Cell, current: Cell, queued: seq<Cell>)
    requires Joined(g, loop, start) && Tied(g, loop, current)
    requires forall c :: c in queued ==> Tied(g, loop, c)
    ensures Joined(g, loop + {current}, start)
    ensures forall c :: c in queued ==> Tied(g, loop + {current}, c)
  {
    forall c | c in loop + {current} && c != start
      ensures Tied(g, loop + {current}, c)
    {
      TiedGrows(g, loop, loop + {current}, c);
    }
    forall c | c in queued
      ensures Tied(g, loop + {current}, c)
    {
      TiedGrows(g, loop, loop + {current}, c);
    }
  }

  /** Fewer unmarked cells once a new cell is marked. */
  lemma MarkShrinks(all: set<Cell>, loop0: set<Cell>, loop: set<Cell>)
    requires loop0 <= loop <= all && loop != loop0
    ensures |all - loop| < |all - loop0|
  {
    var c :| c in loop && c !in loop0;
    var smaller, larger := all - loop, all - loop0;
    assert smaller <= larger - {c};
    assert |larger - {c}| == |larger| - 1;
    SubsetCard(smaller, larger - {c});
  }

  lemma {:induction false} SubsetCard(a: set<Cell>, b: set<Cell>)
    requires a <= b
    ensures |a| <= |b|
    decreases |b|
  {
    if a != {} {
      var x :| x in a;
      SubsetCard(a - {x}, b - {x});
    }
  }

  /** Marking `current`, whose connected cells are marked or pending,
      keeps the marked cells closed once `current` leaves the pending ones. */
  lemma ClosedStep(g: Grid, marked: set<Cell>, pending: seq<Cell>, current: Cell, pending': seq<Cell>)
    requires Closed(g, marked, pending) && forall c :: c in pending ==> c in pending' || c == current
    requires InCells(g, current) && Fits(g[current.i][current.j], current)
    requires GetNext(g[current.i][current.j], current).0 in marked + {current} || GetNext(g[current.i][current.j], current).0 in pending'
    requires GetNext(g[current.i][current.j], current).1 in marked + {current} || GetNext(g[current.i][current.j], current).1 in pending'
    ensures Closed(g, marked + {current}, pending')
  {
    forall c | c in marked + {current}
      ensures InCells(g, c) && Fits(g[c.i][c.j], c)
              && var e := GetNext(g[c.i][c.j], c);
              (e.0 in marked + {current} || e.0 in pending') && (e.1 in marked + {current} || e.1 in pending')
    {
    }
  }

  /** Popping the front of the queue, marking it and queueing its unmarked
      connected cells keeps the marked cells closed. */
  lemma ClosedPop(g: Grid, marked: set<Cell>, q: seq<Cell>, k: nat, next0: seq<Cell>, next: seq<Cell>)
    requires k < |q| && Closed(g, marked, q[k..] + next0)
    requires forall c :: c in next0 ==> c in next
    requires InCells(g, q[k]) && Fits(g[q[k].i][q[k].j], q[k])
    requires GetNext(g[q[k].i][q[k].j], q[k]).0 in marked + {q[k]} || GetNext(g[q[k].i][q[k].j], q[k]).0 in next
    requires GetNext(g[q[k].i][q[k].j], q[k]).1 in marked + {q[k]} || GetNext(g[q[k].i][q[k].j], q[k]).1 in next
    ensures Closed(g, marked + {q[k]}, q[k + 1..] + next)
  {
    assert q[k..] == [q[k]] + q[k + 1..];
    ClosedStep(g, marked, q[k..] + next0, q[k], q[k + 1..] + next);
  }

  /** A level that marks nothing new started from marked cells only and
      queues unmarked cells only, so its queue moves to an earlier phase. */
  lemma PhaseDrops(q: seq<Cell>, loop: set<Cell>, next: seq<Cell>)
    requires |q| > 0 && (forall c :: c in q ==> c in loop) && (forall c :: c in next ==> c !in loop)
    ensures Phase(next, loop) < Phase(q, loop)
  {
    if |next| > 0 {
      assert next[0] in next;
    }
  }

  /** Once `start` is replaced by the tile joining its first two neighbours,
      `start` alone is closed with the queue pending. */
  lemma StartClosed(pipes: Grid, start: Cell, grid: Grid)
    requires Wide(pipes) && InBounds(pipes, start) && NeighboursFit(pipes, start)
    requires |GetNextFromStart(pipes, start)| >= 2
    requires grid == SetTile(pipes, start, DetermineStart(start, GetNextFromStart(pipes, start)))
    ensures Closed(grid, {start}, GetNextFromStart(pipes, start))
  {
    var q := GetNextFromStart(pipes, start);
    StartTileConnects(pipes, start);
    var e := GetNext(grid[start.i][start.j], start);
    assert e.0 in {q[0], q[1]} && e.1 in {q[0], q[1]};
    assert q[0] in q && q[1] in q;
  }

  /** Pushing `e`, linked to the marked `current`, keeps the queue tied. */
  lemma PushTied(g: Grid, marked: set<Cell>, current: Cell, e: Cell, next: seq<Cell>)
    requires current in marked && Linked(g, current, e)
    requires forall c :: c in next ==> InCells(g, c) && Tied(g, marked, c)
    ensures forall c :: c in next + [e] ==> InCells(g, c) && Tied(g, marked, c)
  {
  }

  /** Queues `e` unless it is marked. */
  function Push(next: seq<Cell>, e: Cell, marked: set<Cell>): (r: seq<Cell>)
    ensures e in marked ==> r == next
    ensures e !in marked ==> r == next + [e]
  {
    if e in marked then next else next + [e]
  }

  /** What holds after `k` cells of the queue `q` of one level are popped:
      `marked` grew from `loop`, and while it has not grown every popped cell
      was marked already and every queued cell is unmarked. */
  ghost predicate LevelInv(g: Grid, start: Cell, loop: set<Cell>, q: seq<Cell>, k: nat,
                           marked: set<Cell>, next: seq<Cell>)
  {
    k <= |q| && start in marked && loop <= marked <= Cells(g)
    && (forall c :: c in q[k..] ==> InCells(g, c) && Tied(g, marked, c))
    && (forall c :: c in next ==> InCells(g, c) && Tied(g, marked, c))
    && Joined(g, marked, start)
    && Closed(g, marked, q[k..] + next)
    && (marked == loop ==> (forall t :: 0 <= t < k ==> q[t] in loop) && (forall c :: c in next ==> c !in loop))
    && (forall c :: c in marked ==> c in loop || c in q)
  }

  lemma LevelStart(g: Grid, start: Cell, loop: set<Cell>, q: seq<Cell>)
    requires start in loop && loop <= Cells(g)
    requires forall c :: c in q ==> InCells(g, c) && Tied(g, loop, c)
    requires Joined(g, loop, start) && Closed(g, loop, q)
    ensures LevelInv(g, start, loop, q, 0, loop, [])
  {
    assert q[0..] + [] == q;
  }

  /** Popping `q[k]`, marking it and queueing its unmarked connected cells
      keeps the invariant of a level. */
  lemma LevelStep(g: Grid, start: Cell, loop: set<Cell>, q: seq<Cell>, k: nat,
                  marked: set<Cell>, next: seq<Cell>)
    requires LevelInv(g, start, loop, q, k, marked, next) && k < |q| && InCells(g, q[k])
    requires Fits(g[q[k].i][q[k].j], q[k])
    requires InCells(g, GetNext(g[q[k].i][q[k].j], q[k]).0) && InCells(g, GetNext(g[q[k].i][q[k].j], q[k]).1)
    ensures var m := marked + {q[k]};
            var ends := GetNext(g[q[k].i][q[k].j], q[k]);
            LevelInv(g, start, loop, q, k + 1, m, Push(Push(next, ends.0, m), ends.1, m))
  {
    var current := q[k];
    var m := marked + {current};
    var ends := GetNext(g[current.i][current.j], current);
    var next1 := Push(next, ends.0, m);
    var next2 := Push(next1, ends.1, m);
    assert current in q[k..];
    MarkKeepsJoined(g, marked, start, current, q[k + 1..] + next);
    CellsMembership(g, current);
    assert current in m;
    if ends.0 !in m {
      PushTied(g, m, current, ends.0, next);
    }
    if ends.1 !in m {
      PushTied(g, m, current, ends.1, next1);
    }
    ClosedPop(g, marked, q, k, next, next2);
    assert forall c :: c in q[k + 1..] ==> c in q[k..];
    QuietStep(loop, q, k, marked, next, ends.0, ends.1);
    Assemble(g, start, loop, q, k + 1, m, next2);
  }

  /** While nothing new is marked, the popped cells were all marked already
      and nothing marked gets queued. */
  lemma QuietStep(loop: set<Cell>, q: seq<Cell>, k: nat, marked: set<Cell>, next: seq<Cell>, e0: Cell, e1: Cell)
    requires k < |q| && loop <= marked
    requires marked == loop ==> (forall t :: 0 <= t < k ==> q[t] in loop) && (forall c :: c in next ==> c !in loop)
    ensures var m := marked + {q[k]};
            m == loop ==> (forall t :: 0 <= t < k + 1 ==> q[t] in loop)
                          && (forall c :: c in Push(Push(next, e0, m), e1, m) ==> c !in loop)
  {
    var m := marked + {q[k]};
    if m == loop {
      assert marked == loop && q[k] in loop;
    }
  }

  lemma Assemble(g: Grid, start: Cell, loop: set<Cell>, q: seq<Cell>, k: nat,
                           marked: set<Cell>, next: seq<Cell>)
    requires k <= |q| && start in marked && loop <= marked <= Cells(g)
    requires (forall c :: c in q[k..] ==> InCells(g, c) && Tied(g, marked, c))
    requires (forall c :: c in next ==> InCells(g, c) && Tied(g, marked, c))
    requires Joined(g, marked, start)
    requires Closed(g, marked, q[k..] + next)
    requires (marked == loop ==> (forall t :: 0 <= t < k ==> q[t] in loop) && (forall c :: c in next ==> c !in loop))
    requires forall c :: c in marked ==> c in loop || c in q
    ensures LevelInv(g, start, loop, q, k, marked, next)
  {
  }

  /** One level of `bfs`: pops every queued cell, marks it, and queues the
      cells its tile connects to that are not marked yet. `ok` is false where
      the Rust code would panic. */
  method Level(grid: Grid, start: Cell, loop: set<Cell>, q: seq<Cell>)
    returns (ok: bool, marked: set<Cell>, next: seq<Cell>)
    requires start in loop && loop <= Cells(grid)
    requires forall c :: c in q ==> InCells(grid, c) && Tied(grid, loop, c)
    requires Joined(grid, loop, start) && Closed(grid, loop, q)
    ensures start in marked && loop <= marked <= Cells(grid)
    ensures forall c :: c in next ==> InCells(grid, c) && Tied(grid, marked, c)
    ensures Joined(grid, marked, start)
    ensures ok ==> Closed(grid, marked, next)
    ensures ok && marked == loop ==> (forall c :: c in q ==> c in loop) && (forall c :: c in next ==> c !in marked)
    ensures forall c :: c in marked ==> c in loop || c in q
  {
    marked := loop;
    next := [];
    ok := true;
    LevelStart(grid, start, loop, q);
    var k := 0;
    while k < |q|
      invariant LevelInv(grid, start, loop, q, k, marked, next)
    {
      var current := q[k];
      assert current in q[k..];
      var here := grid[current.i][current.j];
      if !Fits(here, current) {
        ok := false;
        return;
      }
      var ends := GetNext(here, current);
      if !InCells(grid, ends.0) || !InCells(grid, ends.1) {
        ok := false;
        return;
      }
      LevelStep(grid, start, loop, q, k, marked, next);
      marked := marked + {current};
      next := Push(Push(next, ends.0, marked), ends.1, marked);
      k := k + 1;
    }
    assert q[k..] + next == next;
    if marked == loop {
      forall c | c in q
        ensures c in loop
      {
        var t :| 0 <= t < |q| && q[t] == c;
      }
    }
  }

  /** `bfs`: replaces the start tile by the one `determine_start` picks, marks
      `start`, then marks level after level the cells the marked tiles
      connect to. `ok` is false where the Rust code would panic: a tile that
      underflows or leads off the grid. */
  method Bfs(pipes: Grid, start: Cell) returns (ok: bool, level: nat, loop: set<Cell>, grid: Grid)
    requires Wide(pipes) && InBounds(pipes, start) && NeighboursFit(pipes, start)
    requires |GetNextFromStart(pipes, start)| >= 2
    ensures grid == SetTile(pipes, start, DetermineStart(start, GetNextFromStart(pipes, start)))
    ensures start in loop && loop <= Cells(grid) && level >= 1
    ensures Joined(grid, loop, start)
    ensures forall c :: c in loop ==> Reachable(grid, start, c)
    ensures ok ==> Closed(grid, loop, [])
  {
    var q := GetNextFromStart(pipes, start);
    var tile := DetermineStart(start, q);
    grid := SetTile(pipes, start, tile);
    loop := {start};
    level := 1;
    ok := true;
    StartTileConnects(pipes, start);
    ProbeAllLinked(pipes, start, Sides);
    CellsMembership(grid, start);
    forall c | c in q
      ensures InCells(grid, c) && Tied(grid, loop, c)
    {
      assert Linked(grid, start, c);
    }
    StartClosed(pipes, start, grid);
    ReachableSelf(grid, start);
    forall c | c in q
      ensures Reachable(grid, start, c)
    {
      TiedReachable(grid, start, loop, c);
    }
    while |q| > 0
      invariant start in loop && loop <= Cells(grid) && level >= 1
      invariant forall c :: c in q ==> InCells(grid, c) && Tied(grid, loop, c)
      invariant Joined(grid, loop, start)
      invariant forall c :: c in loop ==> Reachable(grid, start, c)
      invariant forall c :: c in q ==> Reachable(grid, start, c)
      invariant Closed(grid, loop, q)
      decreases |Cells(grid) - loop|, Phase(q, loop)
    {
      var marked, next;
      ok, marked, next := Level(grid, start, loop, q);
      if !ok {
        loop := marked;
        return;
      }
      if marked != loop {
        MarkShrinks(Cells(grid), loop, marked);
      } else {
        PhaseDrops(q, loop, next);
      }
      forall c | c in next
        ensures Reachable(grid, start, c)
      {
        TiedReachable(grid, start, marked, c);
      }
      loop, q := marked, next;
      level := level + 1;
    }
  }

  // ---------------------------------------------------------------------------
  // The enclosed cells

  /** A loop tile that flips `is_inside` as the scan crosses it. */
  predicate Flips(g: Grid, loop: set<Cell>, c: Cell)
  {
    c in loop && InCells(g, c) && Flipping(g[c.i][c.j])
  }

  /** The tiles of the `match` in `get_inside_surfice`. */
  predicate Flipping(p: Pipe)
  {
    match p
    case Vertical => true
    case SouthWest => true
    case SouthEast => true
    case _ => false
  }

  /** The flipping tiles are the loop tiles that open to the south: a scan
      along a row crosses the loop exactly at those. */
  lemma FlipsSouth(g: Grid, loop: set<Cell>, c: Cell)
    requires c in loop && InCells(g, c)
    ensures Flips(g, loop, c) <==> South in Openings(g[c.i][c.j])
  {
  }

  /** Row `i` of a grid `w` cells wide, left to right. */
  function Row(i: nat, w: nat): (r: seq<Cell>)
    ensures |r| == w
  {
    seq(w, j requires 0 <= j < w => Cell(i, j))
  }

  /** The first `n` rows in the order the scan visits them. */
  function Order(n: nat, w: nat): seq<Cell>
  {
    if n == 0 then [] else Order(n - 1, w) + Row(n - 1, w)
  }

  /** The width the scan assumes: that of the first row. */
  function Width(g: Grid): nat
  {
    if |g| == 0 then 0 else |g[0]|
  }

  /** How many flipping tiles `cs` holds. */
  function FlipCount(g: Grid, loop: set<Cell>, cs: seq<Cell>): (r: nat)
    ensures r <= |cs|
  {
    if |cs| == 0 then 0
    else FlipCount(g, loop, cs[..|cs| - 1]) + if Flips(g, loop, cs[|cs| - 1]) then 1 else 0
  }

  /** How many cells of `cs` are off the loop with an odd number of flipping
      tiles before them. */
  function InsideCount(g: Grid, loop: set<Cell>, cs: seq<Cell>): (r: nat)
    ensures r <= |cs|
  {
    if |cs| == 0 then 0
    else
      var before := cs[..|cs| - 1];
      InsideCount(g, loop, before) + if cs[|cs| - 1] !in loop && FlipCount(g, loop, before) % 2 == 1 then 1 else 0
  }

  /** One more cell scanned. */
  lemma ScanStep(g: Grid, loop: set<Cell>, cs: seq<Cell>, c: Cell)
    ensures FlipCount(g, loop, cs + [c]) == FlipCount(g, loop, cs) + if Flips(g, loop, c) then 1 else 0
    ensures InsideCount(g, loop, cs + [c])
            == InsideCount(g, loop, cs) + if c !in loop && FlipCount(g, loop, cs) % 2 == 1 then 1 else 0
  {
    assert (cs + [c])[..|cs|] == cs;
  }

  /** `get_inside_surfice`: scans the grid row by row, toggling `is_inside`
      at every flipping tile and counting the cells off the loop while it is
      set. The flag carries over from one row to the next. */
  method InsideSurface(g: Grid, loop: set<Cell>) returns (count: nat)
    requires Wide(g)
    ensures count == InsideCount(g, loop, Order(|g|, Width(g)))
  {
    count := 0;
    var inside := false;
    var i := 0;
    while i < |g|
      invariant i <= |g|
      invariant count == InsideCount(g, loop, Order(i, Width(g)))
      invariant inside <==> FlipCount(g, loop, Order(i, Width(g))) % 2 == 1
    {
      count, inside := ScanRow(g, loop, i, Order(i, Width(g)), count, inside);
      i := i + 1;
    }
  }

  /** The inner loop of `get_inside_surfice`: row `i` scanned after the
      cells `seen`. */
  method ScanRow(g: Grid, loop: set<Cell>, i: nat, ghost seen: seq<Cell>, count0: nat, inside0: bool)
    returns (count: nat, inside: bool)
    requires Wide(g) && i < |g|
    requires count0 == InsideCount(g, loop, seen)
    requires inside0 <==> FlipCount(g, loop, seen) % 2 == 1
    ensures count == InsideCount(g, loop, seen + Row(i, Width(g)))
    ensures inside <==> FlipCount(g, loop, seen + Row(i, Width(g))) % 2 == 1
  {
    count, inside := count0, inside0;
    ghost var row := Row(i, Width(g));
    assert seen + row[..0] == seen;
    var j := 0;
    while j < |g[0]|
      invariant j <= |g[0]|
      invariant count == InsideCount(g, loop, seen + row[..j])
      invariant inside <==> FlipCount(g, loop, seen + row[..j]) % 2 == 1
    {
      var c := Cell(i, j);
      ghost var before := seen + row[..j];
      assert seen + row[..j + 1] == before + [c];
      ScanStep(g, loop, before, c);
      assert InCells(g, c);
      Toggle(FlipCount(g, loop, before), Flips(g, loop, c));
      if c in loop {
        if Flipping(g[i][j]) {
          inside := !inside;
        }
      } else if inside {
        count := count + 1;
      }
      j := j + 1;
    }
    assert row[..j] == row;
  }

  /** Without a flipping tile nothing is inside. */
  lemma {:induction false} NoFlipsNothingInside(g: Grid, loop: set<Cell>, cs: seq<Cell>)
    requires FlipCount(g, loop, cs) == 0
    ensures InsideCount(g, loop, cs) == 0
    decreases |cs|
  {
    if |cs| > 0 {
      NoFlipsNothingInside(g, loop, cs[..|cs| - 1]);
    }
  }

  /** After an even number of flips the scan is outside again, so what
      follows counts as if scanned afresh. */
  lemma {:induction false} InsideAppend(g: Grid, loop: set<Cell>, a: seq<Cell>, b: seq<Cell>)
    requires FlipCount(g, loop, a) % 2 == 0
    ensures FlipCount(g, loop, a + b) == FlipCount(g, loop, a) + FlipCount(g, loop, b)
    ensures InsideCount(g, loop, a + b) == InsideCount(g, loop, a) + InsideCount(g, loop, b)
    decreases |b|
  {
    if |b| == 0 {
      assert a + b == a;
    } else {
      var b', x := b[..|b| - 1], b[|b| - 1];
      InsideAppend(g, loop, a, b');
      assert b == b' + [x] && a + b == (a + b') + [x];
      ScanStep(g, loop, a + b', x);
      ScanStep(g, loop, b', x);
      EvenPlus(FlipCount(g, loop, a), FlipCount(g, loop, b'), FlipCount(g, loop, a + b'));
    }
  }

  lemma Toggle(x: nat, b: bool)
    ensures ((x + if b then 1 else 0) % 2 == 1) <==> ((x % 2 == 1) != b)
  {
  }

  lemma EvenPlus(x: nat, y: nat, z: nat)
    requires x % 2 == 0 && z == x + y
    ensures z % 2 == y % 2
  {
  }

  /** The counts of the rows, each scanned from outside. */
  function RowSum(g: Grid, loop: set<Cell>, n: nat, w: nat): nat
  {
    if n == 0 then 0 else RowSum(g, loop, n - 1, w) + InsideCount(g, loop, Row(n - 1, w))
  }

  /** When every row crosses the loop an even number of times, as a closed
      loop does, carrying the flag from row to row changes nothing: the count
      is the sum of the rows' counts. */
  lemma {:induction false} RowsIndependent(g: Grid, loop: set<Cell>, n: nat, w: nat)
    requires forall i :: 0 <= i < n ==> FlipCount(g, loop, Row(i, w)) % 2 == 0
    ensures FlipCount(g, loop, Order(n, w)) % 2 == 0
    ensures InsideCount(g, loop, Order(n, w)) == RowSum(g, loop, n, w)
    decreases n
  {
    if n > 0 {
      var before, last := Order(n - 1, w), Row(n - 1, w);
      assert Order(n, w) == before + last;
      RowsIndependent(g, loop, n - 1, w);
      assert FlipCount(g, loop, last) % 2 == 0;
      InsideAppend(g, loop, before, last);
      EvenPlus(FlipCount(g, loop, before), FlipCount(g, loop, last), FlipCount(g, loop, before + last));
      assert RowSum(g, loop, n, w) == RowSum(g, loop, n - 1, w) + InsideCount(g, loop, last);
    }
  }
}
