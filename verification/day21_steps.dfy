/** Day 21 (Step Counter): the garden map with its start, and the cells the
    elf can stand on after an exact number of steps, in the bounded garden
    and in the garden repeated without end in every direction. */
module StepCounter {
  import opened Wrappers
  import opened Text
  import opened Arith

  datatype Tile = Plot | Rock

  type Garden = seq<seq<Tile>>

  /** A cell position, row then column; it may lie off the map. */
  type Cell = (int, int)

  // ---------------------------------------------------------------------------
  // parse

  /** One map character: '#' is rock, '.' and 'S' are plots. Anything else
      panics, which is `None` here. */
  function ParseTile(c: char): (r: Option<Tile>)
    ensures r.Some? <==> c == '#' || c == '.' || c == 'S'
    ensures r == Some(Rock) <==> c == '#'
  {
    if c == '#' then Some(Rock) else if c == '.' || c == 'S' then Some(Plot) else None
  }

  /** One map line, a tile per character. */
  function ParseRow(line: string): (r: Option<seq<Tile>>)
    ensures r.Some? <==> forall j :: 0 <= j < |line| ==> ParseTile(line[j]).Some?
    ensures r.Some? ==> (|r.value| == |line|
      && forall j :: 0 <= j < |line| ==> ParseTile(line[j]) == Some(r.value[j]))
  {
    if line == [] then Some([])
    else
      var t :- ParseTile(line[0]);
      var rest :- ParseRow(line[1..]);
      Some([t] + rest)
  }

  /** All map lines, a row per line. */
  function ParseRows(ls: seq<string>): (r: Option<Garden>)
    ensures r.Some? <==> forall i :: 0 <= i < |ls| ==> ParseRow(ls[i]).Some?
    ensures r.Some? ==> (|r.value| == |ls|
      && forall i :: 0 <= i < |ls| ==> ParseRow(ls[i]) == Some(r.value[i]))
  {
    if ls == [] then Some([])
    else
      var row :- ParseRow(ls[0]);
      var rest :- ParseRows(ls[1..]);
      Some([row] + rest)
  }

  /** The inner loop's side effect on the start: each 'S' of line `i` at or
      after column `j` overwrites the start recorded so far. */
  function ScanRow(line: string, i: nat, j: nat, cur: (nat, nat)): (nat, nat)
    decreases |line| - j
  {
    if j >= |line| then cur
    else ScanRow(line, i, j + 1, if line[j] == 'S' then (i, j) else cur)
  }

  /** The same over the lines from `i` on. */
  function ScanRows(ls: seq<string>, i: nat, cur: (nat, nat)): (nat, nat)
    decreases |ls| - i
  {
    if i >= |ls| then cur else ScanRows(ls, i + 1, ScanRow(ls[i], i, 0, cur))
  }

  /** `parse`: the garden, and the start, which is the last 'S' in reading
      order and (0, 0) when there is none. A bad character is `None`. */
  function Parse(s: string): Option<(Garden, nat, nat)>
  {
    var ls := Lines(s);
    var g :- ParseRows(ls);
    var start := ScanRows(ls, 0, (0, 0));
    Some((g, start.0, start.1))
  }

  /** There is an 'S' at row `a`, column `b`. */
  predicate IsStart(ls: seq<string>, a: int, b: int)
  {
    0 <= a < |ls| && 0 <= b < |ls[a]| && ls[a][b] == 'S'
  }

  /** (c, d) comes after (a, b) in reading order. */
  predicate After(c: int, d: int, a: int, b: int)
  {
    c > a || (c == a && d > b)
  }

  lemma {:induction false} ScanRowSpec(ls: seq<string>, i: nat, j: nat, cur: (nat, nat))
    requires i < |ls|
    ensures var r := ScanRow(ls[i], i, j, cur);
      (r == cur && forall b :: j <= b ==> !IsStart(ls, i, b))
      || (r.0 == i && j <= r.1 && IsStart(ls, i, r.1) && forall b :: r.1 < b ==> !IsStart(ls, i, b))
    decreases |ls[i]| - j
  {
    if j < |ls[i]| {
      ScanRowSpec(ls, i, j + 1, if ls[i][j] == 'S' then (i, j) else cur);
    }
  }

  lemma {:induction false} ScanRowsSpec(ls: seq<string>, i: nat, cur: (nat, nat))
    ensures var r := ScanRows(ls, i, cur);
      (r == cur && forall a, b :: i <= a ==> !IsStart(ls, a, b))
      || (i <= r.0 && IsStart(ls, r.0, r.1) && forall a, b :: After(a, b, r.0, r.1) ==> !IsStart(ls, a, b))
    decreases |ls| - i
  {
    if i < |ls| {
      var c := ScanRow(ls[i], i, 0, cur);
      ScanRowSpec(ls, i, 0, cur);
      ScanRowsSpec(ls, i + 1, c);
      var r := ScanRows(ls, i + 1, c);
      if r == c && c != cur {
        forall a, b | After(a, b, r.0, r.1)
          ensures !IsStart(ls, a, b)
        {
          if a == i {
            assert b > r.1;
          }
        }
      }
    }
  }

  /** The start `parse` records is the last 'S' in reading order, or (0, 0)
      when the map has none. */
  lemma ParseStart(s: string)
    requires Parse(s).Some?
    ensures var (_, si, sj) := Parse(s).value; var ls := Lines(s);
      ((si, sj) == (0, 0) && forall a, b :: !IsStart(ls, a, b))
      || (IsStart(ls, si, sj) && forall a, b :: After(a, b, si, sj) ==> !IsStart(ls, a, b))
  {
    ScanRowsSpec(Lines(s), 0, (0, 0));
  }

  // ---------------------------------------------------------------------------
  // Drawing a map, to read it back

  function TileChar(t: Tile): char
  {
    if t == Rock then '#' else '.'
  }

  /** Row `a` of a map drawn with 'S' at column `sj` when `a` is the start row. */
  function DrawRow(row: seq<Tile>, a: nat, si: nat, sj: nat): (line: string)
    ensures |line| == |row|
  {
    seq(|row|, b requires 0 <= b < |row| => if (a, b) == (si, sj) then 'S' else TileChar(row[b]))
  }

  function DrawLines(g: Garden, si: nat, sj: nat): (ls: seq<string>)
    ensures |ls| == |g|
  {
    seq(|g|, a requires 0 <= a < |g| => DrawRow(g[a], a, si, sj))
  }

  /** A map with its start on a plot, drawn one newline-terminated line per
      row. */
  function Draw(g: Garden, si: nat, sj: nat): string
  {
    Unlines(DrawLines(g, si, sj))
  }

  lemma DrawRowParses(row: seq<Tile>, a: nat, si: nat, sj: nat)
    requires (a, sj) == (si, sj) && sj < |row| ==> row[sj] == Plot
    ensures ParseRow(DrawRow(row, a, si, sj)) == Some(row)
  {
    var line := DrawRow(row, a, si, sj);
    var r := ParseRow(line).value;
    assert forall b :: 0 <= b < |row| ==> ParseTile(line[b]) == Some(row[b]);
    assert r == row;
  }

  /** No drawn line holds a newline. */
  lemma DrawLinesFree(g: Garden, si: nat, sj: nat)
    ensures var ls := DrawLines(g, si, sj); forall a :: 0 <= a < |ls| ==> Free(ls[a], '\n')
  {
    var ls := DrawLines(g, si, sj);
    forall a | 0 <= a < |ls|
      ensures Free(ls[a], '\n')
    {
      assert forall b :: 0 <= b < |ls[a]| ==> ls[a][b] == 'S' || ls[a][b] == TileChar(g[a][b]);
    }
  }

  /** The drawn lines parse back to the map's rows. */
  lemma DrawLinesParse(g: Garden, si: nat, sj: nat)
    requires si < |g| && sj < |g[si]| && g[si][sj] == Plot
    ensures ParseRows(DrawLines(g, si, sj)) == Some(g)
  {
    var ls := DrawLines(g, si, sj);
    forall a | 0 <= a < |g|
      ensures ParseRow(ls[a]) == Some(g[a])
    {
      DrawRowParses(g[a], a, si, sj);
    }
    assert ParseRows(ls).value == g;
  }

  /** The only 'S' of the drawing is the start. */
  lemma DrawStart(g: Garden, si: nat, sj: nat)
    requires si < |g| && sj < |g[si]|
    ensures var ls := DrawLines(g, si, sj);
      IsStart(ls, si, sj) && forall a, b :: IsStart(ls, a, b) ==> (a, b) == (si, sj)
  {
    var ls := DrawLines(g, si, sj);
    assert ls[si][sj] == DrawRow(g[si], si, si, sj)[sj];
    forall a, b | IsStart(ls, a, b)
      ensures (a, b) == (si, sj)
    {
      assert ls[a][b] == DrawRow(g[a], a, si, sj)[b];
    }
  }

  /** Reading a drawn map gives back the map and its start. */
  lemma ParseDraw(g: Garden, si: nat, sj: nat)
    requires si < |g| && sj < |g[si]| && g[si][sj] == Plot
    ensures Parse(Draw(g, si, sj)) == Some((g, si, sj))
  {
    var ls := DrawLines(g, si, sj);
    DrawLinesFree(g, si, sj);
    LinesUnlines(ls);
    DrawLinesParse(g, si, sj);
    DrawStart(g, si, sj);
    ScanRowsSpec(ls, 0, (0, 0));
    var r := ScanRows(ls, 0, (0, 0));
    assert r == (si, sj);
  }

  // ---------------------------------------------------------------------------
  // Stepping

  /** The four moves in the order the Rust code tries them: up, down, left, right. */
  function Neighbour(c: Cell, k: nat): Cell
    requires k < 4
  {
    if k == 0 then (c.0 - 1, c.1)
    else if k == 1 then (c.0 + 1, c.1)
    else if k == 2 then (c.0, c.1 - 1)
    else (c.0, c.1 + 1)
  }

  /** Two cells one move apart. */
  predicate Adjacent(a: Cell, b: Cell)
  {
    (a.0 == b.0 && (a.1 - b.1 == 1 || b.1 - a.1 == 1))
    || (a.1 == b.1 && (a.0 - b.0 == 1 || b.0 - a.0 == 1))
  }

  lemma NeighbourAdjacent(a: Cell, b: Cell)
    ensures Adjacent(a, b) <==> exists k: nat :: k < 4 && b == Neighbour(a, k)
    ensures Adjacent(a, b) <==> Adjacent(b, a)
  {
    if Adjacent(a, b) {
      if b == (a.0 - 1, a.1) { assert b == Neighbour(a, 0); }
      else if b == (a.0 + 1, a.1) { assert b == Neighbour(a, 1); }
      else if b == (a.0, a.1 - 1) { assert b == Neighbour(a, 2); }
      else { assert b == Neighbour(a, 3); }
    }
  }

  /** Every row is at least as wide as the first: `part1` bounds columns by
      `garden[0].len()` and a shorter row would panic when indexed. */
  predicate Wide(g: Garden)
  {
    |g| == 0 || forall i :: 0 <= i < |g| ==> |g[i]| >= |g[0]|
  }

  /** What `part2` needs: the remainders by `garden.len()` and
      `garden[0].len()` need both non-zero, and a shorter row would panic. */
  predicate Tiled(g: Garden)
  {
    |g| > 0 && |g[0]| > 0 && Wide(g)
  }

  /** What the step rule needs of the map: `Wide` for the bounded garden,
      `Tiled` for the repeated one. */
  predicate Fits(g: Garden, tiled: bool)
  {
    if tiled then Tiled(g) else Wide(g)
  }

  /** The step rule. `part1`: a cell is open when it lies within the first
      `garden.len()` rows and `garden[0].len()` columns and is not rock.
      `part2`: a cell is open when the garden tile at its row and column
      reduced by `rem_euclid` is not rock. */
  predicate Open(g: Garden, c: Cell, tiled: bool)
    requires Fits(g, tiled)
  {
    if tiled then g[c.0 % |g|][c.1 % |g[0]|] != Rock
    else 0 <= c.0 < |g| && 0 <= c.1 < |g[0]| && g[c.0][c.1] != Rock
  }

  /** One pass of the step loop: the open neighbours of the frontier, each
      once (the `HashSet`). */
  function Next(g: Garden, f: set<Cell>, tiled: bool): (r: set<Cell>)
    requires Fits(g, tiled)
  {
    set c, k: nat | c in f && k < 4 && Open(g, Neighbour(c, k), tiled) :: Neighbour(c, k)
  }

  /** The frontier after `n` passes, starting from the start alone. */
  function Frontier(g: Garden, s: Cell, n: nat, tiled: bool): set<Cell>
    requires n > 0 ==> Fits(g, tiled)
  {
    if n == 0 then {s} else Next(g, Frontier(g, s, n - 1, tiled), tiled)
  }

  /** `part1`: the size of the frontier after `steps` passes. Before any
      pass the queue holds just the start, so 0 steps gives 1. */
  function Part1(g: Garden, i: nat, j: nat, steps: nat): (r: nat)
    requires steps > 0 ==> Wide(g)
    ensures steps == 0 ==> r == 1
  {
    |Frontier(g, (i, j), steps, false)|
  }

  /** `part2`: the same on the repeated garden. */
  function Part2(g: Garden, i: int, j: int, steps: nat): (r: nat)
    requires steps > 0 ==> Tiled(g)
    ensures steps == 0 ==> r == 1
  {
    |Frontier(g, (i, j), steps, true)|
  }

  // ---------------------------------------------------------------------------
  // Walks

  /** A walk: each cell one move from the previous, every cell after the
      first open. The first need not be: it is where the elf stands. */
  ghost predicate IsWalk(g: Garden, w: seq<Cell>, tiled: bool)
    requires Fits(g, tiled)
  {
    |w| >= 1 && forall k :: 0 <= k < |w| - 1 ==> Link(g, w, k, tiled)
  }

  /** Move `k` of a walk: to an adjacent, open cell. */
  ghost predicate Link(g: Garden, w: seq<Cell>, k: nat, tiled: bool)
    requires Fits(g, tiled) && k + 1 < |w|
  {
    Adjacent(w[k], w[k + 1]) && Open(g, w[k + 1], tiled)
  }

  lemma WalkAppend(g: Garden, w: seq<Cell>, c: Cell, tiled: bool)
    requires Fits(g, tiled) && IsWalk(g, w, tiled)
    requires Adjacent(w[|w| - 1], c) && Open(g, c, tiled)
    ensures IsWalk(g, w + [c], tiled)
  {
    var w' := w + [c];
    forall k | 0 <= k < |w'| - 1
      ensures Link(g, w', k, tiled)
    {
      if k < |w| - 1 {
        assert Link(g, w, k, tiled);
        assert w'[k] == w[k] && w'[k + 1] == w[k + 1];
      }
    }
  }

  lemma WalkPrefix(g: Garden, w: seq<Cell>, n: nat, tiled: bool)
    requires Fits(g, tiled) && IsWalk(g, w, tiled) && 1 <= n <= |w|
    ensures IsWalk(g, w[..n], tiled)
  {
    var w' := w[..n];
    forall k | 0 <= k < |w'| - 1
      ensures Link(g, w', k, tiled)
    {
      assert Link(g, w, k, tiled);
      assert w'[k] == w[k] && w'[k + 1] == w[k + 1];
    }
  }

  /** A walk of exactly `n` moves leads from `s` to `c`. */
  ghost predicate Reaches(g: Garden, s: Cell, c: Cell, n: nat, tiled: bool)
    requires Fits(g, tiled)
  {
    exists w :: IsWalk(g, w, tiled) && |w| == n + 1 && w[0] == s && w[n] == c
  }

  lemma NextMember(g: Garden, f: set<Cell>, c: Cell, tiled: bool)
    requires Fits(g, tiled)
    ensures c in Next(g, f, tiled) <==> Open(g, c, tiled) && exists p :: p in f && Adjacent(p, c)
  {
    if c in Next(g, f, tiled) {
      var p, k: nat :| p in f && k < 4 && Open(g, Neighbour(p, k), tiled) && c == Neighbour(p, k);
      NeighbourAdjacent(p, c);
    }
    if Open(g, c, tiled) && exists p :: p in f && Adjacent(p, c) {
      var p :| p in f && Adjacent(p, c);
      NeighbourAdjacent(p, c);
      var k: nat :| k < 4 && c == Neighbour(p, k);
    }
  }

  /** The frontier after `n` passes is exactly the set of cells a walk of
      exactly `n` moves from the start can end on. */
  /** A walk extended by one open neighbour. */
  lemma ReachStep(g: Garden, s: Cell, n: nat, p: Cell, c: Cell, tiled: bool)
    requires Fits(g, tiled) && n >= 1
    requires Reaches(g, s, p, n - 1, tiled) && Adjacent(p, c) && Open(g, c, tiled)
    ensures Reaches(g, s, c, n, tiled)
  {
    var w :| IsWalk(g, w, tiled) && |w| == n && w[0] == s && w[n - 1] == p;
    WalkAppend(g, w, c, tiled);
    assert (w + [c])[n] == c;
  }

  /** The cell before the last of a walk. */
  lemma ReachBack(g: Garden, s: Cell, n: nat, c: Cell, tiled: bool) returns (p: Cell)
    requires Fits(g, tiled) && n >= 1 && Reaches(g, s, c, n, tiled)
    ensures Reaches(g, s, p, n - 1, tiled) && Adjacent(p, c) && Open(g, c, tiled)
  {
    var w :| IsWalk(g, w, tiled) && |w| == n + 1 && w[0] == s && w[n] == c;
    WalkPrefix(g, w, n, tiled);
    p := w[n - 1];
    assert w[..n][n - 1] == p;
    assert Link(g, w, n - 1, tiled);
  }

  /** The frontier after `n` passes is exactly the set of cells a walk of
      exactly `n` moves from the start can end on. */
  lemma {:induction false} FrontierReaches(g: Garden, s: Cell, n: nat, c: Cell, tiled: bool)
    requires Fits(g, tiled)
    ensures c in Frontier(g, s, n, tiled) <==> Reaches(g, s, c, n, tiled)
    decreases n
  {
    if n == 0 {
      if c == s {
        assert IsWalk(g, [s], tiled);
      }
    } else {
      var f := Frontier(g, s, n - 1, tiled);
      NextMember(g, f, c, tiled);
      if c in Frontier(g, s, n, tiled) {
        var p :| p in f && Adjacent(p, c);
        FrontierReaches(g, s, n - 1, p, tiled);
        ReachStep(g, s, n, p, c, tiled);
      }
      if Reaches(g, s, c, n, tiled) {
        var p := ReachBack(g, s, n, c, tiled);
        FrontierReaches(g, s, n - 1, p, tiled);
      }
    }
  }

  /** `part1(k)` counts the plots a walk of exactly `k` moves from the start
      can end on. */
  lemma Part1Counts(g: Garden, i: nat, j: nat, steps: nat)
    requires Wide(g)
    ensures Part1(g, i, j, steps) == |Frontier(g, (i, j), steps, false)|
    ensures forall c :: c in Frontier(g, (i, j), steps, false) <==> Reaches(g, (i, j), c, steps, false)
  {
    forall c
      ensures c in Frontier(g, (i, j), steps, false) <==> Reaches(g, (i, j), c, steps, false)
    {
      FrontierReaches(g, (i, j), steps, c, false);
    }
  }

  /** An open cell of the bounded garden is open in the repeated one. */
  lemma OpenTiled(g: Garden, c: Cell)
    requires Tiled(g) && Open(g, c, false)
    ensures Open(g, c, true)
  {
    ModSmall(c.0, |g|);
    ModSmall(c.1, |g[0]|);
  }

  /** Every cell `part1` counts, `part2` counts too. */
  lemma {:induction false} BoundedWithinTiled(g: Garden, s: Cell, n: nat)
    requires Tiled(g)
    ensures Frontier(g, s, n, false) <= Frontier(g, s, n, true)
    decreases n
  {
    if n > 0 {
      BoundedWithinTiled(g, s, n - 1);
      forall c | c in Frontier(g, s, n, false)
        ensures c in Frontier(g, s, n, true)
      {
        NextMember(g, Frontier(g, s, n - 1, false), c, false);
        NextMember(g, Frontier(g, s, n - 1, true), c, true);
        OpenTiled(g, c);
      }
    }
  }

  /** Stepping back and forth: from an open start, a cell reachable in
      `n` >= 1 moves is reachable in `n + 2`. */
  lemma FrontierGrows(g: Garden, s: Cell, n: nat, tiled: bool)
    requires Fits(g, tiled) && n >= 1 && Open(g, s, tiled)
    ensures Frontier(g, s, n, tiled) <= Frontier(g, s, n + 2, tiled)
  {
    forall c | c in Frontier(g, s, n, tiled)
      ensures c in Frontier(g, s, n + 2, tiled)
    {
      FrontierReaches(g, s, n, c, tiled);
      var w :| IsWalk(g, w, tiled) && |w| == n + 1 && w[0] == s && w[n] == c;
      var p := w[n - 1];
      NeighbourAdjacent(p, c);
      assert Link(g, w, n - 1, tiled);
      assert Open(g, p, tiled) by {
        if n > 1 {
          assert Link(g, w, n - 2, tiled);
        }
      }
      WalkAppend(g, w, p, tiled);
      WalkAppend(g, w + [p], c, tiled);
      var w' := w + [p] + [c];
      assert w'[0] == s && w'[n + 2] == c;
      FrontierReaches(g, s, n + 2, c, tiled);
    }
  }

  // ---------------------------------------------------------------------------
  // The repeated garden is periodic

  function Move(c: Cell, v: Cell): Cell
  {
    (c.0 + v.0, c.1 + v.1)
  }

  /** Shifting by a whole garden, or back, in either direction. */
  predicate Period(g: Garden, v: Cell)
    requires Tiled(g)
  {
    v == (|g|, 0) || v == (0, |g[0]|) || v == (-|g|, 0) || v == (0, -|g[0]|)
  }

  function Back(v: Cell): Cell
  {
    (-v.0, -v.1)
  }

  lemma OpenPeriodic(g: Garden, c: Cell, v: Cell)
    requires Tiled(g) && Period(g, v)
    ensures Open(g, Move(c, v), true) == Open(g, c, true)
  {
    if v.0 > 0 {
      ModShift(c.0, |g|);
    } else if v.0 < 0 {
      ModShift(c.0 - |g|, |g|);
    } else if v.1 > 0 {
      ModShift(c.1, |g[0]|);
    } else if v.1 < 0 {
      ModShift(c.1 - |g[0]|, |g[0]|);
    }
  }

  lemma {:induction false} ShiftForward(g: Garden, s: Cell, n: nat, v: Cell, c: Cell)
    requires Tiled(g) && Period(g, v) && c in Frontier(g, s, n, true)
    ensures Move(c, v) in Frontier(g, Move(s, v), n, true)
    decreases n
  {
    if n > 0 {
      var f := Frontier(g, s, n - 1, true);
      NextMember(g, f, c, true);
      var p :| p in f && Adjacent(p, c);
      ShiftForward(g, s, n - 1, v, p);
      OpenPeriodic(g, c, v);
      NextMember(g, Frontier(g, Move(s, v), n - 1, true), Move(c, v), true);
      assert Adjacent(Move(p, v), Move(c, v));
    }
  }

  lemma ShiftBackward(g: Garden, s: Cell, n: nat, v: Cell, c: Cell)
    requires Tiled(g) && Period(g, v) && Move(c, v) in Frontier(g, Move(s, v), n, true)
    ensures c in Frontier(g, s, n, true)
  {
    var s', c', w := Move(s, v), Move(c, v), Back(v);
    assert Period(g, w);
    ShiftForward(g, s', n, w, c');
    assert Move(c', w) == c && Move(s', w) == s;
  }

  /** The repeated garden looks the same one garden further on: shifting the
      start by a whole garden shifts the frontier by the same amount. */
  lemma FrontierPeriodic(g: Garden, s: Cell, n: nat, v: Cell, c: Cell)
    requires Tiled(g) && Period(g, v)
    ensures c in Frontier(g, s, n, true) <==> Move(c, v) in Frontier(g, Move(s, v), n, true)
  {
    if c in Frontier(g, s, n, true) {
      ShiftForward(g, s, n, v, c);
    }
    if Move(c, v) in Frontier(g, Move(s, v), n, true) {
      ShiftBackward(g, s, n, v, c);
    }
  }
}
