/** Day 16 (The Floor Will Be Lava): a beam of light crossing a grid of
    mirrors and splitters, marking each tile with the directions it was
    crossed in, and the count of tiles it energizes. */
module FloorLava {
  import opened Wrappers
  import opened Text

  datatype TileType = Empty | BackMirror | ForwardMirror | VerticalSplitter | HorizontalSplitter

  /** The declaration order is the discriminant order `Into<usize>` uses. */
  datatype Direction = Up | Down | Left | Right

  // ---------------------------------------------------------------------------
  // Directions

  /** The unit step of a direction as (row, column) offsets; rows grow
      downwards. */
  function Delta(d: Direction): (int, int)
  {
    match d
    case Up => (-1, 0)
    case Down => (1, 0)
    case Left => (0, -1)
    case Right => (0, 1)
  }

  function Abs(x: int): nat
  {
    if x < 0 then -x else x
  }

  function Opposite(d: Direction): (r: Direction)
    ensures Delta(r) == (-Delta(d).0, -Delta(d).1)
  {
    match d
    case Up => Down
    case Down => Up
    case Left => Right
    case Right => Left
  }

  /** `next_coord`: the neighbouring cell one step in direction `d`. */
  function NextCoord(d: Direction, i: int, j: int): (r: (int, int))
    ensures Abs(r.0 - i) + Abs(r.1 - j) == 1
    ensures (r.0 - i, r.1 - j) == Delta(d)
    ensures NextCoordOf(Opposite(d), r) == (i, j)
  {
    match d
    case Up => (i - 1, j)
    case Down => (i + 1, j)
    case Left => (i, j - 1)
    case Right => (i, j + 1)
  }

  /** The step back, written independently of `NextCoord`. */
  function NextCoordOf(d: Direction, c: (int, int)): (int, int)
  {
    (c.0 + Delta(d).0, c.1 + Delta(d).1)
  }

  predicate IsMirror(t: TileType)
  {
    t == BackMirror || t == ForwardMirror
  }

  /** A splitter met on its flat side. */
  predicate Splits(t: TileType, d: Direction)
  {
    (t == HorizontalSplitter && (d == Up || d == Down)) ||
    (t == VerticalSplitter && (d == Left || d == Right))
  }

  /** `next_direction`: where a beam travelling in `d` goes on after a tile.
      A '/' mirror reflects the step (a, b) to (-b, -a), a '\' mirror to
      (b, a); a splitter met on its flat side sends the beam both ways
      across; anything else lets it through. */
  function NextDirections(d: Direction, t: TileType): (r: seq<Direction>)
    ensures 1 <= |r| <= 2
    ensures |r| == 2 <==> Splits(t, d)
    ensures Splits(t, d) ==> r[1] == Opposite(r[0]) && r[0] != d && r[0] != Opposite(d)
    ensures t == BackMirror ==> |r| == 1 && Delta(r[0]) == (-Delta(d).1, -Delta(d).0)
    ensures t == ForwardMirror ==> |r| == 1 && Delta(r[0]) == (Delta(d).1, Delta(d).0)
    ensures !IsMirror(t) && !Splits(t, d) ==> r == [d]
  {
    match (t, d)
    case (BackMirror, Up) => [Right]
    case (BackMirror, Down) => [Left]
    case (BackMirror, Right) => [Up]
    case (BackMirror, Left) => [Down]
    case (ForwardMirror, Up) => [Left]
    case (ForwardMirror, Down) => [Right]
    case (ForwardMirror, Right) => [Down]
    case (ForwardMirror, Left) => [Up]
    case (HorizontalSplitter, Up) => [Left, Right]
    case (HorizontalSplitter, Down) => [Left, Right]
    case (VerticalSplitter, Left) => [Up, Down]
    case (VerticalSplitter, Right) => [Up, Down]
    case _ => [d]
  }

  /** Light retraces its way: sent back against the direction a mirror or a
      splitter's edge turned it to, a beam leaves against the direction it
      came in. */
  lemma NextDirectionsReversible(d: Direction, t: TileType)
    requires !Splits(t, d)
    ensures NextDirections(Opposite(NextDirections(d, t)[0]), t) == [Opposite(d)]
  {
  }

  /** The directions in discriminant order. */
  const Directions := [Up, Down, Left, Right]

  /** `Into<usize>`: the discriminant of a direction. */
  function DirectionIndex(d: Direction): (n: nat)
    ensures n < 4 && Directions[n] == d
  {
    match d
    case Up => 0
    case Down => 1
    case Left => 2
    case Right => 3
  }

  /** `From<usize>`: the Rust code panics on a value above 3. */
  function FromIndex(n: nat): (d: Direction)
    requires n < 4
    ensures DirectionIndex(d) == n
    ensures forall e :: DirectionIndex(e) == n ==> d == e
  {
    if n == 0 then Up else if n == 1 then Down else if n == 2 then Left else Right
  }

  // ---------------------------------------------------------------------------
  // Tiles

  /** A tile and its four `visited` flags, indexed by `DirectionIndex`. */
  datatype Tile = Tile(kind: TileType, visited: seq<bool>)

  type Tiles = seq<seq<Tile>>

  const NoFlags := [false, false, false, false]

  /** Every row as wide as the first, and four flags on every tile. */
  predicate WellFormed(t: Tiles)
  {
    (forall k :: 0 <= k < |t| ==> |t[k]| == |t[0]|) &&
    forall k, m :: 0 <= k < |t| && 0 <= m < |t[k]| ==> |t[k][m].visited| == 4
  }

  /** The bounds test of `beam`, which measures every row by the first. */
  predicate InBounds(t: Tiles, i: int, j: int)
  {
    0 <= i < |t| && 0 <= j < |t[0]|
  }

  /** `is_visited`: some flag of the tile is set. */
  predicate IsVisited(tile: Tile)
  {
    exists k :: 0 <= k < |tile.visited| && tile.visited[k]
  }

  function KindOf(ch: char): Option<TileType>
  {
    if ch == '.' then Some(Empty)
    else if ch == '/' then Some(BackMirror)
    else if ch == '\\' then Some(ForwardMirror)
    else if ch == '|' then Some(VerticalSplitter)
    else if ch == '-' then Some(HorizontalSplitter)
    else None
  }

  /** The puzzle's character for each kind of tile. */
  function KindChar(t: TileType): char
  {
    match t
    case Empty => '.'
    case BackMirror => '/'
    case ForwardMirror => '\\'
    case VerticalSplitter => '|'
    case HorizontalSplitter => '-'
  }

  function ParseRow(s: string): (r: Option<seq<Tile>>)
    ensures r.Some? <==> forall k :: 0 <= k < |s| ==> s[k] in ".\\/|-"
    ensures r.Some? ==> |r.value| == |s|
    ensures r.Some? ==> forall k :: 0 <= k < |s| ==> r.value[k] == Tile(KindOf(s[k]).value, NoFlags)
  {
    if |s| == 0 then Some([])
    else
      var kind :- KindOf(s[0]);
      var rest :- ParseRow(s[1..]);
      assert forall k :: 1 <= k < |s| ==> s[k] == s[1..][k - 1];
      Some([Tile(kind, NoFlags)] + rest)
  }

  function ParseRows(ls: seq<string>): (r: Option<Tiles>)
    ensures r.Some? <==> forall k :: 0 <= k < |ls| ==> ParseRow(ls[k]).Some?
    ensures r.Some? ==> |r.value| == |ls| && forall k :: 0 <= k < |ls| ==> r.value[k] == ParseRow(ls[k]).value
  {
    if |ls| == 0 then Some([])
    else
      var row :- ParseRow(ls[0]);
      var rest :- ParseRows(ls[1..]);
      assert forall k :: 1 <= k < |ls| ==> ls[k] == ls[1..][k - 1];
      Some([row] + rest)
  }

  /** `Tile::parse`: one row per line, every flag clear. The Rust code panics
      on a character other than `.`, `/`, `\`, `|` and `-`; the model gives
      `None`. */
  function Parse(s: string): (r: Option<Tiles>)
    ensures r.Some? <==> forall i, j :: 0 <= i < |Lines(s)| && 0 <= j < |Lines(s)[i]| ==> Lines(s)[i][j] in ".\\/|-"
    ensures r.Some? ==> |r.value| == |Lines(s)|
    ensures r.Some? ==> forall i :: 0 <= i < |r.value| ==> ParseRow(Lines(s)[i]) == Some(r.value[i])
  {
    ParseRows(Lines(s))
  }

  /** A row of tile kinds, as the puzzle draws it. */
  function DrawRow(row: seq<TileType>): (s: string)
    ensures |s| == |row| && Free(s, '\n')
  {
    seq(|row|, j requires 0 <= j < |row| => KindChar(row[j]))
  }

  /** The tiles of a row of kinds, with every flag clear. */
  function ClearRow(row: seq<TileType>): (r: seq<Tile>)
    ensures |r| == |row|
  {
    seq(|row|, j requires 0 <= j < |row| => Tile(row[j], NoFlags))
  }

  /** Each kind's character is read back as that kind. */
  lemma KindRoundTrip(t: TileType)
    ensures KindChar(t) in ".\\/|-" && KindOf(KindChar(t)) == Some(t)
  {
  }

  lemma ParseDrawRow(row: seq<TileType>)
    ensures ParseRow(DrawRow(row)) == Some(ClearRow(row))
  {
    var s := DrawRow(row);
    forall k | 0 <= k < |s|
      ensures s[k] in ".\\/|-" && KindOf(s[k]) == Some(row[k])
    {
      KindRoundTrip(row[k]);
    }
    var r := ParseRow(s);
    assert r.value == ClearRow(row);
  }

  function Drawing(g: seq<seq<TileType>>): string
  {
    Unlines(seq(|g|, i requires 0 <= i < |g| => DrawRow(g[i])))
  }

  function Clear(g: seq<seq<TileType>>): (t: Tiles)
    ensures |t| == |g|
  {
    seq(|g|, i requires 0 <= i < |g| => ClearRow(g[i]))
  }

  /** Reading a drawing gives back its tiles, with no flag set. */
  lemma ParseDrawing(g: seq<seq<TileType>>)
    ensures Parse(Drawing(g)) == Some(Clear(g))
  {
    var ls := seq(|g|, i requires 0 <= i < |g| => DrawRow(g[i]));
    LinesUnlines(ls);
    forall i | 0 <= i < |ls|
      ensures ParseRow(ls[i]) == Some(Clear(g)[i])
    {
      ParseDrawRow(g[i]);
    }
    var r := ParseRows(ls);
    assert r.Some?;
    assert r.value == Clear(g);
  }

  // ---------------------------------------------------------------------------
  // Flags

  function FalseCount(v: seq<bool>): nat
  {
    if |v| == 0 then 0 else FalseCount(v[..|v| - 1]) + (if v[|v| - 1] then 0 else 1)
  }

  /** Setting a clear flag leaves one fewer clear. */
  lemma {:induction false} FalseCountSet(v: seq<bool>, k: nat)
    requires k < |v| && !v[k]
    ensures FalseCount(v[k := true]) == FalseCount(v) - 1
  {
    if k < |v| - 1 {
      assert v[k := true][..|v| - 1] == v[..|v| - 1][k := true];
      FalseCountSet(v[..|v| - 1], k);
    } else {
      assert v[k := true][..|v| - 1] == v[..|v| - 1];
    }
  }

  /** Only setting flags never adds a clear one. */
  lemma {:induction false} FalseCountGrows(v: seq<bool>, w: seq<bool>)
    requires |v| == |w| && forall k :: 0 <= k < |v| && v[k] ==> w[k]
    ensures FalseCount(w) <= FalseCount(v)
  {
    if |v| > 0 {
      FalseCountGrows(v[..|v| - 1], w[..|w| - 1]);
    }
  }

  function RowFree(row: seq<Tile>): nat
  {
    if |row| == 0 then 0 else RowFree(row[..|row| - 1]) + FalseCount(row[|row| - 1].visited)
  }

  /** The clear flags of the grid: the measure that bounds `beam`. */
  function TilesFree(t: Tiles): nat
  {
    if |t| == 0 then 0 else TilesFree(t[..|t| - 1]) + RowFree(t[|t| - 1])
  }

  /** `t` with flag `d` of tile (i, j) set. */
  function Mark(t: Tiles, i: nat, j: nat, d: Direction): Tiles
    requires i < |t| && j < |t[i]| && |t[i][j].visited| == 4
  {
    t[i := t[i][j := t[i][j].(visited := t[i][j].visited[DirectionIndex(d) := true])]]
  }

  lemma {:induction false} RowFreeUpdate(row: seq<Tile>, j: nat, x: Tile)
    requires j < |row|
    ensures RowFree(row[j := x]) + FalseCount(row[j].visited) == RowFree(row) + FalseCount(x.visited)
  {
    if j < |row| - 1 {
      assert row[j := x][..|row| - 1] == row[..|row| - 1][j := x];
      RowFreeUpdate(row[..|row| - 1], j, x);
    } else {
      assert row[j := x][..|row| - 1] == row[..|row| - 1];
    }
  }

  lemma {:induction false} TilesFreeUpdate(t: Tiles, i: nat, row: seq<Tile>)
    requires i < |t|
    ensures TilesFree(t[i := row]) + RowFree(t[i]) == TilesFree(t) + RowFree(row)
  {
    if i < |t| - 1 {
      assert t[i := row][..|t| - 1] == t[..|t| - 1][i := row];
      TilesFreeUpdate(t[..|t| - 1], i, row);
    } else {
      assert t[i := row][..|t| - 1] == t[..|t| - 1];
    }
  }

  /** Marking a clear flag leaves one fewer clear flag in the grid. */
  lemma MarkFree(t: Tiles, i: nat, j: nat, d: Direction)
    requires i < |t| && j < |t[i]| && |t[i][j].visited| == 4 && !t[i][j].visited[DirectionIndex(d)]
    ensures TilesFree(Mark(t, i, j, d)) == TilesFree(t) - 1
  {
    var v := t[i][j].visited;
    var x := t[i][j].(visited := v[DirectionIndex(d) := true]);
    FalseCountSet(v, DirectionIndex(d));
    RowFreeUpdate(t[i], j, x);
    TilesFreeUpdate(t, i, t[i][j := x]);
  }

  /** `r` is `t` with some more flags set: same shape, same kinds, and no
      flag cleared. */
  predicate Extends(t: Tiles, r: Tiles)
  {
    |r| == |t| &&
    forall k :: 0 <= k < |t| ==>
      |r[k]| == |t[k]| && forall m :: 0 <= m < |t[k]| ==> RefinesTile(t[k][m], r[k][m])
  }

  predicate RefinesTile(a: Tile, b: Tile)
  {
    b.kind == a.kind && |b.visited| == |a.visited| &&
    forall n :: 0 <= n < |a.visited| && a.visited[n] ==> b.visited[n]
  }

  lemma ExtendsTrans(a: Tiles, b: Tiles, c: Tiles)
    requires Extends(a, b) && Extends(b, c)
    ensures Extends(a, c)
  {
    forall k, m | 0 <= k < |a| && 0 <= m < |a[k]|
      ensures RefinesTile(a[k][m], c[k][m])
    {
      assert RefinesTile(a[k][m], b[k][m]) && RefinesTile(b[k][m], c[k][m]);
    }
  }

  lemma {:induction false} RowFreeGrows(a: seq<Tile>, b: seq<Tile>)
    requires |a| == |b| && forall m :: 0 <= m < |a| ==> RefinesTile(a[m], b[m])
    ensures RowFree(b) <= RowFree(a)
  {
    if |a| > 0 {
      FalseCountGrows(a[|a| - 1].visited, b[|b| - 1].visited);
      RowFreeGrows(a[..|a| - 1], b[..|b| - 1]);
    }
  }

  /** Setting flags never adds a clear one. */
  lemma {:induction false} TilesFreeGrows(t: Tiles, r: Tiles)
    requires Extends(t, r)
    ensures TilesFree(r) <= TilesFree(t)
  {
    if |t| > 0 {
      RowFreeGrows(t[|t| - 1], r[|r| - 1]);
      TilesFreeGrows(t[..|t| - 1], r[..|r| - 1]);
    }
  }

  lemma MarkExtends(t: Tiles, i: nat, j: nat, d: Direction)
    requires WellFormed(t) && i < |t| && j < |t[i]|
    ensures Extends(t, Mark(t, i, j, d)) && WellFormed(Mark(t, i, j, d))
  {
  }

  // ---------------------------------------------------------------------------
  // The beam

  /** Flag `d` of tile (i, j) is set. */
  predicate Flag(t: Tiles, i: int, j: int, d: Direction)
    requires WellFormed(t)
  {
    InBounds(t, i, j) && t[i][j].visited[DirectionIndex(d)]
  }

  /** A set flag stays set. */
  lemma ExtendsFlag(t: Tiles, r: Tiles, i: int, j: int, d: Direction)
    requires WellFormed(t) && WellFormed(r) && Extends(t, r) && Flag(t, i, j, d)
    ensures Flag(r, i, j, d)
  {
    assert RefinesTile(t[i][j], r[i][j]);
  }

  /** A beam at tile (i, j), travelling in direction `d`. */
  datatype State = State(i: int, j: int, d: Direction)

  /** The beam that leaves (i, j) in direction `d`. */
  function Target(i: int, j: int, d: Direction): State
  {
    var c := NextCoord(d, i, j);
    State(c.0, c.1, d)
  }

  predicate Inside(t: Tiles, s: State)
  {
    InBounds(t, s.i, s.j)
  }

  predicate Holds(t: Tiles, s: State)
    requires WellFormed(t)
  {
    Flag(t, s.i, s.j, s.d)
  }

  /** `beam`: a beam entering (i, j) in direction `d`. It stops outside the
      grid and on a flag already set; otherwise it sets the flag and goes on
      in each direction the tile sends it. */
  function Beam(t: Tiles, i: int, j: int, d: Direction): (r: Tiles)
    requires WellFormed(t)
    ensures WellFormed(r) && Extends(t, r)
    ensures InBounds(t, i, j) ==> Flag(r, i, j, d)
    ensures !InBounds(t, i, j) || Flag(t, i, j, d) ==> r == t
    decreases TilesFree(t), 0
  {
    if !InBounds(t, i, j) || Flag(t, i, j, d) then t
    else
      MarkFree(t, i, j, d);
      MarkExtends(t, i, j, d);
      var t1 := Mark(t, i, j, d);
      var r := Spread(t1, i, j, NextDirections(d, t[i][j].kind));
      ExtendsTrans(t, t1, r);
      ExtendsFlag(t1, r, i, j, d);
      r
  }

  /** The loop of `beam` over the new directions: a beam from (i, j) in
      each, one after the other. */
  function Spread(t: Tiles, i: int, j: int, ds: seq<Direction>): (r: Tiles)
    requires WellFormed(t)
    ensures WellFormed(r) && Extends(t, r)
    decreases TilesFree(t), |ds| + 1
  {
    if |ds| == 0 then t
    else
      var s := Target(i, j, ds[0]);
      var t1 := Beam(t, s.i, s.j, s.d);
      TilesFreeGrows(t, t1);
      var r := Spread(t1, i, j, ds[1..]);
      ExtendsTrans(t, t1, r);
      r
  }

  /** One pass of the loop: the first beam, then the rest from where it left
      the grid. */
  lemma SpreadStep(t: Tiles, i: int, j: int, ds: seq<Direction>)
    requires WellFormed(t) && |ds| > 0
    ensures var s := Target(i, j, ds[0]); var t1 := Beam(t, s.i, s.j, s.d);
      WellFormed(t1) && Extends(t, t1) && Spread(t, i, j, ds) == Spread(t1, i, j, ds[1..])
  {
  }

  /** A beam entering an unflagged tile inside the grid sets its flag, then
      runs the loop over the tile's directions. */
  lemma BeamStep(t: Tiles, i: int, j: int, d: Direction)
    requires WellFormed(t) && InBounds(t, i, j) && !Flag(t, i, j, d)
    ensures WellFormed(Mark(t, i, j, d))
    ensures Beam(t, i, j, d) == Spread(Mark(t, i, j, d), i, j, NextDirections(d, t[i][j].kind))
  {
    MarkExtends(t, i, j, d);
  }

  /** Each beam the loop starts inside the grid has its flag set at the end. */
  lemma {:induction false} SpreadHolds(t: Tiles, i: int, j: int, ds: seq<Direction>, k: nat)
    requires WellFormed(t) && k < |ds| && Inside(t, Target(i, j, ds[k]))
    ensures Holds(Spread(t, i, j, ds), Target(i, j, ds[k]))
    decreases |ds|
  {
    var s := Target(i, j, ds[0]);
    var t1 := Beam(t, s.i, s.j, s.d);
    var r := Spread(t1, i, j, ds[1..]);
    SpreadStep(t, i, j, ds);
    if k == 0 {
      assert Flag(t1, s.i, s.j, s.d);
      ExtendsFlag(t1, r, s.i, s.j, s.d);
    } else {
      var x := Target(i, j, ds[k]);
      assert ds[k] == ds[1..][k - 1];
      ExtendsInside(t, t1, x);
      SpreadHolds(t1, i, j, ds[1..], k - 1);
      assert Holds(r, x);
    }
  }

  // ---------------------------------------------------------------------------
  // What the beam reaches

  /** The beams a beam at `s` turns into after the tile it is on. */
  function Moves(t: Tiles, s: State): (ms: seq<State>)
    requires WellFormed(t) && Inside(t, s)
  {
    var ds := NextDirections(s.d, t[s.i][s.j].kind);
    seq(|ds|, k requires 0 <= k < |ds| => Target(s.i, s.j, ds[k]))
  }

  /** A route of beams inside the grid, each the next of the one before. */
  predicate IsPath(t: Tiles, p: seq<State>)
    requires WellFormed(t)
  {
    |p| >= 1 && (forall k :: 0 <= k < |p| ==> Inside(t, p[k])) &&
    forall k :: 0 <= k < |p| - 1 ==> p[k + 1] in Moves(t, p[k])
  }

  ghost predicate Reaches(t: Tiles, a: State, b: State)
    requires WellFormed(t)
  {
    exists p :: IsPath(t, p) && p[0] == a && p[|p| - 1] == b
  }

  /** Every move out of `s` that stays inside the grid is already flagged. */
  predicate ClosedAt(t: Tiles, s: State)
    requires WellFormed(t) && Inside(t, s)
  {
    forall m :: m in Moves(t, s) && Inside(t, m) ==> Holds(t, m)
  }

  /** Every flag set in `r` but not in `t` is closed in `r`. */
  ghost predicate NewClosed(t: Tiles, r: Tiles)
    requires WellFormed(t) && WellFormed(r)
  {
    forall s :: Inside(t, s) && Holds(r, s) && !Holds(t, s) ==> ClosedAt(r, s)
  }

  /** Setting flags changes neither the grid's shape nor its moves. */
  lemma ExtendsMoves(t: Tiles, r: Tiles, s: State)
    requires WellFormed(t) && WellFormed(r) && Extends(t, r) && Inside(t, s)
    ensures Inside(r, s) && Moves(r, s) == Moves(t, s)
  {
    assert RefinesTile(t[s.i][s.j], r[s.i][s.j]);
  }

  lemma ExtendsInside(t: Tiles, r: Tiles, s: State)
    requires Extends(t, r)
    ensures Inside(t, s) == Inside(r, s)
  {
    if |t| > 0 {
      assert |r[0]| == |t[0]|;
    }
  }

  /** Setting flags leaves the routes through the grid as they were. */
  lemma ExtendsPath(t: Tiles, r: Tiles, p: seq<State>)
    requires WellFormed(t) && WellFormed(r) && Extends(t, r)
    ensures IsPath(t, p) == IsPath(r, p)
  {
    forall k | 0 <= k < |p|
      ensures Inside(t, p[k]) == Inside(r, p[k])
    {
      ExtendsInside(t, r, p[k]);
    }
    forall k | 0 <= k < |p| - 1 && Inside(t, p[k])
      ensures Moves(r, p[k]) == Moves(t, p[k])
    {
      ExtendsMoves(t, r, p[k]);
    }
  }

  lemma ExtendsReaches(t: Tiles, r: Tiles, a: State, b: State)
    requires WellFormed(t) && WellFormed(r) && Extends(t, r)
    ensures Reaches(t, a, b) == Reaches(r, a, b)
  {
    if Reaches(t, a, b) {
      var p :| IsPath(t, p) && p[0] == a && p[|p| - 1] == b;
      ExtendsPath(t, r, p);
    }
    if Reaches(r, a, b) {
      var p :| IsPath(r, p) && p[0] == a && p[|p| - 1] == b;
      ExtendsPath(t, r, p);
    }
  }

  /** A beam inside the grid reaches itself. */
  lemma ReachesSelf(t: Tiles, a: State)
    requires WellFormed(t) && Inside(t, a)
    ensures Reaches(t, a, a)
  {
    assert IsPath(t, [a]);
  }

  /** A beam reaches each of its moves that stays inside the grid. */
  lemma ReachesMove(t: Tiles, a: State, k: int)
    requires WellFormed(t) && Inside(t, a) && 0 <= k < |Moves(t, a)| && Inside(t, Moves(t, a)[k])
    ensures Reaches(t, a, Moves(t, a)[k])
  {
    var p := [a, Moves(t, a)[k]];
    assert p[1] in Moves(t, p[0]);
    assert IsPath(t, p);
  }

  lemma ReachesTrans(t: Tiles, a: State, b: State, c: State)
    requires WellFormed(t) && Reaches(t, a, b) && Reaches(t, b, c)
    ensures Reaches(t, a, c)
  {
    var p :| IsPath(t, p) && p[0] == a && p[|p| - 1] == b;
    var q :| IsPath(t, q) && q[0] == b && q[|q| - 1] == c;
    PathJoin(t, p, q);
    assert (p + q[1..])[|p + q[1..]| - 1] == c;
  }

  /** A route followed by a route from where it ends is a route. */
  lemma PathJoin(t: Tiles, p: seq<State>, q: seq<State>)
    requires WellFormed(t) && IsPath(t, p) && IsPath(t, q) && p[|p| - 1] == q[0]
    ensures IsPath(t, p + q[1..]) && (p + q[1..])[0] == p[0]
  {
    var pq := p + q[1..];
    forall k | 0 <= k < |pq|
      ensures Inside(t, pq[k])
    {
      if k < |p| {
        assert pq[k] == p[k];
      } else {
        assert pq[k] == q[k - |p| + 1];
      }
    }
    forall k | 0 <= k < |pq| - 1
      ensures pq[k + 1] in Moves(t, pq[k])
    {
      if k < |p| - 1 {
        assert pq[k] == p[k] && pq[k + 1] == p[k + 1];
      } else {
        var n := k - |p| + 1;
        assert pq[k] == q[n] && pq[k + 1] == q[n + 1];
      }
    }
  }

  lemma ClosedLift(t: Tiles, r: Tiles, s: State)
    requires WellFormed(t) && WellFormed(r) && Extends(t, r) && Inside(t, s) && ClosedAt(t, s)
    ensures ClosedAt(r, s)
  {
    ExtendsMoves(t, r, s);
    forall m | m in Moves(r, s) && Inside(r, m)
      ensures Holds(r, m)
    {
      ExtendsFlag(t, r, m.i, m.j, m.d);
    }
  }

  /** Marking touches only the marked flag. */
  lemma MarkHolds(t: Tiles, a: State, s: State)
    requires WellFormed(t) && Inside(t, a) && Inside(t, s) && s != a
    ensures WellFormed(Mark(t, a.i, a.j, a.d))
    ensures Holds(Mark(t, a.i, a.j, a.d), s) == Holds(t, s)
  {
    MarkExtends(t, a.i, a.j, a.d);
    if s.i == a.i && s.j == a.j {
      assert DirectionIndex(s.d) != DirectionIndex(a.d);
    }
  }

  /** Every flag a beam sets has each of its moves inside the grid flagged
      too: the beam follows every branch to its end. */
  lemma {:induction false} BeamClosed(t: Tiles, i: int, j: int, d: Direction)
    requires WellFormed(t)
    ensures NewClosed(t, Beam(t, i, j, d))
    decreases TilesFree(t), 0
  {
    if InBounds(t, i, j) && !Flag(t, i, j, d) {
      var a := State(i, j, d);
      MarkFree(t, i, j, d);
      MarkExtends(t, i, j, d);
      var t1 := Mark(t, i, j, d);
      var ds := NextDirections(d, t[i][j].kind);
      var r := Spread(t1, i, j, ds);
      SpreadClosed(t1, i, j, ds);
      BeamStep(t, i, j, d);
      SpreadClosedAt(t1, a);
      MarkClosed(t, a, r);
    }
  }

  /** Marking `a` and then closing every new flag, `a`'s included, closes
      every flag that was not set before the mark. */
  lemma MarkClosed(t: Tiles, a: State, r: Tiles)
    requires WellFormed(t) && Inside(t, a) && WellFormed(r)
    requires WellFormed(Mark(t, a.i, a.j, a.d)) && Extends(Mark(t, a.i, a.j, a.d), r)
    requires NewClosed(Mark(t, a.i, a.j, a.d), r) && ClosedAt(r, a)
    ensures NewClosed(t, r)
  {
    forall s | Inside(t, s) && Holds(r, s) && !Holds(t, s)
      ensures ClosedAt(r, s)
    {
      if s != a {
        MarkHolds(t, a, s);
      }
    }
  }

  /** After the loop, every move out of the tile it started from is flagged. */
  lemma SpreadClosedAt(t: Tiles, a: State)
    requires WellFormed(t) && Inside(t, a)
    ensures ClosedAt(Spread(t, a.i, a.j, NextDirections(a.d, t[a.i][a.j].kind)), a)
  {
    var ds := NextDirections(a.d, t[a.i][a.j].kind);
    var r := Spread(t, a.i, a.j, ds);
    ExtendsMoves(t, r, a);
    var ms := Moves(t, a);
    forall k | 0 <= k < |ms| && Inside(r, ms[k])
      ensures Holds(r, ms[k])
    {
      ExtendsMoves(t, r, ms[k]);
      SpreadHolds(t, a.i, a.j, ds, k);
    }
  }

  lemma {:induction false} SpreadClosed(t: Tiles, i: int, j: int, ds: seq<Direction>)
    requires WellFormed(t)
    ensures NewClosed(t, Spread(t, i, j, ds))
    decreases TilesFree(t), |ds| + 1
  {
    if |ds| > 0 {
      var s := Target(i, j, ds[0]);
      var t1 := Beam(t, s.i, s.j, s.d);
      BeamClosed(t, s.i, s.j, s.d);
      TilesFreeGrows(t, t1);
      var r := Spread(t1, i, j, ds[1..]);
      SpreadClosed(t1, i, j, ds[1..]);
      assert Spread(t, i, j, ds) == r;
      ClosedCompose(t, t1, r);
    }
  }

  /** Closure of new flags carries over two rounds of setting flags. */
  lemma ClosedCompose(t: Tiles, t1: Tiles, r: Tiles)
    requires WellFormed(t) && WellFormed(t1) && WellFormed(r) && Extends(t, t1) && Extends(t1, r)
    requires NewClosed(t, t1) && NewClosed(t1, r)
    ensures NewClosed(t, r)
  {
    forall x | Inside(t, x) && Holds(r, x) && !Holds(t, x)
      ensures ClosedAt(r, x)
    {
      ExtendsInside(t, t1, x);
      if Holds(t1, x) {
        ClosedLift(t1, r, x);
      }
    }
  }

  /** Every flag set in `r` but not in `t` is for a beam `a` reaches. */
  ghost predicate NewReached(t: Tiles, r: Tiles, a: State)
    requires WellFormed(t) && WellFormed(r)
  {
    forall s :: Inside(t, s) && Holds(r, s) && !Holds(t, s) ==> Reaches(t, a, s)
  }

  /** A beam sets flags only for beams it reaches. */
  lemma {:induction false} BeamSound(t: Tiles, i: int, j: int, d: Direction)
    requires WellFormed(t)
    ensures NewReached(t, Beam(t, i, j, d), State(i, j, d))
    decreases TilesFree(t), 0
  {
    if InBounds(t, i, j) && !Flag(t, i, j, d) {
      var a := State(i, j, d);
      MarkFree(t, i, j, d);
      MarkExtends(t, i, j, d);
      var t1 := Mark(t, i, j, d);
      var ds := NextDirections(d, t[i][j].kind);
      var r := Spread(t1, i, j, ds);
      assert Beam(t, i, j, d) == r;
      ExtendsMoves(t, t1, a);
      forall k | 0 <= k < |ds| && Inside(t1, Target(i, j, ds[k]))
        ensures Reaches(t1, a, Target(i, j, ds[k]))
      {
        ReachesMove(t1, a, k);
      }
      SpreadSound(t1, i, j, ds, a);
      MarkSound(t, a, r);
    }
  }

  /** Flags new after the mark and a loop reached from `a` in the marked
      grid are reached from `a`. */
  lemma MarkSound(t: Tiles, a: State, r: Tiles)
    requires WellFormed(t) && Inside(t, a) && WellFormed(r)
    requires Extends(Mark(t, a.i, a.j, a.d), r) && WellFormed(Mark(t, a.i, a.j, a.d))
    requires NewReached(Mark(t, a.i, a.j, a.d), r, a)
    ensures NewReached(t, r, a)
  {
    var t1 := Mark(t, a.i, a.j, a.d);
    MarkExtends(t, a.i, a.j, a.d);
    forall s | Inside(t, s) && Holds(r, s) && !Holds(t, s)
      ensures Reaches(t, a, s)
    {
      if s == a {
        ReachesSelf(t, a);
      } else {
        MarkHolds(t, a, s);
        ExtendsInside(t, t1, s);
        ExtendsReaches(t, t1, a, s);
      }
    }
  }

  /** The loop sets flags only for beams reached from `a`, when every beam
      it starts inside the grid is. */
  lemma {:induction false} SpreadSound(t: Tiles, i: int, j: int, ds: seq<Direction>, a: State)
    requires WellFormed(t)
    requires forall k :: 0 <= k < |ds| && Inside(t, Target(i, j, ds[k])) ==> Reaches(t, a, Target(i, j, ds[k]))
    ensures NewReached(t, Spread(t, i, j, ds), a)
    decreases TilesFree(t), |ds| + 1
  {
    if |ds| > 0 {
      var s := Target(i, j, ds[0]);
      var t1 := Beam(t, s.i, s.j, s.d);
      BeamSound(t, s.i, s.j, s.d);
      TilesFreeGrows(t, t1);
      var r := Spread(t1, i, j, ds[1..]);
      assert Spread(t, i, j, ds) == r;
      forall k | 0 <= k < |ds| - 1 && Inside(t1, Target(i, j, ds[1..][k]))
        ensures Reaches(t1, a, Target(i, j, ds[1..][k]))
      {
        var x := Target(i, j, ds[1..][k]);
        assert ds[1..][k] == ds[k + 1];
        ExtendsInside(t, t1, x);
        ExtendsReaches(t, t1, a, x);
      }
      SpreadSound(t1, i, j, ds[1..], a);
      ExtendsTrans(t, t1, r);
      forall x | Inside(t, x) && Holds(r, x) && !Holds(t, x)
        ensures Reaches(t, a, x)
      {
        ExtendsInside(t, t1, x);
        if Holds(t1, x) {
          ExtendsInside(t, t1, s);
          ReachesTrans(t, a, s, x);
        } else {
          ExtendsReaches(t, t1, a, x);
        }
      }
    }
  }

  /** No flag set anywhere: the grid as `Tile::parse` builds it. */
  predicate Unlit(t: Tiles)
  {
    forall k, m :: 0 <= k < |t| && 0 <= m < |t[k]| ==> t[k][m].visited == NoFlags
  }

  /** Along a route from a flagged beam, every beam is flagged when every
      new flag is closed. */
  lemma {:induction false} PathHolds(t: Tiles, r: Tiles, p: seq<State>, k: nat)
    requires WellFormed(t) && WellFormed(r) && Extends(t, r) && Unlit(t)
    requires NewClosed(t, r) && IsPath(t, p) && Holds(r, p[0]) && k < |p|
    ensures Holds(r, p[k])
  {
    if k > 0 {
      PathHolds(t, r, p, k - 1);
      var x := p[k - 1];
      assert !Holds(t, x);
      assert ClosedAt(r, x);
      ExtendsMoves(t, r, x);
      ExtendsInside(t, r, p[k]);
    }
  }

  /** `beam` on an unlit grid from a start inside it sets exactly the flags
      of the beams the start reaches. */
  lemma BeamReach(t: Tiles, a: State)
    requires WellFormed(t) && Unlit(t) && Inside(t, a)
    ensures forall s :: Inside(t, s) ==> (Holds(Beam(t, a.i, a.j, a.d), s) <==> Reaches(t, a, s))
  {
    var r := Beam(t, a.i, a.j, a.d);
    BeamSound(t, a.i, a.j, a.d);
    BeamClosed(t, a.i, a.j, a.d);
    forall s | Inside(t, s)
      ensures Holds(r, s) <==> Reaches(t, a, s)
    {
      assert !Holds(t, s);
      if Reaches(t, a, s) {
        var p :| IsPath(t, p) && p[0] == a && p[|p| - 1] == s;
        PathHolds(t, r, p, |p| - 1);
      }
    }
  }

  // ---------------------------------------------------------------------------
  // Counting energized tiles

  function RowEnergized(row: seq<Tile>): nat
  {
    if |row| == 0 then 0
    else RowEnergized(row[..|row| - 1]) + (if IsVisited(row[|row| - 1]) then 1 else 0)
  }

  /** `energized_count`: the visited tiles of every row. */
  function EnergizedCount(t: Tiles): nat
  {
    if |t| == 0 then 0 else EnergizedCount(t[..|t| - 1]) + RowEnergized(t[|t| - 1])
  }

  function RowCells(k: int, row: seq<Tile>): set<(int, int)>
  {
    set m | 0 <= m < |row| && IsVisited(row[m]) :: (k, m)
  }

  /** The coordinates of the visited tiles. */
  function EnergizedCells(t: Tiles): set<(int, int)>
  {
    set k, m | 0 <= k < |t| && 0 <= m < |t[k]| && IsVisited(t[k][m]) :: (k, m)
  }

  lemma {:induction false} RowEnergizedCells(k: int, row: seq<Tile>)
    ensures RowEnergized(row) == |RowCells(k, row)|
  {
    if |row| > 0 {
      var n := |row| - 1;
      RowEnergizedCells(k, row[..n]);
      var last: set<(int, int)> := if IsVisited(row[n]) then {(k, n)} else {};
      assert RowCells(k, row) == RowCells(k, row[..n]) + last;
      assert (k, n) !in RowCells(k, row[..n]);
    }
  }

  /** `energized_count` counts the energized cells. */
  lemma {:induction false} EnergizedCountCells(t: Tiles)
    ensures EnergizedCount(t) == |EnergizedCells(t)|
  {
    if |t| > 0 {
      var n := |t| - 1;
      EnergizedCountCells(t[..n]);
      RowEnergizedCells(n, t[n]);
      assert EnergizedCells(t) == EnergizedCells(t[..n]) + RowCells(n, t[n]);
      assert EnergizedCells(t[..n]) !! RowCells(n, t[n]);
    }
  }

  /** The cells of the grid some beam reached from `a` is on. */
  ghost function ReachedCells(t: Tiles, a: State): set<(int, int)>
    requires WellFormed(t)
  {
    set k, m | 0 <= k < |t| && 0 <= m < |t[k]| && (exists d :: Reaches(t, a, State(k, m, d))) :: (k, m)
  }

  /** A tile is visited exactly when a flag of one of its directions is set. */
  lemma VisitedFlag(t: Tiles, k: int, m: int)
    requires WellFormed(t) && 0 <= k < |t| && 0 <= m < |t[k]|
    ensures IsVisited(t[k][m]) <==> exists d :: Holds(t, State(k, m, d))
  {
    if IsVisited(t[k][m]) {
      var n :| 0 <= n < 4 && t[k][m].visited[n];
      assert Holds(t, State(k, m, FromIndex(n)));
    }
  }

  /** Grids whose flags are the beams reached from `a` have those beams'
      cells for energized cells. */
  lemma CellsReached(t: Tiles, r: Tiles, a: State)
    requires WellFormed(t) && WellFormed(r) && Extends(t, r)
    requires forall s :: Inside(t, s) ==> (Holds(r, s) <==> Reaches(t, a, s))
    ensures EnergizedCells(r) == ReachedCells(t, a)
  {
    forall k, m | 0 <= k < |t| && 0 <= m < |t[k]|
      ensures IsVisited(r[k][m]) <==> exists d :: Reaches(t, a, State(k, m, d))
    {
      VisitedFlag(r, k, m);
      assert forall d :: Inside(t, State(k, m, d)) ==> (Holds(r, State(k, m, d)) <==> Reaches(t, a, State(k, m, d)));
    }
    forall c | c in EnergizedCells(r)
      ensures c in ReachedCells(t, a)
    {
      var (k, m) := c;
    }
    forall c | c in ReachedCells(t, a)
      ensures c in EnergizedCells(r)
    {
      var (k, m) := c;
    }
  }

  /** The count of the beam from `a` on an unlit grid is the number of
      cells the beams from `a` pass through. */
  lemma EnergizedIsReached(t: Tiles, a: State)
    requires WellFormed(t) && Unlit(t) && Inside(t, a)
    ensures EnergizedCount(Beam(t, a.i, a.j, a.d)) == |ReachedCells(t, a)|
  {
    var r := Beam(t, a.i, a.j, a.d);
    BeamReach(t, a);
    EnergizedCountCells(r);
    CellsReached(t, r, a);
  }

  /** `Tile::parse` sets no flag. */
  lemma ParseUnlit(s: string)
    requires Parse(s).Some?
    ensures Unlit(Parse(s).value)
  {
    var t: Tiles := Parse(s).value;
    forall k, m | 0 <= k < |t| && 0 <= m < |t[k]|
      ensures t[k][m].visited == NoFlags
    {
      assert ParseRow(Lines(s)[k]) == Some(t[k]);
    }
  }

  // ---------------------------------------------------------------------------
  // Drawing a tile

  /** `Direction::to_string`. */
  function DirChar(d: Direction): char
  {
    match d
    case Up => '^'
    case Down => 'v'
    case Left => '<'
    case Right => '>'
  }

  function TrueCount(v: seq<bool>): (n: nat)
    ensures n <= |v|
  {
    if |v| == 0 then 0 else TrueCount(v[..|v| - 1]) + (if v[|v| - 1] then 1 else 0)
  }

  lemma {:induction false} NoneTrue(v: seq<bool>, n: int)
    requires TrueCount(v) == 0 && 0 <= n < |v|
    ensures !v[n]
  {
    if n < |v| - 1 {
      NoneTrue(v[..|v| - 1], n);
    }
  }

  /** What the drawing of a tile whose first flags are `p` should show: `.`
      with no flag set, the direction of the one flag set, and otherwise
      how many are set. */
  predicate Shows(res: string, p: seq<bool>)
    requires |p| <= 4
  {
    (TrueCount(p) == 0 ==> res == ".") &&
    (TrueCount(p) == 1 ==> forall n :: 0 <= n < |p| && p[n] ==> res == [DirChar(FromIndex(n))]) &&
    (TrueCount(p) >= 2 ==> res == Decimal(TrueCount(p)))
  }

  /** `Tile::to_string` as written: a second flag gives "2", and so does
      every later one, since "2" is one character long too. A string that
      does not read as a number would panic; that is `None`. */
  function ShowAsWrittenFrom(v: seq<bool>, k: nat, res: string): Option<string>
    requires |v| <= 4 && k <= |v|
    decreases |v| - k
  {
    if k == |v| then Some(res)
    else if v[k] && res == "." then ShowAsWrittenFrom(v, k + 1, [DirChar(FromIndex(k))])
    else if v[k] && |res| == 1 then ShowAsWrittenFrom(v, k + 1, "2")
    else if v[k] then
      match ParseUnsigned(res, U64_MAX)
      case None => None
      case Some(n) => ShowAsWrittenFrom(v, k + 1, Decimal(n))
    else ShowAsWrittenFrom(v, k + 1, res)
  }

  function TileStringAsWritten(tile: Tile): Option<string>
    requires |tile.visited| == 4
  {
    ShowAsWrittenFrom(tile.visited, 0, ".")
  }

  /** The loop as written keeps: "." with no flag, one character with one,
      "2" with more. */
  lemma {:induction false} AsWrittenFromTwo(v: seq<bool>, k: nat, res: string)
    requires |v| <= 4 && k <= |v|
    requires TrueCount(v[..k]) == 0 ==> res == "."
    requires TrueCount(v[..k]) == 1 ==> |res| == 1 && res != "."
    requires TrueCount(v[..k]) >= 2 ==> res == "2"
    ensures TrueCount(v) >= 2 ==> ShowAsWrittenFrom(v, k, res) == Some("2")
    decreases |v| - k
  {
    if k < |v| {
      assert v[..k + 1][..k] == v[..k];
      assert TrueCount(v[..k + 1]) == TrueCount(v[..k]) + (if v[k] then 1 else 0);
      var next := if v[k] && res == "." then [DirChar(FromIndex(k))] else if v[k] then "2" else res;
      AsWrittenFromTwo(v, k + 1, next);
    } else {
      assert v[..k] == v;
    }
  }

  /** As written, a tile with two or more flags set always shows "2". */
  lemma TileStringAsWrittenTwo(tile: Tile)
    requires |tile.visited| == 4 && TrueCount(tile.visited) >= 2
    ensures TileStringAsWritten(tile) == Some("2")
  {
    AsWrittenFromTwo(tile.visited, 0, ".");
  }

  /** Three flags set, and the tile shows "2". */
  lemma TileStringAsWrittenThree()
    ensures TrueCount([true, true, true, false]) == 3
    ensures TileStringAsWritten(Tile(Empty, [true, true, true, false])) == Some("2")
  {
    var v := [true, true, true, false];
    var v1, v2, v3 := [true], [true, true], [true, true, true];
    assert v1[..0] == [] && v2[..1] == v1 && v3[..2] == v2 && v[..3] == v3;
    assert TrueCount(v1) == 1;
    assert TrueCount(v2) == 2;
    assert TrueCount(v3) == 3;
    TileStringAsWrittenTwo(Tile(Empty, v));
  }

  /** `Tile::to_string` corrected: the third branch counts one more flag
      onto the number shown, and the second applies to a direction only. */
  function ShowFrom(v: seq<bool>, k: nat, res: string): string
    requires |v| <= 4 && k <= |v|
    decreases |v| - k
  {
    if k == |v| then res
    else if v[k] && res == "." then ShowFrom(v, k + 1, [DirChar(FromIndex(k))])
    else if v[k] then
      match ParseUnsigned(res, U64_MAX)
      case None => ShowFrom(v, k + 1, "2")
      case Some(n) => ShowFrom(v, k + 1, Decimal(n + 1))
    else ShowFrom(v, k + 1, res)
  }

  function TileString(tile: Tile): string
    requires |tile.visited| == 4
  {
    ShowFrom(tile.visited, 0, ".")
  }

  lemma ShowStep(v: seq<bool>, k: nat, res: string)
    requires |v| <= 4 && k < |v| && Shows(res, v[..k])
    ensures Shows(if v[k] && res == "." then [DirChar(FromIndex(k))]
                  else if v[k] then
                    (match ParseUnsigned(res, U64_MAX)
                     case None => "2"
                     case Some(n) => Decimal(n + 1))
                  else res, v[..k + 1])
  {
    var p := v[..k];
    var q := v[..k + 1];
    assert q[..k] == p;
    assert forall n :: 0 <= n < k ==> q[n] == p[n];
    var c := TrueCount(p);
    if v[k] {
      if c == 0 {
        forall n | 0 <= n < k
          ensures !q[n]
        {
          NoneTrue(p, n);
        }
      } else if c == 1 {
        var n :| 0 <= n < k && p[n] by {
          if forall n :: 0 <= n < k ==> !p[n] {
            FalseAll(p);
          }
        }
        assert res == [DirChar(FromIndex(n))];
        DirCharNotDigit(FromIndex(n));
      } else {
        ParseDecimal(c, U64_MAX);
      }
    }
  }

  lemma DirCharNotDigit(d: Direction)
    ensures !AllDigits([DirChar(d)]) && [DirChar(d)] != "."
  {
    assert !IsDigit(DirChar(d)) && DirChar(d) != '.';
    assert [DirChar(d)][0] != "."[0];
  }

  lemma {:induction false} FalseAll(p: seq<bool>)
    requires forall n :: 0 <= n < |p| ==> !p[n]
    ensures TrueCount(p) == 0
  {
    if |p| > 0 {
      FalseAll(p[..|p| - 1]);
    }
  }

  lemma {:induction false} ShowFromShows(v: seq<bool>, k: nat, res: string)
    requires |v| <= 4 && k <= |v| && Shows(res, v[..k])
    ensures Shows(ShowFrom(v, k, res), v)
    decreases |v| - k
  {
    if k < |v| {
      ShowStep(v, k, res);
      var next := if v[k] && res == "." then [DirChar(FromIndex(k))]
                  else if v[k] then
                    (match ParseUnsigned(res, U64_MAX)
                     case None => "2"
                     case Some(n) => Decimal(n + 1))
                  else res;
      ShowFromShows(v, k + 1, next);
    } else {
      assert v[..k] == v;
    }
  }

  /** The corrected drawing: `.` for an unvisited tile, the direction of a
      tile crossed once, and the number of directions otherwise. */
  lemma TileStringShows(tile: Tile)
    requires |tile.visited| == 4
    ensures Shows(TileString(tile), tile.visited)
  {
    assert tile.visited[..0] == [];
    ShowFromShows(tile.visited, 0, ".");
  }
}
