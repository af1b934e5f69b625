/** Day 22 (Sand Slabs): bricks of sand cubes settle onto the ground and onto
    each other; the settled stack records which bricks rest on which, which
    bricks can be taken away without anything else moving, and how many
    bricks a removal brings down. */
module SandSlabs {
  import opened Wrappers
  import opened Text

  datatype Point = Point(x: nat, y: nat, z: nat)

  /** A brick spans the cubes from `start` to `end`; `id` is its input line. */
  datatype Brick = Brick(start: Point, end: Point, id: nat)

  /** A column of the stack, as (x, y). */
  type Column = (nat, nat)

  /** The settled stack: per column the height of its top and the brick
      that reaches it, per brick the bricks it rests on, and per brick the
      bricks resting on it, in the order they landed. */
  datatype Jenga = Jenga(grid: map<Column, (nat, nat)>,
                         supportedBy: map<nat, set<nat>>,
                         supports: map<nat, seq<nat>>)

  // ---------------------------------------------------------------------------
  // parse

  /** One corner, "x,y,z": every comma-separated piece must be a u64 (an
      unparsable piece panics), and fewer than three pieces panic on the
      indexing. Pieces after the third are parsed and then ignored. */
  function ParsePoint(s: string): (r: Option<Point>)
  {
    match ParseEach(Split(s, ","), U64_MAX)
    case None => None
    case Some(cs) => if |cs| < 3 then None else Some(Point(cs[0], cs[1], cs[2]))
  }

  /** A brick line "x,y,z~x,y,z"; a line without '~' panics on the second
      `next`. Text after a second '~' is never looked at. */
  function ParseBrick(s: string, id: nat): (r: Option<Brick>)
    ensures r.Some? ==> r.value.id == id
  {
    var parts := Split(s, "~");
    if |parts| < 2 then None
    else
      match ParsePoint(parts[0])
      case None => None
      case Some(start) =>
        match ParsePoint(parts[1])
        case None => None
        case Some(end) => Some(Brick(start, end, id))
  }

  /** `collect` into an `Option`: every element present, or nothing. */
  function Collect(os: seq<Option<Brick>>): (r: Option<seq<Brick>>)
    ensures r.Some? <==> forall i :: 0 <= i < |os| ==> os[i].Some?
    ensures r.Some? ==> (|r.value| == |os|
      && forall i :: 0 <= i < |os| ==> os[i] == Some(r.value[i]))
  {
    if os == [] then Some([])
    else
      match os[0]
      case None => None
      case Some(b) =>
        match Collect(os[1..])
        case None => None
        case Some(bs) => Some([b] + bs)
  }

  /** `lines().enumerate().map(Brick::parse)`: each line a brick numbered by
      its index; any bad line panics. */
  function ParseBricks(input: string): (r: Option<seq<Brick>>)
    ensures r.Some? ==> (|r.value| == |Lines(input)|
      && forall i :: 0 <= i < |r.value| ==> r.value[i].id == i)
  {
    var ls := Lines(input);
    Collect(seq(|ls|, i requires 0 <= i < |ls| => ParseBrick(ls[i], i)))
  }

  /** The line the puzzle input uses for a brick. */
  function ShowPoint(p: Point): string
  {
    Decimal(p.x) + "," + Decimal(p.y) + "," + Decimal(p.z)
  }

  function ShowBrick(b: Brick): string
  {
    ShowPoint(b.start) + "~" + ShowPoint(b.end)
  }

  predicate PointInRange(p: Point)
  {
    p.x <= U64_MAX && p.y <= U64_MAX && p.z <= U64_MAX
  }

  lemma DigitsFree(n: nat, c: char)
    requires !IsDigit(c)
    ensures Free(Decimal(n), c)
  {
    var d := Decimal(n);
    assert forall i :: 0 <= i < |d| ==> IsDigit(d[i]);
  }

  lemma PointFree(p: Point, c: char)
    requires !IsDigit(c) && c != ','
    ensures Free(ShowPoint(p), c)
  {
    DigitsFree(p.x, c); DigitsFree(p.y, c); DigitsFree(p.z, c);
    FreeAppend(Decimal(p.x) + ",", Decimal(p.y), c);
    FreeAppend(Decimal(p.x) + "," + Decimal(p.y) + ",", Decimal(p.z), c);
  }

  lemma PointParses(p: Point)
    requires PointInRange(p)
    ensures ParsePoint(ShowPoint(p)) == Some(p)
  {
    var ds := [Decimal(p.x), Decimal(p.y), Decimal(p.z)];
    DigitsFree(p.x, ','); DigitsFree(p.y, ','); DigitsFree(p.z, ',');
    JoinCons(ds[0], ds[1..], ",");
    JoinCons(ds[1], ds[2..], ",");
    assert Join(ds, ",") == ShowPoint(p);
    SplitJoin(ds, ",");
    ParseDecimal(p.x, U64_MAX); ParseDecimal(p.y, U64_MAX); ParseDecimal(p.z, U64_MAX);
  }

  /** A brick written out as an input line is read back, under any id. */
  lemma BrickParses(b: Brick, id: nat)
    requires PointInRange(b.start) && PointInRange(b.end)
    ensures ParseBrick(ShowBrick(b), id) == Some(b.(id := id))
  {
    PointParses(b.start);
    PointParses(b.end);
    PointFree(b.start, '~');
    PointFree(b.end, '~');
    SplitTwo(ShowPoint(b.start), ShowPoint(b.end), "~");
  }

  /** The puzzle input for a list of bricks: one line each. */
  function ShowBricks(bs: seq<Brick>): string
  {
    Unlines(seq(|bs|, i requires 0 <= i < |bs| => ShowBrick(bs[i])))
  }

  /** Bricks numbered by their position, with u64 corners. */
  predicate Numbered(bs: seq<Brick>)
  {
    forall i :: 0 <= i < |bs| ==>
      bs[i].id == i && PointInRange(bs[i].start) && PointInRange(bs[i].end)
  }

  lemma LineParses(b: Brick, line: string, k: nat)
    requires b.id == k && PointInRange(b.start) && PointInRange(b.end)
    requires line == ShowBrick(b)
    ensures ParseBrick(line, k) == Some(b)
  {
    BrickParses(b, k);
    assert b.(id := k) == b;
  }

  lemma BrickFree(b: Brick)
    ensures Free(ShowBrick(b), '\n')
  {
    PointFree(b.start, '\n');
    PointFree(b.end, '\n');
    FreeAppend(ShowPoint(b.start), "~", '\n');
    FreeAppend(ShowPoint(b.start) + "~", ShowPoint(b.end), '\n');
  }

  /** Bricks written out one per line, numbered by line, are read back. */
  lemma BricksParse(bs: seq<Brick>)
    requires Numbered(bs)
    ensures ParseBricks(ShowBricks(bs)) == Some(bs)
  {
    var ls := seq(|bs|, i requires 0 <= i < |bs| => ShowBrick(bs[i]));
    forall i | 0 <= i < |ls|
      ensures Free(ls[i], '\n')
    {
      BrickFree(bs[i]);
    }
    LinesUnlines(ls);
    var parsed := seq(|ls|, i requires 0 <= i < |ls| => ParseBrick(ls[i], i));
    forall i | 0 <= i < |bs|
      ensures parsed[i] == Some(bs[i])
    {
      LineParses(bs[i], ls[i], i);
    }
    assert Collect(parsed).value == bs;
  }

  // ---------------------------------------------------------------------------
  // get_area

  /** The cells `lo..=hi` of one axis; empty when `lo > hi`. */
  function Span(lo: nat, hi: nat): (r: seq<nat>)
    ensures |r| == if lo <= hi then hi - lo + 1 else 0
    ensures forall k :: 0 <= k < |r| ==> r[k] == lo + k
    decreases hi + 1 - lo
  {
    if lo > hi then [] else [lo] + Span(lo + 1, hi)
  }

  /** The footprint a brick stands on: for a brick that extends along x, a
      one-high point per x; along y, one per y; otherwise a single point as
      high as the brick. The height `end.z - start.z + 1` is u64 arithmetic,
      which panics (`None` here) when the brick is written top-down. */
  function GetArea(b: Brick): (r: Option<seq<Point>>)
    ensures r.None? <==> (b.start.x == b.end.x && b.start.y == b.end.y && b.end.z < b.start.z)
    ensures r.Some? && b.start.x != b.end.x ==> (
      |r.value| == (if b.start.x <= b.end.x then b.end.x - b.start.x + 1 else 0)
      && forall k :: 0 <= k < |r.value| ==> r.value[k] == Point(b.start.x + k, b.start.y, 1))
    ensures r.Some? && b.start.x == b.end.x && b.start.y != b.end.y ==> (
      |r.value| == (if b.start.y <= b.end.y then b.end.y - b.start.y + 1 else 0)
      && forall k :: 0 <= k < |r.value| ==> r.value[k] == Point(b.start.x, b.start.y + k, 1))
    ensures r.Some? && b.start.x == b.end.x && b.start.y == b.end.y ==>
      r.value == [Point(b.start.x, b.start.y, b.end.z - b.start.z + 1)]
  {
    if b.start.x != b.end.x then
      var xs := Span(b.start.x, b.end.x);
      Some(seq(|xs|, k requires 0 <= k < |xs| => Point(xs[k], b.start.y, 1)))
    else if b.start.y != b.end.y then
      var ys := Span(b.start.y, b.end.y);
      Some(seq(|ys|, k requires 0 <= k < |ys| => Point(b.start.x, ys[k], 1)))
    else if b.end.z < b.start.z then None
    else Some([Point(b.start.x, b.start.y, b.end.z - b.start.z + 1)])
  }

  /** The brick is a straight line of cubes written from its low corner. */
  predicate Straight(b: Brick)
  {
    b.start.x <= b.end.x && b.start.y <= b.end.y && b.start.z <= b.end.z
    && (b.start.x == b.end.x || (b.start.y == b.end.y && b.start.z == b.end.z))
    && (b.start.y == b.end.y || b.start.z == b.end.z)
  }

  /** The columns a brick occupies. */
  predicate InColumns(b: Brick, c: Column)
  {
    b.start.x <= c.0 <= b.end.x && b.start.y <= c.1 <= b.end.y
  }

  function ColumnOf(p: Point): Column
  {
    (p.x, p.y)
  }

  /** For a straight brick the footprint covers exactly its columns, each once,
      and each point's z is the brick's height in cubes. */
  lemma AreaIsFootprint(b: Brick)
    requires Straight(b)
    ensures GetArea(b).Some?
    ensures var area := GetArea(b).value;
      (forall c: Column :: InColumns(b, c) <==> exists k :: 0 <= k < |area| && ColumnOf(area[k]) == c)
      && (forall k, l :: 0 <= k < l < |area| ==> ColumnOf(area[k]) != ColumnOf(area[l]))
      && (forall k :: 0 <= k < |area| ==> area[k].z == b.end.z - b.start.z + 1)
  {
    var area := GetArea(b).value;
    forall c: Column | InColumns(b, c)
      ensures exists k :: 0 <= k < |area| && ColumnOf(area[k]) == c
    {
      if b.start.x != b.end.x {
        assert ColumnOf(area[c.0 - b.start.x]) == c;
      } else if b.start.y != b.end.y {
        assert ColumnOf(area[c.1 - b.start.y]) == c;
      } else {
        assert ColumnOf(area[0]) == c;
      }
    }
  }

  // ---------------------------------------------------------------------------
  // sort_by start.z

  predicate SortedByZ(bs: seq<Brick>)
  {
    forall i, j :: 0 <= i < j < |bs| ==> bs[i].start.z <= bs[j].start.z
  }

  /** Inserts `b` before the first brick that starts no lower, so it stays
      ahead of equal bricks that came after it in the input. */
  function InsertByZ(b: Brick, bs: seq<Brick>): (r: seq<Brick>)
    ensures multiset(r) == multiset(bs) + multiset{b}
  {
    if bs == [] || b.start.z <= bs[0].start.z then [b] + bs
    else
      assert bs == [bs[0]] + bs[1..];
      [bs[0]] + InsertByZ(b, bs[1..])
  }

  lemma {:induction false} InsertSorted(b: Brick, bs: seq<Brick>)
    requires SortedByZ(bs)
    ensures SortedByZ(InsertByZ(b, bs))
  {
    if bs != [] && b.start.z > bs[0].start.z {
      var rest := InsertByZ(b, bs[1..]);
      InsertSorted(b, bs[1..]);
      forall k | 0 <= k < |rest|
        ensures bs[0].start.z <= rest[k].start.z
      {
        assert rest[k] in multiset(rest);
        assert rest[k] == b || rest[k] in multiset(bs[1..]);
      }
    }
  }

  /** `sort_by(|a, b| a.start.z.cmp(&b.start.z))`: a stable sort on the
      bottom height. */
  function SortByZ(bs: seq<Brick>): (r: seq<Brick>)
    ensures SortedByZ(r)
    ensures multiset(r) == multiset(bs)
  {
    if bs == [] then []
    else
      assert bs == [bs[0]] + bs[1..];
      InsertSorted(bs[0], SortByZ(bs[1..]));
      InsertByZ(bs[0], SortByZ(bs[1..]))
  }

  /** The ids of the bricks, with repetitions. */
  function Ids(bs: seq<Brick>): multiset<nat>
  {
    if bs == [] then multiset{} else multiset{bs[0].id} + Ids(bs[1..])
  }

  lemma {:induction false} InsertIds(b: Brick, bs: seq<Brick>)
    ensures Ids(InsertByZ(b, bs)) == Ids(bs) + multiset{b.id}
  {
    if bs != [] && b.start.z > bs[0].start.z {
      InsertIds(b, bs[1..]);
      assert InsertByZ(b, bs)[1..] == InsertByZ(b, bs[1..]);
    }
  }

  /** Sorting keeps every id, as often as it occurs. */
  lemma {:induction false} SortIds(bs: seq<Brick>)
    ensures Ids(SortByZ(bs)) == Ids(bs)
  {
    if bs != [] {
      SortIds(bs[1..]);
      InsertIds(bs[0], SortByZ(bs[1..]));
    }
  }

  // ---------------------------------------------------------------------------
  // fall

  /** The inner loop over the footprint from point `k` on: the tallest column
      top seen so far and the bricks that reach exactly that height. */
  function Rest(grid: map<Column, (nat, nat)>, area: seq<Point>, k: nat,
                max: nat, sb: set<nat>): (r: (nat, set<nat>))
    requires k <= |area|
    decreases |area| - k
  {
    if k == |area| then (max, sb)
    else
      var c := ColumnOf(area[k]);
      if c !in grid then Rest(grid, area, k + 1, max, sb)
      else if max < grid[c].0 then Rest(grid, area, k + 1, grid[c].0, {grid[c].1})
      else if max == grid[c].0 then Rest(grid, area, k + 1, max, sb + {grid[c].1})
      else Rest(grid, area, k + 1, max, sb)
  }

  /** Point `i` of the footprint stands on a column that holds something. */
  predicate Occupied(grid: map<Column, (nat, nat)>, area: seq<Point>, i: int)
  {
    0 <= i < |area| && ColumnOf(area[i]) in grid
  }

  /** Among the first `n` footprint points, one stands on a column whose top
      is brick `id` at height `h`. */
  ghost predicate TopAt(grid: map<Column, (nat, nat)>, area: seq<Point>, n: int, h: nat, id: nat)
  {
    exists i :: 0 <= i < n && Occupied(grid, area, i) && grid[ColumnOf(area[i])] == (h, id)
  }

  /** What the loop has established after the first `n` points. */
  ghost predicate Resting(grid: map<Column, (nat, nat)>, area: seq<Point>, n: int,
                    max: nat, sb: set<nat>)
  {
    (forall i :: 0 <= i < n && Occupied(grid, area, i) ==> grid[ColumnOf(area[i])].0 <= max)
    && (max == 0 || exists id :: TopAt(grid, area, n, max, id))
    && (forall id :: id in sb <==> TopAt(grid, area, n, max, id))
  }

  lemma {:induction false} RestFrom(grid: map<Column, (nat, nat)>, area: seq<Point>, k: nat,
                                    max: nat, sb: set<nat>)
    requires k <= |area| && Resting(grid, area, k, max, sb)
    ensures var r := Rest(grid, area, k, max, sb); Resting(grid, area, |area|, r.0, r.1)
    decreases |area| - k
  {
    if k < |area| {
      var c := ColumnOf(area[k]);
      if c !in grid {
        RestStep(grid, area, k, max, sb, max, sb);
        RestFrom(grid, area, k + 1, max, sb);
      } else if max < grid[c].0 {
        RestStep(grid, area, k, max, sb, grid[c].0, {grid[c].1});
        RestFrom(grid, area, k + 1, grid[c].0, {grid[c].1});
      } else if max == grid[c].0 {
        RestStep(grid, area, k, max, sb, max, sb + {grid[c].1});
        RestFrom(grid, area, k + 1, max, sb + {grid[c].1});
      } else {
        RestStep(grid, area, k, max, sb, max, sb);
        RestFrom(grid, area, k + 1, max, sb);
      }
    }
  }

  /** One turn of the loop keeps `Resting`. */
  lemma RestStep(grid: map<Column, (nat, nat)>, area: seq<Point>, k: nat,
                 max: nat, sb: set<nat>, max': nat, sb': set<nat>)
    requires k < |area| && Resting(grid, area, k, max, sb)
    requires var c := ColumnOf(area[k]);
      if c !in grid then max' == max && sb' == sb
      else if max < grid[c].0 then max' == grid[c].0 && sb' == {grid[c].1}
      else if max == grid[c].0 then max' == max && sb' == sb + {grid[c].1}
      else max' == max && sb' == sb
    ensures Resting(grid, area, k + 1, max', sb')
  {
    var c := ColumnOf(area[k]);
    forall id: nat
      ensures TopAt(grid, area, k + 1, max', id) <==> (TopAt(grid, area, k, max', id)
        || (c in grid && grid[c] == (max', id)))
    {
      if TopAt(grid, area, k + 1, max', id) {
        var i :| 0 <= i < k + 1 && Occupied(grid, area, i) && grid[ColumnOf(area[i])] == (max', id);
        if i < k {
          assert TopAt(grid, area, k, max', id);
        }
      }
      if c in grid && grid[c] == (max', id) {
        assert Occupied(grid, area, k);
      }
    }
    if c in grid && max < grid[c].0 {
      assert forall i :: 0 <= i < k && Occupied(grid, area, i) ==> grid[ColumnOf(area[i])].0 < max';
    }
    if max' != 0 && max' == max {
      var id :| TopAt(grid, area, k, max, id);
      assert TopAt(grid, area, k + 1, max', id);
    }
  }

  /** The whole loop: the brick comes to rest on the tallest column top under
      its footprint (0, the ground, when there is none), and the bricks it rests
      on are exactly those whose top is at that height. */
  lemma RestSpec(grid: map<Column, (nat, nat)>, area: seq<Point>)
    ensures var r := Rest(grid, area, 0, 0, {});
      (forall i :: Occupied(grid, area, i) ==> grid[ColumnOf(area[i])].0 <= r.0)
      && (r.0 == 0 || exists id :: TopAt(grid, area, |area|, r.0, id))
      && (forall id :: id in r.1 <==> TopAt(grid, area, |area|, r.0, id))
  {
    RestFrom(grid, area, 0, 0, {});
  }

  /** The second footprint loop from point `k` on: each column's top becomes
      the resting height plus the point's z, owned by brick `id`. */
  function Cover(grid: map<Column, (nat, nat)>, area: seq<Point>, k: nat,
                 base: nat, id: nat): (r: map<Column, (nat, nat)>)
    requires k <= |area|
    ensures forall c :: c in r ==> (r[c].1 == id || (c in grid && r[c] == grid[c]))
    decreases |area| - k
  {
    if k == |area| then grid
    else Cover(grid[ColumnOf(area[k]) := (base + area[k].z, id)], area, k + 1, base, id)
  }

  /** A column outside the footprint keeps its top. */
  lemma {:induction false} CoverKeeps(grid: map<Column, (nat, nat)>, area: seq<Point>, k: nat,
                                      base: nat, id: nat, c: Column)
    requires k <= |area| && c in grid
    requires forall i :: k <= i < |area| ==> ColumnOf(area[i]) != c
    ensures c in Cover(grid, area, k, base, id) && Cover(grid, area, k, base, id)[c] == grid[c]
    decreases |area| - k
  {
    if k < |area| {
      CoverKeeps(grid[ColumnOf(area[k]) := (base + area[k].z, id)], area, k + 1, base, id, c);
    }
  }

  predicate DistinctColumns(area: seq<Point>)
  {
    forall i, l :: 0 <= i < l < |area| ==> ColumnOf(area[i]) != ColumnOf(area[l])
  }

  /** With each column covered once, every footprint column ends at its own
      point's height above the resting height. */
  lemma {:induction false} CoverTops(grid: map<Column, (nat, nat)>, area: seq<Point>, k: nat,
                                     base: nat, id: nat)
    requires k <= |area| && DistinctColumns(area)
    ensures forall i :: k <= i < |area| ==>
      var r := Cover(grid, area, k, base, id);
      ColumnOf(area[i]) in r && r[ColumnOf(area[i])] == (base + area[i].z, id)
    decreases |area| - k
  {
    if k < |area| {
      var grid' := grid[ColumnOf(area[k]) := (base + area[k].z, id)];
      CoverTops(grid', area, k + 1, base, id);
      CoverKeeps(grid', area, k + 1, base, id, ColumnOf(area[k]));
    }
  }

  /** One brick of the loop of `Jenga::fall`, once its footprint is known: it
      rests on the tallest column top under it; the bricks there learn that it
      rests on them (a supporter missing from `supports` panics on the
      `unwrap`); then its footprint raises the columns. */
  function Land(j: Jenga, id: nat, area: seq<Point>): (r: Option<Jenga>)
    ensures r.Some? <==> Rest(j.grid, area, 0, 0, {}).1 <= j.supports.Keys + {id}
    ensures r.Some? ==> (r.value.supports.Keys == j.supports.Keys + {id}
                         && r.value.supportedBy.Keys == j.supportedBy.Keys + {id})
  {
    var supports := j.supports[id := []];
    var top := Rest(j.grid, area, 0, 0, {});
    if !(top.1 <= supports.Keys) then None
    else
      Some(Jenga(Cover(j.grid, area, 0, top.0, id),
                 j.supportedBy[id := top.1],
                 map a | a in supports :: if a in top.1 then supports[a] + [id] else supports[a]))
  }

  /** A brick of the loop: its footprint (which may panic), then `Land`. */
  function Place(j: Jenga, b: Brick): (r: Option<Jenga>)
    ensures r.Some? <==> GetArea(b).Some? && Land(j, b.id, GetArea(b).value).Some?
    ensures r.Some? ==> r == Land(j, b.id, GetArea(b).value)
  {
    match GetArea(b)
    case None => None
    case Some(area) => Land(j, b.id, area)
  }

  /** The bricks in order, each placed on the stack the earlier ones left. */
  function Settle(j: Jenga, bs: seq<Brick>): (r: Option<Jenga>)
    decreases |bs|
  {
    if bs == [] then Some(j)
    else
      match Place(j, bs[0])
      case None => None
      case Some(j') => Settle(j', bs[1..])
  }

  const Empty := Jenga(map[], map[], map[])

  /** `Jenga::fall`: the bricks settle lowest-starting first. */
  function Fall(bricks: seq<Brick>): (r: Option<Jenga>)
  {
    Settle(Empty, SortByZ(bricks))
  }

  // ---------------------------------------------------------------------------
  // what fall establishes

  /** The stack's records agree with each other: `supports` and `supported_by`
      are two views of one relation over the same bricks, no brick rests on
      itself, and every column top belongs to a known brick. */
  ghost predicate Consistent(j: Jenga)
  {
    j.supports.Keys == j.supportedBy.Keys
    && (forall a, s :: a in j.supports && s in j.supports[a] ==>
          s in j.supportedBy && a in j.supportedBy[s])
    && (forall s, a :: s in j.supportedBy && a in j.supportedBy[s] ==>
          a in j.supports && s in j.supports[a])
    && (forall a :: a in j.supports ==> a !in j.supports[a])
    && (forall c :: c in j.grid ==> j.grid[c].1 in j.supports)
  }

  /** Every brick the new one rests on is already on the stack. */
  lemma RestOnStack(j: Jenga, area: seq<Point>)
    requires Consistent(j)
    ensures Rest(j.grid, area, 0, 0, {}).1 <= j.supports.Keys
  {
    var top := Rest(j.grid, area, 0, 0, {});
    RestSpec(j.grid, area);
    forall id | id in top.1
      ensures id in j.supports
    {
      var i :| 0 <= i < |area| && Occupied(j.grid, area, i) && j.grid[ColumnOf(area[i])] == (top.0, id);
    }
  }

  /** The stack after landing a brick, field by field. */
  lemma LandFields(j: Jenga, id: nat, area: seq<Point>)
    requires Land(j, id, area).Some?
    ensures var top := Rest(j.grid, area, 0, 0, {});
      var j' := Land(j, id, area).value;
      j'.grid == Cover(j.grid, area, 0, top.0, id)
      && j'.supportedBy == j.supportedBy[id := top.1]
      && j'.supports.Keys == j.supports.Keys + {id}
      && j'.supports[id] == (if id in top.1 then [id] else [])
      && forall a :: a in j.supports && a != id ==>
           j'.supports[a] == if a in top.1 then j.supports[a] + [id] else j.supports[a]
  {
  }

  /** Landing a brick with a new id on a consistent stack never panics and
      keeps the stack consistent. */
  lemma LandConsistent(j: Jenga, id: nat, area: seq<Point>)
    requires Consistent(j) && id !in j.supports
    ensures Land(j, id, area).Some?
    ensures Consistent(Land(j, id, area).value)
  {
    var top := Rest(j.grid, area, 0, 0, {});
    RestOnStack(j, area);
    LandFields(j, id, area);
    var j' := Land(j, id, area).value;
    PlaceSupports(j, id, top.1, j');
    PlaceSupportedBy(j, id, top.1, j');
    assert forall c :: c in j'.grid ==> j'.grid[c].1 in j'.supports;
  }

  /** Placing a brick with a new id keeps the stack consistent; on a
      consistent stack only the footprint's height can panic. */
  lemma PlaceConsistent(j: Jenga, b: Brick)
    requires Consistent(j) && b.id !in j.supports
    ensures Place(j, b).Some? <==> GetArea(b).Some?
    ensures Place(j, b).Some? ==> Consistent(Place(j, b).value)
  {
    if GetArea(b).Some? {
      LandConsistent(j, b.id, GetArea(b).value);
    }
  }

  lemma PlaceSupports(j: Jenga, id: nat, sb: set<nat>, j': Jenga)
    requires Consistent(j) && id !in j.supports && sb <= j.supports.Keys
    requires j'.supportedBy == j.supportedBy[id := sb]
    requires j'.supports.Keys == j.supports.Keys + {id} && j'.supports[id] == []
    requires forall a :: a in j.supports && a != id ==>
      j'.supports[a] == if a in sb then j.supports[a] + [id] else j.supports[a]
    ensures forall a, s :: a in j'.supports && s in j'.supports[a] ==>
      s in j'.supportedBy && a in j'.supportedBy[s]
    ensures forall a :: a in j'.supports ==> a !in j'.supports[a]
  {
    forall a, s | a in j'.supports && s in j'.supports[a]
      ensures s in j'.supportedBy && a in j'.supportedBy[s]
    {
      if s != id {
        assert s in j.supports[a];
      }
    }
  }

  lemma PlaceSupportedBy(j: Jenga, id: nat, sb: set<nat>, j': Jenga)
    requires Consistent(j) && id !in j.supports && sb <= j.supports.Keys
    requires j'.supportedBy == j.supportedBy[id := sb]
    requires j'.supports.Keys == j.supports.Keys + {id} && j'.supports[id] == []
    requires forall a :: a in j.supports && a != id ==>
      j'.supports[a] == if a in sb then j.supports[a] + [id] else j.supports[a]
    ensures forall s, a :: s in j'.supportedBy && a in j'.supportedBy[s] ==>
      a in j'.supports && s in j'.supports[a]
  {
    forall s, a | s in j'.supportedBy && a in j'.supportedBy[s]
      ensures a in j'.supports && s in j'.supports[a]
    {
      if s != id {
        assert s in j.supports[a];
      }
    }
  }

  /** Settling bricks whose ids are new and pairwise different keeps the
      stack consistent, and fails only on a footprint that panics. */
  lemma {:induction false} SettleConsistent(j: Jenga, bs: seq<Brick>)
    requires Consistent(j)
    requires forall x :: Ids(bs)[x] <= 1
    requires forall x :: x in j.supports ==> Ids(bs)[x] == 0
    ensures Settle(j, bs).Some? <==> forall i :: 0 <= i < |bs| ==> GetArea(bs[i]).Some?
    ensures Settle(j, bs).Some? ==> Consistent(Settle(j, bs).value)
    decreases |bs|
  {
    if bs != [] {
      var b := bs[0];
      IdsTail(bs, j.supports.Keys);
      PlaceConsistent(j, b);
      if GetArea(b).Some? {
        var j' := Place(j, b).value;
        assert Settle(j, bs) == Settle(j', bs[1..]);
        SettleConsistent(j', bs[1..]);
        assert forall i :: 1 <= i < |bs| ==> bs[i] == bs[1..][i - 1];
      } else {
        assert Settle(j, bs).None?;
      }
    }
  }

  /** The first brick's id is new, and the rest stay new once it is placed. */
  lemma IdsTail(bs: seq<Brick>, placed: set<nat>)
    requires bs != []
    requires forall x :: Ids(bs)[x] <= 1
    requires forall x :: x in placed ==> Ids(bs)[x] == 0
    ensures bs[0].id !in placed
    ensures forall x :: Ids(bs[1..])[x] <= 1
    ensures forall x :: x in placed + {bs[0].id} ==> Ids(bs[1..])[x] == 0
  {
    assert Ids(bs) == multiset{bs[0].id} + Ids(bs[1..]);
    forall x
      ensures Ids(bs[1..])[x] <= 1
    {
      assert Ids(bs[1..])[x] <= Ids(bs)[x];
    }
  }

  /** Bricks with pairwise different ids fall into a consistent stack, and
      `fall` panics exactly when some brick's footprint does. */
  lemma FallConsistent(bricks: seq<Brick>)
    requires forall x :: Ids(bricks)[x] <= 1
    ensures Fall(bricks).Some? <==> forall i :: 0 <= i < |bricks| ==> GetArea(bricks[i]).Some?
    ensures Fall(bricks).Some? ==> Consistent(Fall(bricks).value)
  {
    var sorted := SortByZ(bricks);
    SortIds(bricks);
    SettleConsistent(Empty, sorted);
    assert forall i :: 0 <= i < |sorted| ==> sorted[i] in multiset(bricks);
    assert forall i :: 0 <= i < |bricks| ==> bricks[i] in multiset(sorted);
  }

  /** Numbering bricks by position makes their ids pairwise different. */
  lemma {:induction false} IndexedIds(bs: seq<Brick>, k: nat)
    requires forall i :: 0 <= i < |bs| ==> bs[i].id == k + i
    ensures forall x :: Ids(bs)[x] == if k <= x < k + |bs| then 1 else 0
    decreases |bs|
  {
    if bs != [] {
      IndexedIds(bs[1..], k + 1);
    }
  }

  /** The bricks of a puzzle input fall into a consistent stack whenever
      every footprint is well formed. */
  lemma InputFallsConsistent(input: string)
    requires ParseBricks(input).Some?
    ensures var bricks := ParseBricks(input).value;
      (Fall(bricks).Some? <==> forall i :: 0 <= i < |bricks| ==> GetArea(bricks[i]).Some?)
      && (Fall(bricks).Some? ==> Consistent(Fall(bricks).value))
  {
    IndexedIds(ParseBricks(input).value, 0);
    FallConsistent(ParseBricks(input).value);
  }

  /** One landed brick: it rests at height `m`, the tallest column top under
      its footprint (0 on the ground), and is recorded as resting on exactly
      the bricks whose top is at `m`. */
  lemma LandRests(j: Jenga, id: nat, area: seq<Point>)
    requires Land(j, id, area).Some?
    ensures var j' := Land(j, id, area).value;
      var m := Rest(j.grid, area, 0, 0, {}).0;
      (forall i :: Occupied(j.grid, area, i) ==> j.grid[ColumnOf(area[i])].0 <= m)
      && (m == 0 || exists s :: TopAt(j.grid, area, |area|, m, s))
      && (forall s :: s in j'.supportedBy[id] <==> TopAt(j.grid, area, |area|, m, s))
  {
    RestSpec(j.grid, area);
    LandFields(j, id, area);
  }

  /** Each footprint column (each covered once) then ends at `m` plus the
      point's z, owned by the brick. */
  lemma LandCovers(j: Jenga, id: nat, area: seq<Point>)
    requires Land(j, id, area).Some? && DistinctColumns(area)
    ensures var j' := Land(j, id, area).value;
      var m := Rest(j.grid, area, 0, 0, {}).0;
      forall i :: 0 <= i < |area| ==>
        ColumnOf(area[i]) in j'.grid && j'.grid[ColumnOf(area[i])] == (m + area[i].z, id)
  {
    var m := Rest(j.grid, area, 0, 0, {}).0;
    var g := Cover(j.grid, area, 0, m, id);
    CoverTops(j.grid, area, 0, m, id);
    assert Land(j, id, area).value.grid == g;
  }

  /** Columns outside the footprint keep their tops. */
  lemma LandKeeps(j: Jenga, id: nat, area: seq<Point>, c: Column)
    requires Land(j, id, area).Some? && c in j.grid
    requires forall i :: 0 <= i < |area| ==> ColumnOf(area[i]) != c
    ensures c in Land(j, id, area).value.grid && Land(j, id, area).value.grid[c] == j.grid[c]
  {
    var m := Rest(j.grid, area, 0, 0, {}).0;
    CoverKeeps(j.grid, area, 0, m, id, c);
    assert Land(j, id, area).value.grid == Cover(j.grid, area, 0, m, id);
  }

  // ---------------------------------------------------------------------------
  // dissolvable

  /** `dissolvable`: the bricks each of whose supported bricks rests on at
      least one other brick. The Rust code returns them in hash-map order, so
      they are a set here; a supported brick without a `supported_by` entry
      would panic and counts as not dissolvable. */
  function Dissolvable(j: Jenga): (r: set<nat>)
    ensures r <= j.supports.Keys
  {
    set a | a in j.supports
      && forall s :: s in j.supports[a] ==> s in j.supportedBy && |j.supportedBy[s]| > 1
  }

  // ---------------------------------------------------------------------------
  // fall_brick

  /** The loop over the bricks that `current` supports, from index `k` on:
      a brick falls once every brick under it has fallen. A brick already
      fallen is not queued again (see README). A supported brick without a
      `supported_by` entry panics. */
  function Scan(j: Jenga, list: seq<nat>, k: nat, fallen: set<nat>, queue: seq<nat>):
    (r: Option<(set<nat>, seq<nat>)>)
    requires k <= |list|
    ensures r.Some? ==> (fallen <= r.value.0
      && (forall s :: s in r.value.0 && s !in fallen ==>
            s in j.supportedBy && j.supportedBy[s] <= r.value.0)
      && (r.value.0 == fallen ==> r.value.1 == queue)
      && |r.value.1| >= |queue|)
    decreases |list| - k
  {
    if k == |list| then Some((fallen, queue))
    else
      var s := list[k];
      if s !in j.supportedBy then None
      else if s !in fallen && j.supportedBy[s] <= fallen then
        Scan(j, list, k + 1, fallen + {s}, queue + [s])
      else Scan(j, list, k + 1, fallen, queue)
  }

  /** The queue loop of `fall_brick`: pops a brick and scans what it supports.
      A brick missing from `supports` panics. */
  function FallFrom(j: Jenga, queue: seq<nat>, fallen: set<nat>): (r: Option<set<nat>>)
    ensures r.Some? ==> (fallen <= r.value
      && forall s :: s in r.value && s !in fallen ==>
           s in j.supportedBy && j.supportedBy[s] <= r.value)
    decreases |j.supportedBy.Keys - fallen|, |queue|
  {
    if queue == [] then Some(fallen)
    else if queue[0] !in j.supports then None
    else
      match Scan(j, j.supports[queue[0]], 0, fallen, queue[1..])
      case None => None
      case Some(next) =>
        Remaining(j.supportedBy.Keys, fallen, next.0);
        FallFrom(j, next.1, next.0)
  }

  lemma SubsetCard(a: set<nat>, b: set<nat>)
    requires a <= b
    ensures |a| <= |b|
  {
    assert b == a + (b - a);
    assert a * (b - a) == {};
  }

  /** Growing `fallen` within `keys` leaves fewer keys standing. */
  lemma Remaining(keys: set<nat>, fallen: set<nat>, fallen': set<nat>)
    requires fallen <= fallen'
    requires forall s :: s in fallen' && s !in fallen ==> s in keys
    ensures fallen' != fallen ==> |keys - fallen'| < |keys - fallen|
  {
    if fallen' != fallen {
      var s :| s in fallen' && s !in fallen;
      SubsetCard(keys - fallen', (keys - fallen) - {s});
    }
  }

  /** `fall_brick`: how many other bricks fall when `brick` is taken away. */
  function FallBrick(j: Jenga, brick: nat): (r: Option<nat>)
  {
    match FallFrom(j, [brick], {brick})
    case None => None
    case Some(fallen) => Some(|fallen| - 1)
  }

  /** Every brick that falls, other than the one taken away, rested only on
      fallen bricks; the one taken away is among them. */
  lemma FallenRestOnFallen(j: Jenga, brick: nat)
    requires FallFrom(j, [brick], {brick}).Some?
    ensures var fallen := FallFrom(j, [brick], {brick}).value;
      brick in fallen
      && FallBrick(j, brick) == Some(|fallen| - 1)
      && forall s :: s in fallen && s != brick ==> s in j.supportedBy && j.supportedBy[s] <= fallen
  {
  }

  /** A scan whose bricks all stand (each already fallen or resting on a brick
      that has not) changes nothing. */
  lemma {:induction false} ScanQuiet(j: Jenga, list: seq<nat>, k: nat, fallen: set<nat>, queue: seq<nat>)
    requires k <= |list|
    requires forall i :: k <= i < |list| ==>
      list[i] in j.supportedBy && (list[i] in fallen || !(j.supportedBy[list[i]] <= fallen))
    ensures Scan(j, list, k, fallen, queue) == Some((fallen, queue))
    decreases |list| - k
  {
    if k < |list| {
      ScanQuiet(j, list, k + 1, fallen, queue);
    }
  }

  /** A scanned brick all of whose supporters have fallen falls. */
  lemma {:induction false} ScanCatches(j: Jenga, list: seq<nat>, k: nat, fallen: set<nat>,
                                       queue: seq<nat>, i: nat)
    requires k <= i < |list| && Scan(j, list, k, fallen, queue).Some?
    requires list[i] in j.supportedBy && j.supportedBy[list[i]] <= fallen
    ensures list[i] in Scan(j, list, k, fallen, queue).value.0
    decreases |list| - k
  {
    var s := list[k];
    if k < i {
      if s !in fallen && j.supportedBy[s] <= fallen {
        ScanCatches(j, list, k + 1, fallen + {s}, queue + [s], i);
      } else {
        ScanCatches(j, list, k + 1, fallen, queue, i);
      }
    }
  }

  lemma SingleSupporter(x: set<nat>, a: nat)
    requires a in x && |x| <= 1
    ensures x == {a}
  {
    var rest := x - {a};
    assert x == rest + {a};
  }

  /** On a consistent stack, taking a brick away brings nothing else down
      exactly when the brick is dissolvable. */
  lemma DissolvableIffNothingFalls(j: Jenga, a: nat)
    requires Consistent(j) && a in j.supports
    ensures FallBrick(j, a) == Some(0) <==> a in Dissolvable(j)
  {
    if a in Dissolvable(j) {
      DissolvableStands(j, a);
    } else {
      SupportedFalls(j, a);
    }
  }

  lemma DissolvableStands(j: Jenga, a: nat)
    requires a in Dissolvable(j)
    ensures FallBrick(j, a) == Some(0)
  {
    var list := j.supports[a];
    forall i | 0 <= i < |list|
      ensures !(j.supportedBy[list[i]] <= {a})
    {
      if j.supportedBy[list[i]] <= {a} {
        SubsetCard(j.supportedBy[list[i]], {a});
      }
    }
    ScanQuiet(j, list, 0, {a}, []);
    assert [a][1..] == [];
    assert FallFrom(j, [a], {a}) == FallFrom(j, [], {a});
  }

  lemma SupportedFalls(j: Jenga, a: nat)
    requires Consistent(j) && a in j.supports && a !in Dissolvable(j)
    ensures FallBrick(j, a) != Some(0)
  {
    var list := j.supports[a];
    var i :| 0 <= i < |list| && !(list[i] in j.supportedBy && |j.supportedBy[list[i]]| > 1);
    var s := list[i];
    assert s in j.supportedBy && a in j.supportedBy[s];
    SingleSupporter(j.supportedBy[s], a);
    match Scan(j, list, 0, {a}, [])
    case None =>
    case Some(next) =>
      ScanCatches(j, list, 0, {a}, [], i);
      assert [a][1..] == [];
      assert FallFrom(j, [a], {a}) == FallFrom(j, next.1, next.0);
      if FallFrom(j, [a], {a}).Some? {
        var fallen := FallFrom(j, [a], {a}).value;
        assert s != a;
        SubsetCard({a, s}, fallen);
      }
  }

  /** On a consistent stack the scan never panics and queues only bricks
      that have `supports` entries. */
  lemma {:induction false} ScanTotal(j: Jenga, list: seq<nat>, k: nat, fallen: set<nat>, queue: seq<nat>)
    requires Consistent(j) && k <= |list|
    requires forall i :: k <= i < |list| ==> list[i] in j.supportedBy
    requires forall i :: 0 <= i < |queue| ==> queue[i] in j.supports
    ensures Scan(j, list, k, fallen, queue).Some?
    ensures var q := Scan(j, list, k, fallen, queue).value.1;
      forall i :: 0 <= i < |q| ==> q[i] in j.supports
    decreases |list| - k
  {
    if k < |list| {
      var s := list[k];
      if s !in fallen && j.supportedBy[s] <= fallen {
        ScanTotal(j, list, k + 1, fallen + {s}, queue + [s]);
      } else {
        ScanTotal(j, list, k + 1, fallen, queue);
      }
    }
  }

  lemma {:induction false} FallTotal(j: Jenga, queue: seq<nat>, fallen: set<nat>)
    requires Consistent(j)
    requires forall i :: 0 <= i < |queue| ==> queue[i] in j.supports
    ensures FallFrom(j, queue, fallen).Some?
    decreases |j.supportedBy.Keys - fallen|, |queue|
  {
    if queue != [] {
      var list := j.supports[queue[0]];
      ScanTotal(j, list, 0, fallen, queue[1..]);
      var next := Scan(j, list, 0, fallen, queue[1..]).value;
      Remaining(j.supportedBy.Keys, fallen, next.0);
      FallTotal(j, next.1, next.0);
    }
  }

  /** On a consistent stack `fall_brick` never panics for a brick of the
      stack, and counts at most the other bricks. */
  lemma FallBrickTotal(j: Jenga, a: nat)
    requires Consistent(j) && a in j.supports
    ensures FallBrick(j, a).Some?
    ensures FallBrick(j, a).value < |j.supports.Keys|
  {
    FallTotal(j, [a], {a});
    var fallen := FallFrom(j, [a], {a}).value;
    SubsetCard(fallen, j.supports.Keys);
  }

  // ---------------------------------------------------------------------------
  // the chain reaction `fall_brick` counts

  /** `x` is closed under falling: a brick that a brick of `x` supports, and
      whose supporters are all in `x`, is in `x` too. */
  ghost predicate Closed(j: Jenga, x: set<nat>)
  {
    forall f, s ::
      f in x && f in j.supports && s in j.supports[f]
        && s in j.supportedBy && j.supportedBy[s] <= x
      ==> s in x
  }

  /** What the queue loop still owes: a brick that should fall but has not
      yet has a supporter waiting in the queue. */
  ghost predicate Awaited(j: Jenga, queue: seq<nat>, fallen: set<nat>)
  {
    forall f, s ::
      f in fallen && f in j.supports && s in j.supports[f]
        && s in j.supportedBy && j.supportedBy[s] <= fallen && s !in fallen
      ==> exists g :: g in j.supportedBy[s] && g in queue
  }

  /** The scan only appends to the queue, queues every brick it adds to
      `fallen`, and queues nothing else. */
  lemma {:induction false} ScanQueues(j: Jenga, list: seq<nat>, k: nat, fallen: set<nat>, queue: seq<nat>)
    requires k <= |list| && Scan(j, list, k, fallen, queue).Some?
    ensures var r := Scan(j, list, k, fallen, queue).value;
      queue <= r.1
      && (forall x :: x in r.0 && x !in fallen ==> x in r.1)
      && (forall x :: x in r.1 ==> x in queue || (x in r.0 && x !in fallen))
    decreases |list| - k
  {
    if k < |list| {
      var s := list[k];
      if s !in fallen && j.supportedBy[s] <= fallen {
        ScanQueues(j, list, k + 1, fallen + {s}, queue + [s]);
        var r := Scan(j, list, k + 1, fallen + {s}, queue + [s]).value;
        assert r.1[|queue|] == s;
      } else {
        ScanQueues(j, list, k + 1, fallen, queue);
      }
    }
  }

  /** One turn of the queue loop keeps `Awaited`: the popped brick's list is
      scanned, and a brick that falls joins the queue. */
  lemma AwaitedStep(j: Jenga, queue: seq<nat>, fallen: set<nat>)
    requires Consistent(j) && queue != [] && queue[0] in j.supports
    requires Scan(j, j.supports[queue[0]], 0, fallen, queue[1..]).Some?
    requires Awaited(j, queue, fallen)
    ensures var next := Scan(j, j.supports[queue[0]], 0, fallen, queue[1..]).value;
      Awaited(j, next.1, next.0)
  {
    var list := j.supports[queue[0]];
    var next := Scan(j, list, 0, fallen, queue[1..]).value;
    ScanQueues(j, list, 0, fallen, queue[1..]);
    assert queue == [queue[0]] + queue[1..];
    forall f, s | f in next.0 && f in j.supports && s in j.supports[f]
      && s in j.supportedBy && j.supportedBy[s] <= next.0 && s !in next.0
      ensures exists g :: g in j.supportedBy[s] && g in next.1
    {
      if g :| g in j.supportedBy[s] && g !in fallen {
        assert g in next.1;
      } else {
        assert f in j.supportedBy[s];
        var g :| g in j.supportedBy[s] && g in queue;
        if g == queue[0] {
          var i :| 0 <= i < |list| && list[i] == s;
          ScanCatches(j, list, 0, fallen, queue[1..], i);
          assert false;
        } else {
          assert g in queue[1..];
        }
      }
    }
  }

  /** Run from a state that keeps `Awaited`, the queue loop ends on a set
      closed under falling. */
  lemma {:induction false} FallClosed(j: Jenga, queue: seq<nat>, fallen: set<nat>)
    requires Consistent(j) && Awaited(j, queue, fallen)
    requires FallFrom(j, queue, fallen).Some?
    ensures Closed(j, FallFrom(j, queue, fallen).value)
    decreases |j.supportedBy.Keys - fallen|, |queue|
  {
    if queue != [] {
      var list := j.supports[queue[0]];
      var next := Scan(j, list, 0, fallen, queue[1..]).value;
      Remaining(j.supportedBy.Keys, fallen, next.0);
      AwaitedStep(j, queue, fallen);
      FallClosed(j, next.1, next.0);
    }
  }

  /** On a consistent stack, a brick that a fallen brick supports and whose
      supporters have all fallen falls as well: the count is the whole chain
      reaction, not just part of it. */
  lemma FallenClosed(j: Jenga, brick: nat)
    requires Consistent(j) && brick in j.supports
    ensures FallFrom(j, [brick], {brick}).Some?
    ensures var fallen := FallFrom(j, [brick], {brick}).value;
      forall f, s ::
        f in fallen && f in j.supports && s in j.supports[f]
          && j.supportedBy[s] <= fallen
        ==> s in fallen
  {
    FallTotal(j, [brick], {brick});
    forall f, s | f in {brick} && f in j.supports && s in j.supports[f]
      && s in j.supportedBy && j.supportedBy[s] <= {brick} && s !in {brick}
      ensures exists g :: g in j.supportedBy[s] && g in [brick]
    {
      assert brick in j.supportedBy[s];
    }
    FallClosed(j, [brick], {brick});
  }

  /** The scan adds nothing outside a closed set that holds the scanned
      brick and everything fallen so far. */
  lemma {:induction false} ScanLeast(j: Jenga, c: nat, k: nat, fallen: set<nat>, queue: seq<nat>,
                                     x: set<nat>)
    requires c in j.supports && c in x && k <= |j.supports[c]|
    requires fallen <= x && Closed(j, x)
    requires Scan(j, j.supports[c], k, fallen, queue).Some?
    ensures Scan(j, j.supports[c], k, fallen, queue).value.0 <= x
    decreases |j.supports[c]| - k
  {
    var list := j.supports[c];
    if k < |list| {
      var s := list[k];
      if s !in fallen && j.supportedBy[s] <= fallen {
        assert s in j.supports[c];
        ScanLeast(j, c, k + 1, fallen + {s}, queue + [s], x);
      } else {
        ScanLeast(j, c, k + 1, fallen, queue, x);
      }
    }
  }

  /** The queue loop adds nothing outside a closed set that holds everything
      fallen or queued so far. */
  lemma {:induction false} FallLeast(j: Jenga, queue: seq<nat>, fallen: set<nat>, x: set<nat>)
    requires fallen <= x && Closed(j, x)
    requires forall i :: 0 <= i < |queue| ==> queue[i] in x
    requires FallFrom(j, queue, fallen).Some?
    ensures FallFrom(j, queue, fallen).value <= x
    decreases |j.supportedBy.Keys - fallen|, |queue|
  {
    if queue != [] {
      var list := j.supports[queue[0]];
      var next := Scan(j, list, 0, fallen, queue[1..]).value;
      Remaining(j.supportedBy.Keys, fallen, next.0);
      ScanLeast(j, queue[0], 0, fallen, queue[1..], x);
      ScanQueues(j, list, 0, fallen, queue[1..]);
      forall i | 0 <= i < |next.1|
        ensures next.1[i] in x
      {
        assert next.1[i] in next.1;
      }
      FallLeast(j, next.1, next.0, x);
    }
  }

  /** The fallen set lies within every set that holds the brick taken away and
      is closed under falling: with `FallenClosed` and `FallenRestOnFallen`,
      it is the least such set. */
  lemma FallenLeast(j: Jenga, brick: nat, x: set<nat>)
    requires Consistent(j) && brick in j.supports
    requires brick in x && Closed(j, x)
    ensures FallFrom(j, [brick], {brick}).Some?
    ensures FallFrom(j, [brick], {brick}).value <= x
  {
    FallTotal(j, [brick], {brick});
    FallLeast(j, [brick], {brick}, x);
  }

  // ---------------------------------------------------------------------------
  // total_destruction

  function Plus(a: Option<nat>, b: Option<nat>): (r: Option<nat>)
    ensures r.Some? <==> a.Some? && b.Some?
    ensures r.Some? ==> r.value == a.value + b.value
  {
    if a.Some? && b.Some? then Some(a.value + b.value) else None
  }

  /** `total_destruction`: the sum of `fall_brick` over the bricks in the
      order given, which stands for the unspecified order of `supports`'
      keys (the total does not depend on it, see `TotalAnyOrder`). */
  function TotalDestruction(j: Jenga, order: seq<nat>): (r: Option<nat>)
  {
    if order == [] then Some(0)
    else Plus(FallBrick(j, order[0]), TotalDestruction(j, order[1..]))
  }

  lemma {:induction false} TotalAppend(j: Jenga, x: seq<nat>, y: seq<nat>)
    ensures TotalDestruction(j, x + y) == Plus(TotalDestruction(j, x), TotalDestruction(j, y))
    decreases |x|
  {
    if x == [] {
      assert x + y == y;
    } else {
      assert (x + y)[0] == x[0] && (x + y)[1..] == x[1..] + y;
      TotalAppend(j, x[1..], y);
    }
  }

  lemma PlusSwap(f: Option<nat>, p: Option<nat>, q: Option<nat>)
    ensures Plus(Plus(p, Plus(f, Some(0))), q) == Plus(f, Plus(p, q))
  {
  }

  lemma RemoveAt(b: seq<nat>, i: nat)
    requires i < |b|
    ensures b == b[..i] + [b[i]] + b[i + 1..]
    ensures multiset(b[..i] + b[i + 1..]) == multiset(b) - multiset{b[i]}
  {
    assert b == b[..i] + [b[i]] + b[i + 1..];
    assert multiset(b) == multiset(b[..i]) + multiset{b[i]} + multiset(b[i + 1..]);
  }

  /** Taking one brick out of the order takes its term out of the total. */
  lemma TotalMoveFront(j: Jenga, b: seq<nat>, i: nat)
    requires i < |b|
    ensures TotalDestruction(j, b) ==
      Plus(FallBrick(j, b[i]), TotalDestruction(j, b[..i] + b[i + 1..]))
  {
    RemoveAt(b, i);
    TotalAppend(j, b[..i] + [b[i]], b[i + 1..]);
    TotalAppend(j, b[..i], [b[i]]);
    TotalAppend(j, b[..i], b[i + 1..]);
    var f, p, q := FallBrick(j, b[i]), TotalDestruction(j, b[..i]), TotalDestruction(j, b[i + 1..]);
    assert TotalDestruction(j, [b[i]]) == Plus(f, Some(0));
    PlusSwap(f, p, q);
  }

  /** The total is the same for every order of the same bricks. */
  lemma {:induction false} TotalAnyOrder(j: Jenga, a: seq<nat>, b: seq<nat>)
    requires multiset(a) == multiset(b)
    ensures TotalDestruction(j, a) == TotalDestruction(j, b)
    decreases |a|
  {
    if a == [] {
      assert |b| == |multiset(b)|;
    } else {
      var x := a[0];
      assert x in multiset(b);
      var i :| 0 <= i < |b| && b[i] == x;
      RemoveAt(b, i);
      assert a == [x] + a[1..];
      assert multiset(a) == multiset{x} + multiset(a[1..]);
      TotalAnyOrder(j, a[1..], b[..i] + b[i + 1..]);
      TotalMoveFront(j, b, i);
    }
  }

  /** How many of the bricks are not dissolvable. */
  function Falling(j: Jenga, order: seq<nat>): (n: nat)
    ensures n <= |order|
  {
    if order == [] then 0
    else (if order[0] in Dissolvable(j) then 0 else 1) + Falling(j, order[1..])
  }

  /** One brick's term of the sum. */
  lemma FallTerm(j: Jenga, a: nat)
    requires Consistent(j) && a in j.supports
    ensures FallBrick(j, a).Some?
    ensures FallBrick(j, a).value >= (if a in Dissolvable(j) then 0 else 1)
    ensures FallBrick(j, a).value == 0 <==> a in Dissolvable(j)
  {
    FallBrickTotal(j, a);
    DissolvableIffNothingFalls(j, a);
  }

  /** On a consistent stack the total never panics, is at least the number of
      bricks that are not dissolvable, and is 0 exactly when all are. */
  lemma {:induction false} TotalCountsFalling(j: Jenga, order: seq<nat>)
    requires Consistent(j)
    requires forall i :: 0 <= i < |order| ==> order[i] in j.supports
    ensures TotalDestruction(j, order).Some?
    ensures TotalDestruction(j, order).value >= Falling(j, order)
    ensures TotalDestruction(j, order) == Some(0) <==> Falling(j, order) == 0
    decreases |order|
  {
    if order != [] {
      FallTerm(j, order[0]);
      TotalCountsFalling(j, order[1..]);
    }
  }
}
