/** Day 14 (Parabolic Reflector Dish): tilting a platform of round and
    square rocks in the four directions and weighing the load on its north
    beams. */
module ReflectorDish {
  import opened Wrappers
  import opened Text

  datatype Tile = Round | Square | Empty

  datatype Direction = North | West | South | East

  /** A platform, one row per line, row 0 at the north edge. */
  type Platform = seq<seq<Tile>>

  /** The platforms the transforms work on: at least one row and one
      column, every row as wide as the first. */
  predicate Grid(p: Platform)
  {
    |p| > 0 && |p[0]| > 0 && forall i :: 0 <= i < |p| ==> |p[i]| == |p[0]|
  }

  // ---------------------------------------------------------------------------
  // Parsing and printing

  function ParseTile(ch: char): (r: Option<Tile>)
  {
    if ch == 'O' then Some(Round)
    else if ch == '#' then Some(Square)
    else if ch == '.' then Some(Empty)
    else None
  }

  function TileChar(t: Tile): char
  {
    match t
    case Round => 'O'
    case Square => '#'
    case Empty => '.'
  }

  function ParseRow(s: string): (r: Option<seq<Tile>>)
    ensures r.Some? <==> forall i :: 0 <= i < |s| ==> s[i] in "O#."
    ensures r.Some? ==> FormatRow(r.value) == s
  {
    if |s| == 0 then Some([])
    else
      var t :- ParseTile(s[0]);
      var rest :- ParseRow(s[1..]);
      assert forall i :: 1 <= i < |s| ==> s[i] == s[1..][i - 1];
      assert FormatRow([t] + rest) == [s[0]] + s[1..];
      Some([t] + rest)
  }

  function FormatRow(row: seq<Tile>): (s: string)
    ensures |s| == |row| && Free(s, '\n')
  {
    seq(|row|, j requires 0 <= j < |row| => TileChar(row[j]))
  }

  lemma {:induction false} ParseFormatRow(row: seq<Tile>)
    ensures ParseRow(FormatRow(row)) == Some(row)
    decreases |row|
  {
    if |row| > 0 {
      ParseFormatRow(row[1..]);
      assert FormatRow(row)[1..] == FormatRow(row[1..]);
      assert [row[0]] + row[1..] == row;
    }
  }

  function ParseRows(ls: seq<string>): (r: Option<Platform>)
    ensures r.Some? <==> forall i :: 0 <= i < |ls| ==> ParseRow(ls[i]).Some?
    ensures r.Some? ==> |r.value| == |ls| && forall i :: 0 <= i < |ls| ==> r.value[i] == ParseRow(ls[i]).value
  {
    if |ls| == 0 then Some([])
    else
      var row :- ParseRow(ls[0]);
      var rest :- ParseRows(ls[1..]);
      assert forall i :: 1 <= i < |ls| ==> ls[i] == ls[1..][i - 1];
      Some([row] + rest)
  }

  /** `parse`: one row per line; the Rust code panics on a character other
      than 'O', '#' and '.', the model gives `None`. */
  function Parse(s: string): (r: Option<Platform>)
    ensures r.Some? <==> forall i, j :: 0 <= i < |Lines(s)| && 0 <= j < |Lines(s)[i]| ==> Lines(s)[i][j] in "O#."
    ensures r.Some? ==> |r.value| == |Lines(s)|
    ensures r.Some? ==> forall i :: 0 <= i < |r.value| ==> FormatRow(r.value[i]) == Lines(s)[i]
  {
    ParseRows(Lines(s))
  }

  /** `to_string`: each row drawn and followed by a newline. */
  function ToString(p: Platform): (s: string)
  {
    Unlines(seq(|p|, i requires 0 <= i < |p| => FormatRow(p[i])))
  }

  /** Every platform is read back from its drawing. */
  lemma ParseToString(p: Platform)
    ensures Parse(ToString(p)) == Some(p)
  {
    var ls := seq(|p|, i requires 0 <= i < |p| => FormatRow(p[i]));
    LinesUnlines(ls);
    forall i | 0 <= i < |p|
      ensures ParseRow(ls[i]) == Some(p[i])
    {
      ParseFormatRow(p[i]);
    }
    var r := ParseRows(ls);
    assert r.Some?;
    assert r.value == p;
  }

  // ---------------------------------------------------------------------------
  // Turning the platform

  /** `transpose`: `m` rows of `n` cells, cell (j, i) the cell (i, j). */
  function Transpose(p: Platform): (t: Platform)
    requires Grid(p)
    ensures Grid(t) && |t| == |p[0]| && |t[0]| == |p|
  {
    seq(|p[0]|, j requires 0 <= j < |p[0]| => seq(|p|, i requires 0 <= i < |p| => p[i][j]))
  }

  /** `mirror`: the platform turned half way round, cell (i, j) moved to
      (n - 1 - i, m - 1 - j). */
  function Mirror(p: Platform): (t: Platform)
    requires Grid(p)
    ensures Grid(t) && |t| == |p| && |t[0]| == |p[0]|
  {
    var n, m := |p|, |p[0]|;
    seq(n, i requires 0 <= i < n => seq(m, j requires 0 <= j < m => p[n - 1 - i][m - 1 - j]))
  }

  /** `transform_to_north`: the platform turned so that `d` becomes north. */
  function TransformToNorth(p: Platform, d: Direction): (t: Platform)
    requires Grid(p)
    ensures Grid(t)
  {
    match d
    case North => p
    case West => Transpose(p)
    case South => Mirror(p)
    case East => Transpose(Mirror(p))
  }

  lemma TransposeTwice(p: Platform)
    requires Grid(p)
    ensures Transpose(Transpose(p)) == p
  {
    var t := Transpose(Transpose(p));
    forall i | 0 <= i < |p|
      ensures t[i] == p[i]
    {
    }
  }

  lemma MirrorTwice(p: Platform)
    requires Grid(p)
    ensures Mirror(Mirror(p)) == p
  {
    var t := Mirror(Mirror(p));
    forall i | 0 <= i < |p|
      ensures t[i] == p[i]
    {
    }
  }

  /** Turning east to north reflects the platform in its other diagonal. */
  lemma EastCell(p: Platform, a: nat, b: nat)
    requires Grid(p) && a < |p[0]| && b < |p|
    ensures Transpose(Mirror(p))[a][b] == p[|p| - 1 - b][|p[0]| - 1 - a]
  {
  }

  lemma EastTwice(p: Platform)
    requires Grid(p)
    ensures Transpose(Mirror(Transpose(Mirror(p)))) == p
  {
    var n, m := |p|, |p[0]|;
    var q := Transpose(Mirror(p));
    var t := Transpose(Mirror(q));
    forall i | 0 <= i < n
      ensures t[i] == p[i]
    {
      forall j | 0 <= j < m
        ensures t[i][j] == p[i][j]
      {
        EastCell(q, i, j);
        EastCell(p, m - 1 - j, n - 1 - i);
      }
    }
  }

  /** Turning to north twice gives the platform back, for every direction. */
  lemma TransformTwice(p: Platform, d: Direction)
    requires Grid(p)
    ensures TransformToNorth(TransformToNorth(p, d), d) == p
  {
    match d
    case North =>
    case West => TransposeTwice(p);
    case South => MirrorTwice(p);
    case East => EastTwice(p);
  }

  // ---------------------------------------------------------------------------
  // Sums over indices

  function Sum(f: nat -> int, n: nat): int
  {
    if n == 0 then 0 else Sum(f, n - 1) + f(n - 1)
  }

  lemma {:induction false} SumExt(f: nat -> int, g: nat -> int, n: nat)
    requires forall i: nat :: i < n ==> f(i) == g(i)
    ensures Sum(f, n) == Sum(g, n)
  {
    if n > 0 {
      SumExt(f, g, n - 1);
    }
  }

  /** Changing one term changes the sum by the difference. */
  lemma {:induction false} SumUpdate(f: nat -> int, g: nat -> int, n: nat, x: nat)
    requires x < n
    requires forall i: nat :: i < n && i != x ==> f(i) == g(i)
    ensures Sum(g, n) == Sum(f, n) + g(x) - f(x)
  {
    if x < n - 1 {
      SumUpdate(f, g, n - 1, x);
    } else {
      SumExt(f, g, n - 1);
    }
  }

  // ---------------------------------------------------------------------------
  // Tilting one column north

  /** Column `j` from north to south; a row too short for it counts as
      empty there. */
  function Column(p: Platform, j: nat): (col: seq<Tile>)
    ensures |col| == |p|
  {
    seq(|p|, i requires 0 <= i < |p| => if j < |p[i]| then p[i][j] else Empty)
  }

  /** `new_position[i][j]` for the column: the row the last rock at or above
      row `i` rests in, -1 while there is none; a round rock slides to just
      below the previous one, a square rock stays. */
  function Land(col: seq<Tile>, i: nat): (r: int)
    requires i < |col|
    ensures -1 <= r <= i
    ensures col[i] != Empty ==> r >= 0
    ensures col[i] == Square ==> r == i
  {
    if i == 0 then (if col[0] == Empty then -1 else 0)
    else match col[i]
      case Round => Land(col, i - 1) + 1
      case Square => i
      case Empty => Land(col, i - 1)
  }

  lemma {:induction false} LandMonotone(col: seq<Tile>, a: nat, b: nat)
    requires a <= b < |col|
    ensures Land(col, a) <= Land(col, b)
    decreases b
  {
    if a < b {
      LandMonotone(col, a, b - 1);
    }
  }

  /** Rocks come to rest in distinct rows, in their order in the column. */
  lemma LandStrict(col: seq<Tile>, a: nat, b: nat)
    requires a < b < |col| && col[b] != Empty
    ensures Land(col, a) < Land(col, b)
  {
    LandMonotone(col, a, b - 1);
  }

  /** No rock rests above a square rock it started below. */
  lemma LandBelowSquare(col: seq<Tile>, s: nat, i: nat)
    requires s <= i < |col| && col[s] == Square
    ensures Land(col, i) >= s
  {
    LandMonotone(col, s, i);
  }

  /** The lowest occupied row after the first `k` rows have been placed. */
  function Top(col: seq<Tile>, k: nat): int
    requires k <= |col|
  {
    if k == 0 then -1 else Land(col, k - 1)
  }

  /** The result column after the placing loop has written the rocks of the
      first `k` rows. */
  function Place(col: seq<Tile>, k: nat): (r: seq<Tile>)
    requires k <= |col|
    ensures |r| == |col|
  {
    if k == 0 then seq(|col|, _ => Empty)
    else
      var r := Place(col, k - 1);
      if col[k - 1] == Empty then r
      else
        assert Land(col, k - 1) >= 0;
        r[Land(col, k - 1) := col[k - 1]]
  }

  function TiltColumn(col: seq<Tile>): (r: seq<Tile>)
  {
    Place(col, |col|)
  }

  /** No round rock has an empty cell directly north of it. */
  predicate Settled(col: seq<Tile>)
  {
    forall r :: 0 < r < |col| && col[r] == Round ==> col[r - 1] != Empty
  }

  /** The placing loop writes each rock into an empty cell below every cell
      written so far. */
  lemma {:induction false} PlaceTop(col: seq<Tile>, k: nat)
    requires k <= |col|
    ensures forall r :: Top(col, k) < r < |col| ==> Place(col, k)[r] == Empty
    ensures Top(col, k) >= 0 ==> Place(col, k)[Top(col, k)] != Empty
  {
    if k > 0 {
      PlaceTop(col, k - 1);
      if col[k - 1] != Empty && k > 1 {
        LandStrict(col, k - 2, k - 1);
      }
    }
  }

  /** The placing loop never moves a square rock, nor writes over one. */
  lemma {:induction false} PlaceSquares(col: seq<Tile>, k: nat)
    requires k <= |col|
    ensures forall r :: 0 <= r < |col| ==> (Place(col, k)[r] == Square <==> r < k && col[r] == Square)
  {
    if k > 0 {
      PlaceSquares(col, k - 1);
      if col[k - 1] == Round && k > 1 {
        LandStrict(col, k - 2, k - 1);
        forall r | 0 <= r < k - 1 && col[r] == Square
          ensures r <= Top(col, k - 1)
        {
          LandBelowSquare(col, r, k - 2);
        }
      }
    }
  }

  /** The placing loop keeps the column settled. */
  lemma {:induction false} PlaceSettled(col: seq<Tile>, k: nat)
    requires k <= |col|
    ensures Settled(Place(col, k))
  {
    if k > 0 {
      PlaceSettled(col, k - 1);
      PlaceTop(col, k - 1);
      if col[k - 1] != Empty && k > 1 {
        LandStrict(col, k - 2, k - 1);
      }
    }
  }

  lemma PlaceFacts(col: seq<Tile>, k: nat)
    requires k <= |col|
    ensures forall r :: Top(col, k) < r < |col| ==> Place(col, k)[r] == Empty
    ensures Top(col, k) >= 0 ==> Place(col, k)[Top(col, k)] != Empty
    ensures forall r :: 0 <= r < |col| ==> (Place(col, k)[r] == Square <==> r < k && col[r] == Square)
    ensures Settled(Place(col, k))
  {
    PlaceTop(col, k);
    PlaceSquares(col, k);
    PlaceSettled(col, k);
  }

  /** Tile `i` of `s` weighed by `w`, which may depend on the row. */
  function WeighAt(s: seq<Tile>, w: (nat, Tile) -> int): nat -> int
  {
    (i: nat) => if i < |s| then w(i, s[i]) else 0
  }

  function Weigh(s: seq<Tile>, w: (nat, Tile) -> int): int
  {
    Sum(WeighAt(s, w), |s|)
  }

  /** Rock `i` of the first `k` weighed by `w` at the row it comes to rest in. */
  function LandedAt(col: seq<Tile>, k: nat, w: (nat, Tile) -> int): nat -> int
    requires k <= |col|
  {
    (i: nat) => if i < k && col[i] != Empty then w(Land(col, i), col[i]) else 0
  }

  /** Whatever an empty cell weighs nothing under, the placed column weighs
      what its rocks weigh at the rows they come to rest in. */
  lemma {:induction false} PlaceWeigh(col: seq<Tile>, k: nat, w: (nat, Tile) -> int)
    requires k <= |col|
    requires forall r: nat :: w(r, Empty) == 0
    ensures Weigh(Place(col, k), w) == Sum(LandedAt(col, k, w), |col|)
  {
    var n := |col|;
    if k == 0 {
      SumExt(WeighAt(Place(col, 0), w), LandedAt(col, 0, w), n);
    } else {
      PlaceWeigh(col, k - 1, w);
      var prev, cur := Place(col, k - 1), Place(col, k);
      SumUpdate(LandedAt(col, k - 1, w), LandedAt(col, k, w), n, k - 1);
      if col[k - 1] == Empty {
        SumExt(WeighAt(prev, w), WeighAt(cur, w), n);
      } else {
        var l := Land(col, k - 1);
        PlaceFacts(col, k - 1);
        if k > 1 {
          LandStrict(col, k - 2, k - 1);
        }
        assert prev[l] == Empty;
        SumUpdate(WeighAt(prev, w), WeighAt(cur, w), n, l);
      }
    }
  }

  /** In a settled column every rock already rests where it is. */
  lemma {:induction false} SettledLand(col: seq<Tile>, i: nat)
    requires Settled(col) && i < |col| && col[i] != Empty
    ensures Land(col, i) == i
  {
    if i > 0 && col[i] == Round {
      SettledLand(col, i - 1);
    }
  }

  lemma {:induction false} SettledPlace(col: seq<Tile>, k: nat)
    requires Settled(col) && k <= |col|
    ensures forall r :: 0 <= r < |col| ==> Place(col, k)[r] == if r < k then col[r] else Empty
  {
    if k > 0 {
      SettledPlace(col, k - 1);
      if col[k - 1] != Empty {
        SettledLand(col, k - 1);
      }
    }
  }

  /** A settled column does not change when tilted. */
  lemma SettledFixed(col: seq<Tile>)
    requires Settled(col)
    ensures TiltColumn(col) == col
  {
    SettledPlace(col, |col|);
  }

  function IsRound(r: nat, t: Tile): int
  {
    if t == Round then 1 else 0
  }

  /** Tilting a column keeps its length, leaves every square rock where it
      is, keeps the number of round rocks, settles the column, and changes
      nothing a second time. */
  lemma TiltColumnFacts(col: seq<Tile>)
    ensures |TiltColumn(col)| == |col|
    ensures forall r :: 0 <= r < |col| ==> (TiltColumn(col)[r] == Square <==> col[r] == Square)
    ensures Weigh(TiltColumn(col), IsRound) == Weigh(col, IsRound)
    ensures Settled(TiltColumn(col))
    ensures TiltColumn(TiltColumn(col)) == TiltColumn(col)
  {
    PlaceFacts(col, |col|);
    PlaceWeigh(col, |col|, IsRound);
    forall i: nat | i < |col|
      ensures LandedAt(col, |col|, IsRound)(i) == WeighAt(col, IsRound)(i)
    {
      if col[i] != Empty {
        assert LandedAt(col, |col|, IsRound)(i) == IsRound(Land(col, i), col[i]);
      }
    }
    SumExt(LandedAt(col, |col|, IsRound), WeighAt(col, IsRound), |col|);
    assert Settled(TiltColumn(col));
    SettledFixed(TiltColumn(col));
  }

  // ---------------------------------------------------------------------------
  // Double sums

  lemma {:induction false} SumZero(f: nat -> int, n: nat)
    requires forall i: nat :: i < n ==> f(i) == 0
    ensures Sum(f, n) == 0
  {
    if n > 0 {
      SumZero(f, n - 1);
    }
  }

  lemma {:induction false} SumAdd(f: nat -> int, g: nat -> int, h: nat -> int, n: nat)
    requires forall i: nat :: i < n ==> h(i) == f(i) + g(i)
    ensures Sum(h, n) == Sum(f, n) + Sum(g, n)
  {
    if n > 0 {
      SumAdd(f, g, h, n - 1);
    }
  }

  lemma {:induction false} SumMonotone(f: nat -> int, g: nat -> int, n: nat)
    requires forall i: nat :: i < n ==> f(i) <= g(i)
    ensures Sum(f, n) <= Sum(g, n)
  {
    if n > 0 {
      SumMonotone(f, g, n - 1);
    }
  }

  function Row(g: (nat, nat) -> int, i: nat): nat -> int
  {
    (j: nat) => g(i, j)
  }

  function Col(g: (nat, nat) -> int, j: nat): nat -> int
  {
    (i: nat) => g(i, j)
  }

  function RowSums(g: (nat, nat) -> int, m: nat): nat -> int
  {
    (i: nat) => Sum(Row(g, i), m)
  }

  function ColSums(g: (nat, nat) -> int, n: nat): nat -> int
  {
    (j: nat) => Sum(Col(g, j), n)
  }

  /** Summing an `n` by `m` table row by row or column by column gives the
      same total. */
  lemma {:induction false} Exchange(g: (nat, nat) -> int, n: nat, m: nat)
    ensures Sum(RowSums(g, m), n) == Sum(ColSums(g, n), m)
  {
    if n == 0 {
      SumZero(ColSums(g, 0), m);
    } else {
      Exchange(g, n - 1, m);
      SumAdd(ColSums(g, n - 1), Row(g, n - 1), ColSums(g, n), m);
    }
  }

  // ---------------------------------------------------------------------------
  // Weighing a platform

  function Cells(p: Platform, w: (nat, Tile) -> int): (nat, nat) -> int
  {
    (i: nat, j: nat) => if i < |p| && j < |p[i]| then w(i, p[i][j]) else 0
  }

  /** The weight `w` gives tiles of row `i`, whatever their column. */
  function AtRow(w: (nat, Tile) -> int, i: nat): (nat, Tile) -> int
  {
    (j: nat, t: Tile) => w(i, t)
  }

  function RowWeights(p: Platform, w: (nat, Tile) -> int): nat -> int
  {
    (i: nat) => if i < |p| then Weigh(p[i], AtRow(w, i)) else 0
  }

  /** Every tile weighed by its row, row by row and tile by tile. */
  function ByRows(p: Platform, w: (nat, Tile) -> int): int
  {
    Sum(RowWeights(p, w), |p|)
  }

  function ColumnWeights(p: Platform, w: (nat, Tile) -> int): nat -> int
  {
    (j: nat) => Weigh(Column(p, j), w)
  }

  function ByColumns(p: Platform, w: (nat, Tile) -> int): int
    requires Grid(p)
  {
    Sum(ColumnWeights(p, w), |p[0]|)
  }

  lemma RowsTable(p: Platform, w: (nat, Tile) -> int)
    requires Grid(p)
    ensures ByRows(p, w) == Sum(RowSums(Cells(p, w), |p[0]|), |p|)
  {
    var m := |p[0]|;
    var g := Cells(p, w);
    forall i: nat | i < |p|
      ensures RowWeights(p, w)(i) == RowSums(g, m)(i)
    {
      SumExt(WeighAt(p[i], AtRow(w, i)), Row(g, i), m);
    }
    SumExt(RowWeights(p, w), RowSums(g, m), |p|);
  }

  lemma RowsColumns(p: Platform, w: (nat, Tile) -> int)
    requires Grid(p)
    ensures ByRows(p, w) == ByColumns(p, w)
  {
    var n, m := |p|, |p[0]|;
    var g := Cells(p, w);
    RowsTable(p, w);
    forall j: nat | j < m
      ensures ColumnWeights(p, w)(j) == ColSums(g, n)(j)
    {
      SumExt(WeighAt(Column(p, j), w), Col(g, j), n);
    }
    SumExt(ColumnWeights(p, w), ColSums(g, n), m);
    Exchange(g, n, m);
  }

  /** The number of round rocks on the platform. */
  function RoundCount(p: Platform): int
  {
    ByRows(p, IsRound)
  }

  lemma {:induction false} SumFront(f: nat -> int, g: nat -> int, n: nat)
    requires n > 0
    requires forall i: nat :: i < n - 1 ==> g(i) == f(i + 1)
    ensures Sum(f, n) == f(0) + Sum(g, n - 1)
  {
    if n > 1 {
      SumFront(f, g, n - 1);
    }
  }

  lemma {:induction false} SumReverse(f: nat -> int, g: nat -> int, n: nat)
    requires forall i: nat :: i < n ==> g(i) == f(n - 1 - i)
    ensures Sum(g, n) == Sum(f, n)
  {
    if n > 0 {
      var h := (i: nat) => g(i + 1);
      SumFront(g, h, n);
      SumReverse(f, h, n - 1);
    }
  }

  /** Turning the platform keeps the number of round rocks. */
  lemma TransposeRounds(p: Platform)
    requires Grid(p)
    ensures RoundCount(Transpose(p)) == RoundCount(p)
  {
    var t := Transpose(p);
    forall j: nat | j < |t|
      ensures RowWeights(t, IsRound)(j) == ColumnWeights(p, IsRound)(j)
    {
      forall i: nat | i < |p|
        ensures WeighAt(t[j], AtRow(IsRound, j))(i) == WeighAt(Column(p, j), IsRound)(i)
      {
        assert t[j][i] == Column(p, j)[i];
        assert WeighAt(t[j], AtRow(IsRound, j))(i) == AtRow(IsRound, j)(i, t[j][i]) == IsRound(j, t[j][i]);
        assert WeighAt(Column(p, j), IsRound)(i) == IsRound(i, Column(p, j)[i]);
      }
      SumExt(WeighAt(t[j], AtRow(IsRound, j)), WeighAt(Column(p, j), IsRound), |p|);
    }
    SumExt(RowWeights(t, IsRound), ColumnWeights(p, IsRound), |t|);
    RowsColumns(p, IsRound);
  }

  lemma MirrorRounds(p: Platform)
    requires Grid(p)
    ensures RoundCount(Mirror(p)) == RoundCount(p)
  {
    var t := Mirror(p);
    var n, m := |p|, |p[0]|;
    forall i: nat | i < n
      ensures RowWeights(t, IsRound)(i) == RowWeights(p, IsRound)(n - 1 - i)
    {
      forall k: nat | k < m
        ensures WeighAt(t[i], AtRow(IsRound, i))(k) == WeighAt(p[n - 1 - i], AtRow(IsRound, n - 1 - i))(m - 1 - k)
      {
        assert t[i][k] == p[n - 1 - i][m - 1 - k];
        assert WeighAt(t[i], AtRow(IsRound, i))(k) == AtRow(IsRound, i)(k, t[i][k]) == IsRound(i, t[i][k]);
        assert WeighAt(p[n - 1 - i], AtRow(IsRound, n - 1 - i))(m - 1 - k) == IsRound(n - 1 - i, t[i][k]);
      }
      SumReverse(WeighAt(p[n - 1 - i], AtRow(IsRound, n - 1 - i)), WeighAt(t[i], AtRow(IsRound, i)), m);
    }
    SumReverse(RowWeights(p, IsRound), RowWeights(t, IsRound), n);
  }

  lemma TransformRounds(p: Platform, d: Direction)
    requires Grid(p)
    ensures RoundCount(TransformToNorth(p, d)) == RoundCount(p)
  {
    match d
    case North =>
    case West => TransposeRounds(p);
    case South => MirrorRounds(p);
    case East => MirrorRounds(p); TransposeRounds(Mirror(p));
  }

  /** Two platforms of one shape with their square rocks in the same cells. */
  predicate SameSquares(a: Platform, b: Platform)
  {
    Grid(a) && Grid(b) && |a| == |b| && |a[0]| == |b[0]| &&
    forall i, j :: 0 <= i < |a| && 0 <= j < |a[0]| ==> (a[i][j] == Square <==> b[i][j] == Square)
  }

  lemma TransposeSquares(a: Platform, b: Platform)
    requires SameSquares(a, b)
    ensures SameSquares(Transpose(a), Transpose(b))
  {
  }

  lemma MirrorSquares(a: Platform, b: Platform)
    requires SameSquares(a, b)
    ensures SameSquares(Mirror(a), Mirror(b))
  {
  }

  lemma TransformSquares(a: Platform, b: Platform, d: Direction)
    requires SameSquares(a, b)
    ensures SameSquares(TransformToNorth(a, d), TransformToNorth(b, d))
  {
    match d
    case North =>
    case West => TransposeSquares(a, b);
    case South => MirrorSquares(a, b);
    case East => MirrorSquares(a, b); TransposeSquares(Mirror(a), Mirror(b));
  }

  // ---------------------------------------------------------------------------
  // Tilting the platform

  /** The north tilt of `tilt_platform`, one column at a time. */
  function TiltNorth(p: Platform): (t: Platform)
    requires Grid(p)
    ensures Grid(t) && |t| == |p| && |t[0]| == |p[0]|
  {
    seq(|p|, i requires 0 <= i < |p| =>
      seq(|p[0]|, j requires 0 <= j < |p[0]| => TiltColumn(Column(p, j))[i]))
  }

  lemma TiltNorthColumn(p: Platform, j: nat)
    requires Grid(p) && j < |p[0]|
    ensures Column(TiltNorth(p), j) == TiltColumn(Column(p, j))
  {
  }

  /** A north tilt keeps the shape and every square rock. */
  lemma TiltNorthSquares(p: Platform)
    requires Grid(p)
    ensures SameSquares(TiltNorth(p), p)
  {
    var t := TiltNorth(p);
    forall i, j | 0 <= i < |p| && 0 <= j < |p[0]|
      ensures t[i][j] == Square <==> p[i][j] == Square
    {
      TiltNorthColumn(p, j);
      TiltColumnFacts(Column(p, j));
      assert t[i][j] == Column(t, j)[i];
    }
  }

  /** After a north tilt no round rock has an empty cell north of it. */
  lemma TiltNorthSettled(p: Platform)
    requires Grid(p)
    ensures forall j :: 0 <= j < |p[0]| ==> Settled(Column(TiltNorth(p), j))
  {
    forall j | 0 <= j < |p[0]|
      ensures Settled(Column(TiltNorth(p), j))
    {
      TiltNorthColumn(p, j);
      TiltColumnFacts(Column(p, j));
    }
  }

  /** A north tilt keeps the number of round rocks. */
  lemma TiltNorthRounds(p: Platform)
    requires Grid(p)
    ensures RoundCount(TiltNorth(p)) == RoundCount(p)
  {
    var t := TiltNorth(p);
    forall j: nat | j < |p[0]|
      ensures ColumnWeights(t, IsRound)(j) == ColumnWeights(p, IsRound)(j)
    {
      TiltNorthColumn(p, j);
      TiltColumnFacts(Column(p, j));
    }
    SumExt(ColumnWeights(t, IsRound), ColumnWeights(p, IsRound), |p[0]|);
    RowsColumns(t, IsRound);
    RowsColumns(p, IsRound);
  }

  /** A second north tilt changes nothing. */
  lemma TiltNorthTwice(p: Platform)
    requires Grid(p)
    ensures TiltNorth(TiltNorth(p)) == TiltNorth(p)
  {
    var t := TiltNorth(p);
    forall i | 0 <= i < |p|
      ensures TiltNorth(t)[i] == t[i]
    {
      forall j | 0 <= j < |p[0]|
        ensures TiltNorth(t)[i][j] == t[i][j]
      {
        TiltNorthColumn(p, j);
        TiltNorthColumn(t, j);
        TiltColumnFacts(Column(p, j));
        assert TiltNorth(t)[i][j] == TiltColumn(Column(t, j))[i];
      }
    }
  }

  /** `tilt_platform`: turn `d` to north, tilt north, turn back. */
  function TiltPlatform(p: Platform, d: Direction): (t: Platform)
    requires Grid(p)
    ensures Grid(t)
  {
    TransformToNorth(TiltNorth(TransformToNorth(p, d)), d)
  }

  /** A tilt in any direction keeps the shape and every square rock, keeps
      the number of round rocks, and changes nothing a second time. */
  lemma TiltPlatformFacts(p: Platform, d: Direction)
    requires Grid(p)
    ensures SameSquares(TiltPlatform(p, d), p)
    ensures RoundCount(TiltPlatform(p, d)) == RoundCount(p)
    ensures TiltPlatform(TiltPlatform(p, d), d) == TiltPlatform(p, d)
  {
    var q := TransformToNorth(p, d);
    var t := TiltNorth(q);
    TiltNorthSquares(q);
    TiltNorthRounds(q);
    TiltNorthTwice(q);
    TransformSquares(t, q, d);
    TransformTwice(p, d);
    TransformRounds(t, d);
    TransformRounds(p, d);
    TransformTwice(t, d);
  }

  /** The tilts of one spin cycle, in order. */
  const Cycle := [North, West, South, East]

  function TiltAll(p: Platform, ds: seq<Direction>): (t: Platform)
    requires Grid(p)
    ensures Grid(t)
    decreases |ds|
  {
    if |ds| == 0 then p else TiltAll(TiltPlatform(p, ds[0]), ds[1..])
  }

  lemma {:induction false} TiltAllFacts(p: Platform, ds: seq<Direction>)
    requires Grid(p)
    ensures SameSquares(TiltAll(p, ds), p)
    ensures RoundCount(TiltAll(p, ds)) == RoundCount(p)
    decreases |ds|
  {
    if |ds| > 0 {
      TiltPlatformFacts(p, ds[0]);
      TiltAllFacts(TiltPlatform(p, ds[0]), ds[1..]);
    }
  }

  lemma TiltAllSnoc(p: Platform, ds: seq<Direction>, d: Direction)
    requires Grid(p)
    ensures TiltAll(p, ds + [d]) == TiltPlatform(TiltAll(p, ds), d)
    decreases |ds|
  {
    if |ds| > 0 {
      assert (ds + [d])[1..] == ds[1..] + [d];
      TiltAllSnoc(TiltPlatform(p, ds[0]), ds[1..], d);
    }
  }

  /** `cycle_platform`: one spin cycle keeps the shape, every square rock and
      the number of round rocks, and is the north, west, south and east tilts
      in turn. */
  method CyclePlatform(p: Platform) returns (r: Platform)
    requires Grid(p)
    ensures r == TiltPlatform(TiltPlatform(TiltPlatform(TiltPlatform(p, North), West), South), East)
    ensures SameSquares(r, p) && RoundCount(r) == RoundCount(p)
  {
    r := p;
    for k := 0 to |Cycle|
      invariant Grid(r) && r == TiltAll(p, Cycle[..k])
    {
      TiltAllSnoc(p, Cycle[..k], Cycle[k]);
      assert Cycle[..k + 1] == Cycle[..k] + [Cycle[k]];
      r := TiltPlatform(r, Cycle[k]);
    }
    assert Cycle[..4] == Cycle;
    TiltAllFacts(p, Cycle);
  }

  // ---------------------------------------------------------------------------
  // The load on the north beams

  /** A round rock in row `i` of `n` puts load `n - i` on the north beams. */
  function LoadWeight(n: nat): (nat, Tile) -> int
  {
    (i: nat, t: Tile) => if t == Round then n - i else 0
  }

  /** `calculate_load`: the load of the platform as it stands. */
  function CalculateLoad(p: Platform): int
  {
    ByRows(p, LoadWeight(|p|))
  }

  /** The load of the tile in row `i`, column `j` once it has come to rest
      after a north tilt, read off the column above it. */
  function RestCell(p: Platform, i: nat, j: nat): int
  {
    if i < |p| && j < |p[i]| && p[i][j] == Round then |p| - Land(Column(p, j), i) else 0
  }

  function RestCells(p: Platform): (nat, nat) -> int
  {
    (i: nat, j: nat) => RestCell(p, i, j)
  }

  /** The first `j` tiles of row `i`, weighed at rest. */
  function RowRest(p: Platform, i: nat, j: nat): int
  {
    if j == 0 then 0 else RowRest(p, i, j - 1) + RestCell(p, i, j - 1)
  }

  /** The first `i` rows, weighed at rest. */
  function RowsRest(p: Platform, i: nat): int
    requires i <= |p|
  {
    if i == 0 then 0 else RowsRest(p, i - 1) + RowRest(p, i - 1, |p[i - 1]|)
  }

  /** The total `calculate_load_1` accumulates, row by row and tile by tile. */
  function RestingLoad(p: Platform): int
  {
    RowsRest(p, |p|)
  }

  lemma {:induction false} RowRestSum(p: Platform, i: nat, j: nat)
    ensures RowRest(p, i, j) == Sum(Row(RestCells(p), i), j)
  {
    if j > 0 {
      RowRestSum(p, i, j - 1);
    }
  }

  lemma {:induction false} RowsRestSum(p: Platform, i: nat)
    requires Grid(p) && i <= |p|
    ensures RowsRest(p, i) == Sum(RowSums(RestCells(p), |p[0]|), i)
  {
    if i > 0 {
      RowsRestSum(p, i - 1);
      RowRestSum(p, i - 1, |p[0]|);
    }
  }

  lemma RestingTable(p: Platform)
    requires Grid(p)
    ensures RestingLoad(p) == Sum(RowSums(RestCells(p), |p[0]|), |p|)
  {
    RowsRestSum(p, |p|);
  }

  /** The load after a north tilt is the load of every round rock at the row
      it comes to rest in. */
  lemma TiltedLoad(p: Platform)
    requires Grid(p)
    ensures CalculateLoad(TiltNorth(p)) == RestingLoad(p)
  {
    var n, m := |p|, |p[0]|;
    var t := TiltNorth(p);
    var w := LoadWeight(n);
    var g := RestCells(p);
    RowsColumns(t, w);
    forall j: nat | j < m
      ensures ColumnWeights(t, w)(j) == ColSums(g, n)(j)
    {
      var col := Column(p, j);
      TiltNorthColumn(p, j);
      PlaceWeigh(col, n, w);
      forall i: nat | i < n
        ensures LandedAt(col, n, w)(i) == Col(g, j)(i)
      {
        assert col[i] == p[i][j];
      }
      SumExt(LandedAt(col, n, w), Col(g, j), n);
    }
    SumExt(ColumnWeights(t, w), ColSums(g, n), m);
    Exchange(g, n, m);
    RestingTable(p);
  }

  /** Tilting north never lowers the load: no rock moves south. */
  lemma TiltNeverLighter(p: Platform)
    requires Grid(p)
    ensures CalculateLoad(p) <= CalculateLoad(TiltNorth(p))
  {
    var n, m := |p|, |p[0]|;
    var f, g := Cells(p, LoadWeight(n)), RestCells(p);
    forall i: nat | i < n
      ensures RowSums(f, m)(i) <= RowSums(g, m)(i)
    {
      forall j: nat | j < m
        ensures Row(f, i)(j) <= Row(g, i)(j)
      {
        assert Column(p, j)[i] == p[i][j];
      }
      SumMonotone(Row(f, i), Row(g, i), m);
    }
    SumMonotone(RowSums(f, m), RowSums(g, m), n);
    RowsTable(p, LoadWeight(n));
    RestingTable(p);
    TiltedLoad(p);
  }

  /** How `calculate_load_1` reads a character: anything but 'O' and '#' is
      passed over. */
  function CharTile(ch: char): Tile
  {
    if ch == 'O' then Round else if ch == '#' then Square else Empty
  }

  function Tiles(ls: seq<string>): (p: Platform)
    ensures |p| == |ls|
    ensures forall i :: 0 <= i < |ls| ==> |p[i]| == |ls[i]|
    ensures forall i, j :: 0 <= i < |ls| && 0 <= j < |ls[i]| ==> p[i][j] == CharTile(ls[i][j])
  {
    seq(|ls|, i requires 0 <= i < |ls| => seq(|ls[i]|, j requires 0 <= j < |ls[i]| => CharTile(ls[i][j])))
  }

  lemma ParseIsTiles(s: string)
    requires Parse(s).Some?
    ensures Parse(s).value == Tiles(Lines(s))
  {
    var p, q := Parse(s).value, Tiles(Lines(s));
    forall i | 0 <= i < |p|
      ensures p[i] == q[i]
    {
      assert FormatRow(p[i]) == Lines(s)[i];
      forall j | 0 <= j < |p[i]|
        ensures p[i][j] == q[i][j]
      {
        assert Lines(s)[i][j] == TileChar(p[i][j]);
      }
    }
  }

  /** `calculate_load_1` over the whole text is the load after a north tilt
      of the platform the text draws. */
  lemma RestingIsTilted(s: string)
    requires Parse(s).Some? && Grid(Parse(s).value)
    ensures RestingLoad(Tiles(Lines(s))) == CalculateLoad(TiltPlatform(Parse(s).value, North))
  {
    ParseIsTiles(s);
    TiltedLoad(Parse(s).value);
  }

  /** How the last resting row of column `k` moves past row `i`, and the
      load the tile there adds. */
  lemma TopStep(p: Platform, k: nat, i: nat)
    requires i < |p|
    ensures var t := if k < |p[i]| then p[i][k] else Empty;
      Top(Column(p, k), i + 1) == match t
        case Round => Top(Column(p, k), i) + 1
        case Square => i
        case Empty => Top(Column(p, k), i)
    ensures RestCell(p, i, k) ==
      if k < |p[i]| && p[i][k] == Round then |p| - Top(Column(p, k), i + 1) else 0
  {
    assert Column(p, k)[i] == if k < |p[i]| then p[i][k] else Empty;
  }

  /** Column `k` of the first `j` columns has its last resting row above
      row `i` in `tops[k]`. */
  predicate TopsAt(p: Platform, i: nat, tops: seq<int>, lo: nat, hi: nat)
    requires i <= |p| && hi <= |tops|
  {
    forall k :: lo <= k < hi ==> tops[k] == Top(Column(p, k), i)
  }

  /** One row of `calculate_load_1`: moves each column's last resting row
      past row `i` and adds the load of the row's round rocks. */
  method ScanRow(row: string, i: nat, n: nat, previous: seq<int>, ghost p: Platform) returns (next: seq<int>, added: int)
    requires i < n == |p| && |row| <= |previous|
    requires |p[i]| == |row| && forall j :: 0 <= j < |row| ==> p[i][j] == CharTile(row[j])
    requires TopsAt(p, i, previous, 0, |previous|)
    ensures |next| == |previous| && TopsAt(p, i + 1, next, 0, |previous|)
    ensures added == RowRest(p, i, |row|)
  {
    next, added := previous, 0;
    for j := 0 to |row|
      invariant |next| == |previous|
      invariant TopsAt(p, i + 1, next, 0, j) && TopsAt(p, i, next, j, |previous|)
      invariant added == RowRest(p, i, j)
    {
      TopStep(p, j, i);
      assert p[i][j] == CharTile(row[j]);
      if row[j] == 'O' {
        next := next[j := next[j] + 1];
        added := added + (n - next[j]);
      } else if row[j] == '#' {
        next := next[j := i];
      }
    }
    forall k | |row| <= k < |previous|
      ensures next[k] == Top(Column(p, k), i + 1)
    {
      TopStep(p, k, i);
    }
  }

  /** The tiles `calculate_load_1` sees in the lines. */
  predicate Draws(rows: seq<string>, p: Platform)
  {
    |p| == |rows| &&
    forall i :: 0 <= i < |rows| ==> |p[i]| == |rows[i]| && forall j :: 0 <= j < |rows[i]| ==> p[i][j] == CharTile(rows[i][j])
  }

  /** The loop of `calculate_load_1` over the lines of the text. */
  method LoadOfRows(rows: seq<string>, ghost p: Platform) returns (load: int)
    requires |rows| > 0
    requires forall i :: 0 <= i < |rows| ==> |rows[i]| <= |rows[0]|
    requires Draws(rows, p)
    ensures load == RestingLoad(p)
  {
    var previous := seq(|rows[0]|, _ => -1);
    load := 0;
    for i := 0 to |rows|
      invariant |previous| == |rows[0]|
      invariant TopsAt(p, i, previous, 0, |previous|)
      invariant load == RowsRest(p, i)
    {
      var added;
      previous, added := ScanRow(rows[i], i, |rows|, previous, p);
      load := load + added;
    }
  }

  /** `calculate_load_1`: the north load after a north tilt, computed in one
      pass over the text with the resting row of the last rock of each
      column. The Rust code panics on empty text and on a line longer than the
      first. */
  method CalculateLoad1(platform: string) returns (load: int)
    requires |Lines(platform)| > 0
    requires forall i :: 0 <= i < |Lines(platform)| ==> |Lines(platform)[i]| <= |Lines(platform)[0]|
    ensures load == RestingLoad(Tiles(Lines(platform)))
    ensures Parse(platform).Some? && Grid(Parse(platform).value) ==>
      load == CalculateLoad(TiltPlatform(Parse(platform).value, North))
  {
    load := LoadOfRows(Lines(platform), Tiles(Lines(platform)));
    if Parse(platform).Some? && Grid(Parse(platform).value) {
      RestingIsTilted(platform);
    }
  }
}
