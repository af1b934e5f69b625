/** Day 11 (Cosmic Expansion): doubling the empty rows and columns of an
    image of space, finding its galaxies, and the distances between every
    pair of them, computed either on the expanded image or from the sets of
    empty rows and columns and an expansion factor. */
module CosmicExpansion {
  import opened Text

  datatype Tile = Galaxy | Empty

  type Space = seq<seq<Tile>>

  /** A galaxy position: (row, column), both `usize` in the Rust code. */
  type Point = (nat, nat)

  // ---------------------------------------------------------------------------
  // Parsing

  function ParseTile(ch: char): Tile
  {
    if ch == '#' then Galaxy else Empty
  }

  function TileChar(t: Tile): char
  {
    if t == Galaxy then '#' else '.'
  }

  /** `parse_space`: one row per line, '#' a galaxy and any other character
      empty space. */
  function ParseSpace(s: string): (space: Space)
    ensures |space| == |Lines(s)|
    ensures forall i :: 0 <= i < |space| ==> |space[i]| == |Lines(s)[i]|
    ensures forall i, j :: 0 <= i < |space| && 0 <= j < |space[i]| ==>
      (space[i][j] == Galaxy <==> Lines(s)[i][j] == '#')
  {
    var ls := Lines(s);
    seq(|ls|, i requires 0 <= i < |ls| => seq(|ls[i]|, j requires 0 <= j < |ls[i]| => ParseTile(ls[i][j])))
  }

  /** The image drawn with '#' and '.', one string per row. */
  function FormatSpace(space: Space): (ls: seq<string>)
    ensures |ls| == |space|
    ensures forall i :: 0 <= i < |ls| ==> |ls[i]| == |space[i]| && Free(ls[i], '\n')
  {
    seq(|space|, i requires 0 <= i < |space| =>
      seq(|space[i]|, j requires 0 <= j < |space[i]| => TileChar(space[i][j])))
  }

  /** Every image is read back from its drawing. */
  lemma ParseFormatSpace(space: Space)
    ensures ParseSpace(Unlines(FormatSpace(space))) == space
  {
    var ls := FormatSpace(space);
    LinesUnlines(ls);
    var r := ParseSpace(Unlines(ls));
    forall i | 0 <= i < |space|
      ensures r[i] == space[i]
    {
      forall j | 0 <= j < |space[i]|
        ensures r[i][j] == space[i][j]
      {
        assert ls[i][j] == TileChar(space[i][j]);
      }
    }
  }

  // ---------------------------------------------------------------------------
  // Expansion

  /** How many of the first `n` flags are set. */
  function Count(flags: seq<bool>, n: nat): (c: nat)
    requires n <= |flags|
    ensures c <= n
  {
    if n == 0 then 0 else Count(flags, n - 1) + if flags[n - 1] then 1 else 0
  }

  /** The first `n` items in order, each flagged one followed by a copy of
      itself. */
  function StretchTo<T>(xs: seq<T>, dup: seq<bool>, n: nat): (r: seq<T>)
    requires |dup| == |xs| && n <= |xs|
    ensures |r| == n + Count(dup, n)
  {
    if n == 0 then []
    else StretchTo(xs, dup, n - 1) + [xs[n - 1]] + if dup[n - 1] then [xs[n - 1]] else []
  }

  /** The loop shared by `expand_rows` and each row of `expand_columns`:
      every item is kept in order, and a flagged item is followed by a copy
      of itself. */
  function Stretch<T>(xs: seq<T>, dup: seq<bool>): (r: seq<T>)
    requires |dup| == |xs|
    ensures |r| == |xs| + Count(dup, |xs|)
  {
    StretchTo(xs, dup, |xs|)
  }

  /** Where item `i` lands once the flagged items before it are doubled. */
  function Pos(dup: seq<bool>, i: nat): nat
    requires i <= |dup|
  {
    i + Count(dup, i)
  }

  /** One step of `StretchTo`, index by index: the earlier items stay put,
      item `n - 1` lands at `Pos(dup, n - 1)`, and its copy right after. */
  lemma StretchStep<T>(xs: seq<T>, dup: seq<bool>, n: nat)
    requires |dup| == |xs| && 0 < n <= |xs|
    ensures var s', s := StretchTo(xs, dup, n - 1), StretchTo(xs, dup, n);
      Pos(dup, n - 1) == |s'| && |s'| < |s| && s[|s'|] == xs[n - 1]
      && (dup[n - 1] ==> |s'| + 1 < |s| && s[|s'| + 1] == xs[n - 1])
      && forall j :: 0 <= j < |s'| ==> s[j] == s'[j]
  {
  }

  /** Item `i` sits at `Pos(dup, i)` of the stretched prefix and, when it is
      flagged, its copy right after it. */
  lemma {:induction false} StretchToPlaces<T>(xs: seq<T>, dup: seq<bool>, n: nat)
    requires |dup| == |xs| && n <= |xs|
    ensures forall i {:trigger Pos(dup, i)} :: 0 <= i < n ==>
      Pos(dup, i) < |StretchTo(xs, dup, n)| && StretchTo(xs, dup, n)[Pos(dup, i)] == xs[i]
    ensures forall i {:trigger Pos(dup, i)} :: 0 <= i < n && dup[i] ==>
      Pos(dup, i) + 1 < |StretchTo(xs, dup, n)| && StretchTo(xs, dup, n)[Pos(dup, i) + 1] == xs[i]
    decreases n
  {
    if n > 0 {
      StretchToPlaces(xs, dup, n - 1);
      StretchStep(xs, dup, n);
    }
  }

  lemma StretchPlaces<T>(xs: seq<T>, dup: seq<bool>)
    requires |dup| == |xs|
    ensures forall i {:trigger Pos(dup, i)} :: 0 <= i < |xs| ==>
      Pos(dup, i) < |Stretch(xs, dup)| && Stretch(xs, dup)[Pos(dup, i)] == xs[i]
    ensures forall i {:trigger Pos(dup, i)} :: 0 <= i < |xs| && dup[i] ==>
      Pos(dup, i) + 1 < |Stretch(xs, dup)| && Stretch(xs, dup)[Pos(dup, i) + 1] == xs[i]
  {
    StretchToPlaces(xs, dup, |xs|);
  }

  /** The stretched prefix holds the same items as the prefix. */
  lemma {:induction false} StretchToItems<T>(xs: seq<T>, dup: seq<bool>, n: nat)
    requires |dup| == |xs| && n <= |xs|
    ensures forall y :: y in StretchTo(xs, dup, n) <==> y in xs[..n]
    decreases n
  {
    if n > 0 {
      StretchToItems(xs, dup, n - 1);
      assert xs[..n] == xs[..n - 1] + [xs[n - 1]];
    }
  }

  /** The stretched sequence holds the same items as the original. */
  lemma StretchItems<T>(xs: seq<T>, dup: seq<bool>)
    requires |dup| == |xs|
    ensures forall y :: y in Stretch(xs, dup) <==> y in xs
  {
    StretchToItems(xs, dup, |xs|);
    assert xs[..|xs|] == xs;
  }

  /** A row to double: no galaxy in it. */
  predicate EmptyRow(row: seq<Tile>)
  {
    Galaxy !in row
  }

  function RowFlags(space: Space): (flags: seq<bool>)
    ensures |flags| == |space|
  {
    seq(|space|, i requires 0 <= i < |space| => EmptyRow(space[i]))
  }

  /** `expand_rows`: each row, followed by a copy of itself when it is
      empty. */
  function ExpandRows(space: Space): Space
  {
    Stretch(space, RowFlags(space))
  }

  /** `expand_rows` keeps every row in order, at its place shifted by the
      empty rows above it, and puts a copy right after each empty row. */
  lemma ExpandRowsPlaces(space: Space)
    ensures |ExpandRows(space)| == |space| + Count(RowFlags(space), |space|)
    ensures forall i {:trigger Pos(RowFlags(space), i)} :: 0 <= i < |space| ==>
      Pos(RowFlags(space), i) < |ExpandRows(space)| && ExpandRows(space)[Pos(RowFlags(space), i)] == space[i]
    ensures forall i {:trigger Pos(RowFlags(space), i)} :: 0 <= i < |space| && EmptyRow(space[i]) ==>
      Pos(RowFlags(space), i) + 1 < |ExpandRows(space)| && ExpandRows(space)[Pos(RowFlags(space), i) + 1] == space[i]
  {
    StretchPlaces(space, RowFlags(space));
  }

  /** The Rust code reads the width off the first row, so there must be one and
      no row may be shorter. */
  predicate Wide(space: Space)
  {
    |space| > 0 && forall i :: 0 <= i < |space| ==> |space[i]| >= |space[0]|
  }

  /** All rows have the same length. */
  predicate Rectangular(space: Space)
  {
    |space| > 0 && forall i :: 0 <= i < |space| ==> |space[i]| == |space[0]|
  }

  /** Column `j` holds no galaxy. */
  predicate EmptyColumn(space: Space, j: nat)
    requires Wide(space) && j < |space[0]|
  {
    forall i :: 0 <= i < |space| ==> space[i][j] == Empty
  }

  function ColumnFlags(space: Space): (flags: seq<bool>)
    requires Wide(space)
    ensures |flags| == |space[0]|
  {
    seq(|space[0]|, j requires 0 <= j < |space[0]| => EmptyColumn(space, j))
  }

  /** `expand_columns`: each row cut to the width of the first, with every
      column free of galaxies doubled. */
  function ExpandColumns(space: Space): (r: Space)
    requires Wide(space)
    ensures |r| == |space|
    ensures forall i :: 0 <= i < |r| ==> |r[i]| == |space[0]| + Count(ColumnFlags(space), |space[0]|)
  {
    var w := |space[0]|;
    seq(|space|, i requires 0 <= i < |space| => Stretch(space[i][..w], ColumnFlags(space)))
  }

  /** `expand_columns` keeps every cell of the first `w` columns at its
      column shifted by the empty columns to its left, and puts a copy right
      after each cell of an empty column. */
  lemma ExpandColumnsPlaces(space: Space, i: nat)
    requires Wide(space) && i < |space|
    ensures forall j {:trigger Pos(ColumnFlags(space), j)} :: 0 <= j < |space[0]| ==>
      Pos(ColumnFlags(space), j) < |ExpandColumns(space)[i]|
      && ExpandColumns(space)[i][Pos(ColumnFlags(space), j)] == space[i][j]
    ensures forall j {:trigger Pos(ColumnFlags(space), j)} :: 0 <= j < |space[0]| && EmptyColumn(space, j) ==>
      Pos(ColumnFlags(space), j) + 1 < |ExpandColumns(space)[i]|
      && ExpandColumns(space)[i][Pos(ColumnFlags(space), j) + 1] == space[i][j]
  {
    var w, flags := |space[0]|, ColumnFlags(space);
    var row := space[i][..w];
    StretchPlaces(row, flags);
    assert ExpandColumns(space)[i] == Stretch(row, flags);
    assert forall j :: 0 <= j < w ==> row[j] == space[i][j];
    assert forall j :: 0 <= j < w ==> flags[j] == EmptyColumn(space, j);
  }

  /** `expand`: the columns first, then the rows. */
  function Expand(space: Space): Space
    requires Wide(space)
  {
    ExpandRows(ExpandColumns(space))
  }

  // ---------------------------------------------------------------------------
  // The sets of rows and columns to expand

  /** `rows_to_expand`. */
  method RowsToExpand(space: Space) returns (rows: set<nat>)
    ensures forall i: nat :: i in rows <==> i < |space| && EmptyRow(space[i])
  {
    rows := {};
    var i := 0;
    while i < |space|
      invariant i <= |space|
      invariant forall k: nat :: k in rows <==> k < i && EmptyRow(space[k])
    {
      if EmptyRow(space[i]) {
        rows := rows + {i};
      }
      i := i + 1;
    }
  }

  /** `columns_to_expand`: the inner loop stops at the first galaxy of the
      column. */
  method ColumnsToExpand(space: Space) returns (cols: set<nat>)
    requires Wide(space)
    ensures forall j: nat :: j in cols <==> j < |space[0]| && EmptyColumn(space, j)
  {
    cols := {};
    var j := 0;
    while j < |space[0]|
      invariant j <= |space[0]|
      invariant forall k: nat :: k in cols <==> k < j && EmptyColumn(space, k)
    {
      var toExpand := true;
      var i := 0;
      while i < |space|
        invariant i <= |space| && toExpand
        invariant forall k :: 0 <= k < i ==> space[k][j] == Empty
      {
        if space[i][j] == Galaxy {
          toExpand := false;
          break;
        }
        i := i + 1;
      }
      assert toExpand <==> EmptyColumn(space, j);
      if toExpand {
        cols := cols + {j};
      }
      j := j + 1;
    }
  }

  // ---------------------------------------------------------------------------
  // Galaxies

  /** `a` comes strictly before `b` in row-major order. */
  predicate Before(a: Point, b: Point)
  {
    a.0 < b.0 || (a.0 == b.0 && a.1 < b.1)
  }

  predicate RowMajor(ps: seq<Point>)
  {
    forall a, b :: 0 <= a < b < |ps| ==> Before(ps[a], ps[b])
  }

  /** The galaxies of `row`, which is row `i`, left to right. */
  function RowGalaxies(row: seq<Tile>, i: nat): (ps: seq<Point>)
    ensures |ps| <= |row|
  {
    if |row| == 0 then []
    else RowGalaxies(row[..|row| - 1], i) + if row[|row| - 1] == Galaxy then [(i, |row| - 1)] else []
  }

  lemma {:induction false} RowGalaxiesBound(row: seq<Tile>, i: nat)
    ensures forall k :: 0 <= k < |RowGalaxies(row, i)| ==>
      RowGalaxies(row, i)[k].0 == i && RowGalaxies(row, i)[k].1 < |row|
    decreases |row|
  {
    if |row| > 0 {
      RowGalaxiesBound(row[..|row| - 1], i);
    }
  }

  /** `RowGalaxies` lists exactly the galaxies of the row, left to right. */
  lemma {:induction false} RowGalaxiesSpec(row: seq<Tile>, i: nat)
    ensures forall p :: p in RowGalaxies(row, i) <==> p.0 == i && p.1 < |row| && row[p.1] == Galaxy
    ensures forall a, b :: 0 <= a < b < |RowGalaxies(row, i)| ==> RowGalaxies(row, i)[a].1 < RowGalaxies(row, i)[b].1
    decreases |row|
  {
    if |row| > 0 {
      var n := |row| - 1;
      var row' := row[..n];
      RowGalaxiesSpec(row', i);
      RowGalaxiesBound(row', i);
      forall p: Point | p.0 == i && p.1 < n
        ensures row'[p.1] == row[p.1]
      {
      }
    }
  }

  /** A row without galaxies contributes none. */
  lemma {:induction false} EmptyRowGalaxies(row: seq<Tile>, i: nat)
    requires EmptyRow(row)
    ensures RowGalaxies(row, i) == []
    decreases |row|
  {
    if |row| > 0 {
      var n := |row| - 1;
      assert row[n] in row;
      assert forall t :: t in row[..n] ==> t in row;
      EmptyRowGalaxies(row[..n], i);
    }
  }

  /** `find_galaxies`: the positions of the galaxies, row by row and each row
      left to right. */
  function FindGalaxies(space: Space): (ps: seq<Point>)
  {
    if |space| == 0 then []
    else FindGalaxies(space[..|space| - 1]) + RowGalaxies(space[|space| - 1], |space| - 1)
  }

  lemma {:induction false} FindGalaxiesBound(space: Space)
    ensures forall k :: 0 <= k < |FindGalaxies(space)| ==>
      FindGalaxies(space)[k].0 < |space| && FindGalaxies(space)[k].1 < |space[FindGalaxies(space)[k].0]|
    decreases |space|
  {
    if |space| > 0 {
      var n := |space| - 1;
      FindGalaxiesBound(space[..n]);
      RowGalaxiesBound(space[n], n);
    }
  }

  /** `find_galaxies` lists exactly the galaxies of the image. */
  lemma {:induction false} FindGalaxiesMembers(space: Space)
    ensures forall p :: p in FindGalaxies(space) <==>
      p.0 < |space| && p.1 < |space[p.0]| && space[p.0][p.1] == Galaxy
    decreases |space|
  {
    if |space| > 0 {
      var n := |space| - 1;
      var space' := space[..n];
      FindGalaxiesMembers(space');
      RowGalaxiesSpec(space[n], n);
      forall p: Point | p.0 < n
        ensures space'[p.0] == space[p.0]
      {
      }
    }
  }

  /** `find_galaxies` lists the galaxies row by row, each row left to
      right. */
  lemma {:induction false} FindGalaxiesOrder(space: Space)
    ensures RowMajor(FindGalaxies(space))
    decreases |space|
  {
    if |space| > 0 {
      var n := |space| - 1;
      var space' := space[..n];
      var before, last := FindGalaxies(space'), RowGalaxies(space[n], n);
      FindGalaxiesOrder(space');
      FindGalaxiesBound(space');
      RowGalaxiesSpec(space[n], n);
      RowGalaxiesBound(space[n], n);
      var all := before + last;
      forall a, b | 0 <= a < b < |all|
        ensures Before(all[a], all[b])
      {
        if b < |before| {
          assert all[a] == before[a] && all[b] == before[b];
        } else if a < |before| {
          assert all[a] == before[a] && all[b] == last[b - |before|];
        } else {
          assert all[a] == last[a - |before|] && all[b] == last[b - |before|];
        }
      }
    }
  }

  lemma RowGalaxiesSnoc(row: seq<Tile>, x: Tile, i: nat)
    ensures RowGalaxies(row + [x], i) == RowGalaxies(row, i) + if x == Galaxy then [(i, |row|)] else []
  {
    assert (row + [x])[..|row|] == row;
  }

  lemma RowGalaxiesPrefix(row: seq<Tile>, i: nat, n: nat)
    requires 0 < n <= |row|
    ensures RowGalaxies(row[..n], i)
      == RowGalaxies(row[..n - 1], i) + if row[n - 1] == Galaxy then [(i, n - 1)] else []
  {
    assert row[..n][..n - 1] == row[..n - 1];
  }

  lemma FindGalaxiesPrefix(space: Space, n: nat)
    requires 0 < n <= |space|
    ensures FindGalaxies(space[..n]) == FindGalaxies(space[..n - 1]) + RowGalaxies(space[n - 1], n - 1)
  {
    assert space[..n][..n - 1] == space[..n - 1];
  }

  lemma FindGalaxiesSnoc(space: Space, row: seq<Tile>)
    ensures FindGalaxies(space + [row]) == FindGalaxies(space) + RowGalaxies(row, |space|)
  {
    assert (space + [row])[..|space|] == space;
  }

  /** The galaxies of a row do not depend on the row number but for their
      first coordinate. */
  lemma {:induction false} RowGalaxiesRenumber(row: seq<Tile>, i: nat, i': nat)
    ensures |RowGalaxies(row, i)| == |RowGalaxies(row, i')|
    ensures forall k :: 0 <= k < |RowGalaxies(row, i)| ==>
      RowGalaxies(row, i)[k] == (i, RowGalaxies(row, i')[k].1)
    decreases |row|
  {
    if |row| > 0 {
      RowGalaxiesRenumber(row[..|row| - 1], i, i');
    }
  }

  /** Each point moved right by the doubled columns to its left. */
  function ShiftColumns(ps: seq<Point>, dup: seq<bool>): (r: seq<Point>)
    requires forall k :: 0 <= k < |ps| ==> ps[k].1 <= |dup|
    ensures |r| == |ps|
  {
    seq(|ps|, k requires 0 <= k < |ps| => (ps[k].0, Pos(dup, ps[k].1)))
  }

  /** Each point moved down by the doubled rows above it. */
  function ShiftRows(ps: seq<Point>, dup: seq<bool>): (r: seq<Point>)
    requires forall k :: 0 <= k < |ps| ==> ps[k].0 <= |dup|
    ensures |r| == |ps|
  {
    seq(|ps|, k requires 0 <= k < |ps| => (Pos(dup, ps[k].0), ps[k].1))
  }

  lemma ShiftColumnsAppend(a: seq<Point>, b: seq<Point>, dup: seq<bool>)
    requires forall k :: 0 <= k < |a| ==> a[k].1 <= |dup|
    requires forall k :: 0 <= k < |b| ==> b[k].1 <= |dup|
    ensures forall k :: 0 <= k < |a + b| ==> (a + b)[k].1 <= |dup|
    ensures ShiftColumns(a + b, dup) == ShiftColumns(a, dup) + ShiftColumns(b, dup)
  {
  }

  lemma ShiftRowsAppend(a: seq<Point>, b: seq<Point>, dup: seq<bool>)
    requires forall k :: 0 <= k < |a| ==> a[k].0 <= |dup|
    requires forall k :: 0 <= k < |b| ==> b[k].0 <= |dup|
    ensures forall k :: 0 <= k < |a + b| ==> (a + b)[k].0 <= |dup|
    ensures ShiftRows(a + b, dup) == ShiftRows(a, dup) + ShiftRows(b, dup)
  {
  }

  /** One step of `RowGalaxiesStretchTo`: the stretched prefix grows by
      tile `n - 1`, and by its copy when that column is doubled. */
  lemma StretchGrows(row: seq<Tile>, dup: seq<bool>, i: nat, n: nat)
    requires |dup| == |row| && 0 < n <= |row|
    requires dup[n - 1] ==> row[n - 1] == Empty
    ensures RowGalaxies(StretchTo(row, dup, n), i)
      == RowGalaxies(StretchTo(row, dup, n - 1), i) + if row[n - 1] == Galaxy then [(i, Pos(dup, n - 1))] else []
  {
    var s', x := StretchTo(row, dup, n - 1), row[n - 1];
    assert Pos(dup, n - 1) == |s'|;
    RowGalaxiesSnoc(s', x, i);
    if dup[n - 1] {
      assert StretchTo(row, dup, n) == (s' + [x]) + [x];
      RowGalaxiesSnoc(s' + [x], x, i);
    } else {
      assert StretchTo(row, dup, n) == s' + [x];
    }
  }

  /** Doubling galaxy-free columns among the first `n` tiles of a row moves
      each of their galaxies to its column shifted by the doubled columns to
      its left. */
  lemma {:induction false} RowGalaxiesStretchTo(row: seq<Tile>, dup: seq<bool>, i: nat, n: nat)
    requires |dup| == |row| && n <= |row|
    requires forall j :: 0 <= j < |row| && dup[j] ==> row[j] == Empty
    ensures forall k :: 0 <= k < |RowGalaxies(row[..n], i)| ==> RowGalaxies(row[..n], i)[k].1 < n
    ensures RowGalaxies(StretchTo(row, dup, n), i) == ShiftColumns(RowGalaxies(row[..n], i), dup)
    decreases n
  {
    if n > 0 {
      var x := row[n - 1];
      var g' := RowGalaxies(row[..n - 1], i);
      var last: seq<Point> := if x == Galaxy then [(i, n - 1)] else [];
      RowGalaxiesStretchTo(row, dup, i, n - 1);
      RowGalaxiesPrefix(row, i, n);
      RowGalaxiesBound(row[..n], i);
      assert dup[n - 1] ==> x == Empty;
      StretchGrows(row, dup, i, n);
      ShiftColumnsAppend(g', last, dup);
      assert ShiftColumns(last, dup) == if x == Galaxy then [(i, Pos(dup, n - 1))] else [];
    }
  }

  /** Doubling galaxy-free columns of a row moves each galaxy to its column
      shifted by the doubled columns to its left. */
  lemma RowGalaxiesStretch(row: seq<Tile>, dup: seq<bool>, i: nat)
    requires |dup| == |row| && forall j :: 0 <= j < |row| && dup[j] ==> row[j] == Empty
    ensures forall k :: 0 <= k < |RowGalaxies(row, i)| ==> RowGalaxies(row, i)[k].1 < |row|
    ensures RowGalaxies(Stretch(row, dup), i) == ShiftColumns(RowGalaxies(row, i), dup)
  {
    RowGalaxiesStretchTo(row, dup, i, |row|);
    assert row[..|row|] == row;
  }

  /** Each row stretched with the same flags. */
  function StretchEach(rows: Space, dup: seq<bool>): (r: Space)
    requires forall i :: 0 <= i < |rows| ==> |rows[i]| == |dup|
    ensures |r| == |rows|
  {
    seq(|rows|, i requires 0 <= i < |rows| => Stretch(rows[i], dup))
  }

  /** Doubling galaxy-free columns moves each galaxy to its column shifted
      by the doubled columns to its left, and keeps the order. */
  lemma {:induction false} GalaxiesStretchColumns(rows: Space, dup: seq<bool>)
    requires forall i :: 0 <= i < |rows| ==> |rows[i]| == |dup|
    requires forall i, j :: 0 <= i < |rows| && 0 <= j < |dup| && dup[j] ==> rows[i][j] == Empty
    ensures forall k :: 0 <= k < |FindGalaxies(rows)| ==> FindGalaxies(rows)[k].1 < |dup|
    ensures FindGalaxies(StretchEach(rows, dup)) == ShiftColumns(FindGalaxies(rows), dup)
    decreases |rows|
  {
    if |rows| > 0 {
      var n := |rows| - 1;
      var rows' := rows[..n];
      GalaxiesStretchColumns(rows', dup);
      assert StretchEach(rows, dup) == StretchEach(rows', dup) + [Stretch(rows[n], dup)];
      FindGalaxiesSnoc(StretchEach(rows', dup), Stretch(rows[n], dup));
      RowGalaxiesStretch(rows[n], dup, n);
      ShiftColumnsAppend(FindGalaxies(rows'), RowGalaxies(rows[n], n), dup);
    }
  }

  /** A galaxy-free row appended twice adds the galaxies of one copy: none. */
  lemma DoubledEmptyRow(space: Space, x: seq<Tile>)
    requires EmptyRow(x)
    ensures FindGalaxies(space + [x] + [x]) == FindGalaxies(space) + RowGalaxies(x, |space|)
  {
    FindGalaxiesSnoc(space, x);
    FindGalaxiesSnoc(space + [x], x);
    EmptyRowGalaxies(x, |space| + 1);
  }

  /** One step of `GalaxiesStretchRowsTo`: row `n - 1` lands at its shifted
      place, and its copy, when it is doubled, holds no galaxy. */
  lemma StretchRowsGrow(space: Space, dup: seq<bool>, n: nat)
    requires |dup| == |space| && 0 < n <= |space|
    requires dup[n - 1] ==> EmptyRow(space[n - 1])
    ensures FindGalaxies(StretchTo(space, dup, n))
      == FindGalaxies(StretchTo(space, dup, n - 1)) + RowGalaxies(space[n - 1], Pos(dup, n - 1))
  {
    var s', x := StretchTo(space, dup, n - 1), space[n - 1];
    assert Pos(dup, n - 1) == |s'|;
    if dup[n - 1] {
      assert StretchTo(space, dup, n) == s' + [x] + [x];
      DoubledEmptyRow(s', x);
    } else {
      assert StretchTo(space, dup, n) == s' + [x];
      FindGalaxiesSnoc(s', x);
    }
  }

  /** The galaxies of row `m` moved to row `Pos(dup, m)`. */
  lemma RowGalaxiesShift(x: seq<Tile>, dup: seq<bool>, m: nat)
    requires m < |dup|
    ensures forall k :: 0 <= k < |RowGalaxies(x, m)| ==> RowGalaxies(x, m)[k].0 == m
    ensures RowGalaxies(x, Pos(dup, m)) == ShiftRows(RowGalaxies(x, m), dup)
  {
    RowGalaxiesRenumber(x, Pos(dup, m), m);
    RowGalaxiesBound(x, m);
  }

  /** Doubling galaxy-free rows among the first `n` moves each of their
      galaxies to its row shifted by the doubled rows above it, and keeps the
      order. */
  lemma {:induction false} GalaxiesStretchRowsTo(space: Space, dup: seq<bool>, n: nat)
    requires |dup| == |space| && n <= |space|
    requires forall i :: 0 <= i < |space| && dup[i] ==> EmptyRow(space[i])
    ensures forall k :: 0 <= k < |FindGalaxies(space[..n])| ==> FindGalaxies(space[..n])[k].0 < n
    ensures FindGalaxies(StretchTo(space, dup, n)) == ShiftRows(FindGalaxies(space[..n]), dup)
    decreases n
  {
    if n > 0 {
      var x := space[n - 1];
      GalaxiesStretchRowsTo(space, dup, n - 1);
      StretchRowsGrow(space, dup, n);
      RowGalaxiesShift(x, dup, n - 1);
      FindGalaxiesPrefix(space, n);
      ShiftRowsAppend(FindGalaxies(space[..n - 1]), RowGalaxies(x, n - 1), dup);
    }
  }

  /** Doubling galaxy-free rows moves each galaxy to its row shifted by the
      doubled rows above it, and keeps the order. */
  lemma GalaxiesStretchRows(space: Space, dup: seq<bool>)
    requires |dup| == |space| && forall i :: 0 <= i < |space| && dup[i] ==> EmptyRow(space[i])
    ensures forall k :: 0 <= k < |FindGalaxies(space)| ==> FindGalaxies(space)[k].0 < |space|
    ensures FindGalaxies(Stretch(space, dup)) == ShiftRows(FindGalaxies(space), dup)
  {
    GalaxiesStretchRowsTo(space, dup, |space|);
    assert space[..|space|] == space;
  }

  /** In the expanded image every galaxy of the original sits at its row and
      column shifted by the empty rows above it and the empty columns to its
      left, in the same order. */
  lemma ExpandGalaxies(space: Space)
    requires Rectangular(space)
    ensures Wide(space)
    ensures |FindGalaxies(Expand(space))| == |FindGalaxies(space)|
    ensures forall k :: 0 <= k < |FindGalaxies(space)| ==>
      var p := FindGalaxies(space)[k];
      p.0 < |space| && p.1 < |space[0]|
      && FindGalaxies(Expand(space))[k] == (Pos(RowFlags(space), p.0), Pos(ColumnFlags(space), p.1))
  {
    var w, cflags := |space[0]|, ColumnFlags(space);
    var cols := ExpandColumns(space);
    assert cols == StretchEach(space, cflags) by {
      forall i | 0 <= i < |space|
        ensures space[i][..w] == space[i]
      {
      }
    }
    GalaxiesStretchColumns(space, cflags);
    assert RowFlags(cols) == RowFlags(space) by {
      forall i | 0 <= i < |space|
        ensures EmptyRow(cols[i]) == EmptyRow(space[i])
      {
        StretchItems(space[i], cflags);
      }
    }
    GalaxiesStretchRows(cols, RowFlags(cols));
    FindGalaxiesBound(space);
    var g := FindGalaxies(space);
    var c := ShiftColumns(g, cflags);
    assert FindGalaxies(cols) == c;
    assert FindGalaxies(Expand(space)) == ShiftRows(c, RowFlags(space));
    forall k | 0 <= k < |g|
      ensures FindGalaxies(Expand(space))[k] == (Pos(RowFlags(space), g[k].0), Pos(cflags, g[k].1))
    {
      assert c[k] == (g[k].0, Pos(cflags, g[k].1));
    }
  }

  // ---------------------------------------------------------------------------
  // Distances

  function AbsDiff(a: nat, b: nat): nat
  {
    if a < b then b - a else a - b
  }

  function Manhattan(p: Point, q: Point): nat
  {
    AbsDiff(p.0, q.0) + AbsDiff(p.1, q.1)
  }

  function Min(a: nat, b: nat): nat
  {
    if a < b then a else b
  }

  function Max(a: nat, b: nat): nat
  {
    if a < b then b else a
  }

  /** `find_distances_sum`: row `i` holds the distances from galaxy `i` to
      every later galaxy. The Rust code computes `len() - 1` and so needs a
      galaxy. */
  function FindDistancesSum(g: seq<Point>): (t: seq<seq<int>>)
    requires |g| >= 1
    ensures |t| == |g| - 1 && forall i :: 0 <= i < |t| ==> |t[i]| == |g| - 1 - i
    ensures forall i, k :: 0 <= i < |t| && 0 <= k < |t[i]| ==> t[i][k] == Manhattan(g[i], g[i + 1 + k])
  {
    seq(|g| - 1, i requires 0 <= i < |g| - 1 => DistancesFrom(g, i))
  }

  function Distance(g: seq<Point>, i: nat, j: nat): nat
    requires i < |g| && j < |g|
  {
    Manhattan(g[i], g[j])
  }

  function DistancesFrom(g: seq<Point>, i: nat): (row: seq<int>)
    requires i < |g|
    ensures |row| == |g| - 1 - i
    ensures forall k :: 0 <= k < |row| ==> row[k] == Distance(g, i, i + 1 + k)
  {
    seq(|g| - 1 - i, k requires 0 <= k < |g| - 1 - i => Distance(g, i, i + 1 + k))
  }

  /** The loop of `find_distances_sum_sets` over `min..max`: how many of
      `lo`, ..., `hi - 1` are in `s`. */
  function CountIn(s: set<nat>, lo: nat, hi: nat): (n: nat)
    ensures n <= if lo <= hi then hi - lo else 0
    decreases hi
  {
    if hi <= lo then 0 else CountIn(s, lo, hi - 1) + if hi - 1 in s then 1 else 0
  }

  /** The distance `find_distances_sum_sets` computes for one pair. */
  function SetsDistance(p: Point, q: Point, rows: set<nat>, cols: set<nat>, factor: nat): nat
    requires factor >= 1
  {
    Manhattan(p, q)
    + Times(factor - 1, CountIn(cols, Min(p.1, q.1), Max(p.1, q.1)) + CountIn(rows, Min(p.0, q.0), Max(p.0, q.0)))
  }

  function Times(a: nat, b: nat): nat
  {
    a * b
  }

  /** `find_distances_sum_sets`: as `find_distances_sum`, each distance
      grown by `factor - 1` per expanded row and column crossed. The `usize`
      subtraction `factor - 1` needs a positive factor. */
  function FindDistancesSumSets(g: seq<Point>, rows: set<nat>, cols: set<nat>, factor: nat): (t: seq<seq<int>>)
    requires |g| >= 1 && factor >= 1
    ensures |t| == |g| - 1 && forall i :: 0 <= i < |t| ==> |t[i]| == |g| - 1 - i
    ensures forall i, k :: 0 <= i < |t| && 0 <= k < |t[i]| ==>
      t[i][k] == SetsDistance(g[i], g[i + 1 + k], rows, cols, factor)
  {
    seq(|g| - 1, i requires 0 <= i < |g| - 1 => SetsDistancesFrom(g, i, rows, cols, factor))
  }

  function SetsDistanceAt(g: seq<Point>, i: nat, j: nat, rows: set<nat>, cols: set<nat>, factor: nat): nat
    requires i < |g| && j < |g| && factor >= 1
  {
    SetsDistance(g[i], g[j], rows, cols, factor)
  }

  function SetsDistancesFrom(g: seq<Point>, i: nat, rows: set<nat>, cols: set<nat>, factor: nat): (row: seq<int>)
    requires i < |g| && factor >= 1
    ensures |row| == |g| - 1 - i
    ensures forall k :: 0 <= k < |row| ==> row[k] == SetsDistanceAt(g, i, i + 1 + k, rows, cols, factor)
  {
    seq(|g| - 1 - i, k requires 0 <= k < |g| - 1 - i => SetsDistanceAt(g, i, i + 1 + k, rows, cols, factor))
  }

  function Sum(xs: seq<int>): int
  {
    if |xs| == 0 then 0 else Sum(xs[..|xs| - 1]) + xs[|xs| - 1]
  }

  /** `get_sum`: the sum of all the rows' sums. */
  function GetSum(t: seq<seq<int>>): int
  {
    if |t| == 0 then 0 else GetSum(t[..|t| - 1]) + Sum(t[|t| - 1])
  }

  /** With factor 1 nothing expands: the table is that of plain distances. */
  lemma FactorOne(g: seq<Point>, rows: set<nat>, cols: set<nat>)
    requires |g| >= 1
    ensures FindDistancesSumSets(g, rows, cols, 1) == FindDistancesSum(g)
  {
    forall i | 0 <= i < |g| - 1
      ensures SetsDistancesFrom(g, i, rows, cols, 1) == DistancesFrom(g, i)
    {
      forall k | 0 <= k < |g| - 1 - i
        ensures SetsDistancesFrom(g, i, rows, cols, 1)[k] == DistancesFrom(g, i)[k]
      {
        var p, q := g[i], g[i + 1 + k];
        assert SetsDistance(p, q, rows, cols, 1) == Manhattan(p, q);
      }
    }
  }

  lemma {:induction false} CountInSplit(s: set<nat>, lo: nat, mid: nat, hi: nat)
    requires lo <= mid <= hi
    ensures CountIn(s, lo, hi) == CountIn(s, lo, mid) + CountIn(s, mid, hi)
    decreases hi
  {
    if mid < hi {
      CountInSplit(s, lo, mid, hi - 1);
    }
  }

  /** The doubled prefix count is the count of the set of flagged indices. */
  lemma {:induction false} CountFlags(flags: seq<bool>, s: set<nat>, a: nat)
    requires a <= |flags| && forall k :: 0 <= k < |flags| ==> (k in s <==> flags[k])
    ensures Count(flags, a) == CountIn(s, 0, a)
    decreases a
  {
    if a > 0 {
      CountFlags(flags, s, a - 1);
    }
  }

  /** Shifting two coordinates by the expanded lines before them moves them
      apart by the expanded lines between them. */
  lemma ShiftDistance(s: set<nat>, a: nat, b: nat)
    ensures AbsDiff(a + CountIn(s, 0, a), b + CountIn(s, 0, b)) == AbsDiff(a, b) + CountIn(s, Min(a, b), Max(a, b))
  {
    CountInSplit(s, 0, Min(a, b), Max(a, b));
  }

  /** The distance of two shifted galaxies is the distance of the originals
      grown by one per expanded row and column between them. */
  lemma ShiftedPair(p: Point, q: Point, rflags: seq<bool>, cflags: seq<bool>, rows: set<nat>, cols: set<nat>)
    requires p.0 < |rflags| && q.0 < |rflags| && p.1 < |cflags| && q.1 < |cflags|
    requires forall k :: 0 <= k < |rflags| ==> (k in rows <==> rflags[k])
    requires forall k :: 0 <= k < |cflags| ==> (k in cols <==> cflags[k])
    ensures Manhattan((Pos(rflags, p.0), Pos(cflags, p.1)), (Pos(rflags, q.0), Pos(cflags, q.1)))
            == SetsDistance(p, q, rows, cols, 2)
  {
    ShiftedAxis(rflags, rows, p.0, q.0);
    ShiftedAxis(cflags, cols, p.1, q.1);
  }

  /** One coordinate of `ShiftedPair`. */
  lemma ShiftedAxis(flags: seq<bool>, s: set<nat>, a: nat, b: nat)
    requires a < |flags| && b < |flags|
    requires forall k :: 0 <= k < |flags| ==> (k in s <==> flags[k])
    ensures AbsDiff(Pos(flags, a), Pos(flags, b)) == AbsDiff(a, b) + CountIn(s, Min(a, b), Max(a, b))
  {
    CountFlags(flags, s, a);
    CountFlags(flags, s, b);
    ShiftDistance(s, a, b);
  }

  /** The two answers agree: with factor 2 the table computed from the sets
      of empty rows and columns is the table of distances in the literally
      expanded image. */
  lemma SetsMatchExpanded(space: Space, rows: set<nat>, cols: set<nat>)
    requires Rectangular(space) && |FindGalaxies(space)| >= 1
    requires forall i: nat :: i in rows <==> i < |space| && EmptyRow(space[i])
    requires forall j: nat :: j in cols <==> j < |space[0]| && EmptyColumn(space, j)
    ensures |FindGalaxies(Expand(space))| >= 1
    ensures FindDistancesSum(FindGalaxies(Expand(space))) == FindDistancesSumSets(FindGalaxies(space), rows, cols, 2)
  {
    ExpandGalaxies(space);
    var g, e := FindGalaxies(space), FindGalaxies(Expand(space));
    var rflags, cflags := RowFlags(space), ColumnFlags(space);
    var t, t' := FindDistancesSum(e), FindDistancesSumSets(g, rows, cols, 2);
    forall i | 0 <= i < |g| - 1
      ensures t[i] == t'[i]
    {
      forall k | 0 <= k < |g| - 1 - i
        ensures t[i][k] == t'[i][k]
      {
        ShiftedPair(g[i], g[i + 1 + k], rflags, cflags, rows, cols);
      }
    }
  }

  /** Hence the two totals agree. */
  lemma SumsMatchExpanded(space: Space, rows: set<nat>, cols: set<nat>)
    requires Rectangular(space) && |FindGalaxies(space)| >= 1
    requires forall i: nat :: i in rows <==> i < |space| && EmptyRow(space[i])
    requires forall j: nat :: j in cols <==> j < |space[0]| && EmptyColumn(space, j)
    ensures |FindGalaxies(Expand(space))| >= 1
    ensures GetSum(FindDistancesSum(FindGalaxies(Expand(space))))
            == GetSum(FindDistancesSumSets(FindGalaxies(space), rows, cols, 2))
  {
    SetsMatchExpanded(space, rows, cols);
  }
}
