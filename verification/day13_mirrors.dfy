/** Day 13 (Point of Incidence): finding the line of reflection of a pattern
    of ash and rocks, allowing a fixed number of smudged cells. */
module PointOfIncidence {
  import opened Wrappers
  import opened Text

  datatype Element = Ash | Rock

  /** A pattern, one row per line. */
  type Pattern = seq<seq<Element>>

  // ---------------------------------------------------------------------------
  // Parsing

  function ParseElement(ch: char): (r: Option<Element>)
  {
    if ch == '.' then Some(Ash) else if ch == '#' then Some(Rock) else None
  }

  function ElementChar(e: Element): char
  {
    if e == Ash then '.' else '#'
  }

  /** `parse_line`: '.' is ash and '#' is rock; any other character is a
      `ParseSubPatternError`, here `None`. */
  function ParseLine(s: string): (r: Option<seq<Element>>)
    ensures r.Some? <==> forall i :: 0 <= i < |s| ==> s[i] in ".#"
    ensures r.Some? ==> FormatLine(r.value) == s
  {
    if |s| == 0 then Some([])
    else
      var e :- ParseElement(s[0]);
      var rest :- ParseLine(s[1..]);
      assert forall i :: 1 <= i < |s| ==> s[i] == s[1..][i - 1];
      assert FormatLine([e] + rest) == [s[0]] + s[1..];
      Some([e] + rest)
  }

  /** A row drawn with '.' and '#'. */
  function FormatLine(row: seq<Element>): (s: string)
    ensures |s| == |row| && Free(s, '\n')
  {
    seq(|row|, i requires 0 <= i < |row| => ElementChar(row[i]))
  }

  lemma {:induction false} ParseFormatLine(row: seq<Element>)
    ensures ParseLine(FormatLine(row)) == Some(row)
    decreases |row|
  {
    if |row| > 0 {
      ParseFormatLine(row[1..]);
      assert FormatLine(row)[1..] == FormatLine(row[1..]);
      assert [row[0]] + row[1..] == row;
    }
  }

  function ParseLines(ls: seq<string>): (r: Option<Pattern>)
    ensures r.Some? ==> |r.value| == |ls|
    ensures r.Some? <==> forall i :: 0 <= i < |ls| ==> ParseLine(ls[i]).Some?
    ensures r.Some? ==> forall i :: 0 <= i < |ls| ==> r.value[i] == ParseLine(ls[i]).value
  {
    if |ls| == 0 then Some([])
    else
      var row :- ParseLine(ls[0]);
      var rest :- ParseLines(ls[1..]);
      assert forall i :: 1 <= i < |ls| ==> ls[i] == ls[1..][i - 1];
      Some([row] + rest)
  }

  /** `parse_pattern`: every line of the text parsed as a row; the first bad
      line makes the whole pattern an error. */
  function ParsePattern(input: string): (r: Option<Pattern>)
    ensures r.Some? <==> forall i :: 0 <= i < |Lines(input)| ==> ParseLine(Lines(input)[i]).Some?
    ensures r.Some? ==> |r.value| == |Lines(input)|
  {
    ParseLines(Lines(input))
  }

  function FormatPattern(p: Pattern): (ls: seq<string>)
    ensures |ls| == |p| && forall i :: 0 <= i < |p| ==> ls[i] == FormatLine(p[i])
  {
    seq(|p|, i requires 0 <= i < |p| => FormatLine(p[i]))
  }

  /** Every pattern is read back from its drawing. */
  lemma ParseFormatPattern(p: Pattern)
    ensures ParsePattern(Unlines(FormatPattern(p))) == Some(p)
  {
    var ls := FormatPattern(p);
    LinesUnlines(ls);
    forall i | 0 <= i < |p|
      ensures ParseLine(ls[i]) == Some(p[i])
    {
      ParseFormatLine(p[i]);
    }
    var r := ParseLines(ls);
    assert r.Some?;
    assert r.value == p;
  }

  // ---------------------------------------------------------------------------
  // Transposing

  /** No row is longer than the first, so `transpose` writes inside its
      table. */
  predicate NoneLonger(p: Pattern)
  {
    |p| > 0 && forall i :: 0 <= i < |p| ==> |p[i]| <= |p[0]|
  }

  predicate Rectangular(p: Pattern)
  {
    forall i :: 0 <= i < |p| ==> |p[i]| == |p[0]|
  }

  /** The transposed table: one row per column of the first row, cell (j, i)
      the cell (i, j), and ash where a shorter row has no cell. */
  function Transposed(p: Pattern): (t: Pattern)
    requires |p| > 0
  {
    seq(|p[0]|, j requires 0 <= j < |p[0]| =>
      seq(|p|, i requires 0 <= i < |p| => if j < |p[i]| then p[i][j] else Ash))
  }

  /** Transposing a rectangular pattern twice gives it back. */
  lemma TransposeTwice(p: Pattern)
    requires |p| > 0 && |p[0]| > 0 && Rectangular(p)
    ensures Rectangular(Transposed(p)) && Transposed(Transposed(p)) == p
  {
    var t := Transposed(p);
    var tt := Transposed(t);
    forall i | 0 <= i < |p|
      ensures tt[i] == p[i]
    {
      forall j | 0 <= j < |p[i]|
        ensures tt[i][j] == p[i][j]
      {
        assert tt[i][j] == t[j][i];
      }
    }
  }

  /** `transpose`: the table starts as ash, `pattern[0].len()` rows of
      `pattern.len()` cells, and the loops copy cell (i, j) to (j, i). */
  method Transpose(p: Pattern) returns (t: Pattern)
    requires NoneLonger(p)
    ensures t == Transposed(p)
    ensures |t| == |p[0]| && Rectangular(t)
  {
    var width, height := |p[0]|, |p|;
    t := seq(width, _ => seq(height, _ => Ash));
    for i := 0 to height
      invariant |t| == width && forall j :: 0 <= j < width ==> |t[j]| == height
      invariant forall j, k :: 0 <= j < width && 0 <= k < height ==>
        t[j][k] == if Copied(p, i, 0, k, j) then p[k][j] else Ash
    {
      for j := 0 to |p[i]|
        invariant |t| == width && forall j' :: 0 <= j' < width ==> |t[j']| == height
        invariant forall j', k :: 0 <= j' < width && 0 <= k < height ==>
          t[j'][k] == if Copied(p, i, j, k, j') then p[k][j'] else Ash
      {
        t := t[j := t[j][i := p[i][j]]];
      }
    }
    forall j | 0 <= j < width
      ensures t[j] == Transposed(p)[j]
    {
      assert forall k :: 0 <= k < height ==> t[j][k] == Transposed(p)[j][k];
    }
  }

  /** The loops of `transpose` have copied cell (k, c) once they have done
      the rows above row `i` and the first `j` cells of row `i`. */
  predicate Copied(p: Pattern, i: nat, j: nat, k: nat, c: nat)
    requires k < |p|
  {
    (k < i && c < |p[k]|) || (k == i && c < j)
  }

  method TransposeExample() returns (t: Pattern)
    ensures t == [[Ash, Ash, Rock], [Rock, Rock, Ash]]
  {
    var p := [[Ash, Rock], [Ash, Rock], [Rock, Ash]];
    t := Transpose(p);
    assert t[0] == [Ash, Ash, Rock];
    assert t[1] == [Rock, Rock, Ash];
  }

  // ---------------------------------------------------------------------------
  // Counting smudges

  /** No row is shorter than the first, so every row has the cells
      `check_expand` compares. */
  predicate NoneShorter(p: Pattern)
  {
    forall i :: 0 <= i < |p| ==> |p[i]| >= |p[0]|
  }

  /** The number of the first `w` cells where rows `a` and `b` differ. */
  function RowDiff(a: seq<Element>, b: seq<Element>, w: nat): (n: nat)
    requires w <= |a| && w <= |b|
    ensures n <= w
  {
    if w == 0 then 0 else RowDiff(a, b, w - 1) + (if a[w - 1] != b[w - 1] then 1 else 0)
  }

  /** Rows that differ nowhere in the first `w` cells agree there. */
  lemma {:induction false} RowDiffZero(a: seq<Element>, b: seq<Element>, w: nat)
    requires w <= |a| && w <= |b|
    ensures RowDiff(a, b, w) == 0 <==> a[..w] == b[..w]
    decreases w
  {
    if w > 0 {
      RowDiffZero(a, b, w - 1);
      assert a[..w] == a[..w - 1] + [a[w - 1]] && b[..w] == b[..w - 1] + [b[w - 1]];
      if a[..w] == b[..w] {
        assert a[..w - 1] == a[..w][..w - 1] && b[..w - 1] == b[..w][..w - 1];
        assert a[..w][w - 1] == a[w - 1] && b[..w][w - 1] == b[w - 1];
      }
    }
  }

  /** The cells that differ between row `left - k` and row `right + k`, over
      every `k` that keeps both inside the pattern. */
  function Mismatches(p: Pattern, left: int, right: nat): (n: nat)
    requires NoneShorter(p) && left <= right
    decreases |p| - right
  {
    if left < 0 || right >= |p| then 0
    else RowDiff(p[left], p[right], |p[0]|) + Mismatches(p, left - 1, right + 1)
  }

  /** Rows `a` and `b` agree on the cells `check_expand` compares. */
  predicate Same(p: Pattern, a: nat, b: nat)
    requires NoneShorter(p) && a < |p| && b < |p|
  {
    p[a][..|p[0]|] == p[b][..|p[0]|]
  }

  /** Rows mirror each other about the gap between `left` and `right`: every
      row `a` at or above `left` equals the row `b` at or below `right` that
      is as far from the gap. */
  predicate Mirrored(p: Pattern, left: int, right: nat)
    requires NoneShorter(p) && left <= right
  {
    forall a: nat, b: nat :: a <= left && right <= b < |p| && a + b == left + right ==> Same(p, a, b)
  }

  /** No mismatch means a perfect reflection. */
  lemma {:induction false} MismatchesZero(p: Pattern, left: int, right: nat)
    requires NoneShorter(p) && left <= right
    ensures Mismatches(p, left, right) == 0 <==> Mirrored(p, left, right)
    decreases |p| - right
  {
    if left >= 0 && right < |p| {
      MismatchesZero(p, left - 1, right + 1);
      RowDiffZero(p[left], p[right], |p[0]|);
      if Mismatches(p, left, right) == 0 {
        forall a: nat, b: nat | a <= left && right <= b < |p| && a + b == left + right
          ensures Same(p, a, b)
        {
          if a < left {
            assert a <= left - 1 && right + 1 <= b;
          }
        }
      }
      if Mirrored(p, left, right) {
        assert Same(p, left, right);
        assert Mirrored(p, left - 1, right + 1);
      }
    }
  }

  /** `check_expand`: the mismatches counted outwards from rows `left` and
      `right`, stopping after the pair of rows that takes the count over the
      threshold. Within the threshold the count is the whole reflection's;
      over it, so is the whole reflection's. */
  method CheckExpand(p: Pattern, left: int, right: nat, threshold: nat) returns (errors: nat)
    requires NoneShorter(p) && left <= right
    ensures errors <= threshold ==> errors == Mismatches(p, left, right)
    ensures errors > threshold ==> Mismatches(p, left, right) > threshold
  {
    var l, r := left, right;
    errors := 0;
    while l >= 0 && r < |p|
      invariant l <= r
      invariant errors <= threshold
      invariant errors + Mismatches(p, l, r) == Mismatches(p, left, right)
      decreases |p| - r
    {
      var before := errors;
      for j := 0 to |p[0]|
        invariant errors == before + RowDiff(p[l], p[r], j)
      {
        if p[l][j] != p[r][j] {
          errors := errors + 1;
        }
      }
      if errors > threshold {
        break;
      }
      l := l - 1;
      r := r + 1;
    }
  }

  // ---------------------------------------------------------------------------
  // The order of the search

  /** The `k`-th row of the middle-out order over `n` rows: the middle row
      `n / 2`, then one below and one above at each distance, below first. */
  function MiddleOut(n: nat, k: nat): (x: nat)
    requires k < n
    ensures x < n
  {
    var i := n / 2;
    if k == 0 then i
    else if k % 2 == 1 then i - (k + 1) / 2
    else i + k / 2
  }

  /** Where row `x` comes in the middle-out order: the inverse of
      `MiddleOut`. */
  function MiddleIndex(n: nat, x: nat): (k: nat)
    requires x < n
    ensures k < n && MiddleOut(n, k) == x
  {
    var i := n / 2;
    if x == i then 0
    else if x < i then 2 * (i - x) - 1
    else 2 * (x - i)
  }

  /** Every position of the order names a different row, so the order is a
      permutation of the rows. */
  lemma MiddleOutInjective(n: nat, k: nat)
    requires k < n
    ensures MiddleIndex(n, MiddleOut(n, k)) == k
  {
  }

  /** Rows come out by distance from the middle, the one below first. */
  lemma MiddleOutOrder(n: nat, a: nat, b: nat)
    requires a < b < n
    ensures Distance(n, MiddleOut(n, a)) <= Distance(n, MiddleOut(n, b))
    ensures Distance(n, MiddleOut(n, a)) == Distance(n, MiddleOut(n, b)) ==> MiddleOut(n, a) < MiddleOut(n, b)
  {
  }

  function Distance(n: nat, x: nat): nat
  {
    if x < n / 2 then n / 2 - x else x - n / 2
  }

  /** `get_indexes_from_middle`: the rows in middle-out order. The Rust code
      loops forever for 0 rows. */
  method GetIndexesFromMiddle(n: nat) returns (rows: seq<nat>)
    requires n >= 1
    ensures |rows| == n
    ensures forall k :: 0 <= k < n ==> rows[k] == MiddleOut(n, k)
  {
    var i := n / 2;
    rows := [i];
    var step := 1;
    while |rows| != n
      invariant step >= 1 && 2 * step - 2 <= n
      invariant |rows| == if 2 * step - 1 <= n then 2 * step - 1 else n
      invariant forall k :: 0 <= k < |rows| ==> rows[k] == MiddleOut(n, k)
      decreases n - |rows|
    {
      if i - step >= 0 {
        rows := rows + [i - step];
      }
      if i + step < n {
        rows := rows + [i + step];
      }
      step := step + 1;
    }
  }

  method IndexesExamples() returns (five: seq<nat>, six: seq<nat>)
    ensures five == [2, 1, 3, 0, 4]
    ensures six == [3, 2, 4, 1, 5, 0]
  {
    five := GetIndexesFromMiddle(5);
    six := GetIndexesFromMiddle(6);
  }

  // ---------------------------------------------------------------------------
  // The mirror

  /** A line of reflection after row `k` with exactly `threshold` smudges. */
  predicate Reflects(p: Pattern, k: nat, threshold: nat)
    requires NoneShorter(p)
  {
    Mismatches(p, k, k + 1) == threshold
  }

  /** `get_mirror`: the number of rows above the first line of reflection in
      middle-out order whose mismatch count is exactly the threshold, or 0 when
      there is none. The gap after the last row is no line. */
  method GetMirror(p: Pattern, threshold: nat) returns (r: nat)
    requires |p| > 0 && NoneShorter(p)
    ensures r < |p|
    ensures r > 0 ==> Reflects(p, r - 1, threshold)
    ensures r > 0 ==> forall k :: 0 <= k < |p| - 1 && MiddleIndex(|p|, k) < MiddleIndex(|p|, r - 1) ==>
      !Reflects(p, k, threshold)
    ensures r == 0 ==> forall k :: 0 <= k < |p| - 1 ==> !Reflects(p, k, threshold)
  {
    var n := |p|;
    var order := GetIndexesFromMiddle(n);
    for m := 0 to n
      invariant forall m' :: 0 <= m' < m && order[m'] != n - 1 ==> !Reflects(p, order[m'], threshold)
    {
      var i := order[m];
      if i == n - 1 {
        continue;
      }
      var errors := CheckExpand(p, i, i + 1, threshold);
      if errors == threshold {
        forall k | 0 <= k < n - 1 && MiddleIndex(n, k) < MiddleIndex(n, i)
          ensures !Reflects(p, k, threshold)
        {
          assert order[MiddleIndex(n, k)] == k;
        }
        return i + 1;
      }
    }
    forall k | 0 <= k < n - 1
      ensures !Reflects(p, k, threshold)
    {
      assert order[MiddleIndex(n, k)] == k;
    }
    return 0;
  }

  /** With no smudge allowed, a line of reflection is a perfect mirror. */
  lemma ReflectsPerfect(p: Pattern, k: nat)
    requires NoneShorter(p)
    ensures Reflects(p, k, 0) <==> Mirrored(p, k, k + 1)
  {
    MismatchesZero(p, k, k + 1);
  }
}
