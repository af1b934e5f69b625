/** Day 17 (Clumsy Crucible): directions, headings and the rule that forbids
    going straight on or turning back, as `main.rs` and `working.rs` state it.
    `main.rs` names the four directions; `working.rs` uses their row/column
    offsets and the offset (0, 0) for "no direction yet". */
module Crucible {
  import opened Text

  datatype Direction = Up | Right | Down | Left

  /** The row and column offset of one step (`get_diff`). */
  function Diff(d: Direction): (v: (int, int))
    ensures v.0 == 0 <==> v.1 != 0
    ensures -1 <= v.0 <= 1 && -1 <= v.1 <= 1
  {
    match d
    case Up => (-1, 0)
    case Right => (0, 1)
    case Down => (1, 0)
    case Left => (0, -1)
  }

  function Negate(v: (int, int)): (int, int)
  {
    (-v.0, -v.1)
  }

  /** `is_opposite`. */
  predicate IsOpposite(a: Direction, b: Direction)
  {
    match a
    case Up => b == Down
    case Right => b == Left
    case Down => b == Up
    case Left => b == Right
  }

  /** Different directions have different offsets. */
  lemma DiffInjective(a: Direction, b: Direction)
    ensures Diff(a) == Diff(b) <==> a == b
  {
  }

  /** Two directions are opposite exactly when their offsets are negations of
      each other, so every direction has exactly one opposite. */
  lemma OppositeIsNegatedDiff(a: Direction, b: Direction)
    ensures IsOpposite(a, b) <==> Diff(b) == Negate(Diff(a))
  {
  }

  /** `is_opposite` is symmetric and irreflexive. */
  lemma OppositeSymmetric(a: Direction, b: Direction)
    ensures IsOpposite(a, b) <==> IsOpposite(b, a)
    ensures !IsOpposite(a, a)
  {
  }

  /** What the crucible last did: nothing yet, or a run in some direction. */
  datatype Heading = Start | Moving(dir: Direction)

  const AllHeadings: set<Heading> := {Start, Moving(Up), Moving(Right), Moving(Down), Moving(Left)}

  lemma AllHeadingsComplete(h: Heading)
    ensures h in AllHeadings
  {
    match h
    case Start =>
    case Moving(d) =>
      match d
      case Up =>
      case Right =>
      case Down =>
      case Left =>
  }

  /** The turn rule of `main.rs`: after a run in direction `d` the next run may
      go neither in `d` nor in its opposite. A search that has not moved yet
      (the `Start` heading of `working.rs`) may go anywhere. */
  predicate Excluded(h: Heading, next: Direction)
  {
    match h
    case Start => false
    case Moving(d) => next == d || IsOpposite(d, next)
  }

  /** The offset `working.rs` stores as the heading: (0, 0) before the first run. */
  function HeadingVector(h: Heading): (v: (int, int))
  {
    match h
    case Start => (0, 0)
    case Moving(d) => Diff(d)
  }

  /** The turn rule of `working.rs`: a direction is skipped when its offset or
      the negated offset equals the stored heading. */
  predicate TupleExcluded(v: (int, int), next: Direction)
  {
    Diff(next) == v || Negate(Diff(next)) == v
  }

  /** Both files forbid the same turns, and the sentinel (0, 0) forbids none. */
  lemma TupleRuleAgrees(h: Heading, next: Direction)
    ensures TupleExcluded(HeadingVector(h), next) <==> Excluded(h, next)
    ensures h == Start ==> !TupleExcluded(HeadingVector(h), next)
  {
  }

  /** The vector stored as heading determines the heading. */
  lemma HeadingVectorInjective(h1: Heading, h2: Heading)
    ensures HeadingVector(h1) == HeadingVector(h2) <==> h1 == h2
  {
  }

  // ---------------------------------------------------------------------------
  // Parsing the heat-loss map

  type Grid = seq<seq<nat>>

  /** Text made of decimal digits and newlines only (anything else makes
      `to_digit(10).unwrap()` panic). */
  predicate DigitText(s: string)
  {
    forall c :: c in s ==> IsDigit(c) || c == '\n'
  }

  function DigitRow(line: string): (row: seq<nat>)
    requires AllDigits(line)
    ensures |row| == |line|
    ensures forall j :: 0 <= j < |row| ==> row[j] == DigitValue(line[j]) && row[j] < 10
  {
    if line == [] then [] else [DigitValue(line[0])] + DigitRow(line[1..])
  }

  lemma DigitLines(s: string)
    requires DigitText(s)
    ensures forall i :: 0 <= i < |Lines(s)| ==> AllDigits(Lines(s)[i])
  {
    var parts := Split(s, "\n");
    SplitChars(s, "\n");
    NewlineFree(s);
    forall i, j | 0 <= i < |parts| && 0 <= j < |parts[i]|
      ensures IsDigit(parts[i][j])
    {
      assert parts[i][j] in parts[i];
    }
  }

  /** `parse`: one row per line, each character read as its digit value. */
  function Parse(s: string): (g: Grid)
    requires DigitText(s)
    ensures |g| == |Lines(s)|
    ensures forall i :: 0 <= i < |g| ==> |g[i]| == |Lines(s)[i]|
    ensures forall i, j :: 0 <= i < |g| && 0 <= j < |g[i]| ==> AllDigits(Lines(s)[i]) && g[i][j] == DigitValue(Lines(s)[i][j])
  {
    var ls := Lines(s);
    DigitLines(s);
    seq(|ls|, i requires 0 <= i < |ls| => DigitRow(ls[i]))
  }

  /** The text of a map of single digits, one line per row. */
  function Format(g: Grid): string
    requires forall i, j :: 0 <= i < |g| && 0 <= j < |g[i]| ==> g[i][j] < 10
  {
    Unlines(seq(|g|, i requires 0 <= i < |g| => FormatRow(g[i])))
  }

  function FormatRow(row: seq<nat>): (line: string)
    requires forall j :: 0 <= j < |row| ==> row[j] < 10
    ensures |line| == |row| && AllDigits(line)
    ensures forall j :: 0 <= j < |row| ==> DigitValue(line[j]) == row[j]
  {
    if row == [] then [] else [DigitChar(row[0])] + FormatRow(row[1..])
  }

  /** Parsing the text of a digit map gives the map back. */
  lemma ParseFormat(g: Grid)
    requires forall i, j :: 0 <= i < |g| && 0 <= j < |g[i]| ==> g[i][j] < 10
    ensures DigitText(Format(g)) && Parse(Format(g)) == g
  {
    var ls := seq(|g|, i requires 0 <= i < |g| => FormatRow(g[i]));
    forall i | 0 <= i < |ls|
      ensures Free(ls[i], '\n')
    {
      assert AllDigits(ls[i]);
    }
    LinesUnlines(ls);
    UnlinesDigits(ls);
    var p := Parse(Format(g));
    assert |p| == |g|;
    forall i | 0 <= i < |g|
      ensures p[i] == g[i]
    {
    }
  }

  lemma {:induction false} UnlinesDigits(ls: seq<string>)
    requires forall i :: 0 <= i < |ls| ==> AllDigits(ls[i])
    ensures DigitText(Unlines(ls))
    decreases |ls|
  {
    if |ls| > 0 {
      UnlinesDigits(ls[1..]);
      var s := Unlines(ls);
      assert s == ls[0] + "\n" + Unlines(ls[1..]);
      forall c | c in s
        ensures IsDigit(c) || c == '\n'
      {
        if c in ls[0] {
          var j :| 0 <= j < |ls[0]| && ls[0][j] == c;
        }
      }
    }
  }
}
