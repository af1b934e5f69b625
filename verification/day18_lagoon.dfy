/** Day 18 (Lavaduct Lagoon): the dig plan, read either from its direction
    letters and decimal lengths or from its colour codes, and the number of
    cubic metres of lagoon the plan encloses, by the shoelace formula plus
    the trench. */
module Lagoon {
  import opened Wrappers
  import opened Text

  datatype Direction = Up | Right | Down | Left

  /** `Direction::parse`: the letters U, R, D, L. Any other text panics,
      which is `None` here. */
  function ParseDirection(s: string): (r: Option<Direction>)
    ensures r.Some? <==> s == "U" || s == "R" || s == "D" || s == "L"
  {
    if s == "U" then Some(Up)
    else if s == "R" then Some(Right)
    else if s == "D" then Some(Down)
    else if s == "L" then Some(Left)
    else None
  }

  /** `Display for Direction`. */
  function Show(d: Direction): string
  {
    match d
    case Up => "U"
    case Right => "R"
    case Down => "D"
    case Left => "L"
  }

  /** Parsing and display are inverse: a text parses to `d` exactly when it
      is the display of `d`. */
  lemma ParseShow(s: string, d: Direction)
    ensures ParseDirection(s) == Some(d) <==> s == Show(d)
  {
  }

  /** `Direction::parse_2`: the last digit of a colour code, 0 right, 1 down,
      2 left and 3 up. Any other character panics, which is `None` here. */
  function ParseCodeDirection(c: char): (r: Option<Direction>)
    ensures r.Some? <==> '0' <= c <= '3'
  {
    match c
    case '3' => Some(Up)
    case '0' => Some(Right)
    case '1' => Some(Down)
    case '2' => Some(Left)
    case _ => None
  }

  /** The colour-code digit of a direction. */
  function CodeDigit(d: Direction): (c: char)
    ensures IsHexDigit(c)
  {
    match d
    case Right => '0'
    case Down => '1'
    case Left => '2'
    case Up => '3'
  }

  /** The digit of each direction parses back to it, and only that digit does. */
  lemma CodeDigitParses(c: char, d: Direction)
    ensures ParseCodeDirection(c) == Some(d) <==> c == CodeDigit(d)
  {
  }

  // ---------------------------------------------------------------------------
  // Points and steps

  /** A position; `y` grows downwards. The Rust code's `i64` coordinates are
      unbounded here. */
  datatype Point = Point(x: int, y: int)

  const Origin := Point(0, 0)

  function Opposite(d: Direction): Direction
  {
    match d
    case Up => Down
    case Down => Up
    case Right => Left
    case Left => Right
  }

  /** `Point::get_next`: the point `length` units away in direction `d`. Up
      decreases `y` and down increases it; left decreases `x` and right
      increases it. */
  function GetNext(p: Point, d: Direction, length: int): (r: Point)
    ensures d == Up || d == Down ==> r.x == p.x && r.y == p.y + (if d == Down then length else -length)
    ensures d == Left || d == Right ==> r.y == p.y && r.x == p.x + (if d == Right then length else -length)
  {
    match d
    case Up => Point(p.x, p.y - length)
    case Right => Point(p.x + length, p.y)
    case Down => Point(p.x, p.y + length)
    case Left => Point(p.x - length, p.y)
  }

  /** Going back the same distance the opposite way returns to the start, and
      two moves in one direction add up. */
  lemma GetNextBack(p: Point, d: Direction, a: int, b: int)
    ensures GetNext(GetNext(p, d, a), Opposite(d), a) == p
    ensures GetNext(GetNext(p, d, a), d, b) == GetNext(p, d, a + b)
  {
  }

  datatype Step = Step(direction: Direction, length: int)

  /** Rust's `str::parse::<i64>` wrapped for the step length. */
  function ParseLength(s: string): (r: Option<int>)
    ensures r.Some? ==> I64_MIN <= r.value <= I64_MAX
  {
    ParseI64(s)
  }

  /** `Step::parse`: the first space-separated piece is the direction letter,
      the second the decimal length; later pieces are ignored. A missing
      piece, an unknown letter or a bad number panics, which is `None` here. */
  function ParseStep(s: string): (r: Option<Step>)
    ensures r.Some? ==> (|Split(s, " ")| >= 2
      && ParseDirection(Split(s, " ")[0]) == Some(r.value.direction)
      && ParseLength(Split(s, " ")[1]) == Some(r.value.length))
  {
    var split := Split(s, " ");
    if |split| < 2 then None
    else
      var d :- ParseDirection(split[0]);
      var n :- ParseLength(split[1]);
      Some(Step(d, n))
  }

  /** Rust's `i64::from_str_radix(s, 16)`: an optional sign, then one or more
      hexadecimal digits, with the value in range. */
  function ParseHexI64(s: string): (r: Option<int>)
    ensures r.Some? ==> I64_MIN <= r.value <= I64_MAX
    ensures AllHexDigits(s) && |s| > 0 ==> (r.Some? <==> HexValue(s) <= I64_MAX)
    ensures AllHexDigits(s) && |s| > 0 && r.Some? ==> r.value == HexValue(s)
  {
    if |s| > 0 && s[0] == '-' then
      var d := s[1..];
      if |d| > 0 && AllHexDigits(d) && HexValue(d) <= -I64_MIN then Some(0 - HexValue(d) as int) else None
    else
      var d := if |s| > 0 && s[0] == '+' then s[1..] else s;
      if |d| > 0 && AllHexDigits(d) && HexValue(d) <= I64_MAX then Some(HexValue(d)) else None
  }

  /** `Step::parse_2`: the last space-separated piece must read "(#", a code,
      ")"; the code's last character is the direction and the characters
      before it are the length in base 16. Every failing `unwrap` and panic
      is `None` here. */
  function ParseStepCode(s: string): (r: Option<Step>)
  {
    var split := Split(s, " ");
    var piece := split[|split| - 1];
    var inner :- StripPrefix(piece, "(#");
    var code :- StripSuffix(inner, ")");
    if |code| == 0 then None
    else
      var d :- ParseCodeDirection(code[|code| - 1]);
      var n :- ParseHexI64(code[..|code| - 1]);
      Some(Step(d, n))
  }

  /** The colour code of a step: "(#", the length as five hexadecimal
      digits, the direction digit and ")". */
  function Code(n: nat, d: Direction): string
    requires n < Pow16(5)
  {
    "(#" + Hex(n, 5) + [CodeDigit(d)] + ")"
  }

  lemma DecimalFree(n: nat)
    ensures Free(Decimal(n), ' ')
  {
    var num := Decimal(n);
    forall k | 0 <= k < |num|
      ensures num[k] != ' '
    {
      assert IsDigit(num[k]);
    }
  }

  lemma CodeFree(n: nat, d: Direction)
    requires n < Pow16(5)
    ensures Free(Code(n, d), ' ')
  {
    var code := Code(n, d);
    var h := Hex(n, 5);
    forall k | 0 <= k < |code|
      ensures code[k] != ' '
    {
      if 2 <= k < 7 {
        assert code[k] == h[k - 2];
        assert IsHexDigit(h[k - 2]);
      }
    }
  }

  /** The colour code of a step reads back as the step. */
  lemma CodeParses(n: nat, d: Direction, piece: string)
    requires n < Pow16(5) && piece == Code(n, d)
    ensures StripPrefix(piece, "(#").Some?
    ensures StripSuffix(StripPrefix(piece, "(#").value, ")") == Some(Hex(n, 5) + [CodeDigit(d)])
    ensures ParseHexI64(Hex(n, 5)) == Some(n)
  {
    var h := Hex(n, 5);
    assert piece == "(#" + (h + [CodeDigit(d)] + ")");
    assert StripPrefix(piece, "(#") == Some(h + [CodeDigit(d)] + ")");
    assert Pow16(5) <= I64_MAX;
  }

  lemma JoinThree(a: string, b: string, c: string)
    ensures Join([a, b, c], " ") == a + " " + b + " " + c
  {
    assert [a, b, c][1..] == [b, c];
    assert [b, c][1..] == [c];
    assert Join([b, c], " ") == b + " " + c;
    assert Join([a, b, c], " ") == a + " " + (b + " " + c);
  }

  /** A plan line: the direction letter, the decimal length and the colour
      code, separated by single spaces. */
  function PlanLine(d: Direction, length: nat, n: nat, e: Direction): string
    requires n < Pow16(5)
  {
    Show(d) + " " + Decimal(length) + " " + Code(n, e)
  }

  lemma PlanLineSplit(d: Direction, length: nat, n: nat, e: Direction)
    requires n < Pow16(5)
    ensures Split(PlanLine(d, length, n, e), " ") == [Show(d), Decimal(length), Code(n, e)]
  {
    JoinThree(Show(d), Decimal(length), Code(n, e));
    DecimalFree(length);
    CodeFree(n, e);
    SplitJoin([Show(d), Decimal(length), Code(n, e)], " ");
  }

  lemma ParseLineLetter(d: Direction, length: nat, n: nat, e: Direction)
    requires length <= I64_MAX && n < Pow16(5)
    ensures ParseStep(PlanLine(d, length, n, e)) == Some(Step(d, length))
  {
    PlanLineSplit(d, length, n, e);
    ParseDecimal(length, I64_MAX);
    assert ParseLength(Decimal(length)) == Some(length);
  }

  lemma ParseLineCode(d: Direction, length: nat, n: nat, e: Direction)
    requires n < Pow16(5)
    ensures ParseStepCode(PlanLine(d, length, n, e)) == Some(Step(e, n))
  {
    PlanLineSplit(d, length, n, e);
    CodeParses(n, e, Code(n, e));
    var inner := Hex(n, 5) + [CodeDigit(e)];
    assert inner[..5] == Hex(n, 5);
  }

  /** A plan line such as "D 6 (#70c710)" is read as the step of its letter
      and decimal length by `Step::parse`, and as the step of its colour code
      by `Step::parse_2`. */
  lemma ParseLine(d: Direction, length: nat, n: nat, e: Direction)
    requires length <= I64_MAX && n < Pow16(5)
    ensures ParseStep(PlanLine(d, length, n, e)) == Some(Step(d, length))
    ensures ParseStepCode(PlanLine(d, length, n, e)) == Some(Step(e, n))
  {
    ParseLineLetter(d, length, n, e);
    ParseLineCode(d, length, n, e);
  }

  /** Collecting the parsed lines: one step per line, in order, and `None`
      as soon as one line does not parse. */
  function ParseAll(lines: seq<string>, parse: string -> Option<Step>): (r: Option<seq<Step>>)
    ensures r.Some? <==> forall i :: 0 <= i < |lines| ==> parse(lines[i]).Some?
    ensures r.Some? ==> |r.value| == |lines|
    ensures r.Some? ==> forall i :: 0 <= i < |lines| ==> parse(lines[i]) == Some(r.value[i])
  {
    if lines == [] then Some([])
    else
      var first :- parse(lines[0]);
      var rest :- ParseAll(lines[1..], parse);
      assert forall i :: 1 <= i < |lines| ==> lines[i] == lines[1..][i - 1];
      Some([first] + rest)
  }

  /** `parse_steps`: every line of the plan read by `parse`, which is
      `ParseStep` for the first part and `ParseStepCode` for the second. */
  function ParseSteps(s: string, parse: string -> Option<Step>): (r: Option<seq<Step>>)
    ensures r.Some? <==> forall i :: 0 <= i < |Lines(s)| ==> parse(Lines(s)[i]).Some?
    ensures r.Some? ==> |r.value| == |Lines(s)|
    ensures r.Some? ==> forall i :: 0 <= i < |r.value| ==> parse(Lines(s)[i]) == Some(r.value[i])
  {
    ParseAll(Lines(s), parse)
  }

  // ---------------------------------------------------------------------------
  // The area

  /** The cross product `x1 * y2 - y1 * x2` of two consecutive corners. */
  function Cross(p: Point, q: Point): int
  {
    p.x * q.y - p.y * q.x
  }

  /** The corner the plan reaches from `p`. */
  function End(p: Point, steps: seq<Step>): Point
    decreases |steps|
  {
    if steps == [] then p else End(GetNext(p, steps[0].direction, steps[0].length), steps[1..])
  }

  /** The sum the loop of `get_area` accumulates from corner `p`: for each
      step the cross product of its two corners plus its length. */
  function Shoelace(p: Point, steps: seq<Step>): int
    decreases |steps|
  {
    if steps == [] then 0
    else
      var q := GetNext(p, steps[0].direction, steps[0].length);
      Cross(p, q) + steps[0].length + Shoelace(q, steps[1..])
  }

  function Abs(n: int): nat
  {
    if n < 0 then -n else n
  }

  /** `get_area`: one more than half the absolute accumulated sum, halved
      with truncation (the sum's absolute value is never negative, so Rust's
      truncating `/` and Dafny's agree). */
  function GetArea(steps: seq<Step>): (r: nat)
    ensures r >= 1
  {
    1 + Abs(Shoelace(Origin, steps)) / 2
  }

  /** The plan returns to the corner it starts from. */
  predicate Closed(steps: seq<Step>)
  {
    End(Origin, steps) == Origin
  }

  /** The twice-signed area of the polygon the plan traces from `p`. */
  function Twice(p: Point, steps: seq<Step>): int
    decreases |steps|
  {
    if steps == [] then 0
    else
      var q := GetNext(p, steps[0].direction, steps[0].length);
      Cross(p, q) + Twice(q, steps[1..])
  }

  /** The total length of the trench. */
  function Perimeter(steps: seq<Step>): int
  {
    if steps == [] then 0 else steps[0].length + Perimeter(steps[1..])
  }

  /** The accumulated sum is the twice-signed area plus the trench length. */
  lemma {:induction false} ShoelaceParts(p: Point, steps: seq<Step>)
    ensures Shoelace(p, steps) == Twice(p, steps) + Perimeter(steps)
    decreases |steps|
  {
    if steps != [] {
      ShoelaceParts(GetNext(p, steps[0].direction, steps[0].length), steps[1..]);
    }
  }

  lemma {:induction false} TwiceAppend(p: Point, a: seq<Step>, b: seq<Step>)
    ensures Twice(p, a + b) == Twice(p, a) + Twice(End(p, a), b)
    ensures End(p, a + b) == End(End(p, a), b)
    decreases |a|
  {
    if a == [] {
      assert a + b == b;
    } else {
      assert (a + b)[1..] == a[1..] + b;
      TwiceAppend(GetNext(p, a[0].direction, a[0].length), a[1..], b);
    }
  }

  lemma {:induction false} PerimeterAppend(a: seq<Step>, b: seq<Step>)
    ensures Perimeter(a + b) == Perimeter(a) + Perimeter(b)
    decreases |a|
  {
    if a == [] {
      assert a + b == b;
    } else {
      assert (a + b)[1..] == a[1..] + b;
      PerimeterAppend(a[1..], b);
    }
  }

  function Shift(p: Point, v: Point): Point
  {
    Point(p.x + v.x, p.y + v.y)
  }

  /** Shifting both corners of a step by `v` changes its cross product by
      the cross product of `v` with the step. */
  lemma CrossShift(p: Point, q: Point, v: Point)
    ensures Cross(Shift(p, v), Shift(q, v)) == Cross(p, q) + v.x * (q.y - p.y) - v.y * (q.x - p.x)
  {
    calc {
      Cross(Shift(p, v), Shift(q, v));
      (p.x + v.x) * (q.y + v.y) - (p.y + v.y) * (q.x + v.x);
      p.x * q.y + p.x * v.y + v.x * q.y + v.x * v.y - (p.y * q.x + p.y * v.x + v.y * q.x + v.y * v.x);
      Cross(p, q) + v.x * (q.y - p.y) - v.y * (q.x - p.x);
    }
  }

  lemma Distrib(a: int, b: int, c: int)
    ensures a * b + a * c == a * (b + c)
  {
  }

  /** Moving the start of the plan by `v` moves every corner by `v` and
      changes the twice-signed area by the cross product of `v` with the
      whole displacement. */
  lemma {:induction false} TwiceShift(p: Point, v: Point, steps: seq<Step>)
    ensures End(Shift(p, v), steps) == Shift(End(p, steps), v)
    ensures Twice(Shift(p, v), steps)
      == Twice(p, steps) + v.x * (End(p, steps).y - p.y) - v.y * (End(p, steps).x - p.x)
    decreases |steps|
  {
    if steps != [] {
      var s := steps[0];
      var q := GetNext(p, s.direction, s.length);
      var e := End(p, steps);
      assert e == End(q, steps[1..]);
      assert GetNext(Shift(p, v), s.direction, s.length) == Shift(q, v);
      CrossShift(p, q, v);
      TwiceShift(q, v, steps[1..]);
      var c := Cross(p, q);
      var t := Twice(q, steps[1..]);
      assert Twice(p, steps) == c + t;
      assert Twice(Shift(p, v), steps) == Cross(Shift(p, v), Shift(q, v)) + Twice(Shift(q, v), steps[1..]);
      Distrib(v.x, q.y - p.y, e.y - q.y);
      Distrib(v.y, q.x - p.x, e.x - q.x);
    }
  }

  /** A closed plan encloses the same twice-signed area whichever of its
      steps the digging starts with. */
  lemma TwiceRotate(a: seq<Step>, b: seq<Step>)
    requires Closed(a + b)
    ensures Closed(b + a)
    ensures Twice(Origin, b + a) == Twice(Origin, a + b)
  {
    var e := End(Origin, a);
    TwiceAppend(Origin, a, b);
    TwiceAppend(Origin, b, a);
    assert Shift(Origin, e) == e;
    TwiceShift(Origin, e, b);
    var f := End(Origin, b);
    assert f == Point(-e.x, -e.y);
    Cancel(e.x, e.y, f.x, f.y);
    assert Twice(e, b) == Twice(Origin, b);
    assert Shift(Origin, f) == f;
    TwiceShift(Origin, f, a);
    Cancel(f.x, f.y, e.x, e.y);
    assert Twice(f, a) == Twice(Origin, a);
    assert End(f, a) == Shift(e, f) == Origin;
  }

  /** The cross product of a vector with its negation vanishes. */
  lemma Cancel(x: int, y: int, fx: int, fy: int)
    requires fx == -x && fy == -y
    ensures x * (fy - 0) - y * (fx - 0) == 0
  {
  }

  /** `get_area` of a closed plan does not depend on which step it starts
      with. */
  lemma GetAreaRotate(a: seq<Step>, b: seq<Step>)
    requires Closed(a + b)
    ensures Closed(b + a) && GetArea(b + a) == GetArea(a + b)
  {
    TwiceRotate(a, b);
    ShoelaceParts(Origin, a + b);
    ShoelaceParts(Origin, b + a);
    PerimeterAppend(a, b);
    PerimeterAppend(b, a);
  }

  /** The rectangle `w` wide and `h` high, dug clockwise on the screen from
      its top-left corner. */
  function Clockwise(w: nat, h: nat): seq<Step>
  {
    [Step(Right, w), Step(Down, h), Step(Left, w), Step(Up, h)]
  }

  /** The same rectangle dug counter-clockwise. */
  function CounterClockwise(w: nat, h: nat): seq<Step>
  {
    [Step(Down, h), Step(Right, w), Step(Up, h), Step(Left, w)]
  }

  /** The twice-signed areas of the two rectangles. */
  lemma RectangleTwice(w: nat, h: nat)
    ensures Closed(Clockwise(w, h)) && Closed(CounterClockwise(w, h))
    ensures Twice(Origin, Clockwise(w, h)) == 2 * (w * h)
    ensures Twice(Origin, CounterClockwise(w, h)) == -2 * (w * h)
    ensures Perimeter(Clockwise(w, h)) == 2 * w + 2 * h
    ensures Perimeter(CounterClockwise(w, h)) == 2 * w + 2 * h
  {
    var W: int := w;
    var H: int := h;
    var cw := Clockwise(w, h);
    assert cw[1..] == [Step(Down, h), Step(Left, w), Step(Up, h)];
    assert cw[1..][1..] == [Step(Left, w), Step(Up, h)];
    assert Cross(Point(W, 0), Point(W, H)) == W * H;
    assert Cross(Point(W, H), Point(0, H)) == W * H;
    assert Twice(Point(0, H), [Step(Up, h)]) == 0;
    assert Twice(Point(W, H), [Step(Left, w), Step(Up, h)]) == W * H;
    assert Twice(Point(W, 0), cw[1..]) == 2 * (W * H);
    assert End(Point(0, H), [Step(Up, h)]) == Origin;
    assert End(Point(W, H), [Step(Left, w), Step(Up, h)]) == Origin;
    assert End(Point(W, 0), cw[1..]) == Origin;
    assert Perimeter([Step(Up, h)]) == h;
    assert Perimeter([Step(Left, w), Step(Up, h)]) == w + h;
    assert Perimeter(cw[1..]) == w + 2 * h;
    var ccw := CounterClockwise(w, h);
    assert ccw[1..] == [Step(Right, w), Step(Up, h), Step(Left, w)];
    assert ccw[1..][1..] == [Step(Up, h), Step(Left, w)];
    assert Cross(Point(0, H), Point(W, H)) == -(W * H);
    assert Cross(Point(W, H), Point(W, 0)) == -(W * H);
    assert Twice(Point(W, 0), [Step(Left, w)]) == 0;
    assert Twice(Point(W, H), [Step(Up, h), Step(Left, w)]) == -(W * H);
    assert Twice(Point(0, H), ccw[1..]) == -2 * (W * H);
    assert End(Point(W, 0), [Step(Left, w)]) == Origin;
    assert End(Point(W, H), [Step(Up, h), Step(Left, w)]) == Origin;
    assert End(Point(0, H), ccw[1..]) == Origin;
    assert Perimeter([Step(Left, w)]) == w;
    assert Perimeter([Step(Up, h), Step(Left, w)]) == w + h;
    assert Perimeter(ccw[1..]) == 2 * w + h;
  }

  /** Half of twice the area plus the perimeter, plus one, is the block of
      (w + 1) by (h + 1) cells. */
  lemma Pick(w: nat, h: nat)
    ensures 1 + Abs(2 * (w * h) + (2 * w + 2 * h)) / 2 == (w + 1) * (h + 1)
    ensures 1 + (Abs(-2 * (w * h)) + (2 * w + 2 * h)) / 2 == (w + 1) * (h + 1)
  {
    var a := w * h;
    assert a >= 0;
    assert (w + 1) * (h + 1) == a + w + h + 1;
    assert Abs(2 * a + (2 * w + 2 * h)) == 2 * (a + w + h);
    assert Abs(-2 * a) + (2 * w + 2 * h) == 2 * (a + w + h);
  }

  lemma HalfAbs(x: int)
    ensures Abs(2 * x) / 2 == Abs(x)
  {
  }

  /** A clockwise rectangle is (w + 1) by (h + 1) cubic metres of lagoon,
      trench included: the count shoelace plus Pick's theorem gives. */
  lemma ClockwiseArea(w: nat, h: nat)
    ensures Closed(Clockwise(w, h))
    ensures GetArea(Clockwise(w, h)) == (w + 1) * (h + 1)
  {
    RectangleTwice(w, h);
    ShoelaceParts(Origin, Clockwise(w, h));
    Pick(w, h);
  }

  /** As written, a counter-clockwise rectangle loses its interior: the
      trench length is added inside the absolute value, where it cancels
      against the negative signed area. */
  lemma CounterClockwiseAsWritten(w: nat, h: nat)
    ensures Closed(CounterClockwise(w, h))
    ensures GetArea(CounterClockwise(w, h)) == 1 + Abs(w + h - w * h)
  {
    RectangleTwice(w, h);
    ShoelaceParts(Origin, CounterClockwise(w, h));
    var x: int := w + h - w * h;
    assert Shoelace(Origin, CounterClockwise(w, h)) == 2 * x;
    HalfAbs(x);
  }

  /** The square of side `n` = 2 dug counter-clockwise holds 3 by 3 = 9
      cubic metres (`RectangleArea`), but `get_area` gives 1. */
  lemma CounterClockwiseSquare(n: nat)
    requires n == 2
    ensures GetArea(CounterClockwise(n, n)) == 1
  {
    CounterClockwiseAsWritten(n, n);
  }

  /** The lagoon size shoelace plus Pick's theorem give for either
      orientation: the interior from the absolute signed area, plus the
      trench counted separately. */
  function LagoonSize(steps: seq<Step>): (r: int)
  {
    1 + (Abs(Twice(Origin, steps)) + Perimeter(steps)) / 2
  }

  /** For a plan whose signed area is not negative, which is the clockwise
      case, `get_area` gives the lagoon size. */
  lemma GetAreaClockwise(steps: seq<Step>)
    requires Twice(Origin, steps) >= 0 && Perimeter(steps) >= 0
    ensures GetArea(steps) == LagoonSize(steps)
  {
    ShoelaceParts(Origin, steps);
  }

  /** The lagoon size of a closed plan does not depend on the starting step. */
  lemma LagoonSizeRotate(a: seq<Step>, b: seq<Step>)
    requires Closed(a + b)
    ensures Closed(b + a) && LagoonSize(b + a) == LagoonSize(a + b)
  {
    TwiceRotate(a, b);
    PerimeterAppend(a, b);
    PerimeterAppend(b, a);
  }

  /** A rectangle is (w + 1) by (h + 1) cubic metres whichever way it is dug. */
  lemma RectangleArea(w: nat, h: nat)
    ensures LagoonSize(CounterClockwise(w, h)) == (w + 1) * (h + 1)
    ensures LagoonSize(Clockwise(w, h)) == (w + 1) * (h + 1)
  {
    RectangleTwice(w, h);
    Pick(w, h);
  }
}
