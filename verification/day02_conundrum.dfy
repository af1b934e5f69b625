/** Day 2 (Cube Conundrum): games of draws of red, green and blue cubes, read
    from lines such as "Game 3: 8 green, 6 blue, 20 red; 5 blue, 4 red". */
module Conundrum {
  import opened Wrappers
  import opened Text

  /** The cubes of each colour shown in one draw (`u32` counts). */
  datatype Draw = Draw(red: nat, green: nat, blue: nat)

  datatype Game = Game(id: nat, draws: seq<Draw>)

  // ---------------------------------------------------------------------------
  // Possible games and the fewest cubes

  /** `Draw::is_possible`: no colour shows more cubes than the bag holds. */
  predicate DrawPossible(d: Draw, red: nat, green: nat, blue: nat)
  {
    d.red <= red && d.green <= green && d.blue <= blue
  }

  /** `Game::is_possible`: every draw is possible (so a game without draws is). */
  predicate GamePossible(g: Game, red: nat, green: nat, blue: nat)
  {
    forall i :: 0 <= i < |g.draws| ==> DrawPossible(g.draws[i], red, green, blue)
  }

  function Max(a: nat, b: nat): nat
  {
    if a >= b then a else b
  }

  /** The component-wise maximum of `draws`, starting from zero cubes. */
  function MaxDraw(draws: seq<Draw>): (m: Draw)
    ensures forall i :: 0 <= i < |draws| ==> DrawPossible(draws[i], m.red, m.green, m.blue)
    ensures |draws| == 0 ==> m == Draw(0, 0, 0)
    ensures |draws| > 0 ==> (exists i :: 0 <= i < |draws| && draws[i].red == m.red)
    ensures |draws| > 0 ==> (exists i :: 0 <= i < |draws| && draws[i].green == m.green)
    ensures |draws| > 0 ==> (exists i :: 0 <= i < |draws| && draws[i].blue == m.blue)
  {
    if |draws| == 0 then Draw(0, 0, 0)
    else
      var m := MaxDraw(draws[..|draws| - 1]);
      var d := draws[|draws| - 1];
      assert forall i :: 0 <= i < |draws| - 1 ==> draws[..|draws| - 1][i] == draws[i];
      Draw(Max(m.red, d.red), Max(m.green, d.green), Max(m.blue, d.blue))
  }

  /** `Game::get_minimum`: the fewest cubes of each colour that make the game
      possible. */
  function Minimum(g: Game): (m: Draw)
    ensures GamePossible(g, m.red, m.green, m.blue)
  {
    MaxDraw(g.draws)
  }

  /** A game is possible for a bag exactly when the bag holds at least the
      minimum of every colour: the minimum is the least possible bag. */
  lemma PossibleIffMinimum(g: Game, red: nat, green: nat, blue: nat)
    ensures GamePossible(g, red, green, blue) <==> DrawPossible(Minimum(g), red, green, blue)
  {
    var m := Minimum(g);
    if |g.draws| > 0 && GamePossible(g, red, green, blue) {
      var i :| 0 <= i < |g.draws| && g.draws[i].red == m.red;
      var j :| 0 <= j < |g.draws| && g.draws[j].green == m.green;
      var k :| 0 <= k < |g.draws| && g.draws[k].blue == m.blue;
      assert DrawPossible(g.draws[i], red, green, blue);
      assert DrawPossible(g.draws[j], red, green, blue);
      assert DrawPossible(g.draws[k], red, green, blue);
    }
  }

  /** `Draw::power`: the product of the three counts. */
  function Power(d: Draw): nat
  {
    d.red * d.green * d.blue
  }

  lemma MulLe(a: nat, x: nat, b: nat)
    requires a <= x
    ensures a * b <= x * b && b * a <= b * x
  {
    assert x * b == a * b + (x - a) * b;
  }

  lemma MulMono(a: nat, b: nat, c: nat, x: nat, y: nat, z: nat)
    requires a <= x && b <= y && c <= z
    ensures a * b * c <= x * y * z
  {
    MulLe(a, x, b);
    MulLe(b, y, x);
    MulLe(a * b, x * y, c);
    MulLe(c, z, x * y);
  }

  /** The power of the minimum is the least power of any bag the game is
      possible with. */
  lemma MinimumPowerLeast(g: Game, bag: Draw)
    requires GamePossible(g, bag.red, bag.green, bag.blue)
    ensures Power(Minimum(g)) <= Power(bag)
  {
    PossibleIffMinimum(g, bag.red, bag.green, bag.blue);
    var m := Minimum(g);
    MulMono(m.red, m.green, m.blue, bag.red, bag.green, bag.blue);
  }

  /** The test of `get_minimum` in the Rust code. */
  lemma MinimumExample()
    ensures Minimum(Game(1, [Draw(20, 8, 6), Draw(4, 13, 5), Draw(1, 5, 0)])) == Draw(20, 13, 6)
    ensures Power(Draw(2, 5, 8)) == 80
  {
    var ds := [Draw(20, 8, 6), Draw(4, 13, 5), Draw(1, 5, 0)];
    assert ds[..2] == [Draw(20, 8, 6), Draw(4, 13, 5)];
    assert ds[..2][..1] == [Draw(20, 8, 6)];
    assert ds[..2][..1][..0] == [];
  }

  // ---------------------------------------------------------------------------
  // Parsing a draw

  datatype Colour = Red | Green | Blue

  /** The colour a word names, tested in the Rust code's order: a word
      containing "red" is red, else one containing "blue" is blue, else one
      containing "green" is green. */
  function ColourOf(w: string): (c: Option<Colour>)
    ensures c == Some(Red) <==> Contains(w, "red")
    ensures c == Some(Blue) <==> !Contains(w, "red") && Contains(w, "blue")
    ensures c == Some(Green) <==> !Contains(w, "red") && !Contains(w, "blue") && Contains(w, "green")
  {
    if Contains(w, "red") then Some(Red)
    else if Contains(w, "blue") then Some(Blue)
    else if Contains(w, "green") then Some(Green)
    else None
  }

  /** One item "N colour": the first space-separated piece is a `u32`, and a
      second piece must exist and name a colour. Further pieces are ignored. */
  function ParseItem(item: string): (r: Option<(nat, Colour)>)
    ensures r.Some? <==> ParseU32(Split(item, " ")[0]).Some? && |Split(item, " ")| >= 2
                         && ColourOf(Split(item, " ")[1]).Some?
    ensures r.Some? ==> r.value.0 <= U32_MAX
  {
    var pieces := Split(item, " ");
    var n :- ParseU32(pieces[0]);
    var w :- Nth(pieces, 1);
    var c :- ColourOf(w);
    Some((n, c))
  }

  function Count(d: Draw, c: Colour): nat
  {
    match c
    case Red => d.red
    case Green => d.green
    case Blue => d.blue
  }

  function SetCount(d: Draw, c: Colour, n: nat): (r: Draw)
    ensures Count(r, c) == n
    ensures forall c' :: c' != c ==> Count(r, c') == Count(d, c')
  {
    match c
    case Red => d.(red := n)
    case Green => d.(green := n)
    case Blue => d.(blue := n)
  }

  /** The count the last item of colour `c` gives, or `dflt` when no item
      has colour `c`. */
  function LastCount(items: seq<(nat, Colour)>, c: Colour, dflt: nat): nat
  {
    if |items| == 0 then dflt
    else if items[|items| - 1].1 == c then items[|items| - 1].0
    else LastCount(items[..|items| - 1], c, dflt)
  }

  /** The loop of `Draw::from_str` from item `i` on, starting from the counts
      in `acc`: each item overwrites its colour's count, and the first item
      that does not parse is an error. */
  function ParseItems(items: seq<string>, acc: Draw): (r: Option<Draw>)
    ensures r.Some? <==> forall i :: 0 <= i < |items| ==> ParseItem(items[i]).Some?
    decreases |items|
  {
    if |items| == 0 then Some(acc)
    else
      var (n, c) :- ParseItem(items[0]);
      ParseItems(items[1..], SetCount(acc, c, n))
  }

  /** The parsed items of a draw in which every item parses. */
  function Parsed(items: seq<string>): (ps: seq<(nat, Colour)>)
    requires forall i :: 0 <= i < |items| ==> ParseItem(items[i]).Some?
    ensures |ps| == |items|
    ensures forall i :: 0 <= i < |items| ==> ps[i] == ParseItem(items[i]).value
  {
    seq(|items|, i requires 0 <= i < |items| => ParseItem(items[i]).value)
  }

  /** Each colour of a parsed draw is the count of the last item of that
      colour, or the starting count when there is none. */
  lemma {:induction false} ParseItemsLast(items: seq<string>, acc: Draw, c: Colour)
    requires ParseItems(items, acc).Some?
    ensures Count(ParseItems(items, acc).value, c) == LastCount(Parsed(items), c, Count(acc, c))
    decreases |items|
  {
    if |items| > 0 {
      var (n, c0) := ParseItem(items[0]).value;
      var acc' := SetCount(acc, c0, n);
      ParseItemsLast(items[1..], acc', c);
      LastCountCons(Parsed(items), c, Count(acc, c));
      ParsedTail(items);
    }
  }

  lemma ParsedTail(items: seq<string>)
    requires |items| > 0 && forall i :: 0 <= i < |items| ==> ParseItem(items[i]).Some?
    ensures forall i :: 0 <= i < |items| - 1 ==> ParseItem(items[1..][i]).Some?
    ensures Parsed(items)[1..] == Parsed(items[1..])
  {
    assert forall i :: 0 <= i < |items| - 1 ==> items[1..][i] == items[i + 1];
  }

  /** `LastCount` read from the front: the first item only matters when no
      later item has the same colour. */
  lemma {:induction false} LastCountCons(items: seq<(nat, Colour)>, c: Colour, dflt: nat)
    requires |items| > 0
    ensures LastCount(items, c, dflt)
         == LastCount(items[1..], c, if items[0].1 == c then items[0].0 else dflt)
    decreases |items|
  {
    if |items| > 1 {
      var last := items[|items| - 1];
      assert items[1..][..|items[1..]| - 1] == items[..|items| - 1][1..];
      if last.1 != c {
        LastCountCons(items[..|items| - 1], c, dflt);
      }
    }
  }

  /** `Draw::from_str`: the items between ", " separators; colours not
      mentioned stay 0. */
  function ParseDraw(s: string): (r: Option<Draw>)
    ensures r.Some? <==> forall i :: 0 <= i < |Items(s)| ==> ParseItem(Items(s)[i]).Some?
    ensures r.Some? ==> forall c :: Count(r.value, c) == LastCount(Parsed(Items(s)), c, 0)
    ensures r.Some? ==> r.value.red <= U32_MAX && r.value.green <= U32_MAX && r.value.blue <= U32_MAX
  {
    ItemsCounts(Items(s));
    ParseItems(Items(s), Draw(0, 0, 0))
  }

  /** The items of a draw: the pieces between ", " separators. */
  function Items(s: string): seq<string>
  {
    Split(s, ", ")
  }

  lemma ItemsCounts(items: seq<string>)
    ensures var r := ParseItems(items, Draw(0, 0, 0));
      r.Some? ==> (forall c :: Count(r.value, c) == LastCount(Parsed(items), c, 0))
                  && r.value.red <= U32_MAX && r.value.green <= U32_MAX && r.value.blue <= U32_MAX
  {
    var r := ParseItems(items, Draw(0, 0, 0));
    if r.Some? {
      forall c
        ensures Count(r.value, c) == LastCount(Parsed(items), c, 0)
      {
        ParseItemsLast(items, Draw(0, 0, 0), c);
      }
      LastCountBound(Parsed(items), Red, 0);
      LastCountBound(Parsed(items), Green, 0);
      LastCountBound(Parsed(items), Blue, 0);
    }
  }

  lemma {:induction false} LastCountBound(items: seq<(nat, Colour)>, c: Colour, dflt: nat)
    requires dflt <= U32_MAX && forall i :: 0 <= i < |items| ==> items[i].0 <= U32_MAX
    ensures LastCount(items, c, dflt) <= U32_MAX
    decreases |items|
  {
    if |items| > 0 {
      LastCountBound(items[..|items| - 1], c, dflt);
    }
  }

  /** The text of a draw in the puzzle's format, "R red, G green, B blue". */
  function FormatDraw(d: Draw): string
  {
    Join(DrawItems(d), ", ")
  }

  function ColourName(c: Colour): string
  {
    match c
    case Red => "red"
    case Green => "green"
    case Blue => "blue"
  }

  function Item(n: nat, c: Colour): string
  {
    Join([Decimal(n), ColourName(c)], " ")
  }

  lemma DecimalFree(n: nat, c: char)
    requires !IsDigit(c)
    ensures Free(Decimal(n), c)
  {
    var s := Decimal(n);
    forall i | 0 <= i < |s|
      ensures s[i] != c
    {
      assert IsDigit(s[i]);
    }
  }

  /** A colour's name is read back as that colour, and holds none of the
      separator characters. */
  lemma ColourNameFacts(c: Colour)
    ensures ColourOf(ColourName(c)) == Some(c)
    ensures Free(ColourName(c), ' ') && Free(ColourName(c), ',') && Free(ColourName(c), ';') && Free(ColourName(c), ':')
  {
    match c
    case Red =>
      assert OccursAt("red", "red", 0);
    case Blue =>
      assert OccursAt("blue", "blue", 0);
      FreeNotContains("blue", "red");
    case Green =>
      assert OccursAt("green", "green", 0);
      forall k: nat | k + 3 <= 5
        ensures !OccursAt("green", "red", k)
      {
        assert "green"[k..k + 3][0] == "green"[k] && "green"[k..k + 3][2] == "green"[k + 2];
      }
      FreeNotContains("green", "blue");
  }

  lemma ItemFree(n: nat, c: Colour)
    ensures Free(Item(n, c), ',') && Free(Item(n, c), ';') && Free(Item(n, c), ':')
  {
    var parts := [Decimal(n), ColourName(c)];
    ColourNameFacts(c);
    DecimalFree(n, ',');
    DecimalFree(n, ';');
    DecimalFree(n, ':');
    JoinFree(parts, " ", ',');
    JoinFree(parts, " ", ';');
    JoinFree(parts, " ", ':');
  }

  /** An item "N colour" with a `u32` count is read back. */
  lemma ItemParses(n: nat, c: Colour)
    requires n <= U32_MAX
    ensures ParseItem(Item(n, c)) == Some((n, c))
  {
    var parts := [Decimal(n), ColourName(c)];
    ColourNameFacts(c);
    DecimalFree(n, ' ');
    SplitJoin(parts, " ");
    ParseDecimal(n, U32_MAX);
  }

  function DrawItems(d: Draw): seq<string>
  {
    [Item(d.red, Red), Item(d.green, Green), Item(d.blue, Blue)]
  }

  lemma SplitDraw(d: Draw)
    ensures Items(FormatDraw(d)) == DrawItems(d)
  {
    ItemFree(d.red, Red);
    ItemFree(d.green, Green);
    ItemFree(d.blue, Blue);
    assert ", "[0] == ',';
    SplitJoin(DrawItems(d), ", ");
  }

  /** Parsing the text of a draw with `u32` counts gives the draw back. */
  lemma ParseFormatDraw(d: Draw)
    requires Fits(d)
    ensures ParseDraw(FormatDraw(d)) == Some(d)
  {
    SplitDraw(d);
    ItemParses(d.red, Red);
    ItemParses(d.green, Green);
    ItemParses(d.blue, Blue);
    ThreeItems(DrawItems(d), d);
  }

  /** The text of a draw holds neither of the game's separator characters. */
  lemma FormatDrawFree(d: Draw)
    ensures Free(FormatDraw(d), ';') && Free(FormatDraw(d), ':')
  {
    ItemFree(d.red, Red);
    ItemFree(d.green, Green);
    ItemFree(d.blue, Blue);
    SeparatorsFree();
    JoinFree(DrawItems(d), ", ", ';');
    JoinFree(DrawItems(d), ", ", ':');
  }

  lemma SeparatorsFree()
    ensures Free(", ", ';') && Free(", ", ':') && Free("; ", ':')
  {
  }

  lemma ThreeItems(items: seq<string>, d: Draw)
    requires |items| == 3
    requires ParseItem(items[0]) == Some((d.red, Red))
    requires ParseItem(items[1]) == Some((d.green, Green))
    requires ParseItem(items[2]) == Some((d.blue, Blue))
    ensures ParseItems(items, Draw(0, 0, 0)) == Some(d)
  {
    assert items[1..][1..] == [items[2]];
    assert ParseItems([items[2]], Draw(d.red, d.green, 0)) == Some(d);
  }

  // ---------------------------------------------------------------------------
  // Parsing a game

  /** `Game::from_str`: the text before the first ": " must contain "Game "
      followed by a `u32` up to the next "Game ", and the text after it is a
      list of draws separated by "; ". Any failure is an error. */
  function ParseGame(s: string): (r: Option<Game>)
    ensures r.Some? ==> |Split(s, ": ")| >= 2 && r.value.id <= U32_MAX
    ensures r.Some? ==> |r.value.draws| == |Split(Split(s, ": ")[1], "; ")|
    ensures r.Some? ==> forall i :: 0 <= i < |r.value.draws| ==>
      Some(r.value.draws[i]) == ParseDraw(Split(Split(s, ": ")[1], "; ")[i])
  {
    var halves := Split(s, ": ");
    var idText :- Nth(Split(halves[0], "Game "), 1);
    var id :- ParseU32(idText);
    var drawsText :- Nth(halves, 1);
    var draws :- ParseDraws(Split(drawsText, "; "));
    Some(Game(id, draws))
  }

  /** Every draw parses, or the whole list is an error. */
  function ParseDraws(texts: seq<string>): (r: Option<seq<Draw>>)
    ensures r.Some? <==> forall i :: 0 <= i < |texts| ==> ParseDraw(texts[i]).Some?
    ensures r.Some? ==> |r.value| == |texts|
    ensures r.Some? ==> forall i :: 0 <= i < |texts| ==> Some(r.value[i]) == ParseDraw(texts[i])
    decreases |texts|
  {
    if |texts| == 0 then Some([])
    else
      var d :- ParseDraw(texts[0]);
      var rest :- ParseDraws(texts[1..]);
      Some([d] + rest)
  }

  /** The text of a game in the puzzle's format. */
  function FormatGame(g: Game): string
    requires forall i :: 0 <= i < |g.draws| ==> Fits(g.draws[i])
  {
    "Game " + Decimal(g.id) + ": " + Join(DrawTexts(g), "; ")
  }

  predicate Fits(d: Draw)
  {
    d.red <= U32_MAX && d.green <= U32_MAX && d.blue <= U32_MAX
  }

  /** Parsing the text of a game with `u32` numbers and at least one draw
      gives the game back. */
  lemma ParseFormatGame(g: Game)
    requires g.id <= U32_MAX && |g.draws| >= 1
    requires forall i :: 0 <= i < |g.draws| ==> Fits(g.draws[i])
    ensures ParseGame(FormatGame(g)) == Some(g)
  {
    var head := "Game " + Decimal(g.id);
    var body := Join(DrawTexts(g), "; ");
    HeadParses(g.id);
    BodyParses(g);
    assert FormatGame(g) == Join([head, body], ": ");
    SplitJoin([head, body], ": ");
  }

  function DrawTexts(g: Game): (texts: seq<string>)
    requires forall i :: 0 <= i < |g.draws| ==> Fits(g.draws[i])
  {
    seq(|g.draws|, i requires 0 <= i < |g.draws| => FormatDraw(g.draws[i]))
  }

  lemma HeadParses(id: nat)
    requires id <= U32_MAX
    ensures var head := "Game " + Decimal(id);
      Free(head, ':') && Nth(Split(head, "Game "), 1) == Some(Decimal(id)) && ParseU32(Decimal(id)) == Some(id)
  {
    var head := "Game " + Decimal(id);
    DecimalFree(id, ':');
    DecimalFree(id, 'G');
    assert Join(["", Decimal(id)], "Game ") == head;
    SplitJoin(["", Decimal(id)], "Game ");
    forall i | 0 <= i < |head|
      ensures head[i] != ':'
    {
      if i >= 5 {
        assert head[i] == Decimal(id)[i - 5];
      }
    }
    ParseDecimal(id, U32_MAX);
  }

  lemma BodyParses(g: Game)
    requires |g.draws| >= 1
    requires forall i :: 0 <= i < |g.draws| ==> Fits(g.draws[i])
    ensures var body := Join(DrawTexts(g), "; ");
      Free(body, ':') && ParseDraws(Split(body, "; ")) == Some(g.draws)
  {
    var texts := DrawTexts(g);
    forall i | 0 <= i < |texts|
      ensures Free(texts[i], ';') && Free(texts[i], ':') && ParseDraw(texts[i]) == Some(g.draws[i])
    {
      ParseFormatDraw(g.draws[i]);
      FormatDrawFree(g.draws[i]);
    }
    SplitJoin(texts, "; ");
    SeparatorsFree();
    JoinFree(texts, "; ", ':');
    var ds := ParseDraws(texts);
    assert ds.value == g.draws;
  }

  lemma ParseU32Decimal(n: nat)
    requires n <= U32_MAX
    ensures ParseU32(Decimal(n)) == Some(n)
  {
    ParseDecimal(n, U32_MAX);
  }

  /** Joining pieces free of `c` with a separator free of `c` gives text free of `c`. */
  lemma {:induction false} JoinFree(parts: seq<string>, sep: string, c: char)
    requires Free(sep, c) && forall i :: 0 <= i < |parts| ==> Free(parts[i], c)
    ensures Free(Join(parts, sep), c)
    decreases |parts|
  {
    if |parts| > 1 {
      JoinFree(parts[1..], sep, c);
      var s := Join(parts, sep);
      var rest := Join(parts[1..], sep);
      assert s == parts[0] + sep + rest;
      forall i | 0 <= i < |s|
        ensures s[i] != c
      {
        if i < |parts[0]| {
          assert s[i] == parts[0][i];
        } else if i < |parts[0]| + |sep| {
          assert s[i] == sep[i - |parts[0]|];
        } else {
          assert s[i] == rest[i - |parts[0]| - |sep|];
        }
      }
    }
  }
}
