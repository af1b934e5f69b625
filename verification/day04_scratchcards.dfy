/** Day 4 (Scratchcards): cards "Card N: winners | scratched", their points,
    and the copies that winning cards hand on to the cards after them. */
module Scratchcards {
  import opened Wrappers
  import opened Text

  /** A card: its winning numbers and the numbers scratched off (`u32`). */
  datatype Card = Card(winning: seq<nat>, scratched: seq<nat>)

  // ---------------------------------------------------------------------------
  // Matches

  /** The numbers folded into the `HashSet` of winning numbers. */
  function WinningSet(ws: seq<nat>): (s: set<nat>)
    ensures forall x :: x in s <==> x in ws
  {
    if ws == [] then {} else WinningSet(ws[..|ws| - 1]) + {ws[|ws| - 1]}
  }

  /** How many entries of `xs` lie in `s`, each entry counted on its own. */
  function CountIn(xs: seq<nat>, s: set<nat>): (n: nat)
    ensures n <= |xs|
  {
    if xs == [] then 0
    else (if xs[0] in s then 1 else 0) + CountIn(xs[1..], s)
  }

  /** `Card::winning_count`: the scratched entries that are winning numbers. */
  function WinningCount(c: Card): (n: nat)
    ensures n <= |c.scratched|
  {
    CountIn(c.scratched, WinningSet(c.winning))
  }

  /** Counting distributes over concatenation of the scratched numbers. */
  lemma {:induction false} CountInAppend(a: seq<nat>, b: seq<nat>, s: set<nat>)
    ensures CountIn(a + b, s) == CountIn(a, s) + CountIn(b, s)
    decreases |a|
  {
    if a == [] {
      assert a + b == b;
    } else {
      assert (a + b)[1..] == a[1..] + b;
      CountInAppend(a[1..], b, s);
    }
  }

  /** One scratched number counts once exactly when it is a winning number, so
      together with `WinningCountAppend` a scratched number that is repeated
      counts once per repetition. */
  lemma WinningCountSingle(winning: seq<nat>, x: nat)
    ensures WinningCount(Card(winning, [x])) == if x in winning then 1 else 0
  {
    assert [x][1..] == [];
  }

  lemma WinningCountAppend(winning: seq<nat>, a: seq<nat>, b: seq<nat>)
    ensures WinningCount(Card(winning, a + b))
         == WinningCount(Card(winning, a)) + WinningCount(Card(winning, b))
  {
    CountInAppend(a, b, WinningSet(winning));
  }

  /** The count does not depend on the order of the scratched numbers. */
  lemma {:induction false} CountInPermutation(a: seq<nat>, b: seq<nat>, s: set<nat>)
    requires multiset(a) == multiset(b)
    ensures CountIn(a, s) == CountIn(b, s)
    decreases |a|
  {
    if a == [] {
      assert |b| == |multiset(b)| == 0;
    } else {
      var j := MatchFirst(a, b);
      CountInPermutation(a[1..], b[..j] + b[j + 1..], s);
      CountInRemove(b, j, s);
    }
  }

  /** The first entry of `a` sits somewhere in a permutation `b`, and the
      rest of `a` is a permutation of `b` without it. */
  lemma MatchFirst(a: seq<nat>, b: seq<nat>) returns (j: nat)
    requires a != [] && multiset(a) == multiset(b)
    ensures j < |b| && b[j] == a[0]
    ensures multiset(a[1..]) == multiset(b[..j] + b[j + 1..])
  {
    assert a == [a[0]] + a[1..];
    assert a[0] in multiset(b);
    j :| 0 <= j < |b| && b[j] == a[0];
    RemoveAt(b, j);
  }

  /** Removing the entry at `j` leaves the other entries' multiset. */
  lemma RemoveAt(b: seq<nat>, j: nat)
    requires j < |b|
    ensures multiset(b[..j] + b[j + 1..]) == multiset(b) - multiset{b[j]}
  {
    assert b == b[..j] + [b[j]] + b[j + 1..];
  }

  /** Removing the entry at `j` takes away its own contribution. */
  lemma CountInRemove(b: seq<nat>, j: nat, s: set<nat>)
    requires j < |b|
    ensures CountIn(b, s) == (if b[j] in s then 1 else 0) + CountIn(b[..j] + b[j + 1..], s)
  {
    assert b == b[..j] + ([b[j]] + b[j + 1..]);
    CountInAppend(b[..j], [b[j]] + b[j + 1..], s);
    CountInAppend(b[..j], b[j + 1..], s);
    assert ([b[j]] + b[j + 1..])[1..] == b[j + 1..];
  }

  /** Only which numbers win matters, not their order or repetition. */
  lemma WinningCountSameNumbers(c: Card, d: Card)
    requires forall x :: x in c.winning <==> x in d.winning
    requires multiset(c.scratched) == multiset(d.scratched)
    ensures WinningCount(c) == WinningCount(d)
  {
    assert WinningSet(c.winning) == WinningSet(d.winning);
    CountInPermutation(c.scratched, d.scratched, WinningSet(c.winning));
  }

  // ---------------------------------------------------------------------------
  // Points

  function Pow2(k: nat): (p: nat)
    ensures p >= 1
  {
    if k == 0 then 1 else 2 * Pow2(k - 1)
  }

  /** The `u32` shift `x << k`, which panics for `k >= 32` in a debug build. */
  function ShlU32(x: nat, k: nat): nat
    requires k < 32
  {
    (x * Pow2(k)) % Pow2(32)
  }

  lemma {:induction false} Pow2Mono(j: nat, k: nat)
    requires j <= k
    ensures Pow2(j) <= Pow2(k)
    decreases k
  {
    if j < k {
      Pow2Mono(j, k - 1);
    }
  }

  /** `Card::get_points`: no points without a match, else one point doubled for
      each further match. The shift needs at most 32 matches. */
  function Points(c: Card): (p: nat)
    requires WinningCount(c) <= 32
    ensures p == 0 <==> WinningCount(c) == 0
    ensures WinningCount(c) > 0 ==> p == Pow2(WinningCount(c) - 1)
    ensures p <= Pow2(31)
  {
    var n := WinningCount(c);
    if n == 0 then 0
    else
      ShlOne(n - 1);
      Pow2Mono(n - 1, 31);
      ShlU32(1, n - 1)
  }

  /** `1 << k` does not wrap for `k < 32`. */
  lemma ShlOne(k: nat)
    requires k < 32
    ensures ShlU32(1, k) == Pow2(k)
  {
    Pow2Mono(k, 31);
    assert Pow2(32) == 2 * Pow2(31);
    ModSmall(Pow2(k), Pow2(32));
  }

  lemma ModSmall(x: nat, m: nat)
    requires x < m
    ensures x % m == x
  {
  }

  /** One more match doubles the points. */
  lemma PointsDouble(c: Card, d: Card)
    requires 1 <= WinningCount(c) && WinningCount(d) == WinningCount(c) + 1 <= 32
    ensures Points(d) == 2 * Points(c)
  {
  }

  /** The sample card of the matching test has four winning numbers. */
  lemma WinningCountExample()
    ensures WinningCount(Card([41, 48, 83, 86, 17], [83, 86, 6, 31, 17, 9, 48, 53])) == 4
  {
    SampleCount(41, 48, 83, 86, 17, 6, 31, 9, 53);
  }

  /** The sample card for any numbers of the same shape: scratched are the
      third, fourth, fifth and second winning numbers, with four misses
      between them. */
  lemma SampleCount(w0: nat, w1: nat, w2: nat, w3: nat, w4: nat, m0: nat, m1: nat, m2: nat, m3: nat)
    requires m0 !in [w0, w1, w2, w3, w4] && m1 !in [w0, w1, w2, w3, w4]
    requires m2 !in [w0, w1, w2, w3, w4] && m3 !in [w0, w1, w2, w3, w4]
    ensures WinningCount(Card([w0, w1, w2, w3, w4], [w2, w3, m0, m1, w4, m2, w1, m3])) == 4
  {
    var s := WinningSet([w0, w1, w2, w3, w4]);
    var xs := [w2, w3, m0, m1, w4, m2, w1, m3];
    assert CountIn(xs[8..], s) == 0;
    assert CountIn(xs[7..], s) == 0;
    assert CountIn(xs[6..], s) == 1;
    assert CountIn(xs[5..], s) == 1;
    assert CountIn(xs[4..], s) == 2;
    assert CountIn(xs[3..], s) == 2;
    assert CountIn(xs[2..], s) == 2;
    assert CountIn(xs[1..], s) == 3;
    assert CountIn(xs, s) == 4;
  }

  /** The sample's first card scores 8 points. */
  lemma PointsExample()
    ensures Points(Card([41, 48, 83, 86, 17], [83, 86, 6, 31, 17, 9, 48, 53])) == 8
  {
    WinningCountExample();
    assert Pow2(3) == 8;
  }

  /** A card with no match scores nothing and one match scores 1. */
  lemma PointsFewMatches(c: Card)
    requires WinningCount(c) <= 1
    ensures Points(c) == WinningCount(c)
  {
  }

  // ---------------------------------------------------------------------------
  // Copies won

  /** The copies of card `i` once every earlier card has been processed: the
      original plus, for every earlier card `j` whose matches reach `i`, the
      copies of `j`. Matches beyond the last card win nothing. */
  function Copies(wins: seq<nat>, i: nat): (n: nat)
    requires i < |wins|
    ensures n >= 1
    decreases i, 1
  {
    1 + Contribution(wins, i, i)
  }

  /** The copies handed to card `i` by the cards before `k`. */
  function Contribution(wins: seq<nat>, i: nat, k: nat): nat
    requires k <= i < |wins|
    decreases k, 0
  {
    if k == 0 then 0
    else
      Contribution(wins, i, k - 1)
      + (if i <= k - 1 + wins[k - 1] then Copies(wins, k - 1) else 0)
  }

  /** The copies of the first `k` cards together. */
  function TotalCopies(wins: seq<nat>, k: nat): (n: nat)
    requires k <= |wins|
    ensures n >= k
  {
    if k == 0 then 0 else TotalCopies(wins, k - 1) + Copies(wins, k - 1)
  }

  /** `get_won_cards`, with the matches of each card given up front. Each card
      starts with one copy; card `i` adds its copies to the next
      `wins[i]` cards, stopping at the last card, and the result is the total. */
  method WonCards(wins: seq<nat>) returns (total: nat)
    ensures total == TotalCopies(wins, |wins|)
    ensures total >= |wins|
  {
    var counts := seq(|wins|, _ => 1);
    total := 0;
    var i := 0;
    while i < |wins|
      invariant 0 <= i <= |wins| && |counts| == |wins|
      invariant total == TotalCopies(wins, i)
      invariant forall j :: i <= j < |wins| ==> counts[j] == 1 + Contribution(wins, j, i)
    {
      assert counts[i] == Copies(wins, i);
      total := total + counts[i];
      var stop := if i + 1 + wins[i] < |wins| then i + 1 + wins[i] else |wins|;
      var j := i + 1;
      while j < stop
        invariant i + 1 <= j <= stop || (j == i + 1 && stop <= i + 1)
        invariant |counts| == |wins| && counts[i] == Copies(wins, i)
        invariant forall m :: i < m < |wins| && m < j ==> counts[m] == 1 + Contribution(wins, m, i + 1)
        invariant forall m :: j <= m < |wins| && i < m ==> counts[m] == 1 + Contribution(wins, m, i)
      {
        counts := counts[j := counts[j] + counts[i]];
        j := j + 1;
      }
      i := i + 1;
    }
  }

  /** The sample's cards match 4, 2, 2, 1, 0 and 0 numbers, which hold
      1, 2, 4, 8, 14 and 1 copies: 30 cards in all. */
  lemma WonCardsExample()
    ensures TotalCopies([4, 2, 2, 1, 0, 0], 6) == 30
  {
    var w := [4, 2, 2, 1, 0, 0];
    assert Copies(w, 0) == 1;
    assert Copies(w, 1) == 2;
    assert Copies(w, 2) == 4;
    assert Copies(w, 3) == 8;
    assert Copies(w, 4) == 14;
    assert Copies(w, 5) == 1;
  }

  // ---------------------------------------------------------------------------
  // Parsing

  /** `Card::from_str`: the text after the first ": " (up to any second ": ")
      split at " | " into winning and scratched numbers. A missing piece or a
      word that is not a `u32` is an error. The card number is not read. */
  function ParseCard(s: string): (r: Option<Card>)
    ensures r.Some? <==>
      |Split(s, ": ")| >= 2
      && |Halves(s)| >= 2
      && ParseEach(Words(Halves(s)[0]), U32_MAX).Some?
      && ParseEach(Words(Halves(s)[1]), U32_MAX).Some?
    ensures r.Some? ==> Some(r.value.winning) == ParseEach(Words(Halves(s)[0]), U32_MAX)
    ensures r.Some? ==> Some(r.value.scratched) == ParseEach(Words(Halves(s)[1]), U32_MAX)
  {
    var _ :- Nth(Split(s, ": "), 1);
    var winning :- ParseEach(Words(Halves(s)[0]), U32_MAX);
    var scratched :- Nth(Halves(s), 1);
    var numbers :- ParseEach(Words(scratched), U32_MAX);
    Some(Card(winning, numbers))
  }

  /** The pieces of the numbers part at " | ". */
  function Halves(s: string): (hs: seq<string>)
    ensures |hs| >= 1
  {
    if |Split(s, ": ")| >= 2 then Split(Split(s, ": ")[1], " | ") else [""]
  }

  /** The text of a card in the puzzle's layout, with single spaces. */
  function FormatCard(id: nat, c: Card): string
  {
    "Card " + Decimal(id) + ": " + Spaced(c.winning) + " | " + Spaced(c.scratched)
  }

  /** Parsing the text of a card with `u32` numbers gives the card back. */
  lemma ParseFormatCard(id: nat, c: Card)
    requires AtMost(c.winning, U32_MAX) && AtMost(c.scratched, U32_MAX)
    ensures ParseCard(FormatCard(id, c)) == Some(c)
  {
    CardPieces(id, c);
    CardHalves(id, c);
    SpacedParses(c.winning, U32_MAX);
    SpacedParses(c.scratched, U32_MAX);
  }

  /** The text of a card splits at ": " into its head and its numbers. */
  lemma CardPieces(id: nat, c: Card)
    ensures Split(FormatCard(id, c), ": ")
         == ["Card " + Decimal(id), Spaced(c.winning) + " | " + Spaced(c.scratched)]
  {
    var head := "Card " + Decimal(id);
    var body := Spaced(c.winning) + " | " + Spaced(c.scratched);
    assert FormatCard(id, c) == head + ": " + body;
    HeadFree(id);
    SpacedFree(c.winning, ':');
    SpacedFree(c.scratched, ':');
    FreeAppend(Spaced(c.winning), " | ", ':');
    FreeAppend(Spaced(c.winning) + " | ", Spaced(c.scratched), ':');
    SplitTwo(head, body, ": ");
  }

  /** The numbers part of a card splits at " | " into its two lists. */
  lemma CardHalves(id: nat, c: Card)
    ensures Halves(FormatCard(id, c)) == [Spaced(c.winning), Spaced(c.scratched)]
  {
    CardPieces(id, c);
    var body := Spaced(c.winning) + " | " + Spaced(c.scratched);
    SpacedFree(c.winning, '|');
    SpacedFree(c.scratched, '|');
    assert body == Join([Spaced(c.winning), Spaced(c.scratched)], " | ");
    SplitJoinAt([Spaced(c.winning), Spaced(c.scratched)], " | ", 1);
  }

  lemma HeadFree(id: nat)
    ensures Free("Card " + Decimal(id), ':')
  {
    var d := Decimal(id);
    forall i | 0 <= i < |d|
      ensures d[i] != ':'
    {
      assert IsDigit(d[i]);
    }
  }
}
