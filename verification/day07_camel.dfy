/** Day 7 (Camel Cards): five-card hands ranked by type, then card by card. */
module CamelCards {
  import opened Wrappers
  import opened Text

  // ---------------------------------------------------------------------------
  // Cards and strengths

  /** Hand types, weakest first. */
  datatype Strength = HighCard | OnePair | TwoPair | ThreeKind | FullHouse | FourKind | FiveKind

  /** Card faces, lowest first. */
  datatype Card = Two | Three | Four | Five | Six | Seven | Eight | Nine | Ten | Jack | Queen | King | Ace

  /** The position of a strength in declaration order, which the derived
      `Ord` compares. */
  function StrengthRank(s: Strength): (n: nat)
    ensures n < 7
  {
    match s
    case HighCard => 0
    case OnePair => 1
    case TwoPair => 2
    case ThreeKind => 3
    case FullHouse => 4
    case FourKind => 5
    case FiveKind => 6
  }

  /** The position of a card in declaration order. */
  function CardRank(c: Card): (n: nat)
    ensures n < 13
  {
    match c
    case Two => 0
    case Three => 1
    case Four => 2
    case Five => 3
    case Six => 4
    case Seven => 5
    case Eight => 6
    case Nine => 7
    case Ten => 8
    case Jack => 9
    case Queen => 10
    case King => 11
    case Ace => 12
  }

  lemma RanksInjective(a: Card, b: Card, s: Strength, t: Strength)
    ensures CardRank(a) == CardRank(b) ==> a == b
    ensures StrengthRank(s) == StrengthRank(t) ==> s == t
  {
  }

  /** The character that stands for a card. */
  function Symbol(c: Card): char
  {
    match c
    case Two => '2'
    case Three => '3'
    case Four => '4'
    case Five => '5'
    case Six => '6'
    case Seven => '7'
    case Eight => '8'
    case Nine => '9'
    case Ten => 'T'
    case Jack => 'J'
    case Queen => 'Q'
    case King => 'K'
    case Ace => 'A'
  }

  /** `Card::from_str`: exactly one of the thirteen card characters. */
  function ParseCard(s: string): (r: Option<Card>)
  {
    if |s| != 1 then None
    else
      match s[0]
      case 'A' => Some(Ace)
      case 'K' => Some(King)
      case 'Q' => Some(Queen)
      case 'J' => Some(Jack)
      case 'T' => Some(Ten)
      case '9' => Some(Nine)
      case '8' => Some(Eight)
      case '7' => Some(Seven)
      case '6' => Some(Six)
      case '5' => Some(Five)
      case '4' => Some(Four)
      case '3' => Some(Three)
      case '2' => Some(Two)
      case _ => None
  }

  /** A card string parses exactly when it is the symbol of a card, and then
      to that card. */
  lemma ParseCardSymbol(s: string, c: Card)
    ensures ParseCard(s) == Some(c) <==> s == [Symbol(c)]
  {
  }

  /** Thirteen characters are cards; every other one-character string is not. */
  lemma ParseCardFails(s: string)
    ensures ParseCard(s).None? <==> (|s| != 1 || s[0] !in "AKQJT98765432")
  {
  }

  // ---------------------------------------------------------------------------
  // Counting the cards of a hand

  /** How often `c` occurs in `cards`. */
  function Occ(cards: seq<Card>, c: Card): (n: nat)
    ensures n <= |cards|
  {
    if cards == [] then 0 else Occ(cards[..|cards| - 1], c) + (if cards[|cards| - 1] == c then 1 else 0)
  }

  /** A table of counts, one entry per distinct card (the `HashMap` the fold
      builds). */
  type Tally = seq<(Card, nat)>

  /** The count of `c` in the table, 0 when it has no entry. */
  function Lookup(t: Tally, c: Card): nat
  {
    if t == [] then 0 else if t[0].0 == c then t[0].1 else Lookup(t[1..], c)
  }

  /** The cards that have an entry, in table order. */
  function Keys(t: Tally): (ks: seq<Card>)
    ensures |ks| == |t| && forall i :: 0 <= i < |t| ==> ks[i] == t[i].0
  {
    if t == [] then [] else [t[0].0] + Keys(t[1..])
  }

  predicate NoDuplicates(s: seq<Card>)
  {
    forall i, j :: 0 <= i < j < |s| ==> s[i] != s[j]
  }

  predicate Positive(t: Tally)
  {
    forall i :: 0 <= i < |t| ==> t[i].1 >= 1
  }

  /** One more `c`: its entry goes up by one, or a new entry 1 is added. */
  function Add(t: Tally, c: Card): (u: Tally)
  {
    if t == [] then [(c, 1)]
    else if t[0].0 == c then [(c, t[0].1 + 1)] + t[1..]
    else [t[0]] + Add(t[1..], c)
  }

  /** The counts of `cards`, folded from the first card to the last. */
  function TallyOf(cards: seq<Card>): Tally
  {
    if cards == [] then [] else Add(TallyOf(cards[..|cards| - 1]), cards[|cards| - 1])
  }

  function Total(t: Tally): nat
  {
    if t == [] then 0 else t[0].1 + Total(t[1..])
  }

  /** The largest count in the table, 0 for an empty table. */
  function MaxCount(t: Tally): (m: nat)
    ensures forall i :: 0 <= i < |t| ==> t[i].1 <= m
    ensures t != [] ==> exists i :: 0 <= i < |t| && t[i].1 == m
  {
    if t == [] then 0
    else
      var m := MaxCount(t[1..]);
      assert forall i :: 1 <= i < |t| ==> t[i] == t[1..][i - 1];
      if t[0].1 >= m then t[0].1 else m
  }

  /** With distinct keys, an entry's count is what `Lookup` finds. */
  lemma {:induction false} LookupKey(t: Tally, i: nat)
    requires NoDuplicates(Keys(t)) && i < |t|
    ensures Lookup(t, t[i].0) == t[i].1
    decreases |t|
  {
    if i > 0 {
      assert Keys(t)[0] != Keys(t)[i];
      assert Keys(t[1..]) == Keys(t)[1..];
      assert t[1..][i - 1] == t[i];
      LookupKey(t[1..], i - 1);
    }
  }

  /** `Add` appends its card to the keys when it has no entry yet. */
  lemma {:induction false} KeysAdd(t: Tally, c: Card)
    ensures Keys(Add(t, c)) == if c in Keys(t) then Keys(t) else Keys(t) + [c]
    decreases |t|
  {
    if t != [] && t[0].0 != c {
      KeysAdd(t[1..], c);
      assert Keys(t) == [t[0].0] + Keys(t[1..]);
    }
  }

  lemma KeysAddIn(t: Tally, c: Card)
    ensures forall d :: d in Keys(Add(t, c)) <==> d in Keys(t) || d == c
  {
    KeysAdd(t, c);
  }

  /** `Add` counts its card once more and leaves every other count alone. */
  lemma {:induction false} LookupAdd(t: Tally, c: Card, d: Card)
    ensures Lookup(Add(t, c), d) == Lookup(t, d) + (if d == c then 1 else 0)
    decreases |t|
  {
    if t != [] && t[0].0 != c {
      LookupAdd(t[1..], c, d);
    }
  }

  lemma {:induction false} TotalAdd(t: Tally, c: Card)
    requires Positive(t)
    ensures Total(Add(t, c)) == Total(t) + 1 && Positive(Add(t, c))
    decreases |t|
  {
    if t != [] && t[0].0 != c {
      assert Positive(t[1..]) by {
        forall i | 0 <= i < |t[1..]| ensures t[1..][i].1 >= 1 {
          assert t[1..][i] == t[i + 1];
        }
      }
      TotalAdd(t[1..], c);
    }
  }

  /** The table of a hand: distinct cards, exactly the hand's cards, each
      with its number of occurrences, the counts adding up to the number of
      cards. */
  lemma TallyFacts(cards: seq<Card>)
    ensures NoDuplicates(Keys(TallyOf(cards))) && Positive(TallyOf(cards))
    ensures forall d :: Lookup(TallyOf(cards), d) == Occ(cards, d)
    ensures forall d :: d in Keys(TallyOf(cards)) <==> d in cards
    ensures Total(TallyOf(cards)) == |cards|
  {
    TallyKeys(cards);
    TallyCounts(cards);
    TallyTotal(cards);
  }

  lemma TallyKeys(cards: seq<Card>)
    ensures NoDuplicates(Keys(TallyOf(cards)))
    ensures forall d :: d in Keys(TallyOf(cards)) <==> d in cards
  {
    TallyKeysIn(cards);
    TallyKeysDistinct(cards);
  }

  lemma {:induction false} TallyKeysIn(cards: seq<Card>)
    ensures forall d :: d in Keys(TallyOf(cards)) <==> d in cards
    decreases |cards|
  {
    if cards != [] {
      var init := cards[..|cards| - 1];
      var last := cards[|cards| - 1];
      TallyKeysIn(init);
      var t := TallyOf(init);
      assert TallyOf(cards) == Add(t, last);
      KeysAddIn(t, last);
      assert cards == init + [last];
      forall d ensures d in Keys(Add(t, last)) <==> d in cards {
        assert d in cards <==> d in init || d == last;
      }
    }
  }

  lemma {:induction false} TallyKeysDistinct(cards: seq<Card>)
    ensures NoDuplicates(Keys(TallyOf(cards)))
    decreases |cards|
  {
    if cards != [] {
      var init := cards[..|cards| - 1];
      var last := cards[|cards| - 1];
      TallyKeysDistinct(init);
      KeysAdd(TallyOf(init), last);
      if last !in Keys(TallyOf(init)) {
        NoDuplicatesSnoc(Keys(TallyOf(init)), last);
      }
    }
  }

  lemma NoDuplicatesSnoc(ks: seq<Card>, c: Card)
    requires NoDuplicates(ks) && c !in ks
    ensures NoDuplicates(ks + [c])
  {
  }

  lemma {:induction false} TallyCounts(cards: seq<Card>)
    ensures forall d :: Lookup(TallyOf(cards), d) == Occ(cards, d)
    decreases |cards|
  {
    if cards != [] {
      var init := cards[..|cards| - 1];
      var last := cards[|cards| - 1];
      TallyCounts(init);
      forall d ensures Lookup(Add(TallyOf(init), last), d) == Occ(cards, d) {
        LookupAdd(TallyOf(init), last, d);
      }
    }
  }

  lemma {:induction false} TallyTotal(cards: seq<Card>)
    ensures Positive(TallyOf(cards)) && Total(TallyOf(cards)) == |cards|
    decreases |cards|
  {
    if cards != [] {
      var init := cards[..|cards| - 1];
      TallyTotal(init);
      TotalAdd(TallyOf(init), cards[|cards| - 1]);
    }
  }

  /** A table's length is at most its total, and at least one when the total
      is positive. */
  lemma {:induction false} TotalBounds(t: Tally)
    requires Positive(t)
    ensures |t| <= Total(t)
    ensures |t| > 0 <==> Total(t) > 0
    decreases |t|
  {
    if t != [] {
      assert Positive(t[1..]) by {
        forall i | 0 <= i < |t[1..]| ensures t[1..][i].1 >= 1 {
          assert t[1..][i] == t[i + 1];
        }
      }
      TotalBounds(t[1..]);
    }
  }

  /** A hand has between one entry and one entry per card. */
  lemma TallySize(cards: seq<Card>)
    requires cards != []
    ensures 1 <= |TallyOf(cards)| <= |cards|
  {
    TallyFacts(cards);
    TotalBounds(TallyOf(cards));
  }

  // ---------------------------------------------------------------------------
  // Strength of a hand

  /** `Hand::get_strength`: classified by the number of distinct cards and,
      for two or three of them, by the largest count. The `panic!` branch is
      unreachable: five cards have between one and five distinct faces. */
  function GetStrength(cards: seq<Card>): (s: Strength)
    requires |cards| == 5
  {
    var counts := TallyOf(cards);
    TallySize(cards);
    match |counts|
    case 1 => FiveKind
    case 2 => if MaxCount(counts) == 4 then FourKind else FullHouse
    case 3 => if MaxCount(counts) == 3 then ThreeKind else TwoPair
    case 4 => OnePair
    case 5 => HighCard
  }

  /** Some card of the hand occurs exactly `k` times. */
  predicate HasCount(cards: seq<Card>, k: nat)
  {
    exists i :: 0 <= i < |cards| && Occ(cards, cards[i]) == k
  }

  /** Two different cards of the hand occur exactly twice each. */
  predicate TwoPairs(cards: seq<Card>)
  {
    exists i, j :: 0 <= i < |cards| && 0 <= j < |cards| && cards[i] != cards[j]
      && Occ(cards, cards[i]) == 2 && Occ(cards, cards[j]) == 2
  }

  /** The hand types as the puzzle describes them, from the strongest down. */
  function TypeOf(cards: seq<Card>): Strength
  {
    if HasCount(cards, 5) then FiveKind
    else if HasCount(cards, 4) then FourKind
    else if HasCount(cards, 3) && HasCount(cards, 2) then FullHouse
    else if HasCount(cards, 3) then ThreeKind
    else if TwoPairs(cards) then TwoPair
    else if HasCount(cards, 2) then OnePair
    else HighCard
  }

  /** A count in the table is the count of some card of the hand. */
  predicate TableHas(t: Tally, k: nat)
  {
    exists i :: 0 <= i < |t| && t[i].1 == k
  }

  predicate TablePairs(t: Tally)
  {
    exists i, j :: 0 <= i < |t| && 0 <= j < |t| && i != j && t[i].1 == 2 && t[j].1 == 2
  }

  /** The hand's counts are the table's counts. */
  lemma CountsAreTable(cards: seq<Card>, k: nat)
    ensures HasCount(cards, k) <==> TableHas(TallyOf(cards), k)
  {
    var t := TallyOf(cards);
    TallyFacts(cards);
    if HasCount(cards, k) {
      var i :| 0 <= i < |cards| && Occ(cards, cards[i]) == k;
      var e := KeyIndex(t, cards[i]);
      LookupKey(t, e);
    }
    if TableHas(t, k) {
      var e :| 0 <= e < |t| && t[e].1 == k;
      LookupKey(t, e);
      assert t[e].0 in Keys(t);
      var i :| 0 <= i < |cards| && cards[i] == t[e].0;
    }
  }

  /** Two pairs in the hand are two entries 2 in the table. */
  lemma PairsAreTable(cards: seq<Card>)
    ensures TwoPairs(cards) <==> TablePairs(TallyOf(cards))
  {
    if TwoPairs(cards) {
      PairsToTable(cards);
    }
    if TablePairs(TallyOf(cards)) {
      TableToPairs(cards);
    }
  }

  lemma PairsToTable(cards: seq<Card>)
    requires TwoPairs(cards)
    ensures TablePairs(TallyOf(cards))
  {
    var t := TallyOf(cards);
    TallyFacts(cards);
    var i, j :| 0 <= i < |cards| && 0 <= j < |cards| && cards[i] != cards[j]
      && Occ(cards, cards[i]) == 2 && Occ(cards, cards[j]) == 2;
    var e := KeyIndex(t, cards[i]);
    var f := KeyIndex(t, cards[j]);
    LookupKey(t, e);
    LookupKey(t, f);
  }

  lemma TableToPairs(cards: seq<Card>)
    requires TablePairs(TallyOf(cards))
    ensures TwoPairs(cards)
  {
    var t := TallyOf(cards);
    var e, f :| 0 <= e < |t| && 0 <= f < |t| && e != f && t[e].1 == 2 && t[f].1 == 2;
    var i := EntryCard(cards, e);
    var j := EntryCard(cards, f);
    TallyKeys(cards);
    assert Keys(t)[e] != Keys(t)[f];
  }

  /** The entry at `e` is the count of a card of the hand. */
  lemma EntryCard(cards: seq<Card>, e: nat) returns (i: nat)
    requires e < |TallyOf(cards)|
    ensures i < |cards| && cards[i] == TallyOf(cards)[e].0
    ensures Occ(cards, cards[i]) == TallyOf(cards)[e].1
  {
    var t := TallyOf(cards);
    TallyFacts(cards);
    LookupKey(t, e);
    assert t[e].0 in Keys(t);
    i :| 0 <= i < |cards| && cards[i] == t[e].0;
  }

  /** The position of a key in the table. */
  function KeyIndex(t: Tally, c: Card): (i: nat)
    requires c in Keys(t)
    ensures i < |t| && t[i].0 == c
  {
    if t[0].0 == c then 0 else 1 + KeyIndex(t[1..], c)
  }

  /** The type read off the table's counts, which are positive and add up
      to five. */
  function TableType(t: Tally): Strength
  {
    if TableHas(t, 5) then FiveKind
    else if TableHas(t, 4) then FourKind
    else if TableHas(t, 3) && TableHas(t, 2) then FullHouse
    else if TableHas(t, 3) then ThreeKind
    else if TablePairs(t) then TwoPair
    else if TableHas(t, 2) then OnePair
    else HighCard
  }

  /** `get_strength` gives the puzzle's hand type for every five-card hand. */
  lemma StrengthIsType(cards: seq<Card>)
    requires |cards| == 5
    ensures GetStrength(cards) == TypeOf(cards)
  {
    var t := TallyOf(cards);
    TallyFacts(cards);
    TotalBounds(t);
    PairsAreTable(cards);
    CountsAreTable(cards, 2);
    CountsAreTable(cards, 3);
    CountsAreTable(cards, 4);
    CountsAreTable(cards, 5);
    ClassifyTable(t);
  }

  /** The count-based classification agrees with the type of the counts. */
  lemma ClassifyTable(t: Tally)
    requires Positive(t) && Total(t) == 5 && 1 <= |t| <= 5
    ensures TableType(t) == match |t|
      case 1 => FiveKind
      case 2 => if MaxCount(t) == 4 then FourKind else FullHouse
      case 3 => if MaxCount(t) == 3 then ThreeKind else TwoPair
      case 4 => OnePair
      case _ => HighCard
  {
    TotalUnfold(t);
    if |t| == 1 {
      assert TableHas(t, 5);
    } else if |t| == 2 {
      ClassifyTwo(t);
    } else if |t| == 3 {
      ClassifyThree(t);
    } else if |t| == 4 {
      assert !TableHas(t, 5) && !TableHas(t, 4) && !TableHas(t, 3) && !TablePairs(t);
      assert TableHas(t, 2);
    } else {
      assert !TableHas(t, 5) && !TableHas(t, 4) && !TableHas(t, 3) && !TablePairs(t) && !TableHas(t, 2);
    }
  }

  /** Two entries adding up to five: four and one, or three and two. */
  lemma ClassifyTwo(t: Tally)
    requires Positive(t) && |t| == 2 && t[0].1 + t[1].1 == 5
    ensures TableType(t) == if MaxCount(t) == 4 then FourKind else FullHouse
  {
    if t[0].1 == 4 || t[1].1 == 4 {
      assert TableHas(t, 4);
    } else {
      assert !TableHas(t, 5) && !TableHas(t, 4);
      if t[0].1 == 3 {
        assert TableHas(t, 3) && TableHas(t, 2) by { assert t[1].1 == 2; }
      } else {
        assert t[0].1 == 2 && t[1].1 == 3;
        assert TableHas(t, 3) && TableHas(t, 2) by { assert t[0].1 == 2; }
      }
    }
  }

  /** Three entries adding up to five: three, one and one, or two, two and one. */
  lemma ClassifyThree(t: Tally)
    requires Positive(t) && |t| == 3 && t[0].1 + t[1].1 + t[2].1 == 5
    ensures TableType(t) == if MaxCount(t) == 3 then ThreeKind else TwoPair
  {
    assert !TableHas(t, 5) && !TableHas(t, 4);
    if t[0].1 == 3 || t[1].1 == 3 || t[2].1 == 3 {
      assert TableHas(t, 3);
      assert !TableHas(t, 2);
    } else {
      assert !TableHas(t, 3);
      assert MaxCount(t) == 2;
      if t[0].1 == 1 {
        assert TablePairs(t) by { assert t[1].1 == 2 && t[2].1 == 2; }
      } else if t[1].1 == 1 {
        assert TablePairs(t) by { assert t[0].1 == 2 && t[2].1 == 2; }
      } else {
        assert TablePairs(t) by { assert t[0].1 == 2 && t[1].1 == 2; }
      }
    }
  }

  /** The total of a short table written out. */
  lemma TotalUnfold(t: Tally)
    requires |t| <= 5
    ensures |t| == 1 ==> Total(t) == t[0].1
    ensures |t| == 2 ==> Total(t) == t[0].1 + t[1].1
    ensures |t| == 3 ==> Total(t) == t[0].1 + t[1].1 + t[2].1
    ensures |t| == 4 ==> Total(t) == t[0].1 + t[1].1 + t[2].1 + t[3].1
    ensures |t| == 5 ==> Total(t) == t[0].1 + t[1].1 + t[2].1 + t[3].1 + t[4].1
  {
    if |t| > 0 {
      var u := t[1..];
      if |u| > 0 { var v := u[1..];
        if |v| > 0 { var w := v[1..];
          if |w| > 0 { var x := w[1..];
            if |x| > 0 { assert x[1..] == []; }
          }
        }
      }
    }
  }

  /** The table of five cards, one `Add` per card from the first. */
  lemma TallyFive(a: Card, b: Card, c: Card, d: Card, e: Card)
    ensures TallyOf([a, b, c, d, e]) == Add(Add(Add(Add(Add([], a), b), c), d), e)
  {
    assert [a, b, c, d, e][..4] == [a, b, c, d];
    assert [a, b, c, d][..3] == [a, b, c];
    assert [a, b, c][..2] == [a, b];
    assert [a, b][..1] == [a];
    assert [a][..0] == [];
    assert TallyOf([a]) == Add([], a);
    assert TallyOf([a, b]) == Add(TallyOf([a]), b);
    assert TallyOf([a, b, c]) == Add(TallyOf([a, b]), c);
    assert TallyOf([a, b, c, d]) == Add(TallyOf([a, b, c]), d);
    assert TallyOf([a, b, c, d, e]) == Add(TallyOf([a, b, c, d]), e);
  }

  /** The test's seven hands, one of each type. */
  lemma StrengthExamples()
    ensures GetStrength([Ace, Ace, Ace, Ace, Ace]) == FiveKind
    ensures GetStrength([Nine, Nine, Eight, Nine, Nine]) == FourKind
    ensures GetStrength([Two, Three, Three, Two, Three]) == FullHouse
    ensures GetStrength([Ten, Nine, Ten, Eight, Ten]) == ThreeKind
    ensures GetStrength([Two, Three, Jack, Three, Two]) == TwoPair
    ensures GetStrength([Queen, Two, Three, Queen, King]) == OnePair
    ensures GetStrength([Six, Three, Four, Five, King]) == HighCard
  {
    ShapeAAAAA(Ace);
    ShapeAABAA(Nine, Eight);
    ShapeABBAB(Two, Three);
    ShapeABACA(Ten, Nine, Eight);
    ShapeABCBA(Two, Three, Jack);
    ShapeABCAD(Queen, Two, Three, King);
    ShapeABCDE(Six, Three, Four, Five, King);
  }

  // The strength of a hand depends only on which of its cards are equal:
  // one lemma per pattern of equal cards, the letters naming the distinct
  // cards in order of first appearance.

  lemma ShapeAAAAA(a: Card)
    ensures GetStrength([a, a, a, a, a]) == FiveKind
  {
    TallyFive(a, a, a, a, a);
    assert Add([], a) == [(a, 1)];
    assert Add([(a, 1)], a) == [(a, 2)];
    assert Add([(a, 2)], a) == [(a, 3)];
    assert Add([(a, 3)], a) == [(a, 4)];
    assert Add([(a, 4)], a) == [(a, 5)];
  }

  lemma ShapeAABAA(a: Card, b: Card)
    requires a != b
    ensures GetStrength([a, a, b, a, a]) == FourKind
  {
    TallyFive(a, a, b, a, a);
    assert Add([], a) == [(a, 1)];
    assert Add([(a, 1)], a) == [(a, 2)];
    assert Add([], b) == [(b, 1)];
    assert Add([(a, 2)], b) == [(a, 2), (b, 1)];
    assert Add([(a, 2), (b, 1)], a) == [(a, 3), (b, 1)];
    assert Add([(a, 3), (b, 1)], a) == [(a, 4), (b, 1)];
  }

  lemma ShapeABBAB(a: Card, b: Card)
    requires a != b
    ensures GetStrength([a, b, b, a, b]) == FullHouse
  {
    TallyFive(a, b, b, a, b);
    assert Add([], a) == [(a, 1)];
    assert Add([], b) == [(b, 1)];
    assert Add([(a, 1)], b) == [(a, 1), (b, 1)];
    assert Add([(b, 1)], b) == [(b, 2)];
    assert Add([(a, 1), (b, 1)], b) == [(a, 1), (b, 2)];
    assert Add([(a, 1), (b, 2)], a) == [(a, 2), (b, 2)];
    assert Add([(b, 2)], b) == [(b, 3)];
    assert Add([(a, 2), (b, 2)], b) == [(a, 2), (b, 3)];
  }

  lemma ShapeAABBA(a: Card, b: Card)
    requires a != b
    ensures GetStrength([a, a, b, b, a]) == FullHouse
  {
    TallyFive(a, a, b, b, a);
    assert Add([], a) == [(a, 1)];
    assert Add([(a, 1)], a) == [(a, 2)];
    assert Add([], b) == [(b, 1)];
    assert Add([(a, 2)], b) == [(a, 2), (b, 1)];
    assert Add([(b, 1)], b) == [(b, 2)];
    assert Add([(a, 2), (b, 1)], b) == [(a, 2), (b, 2)];
    assert Add([(a, 2), (b, 2)], a) == [(a, 3), (b, 2)];
  }

  lemma ShapeABACA(a: Card, b: Card, c: Card)
    requires a != b && a != c && b != c
    ensures GetStrength([a, b, a, c, a]) == ThreeKind
  {
    TallyFive(a, b, a, c, a);
    assert Add([], a) == [(a, 1)];
    assert Add([], b) == [(b, 1)];
    assert Add([(a, 1)], b) == [(a, 1), (b, 1)];
    assert Add([(a, 1), (b, 1)], a) == [(a, 2), (b, 1)];
    assert Add([], c) == [(c, 1)];
    assert Add([(b, 1)], c) == [(b, 1), (c, 1)];
    assert Add([(a, 2), (b, 1)], c) == [(a, 2), (b, 1), (c, 1)];
    assert Add([(a, 2), (b, 1), (c, 1)], a) == [(a, 3), (b, 1), (c, 1)];
  }

  lemma ShapeAABCA(a: Card, b: Card, c: Card)
    requires a != b && a != c && b != c
    ensures GetStrength([a, a, b, c, a]) == ThreeKind
  {
    TallyFive(a, a, b, c, a);
    assert Add([], a) == [(a, 1)];
    assert Add([(a, 1)], a) == [(a, 2)];
    assert Add([], b) == [(b, 1)];
    assert Add([(a, 2)], b) == [(a, 2), (b, 1)];
    assert Add([], c) == [(c, 1)];
    assert Add([(b, 1)], c) == [(b, 1), (c, 1)];
    assert Add([(a, 2), (b, 1)], c) == [(a, 2), (b, 1), (c, 1)];
    assert Add([(a, 2), (b, 1), (c, 1)], a) == [(a, 3), (b, 1), (c, 1)];
  }

  lemma ShapeABCBA(a: Card, b: Card, c: Card)
    requires a != b && a != c && b != c
    ensures GetStrength([a, b, c, b, a]) == TwoPair
  {
    TallyFive(a, b, c, b, a);
    assert Add([], a) == [(a, 1)];
    assert Add([], b) == [(b, 1)];
    assert Add([(a, 1)], b) == [(a, 1), (b, 1)];
    assert Add([], c) == [(c, 1)];
    assert Add([(b, 1)], c) == [(b, 1), (c, 1)];
    assert Add([(a, 1), (b, 1)], c) == [(a, 1), (b, 1), (c, 1)];
    assert Add([(b, 1), (c, 1)], b) == [(b, 2), (c, 1)];
    assert Add([(a, 1), (b, 1), (c, 1)], b) == [(a, 1), (b, 2), (c, 1)];
    assert Add([(a, 1), (b, 2), (c, 1)], a) == [(a, 2), (b, 2), (c, 1)];
  }

  lemma ShapeABCCA(a: Card, b: Card, c: Card)
    requires a != b && a != c && b != c
    ensures GetStrength([a, b, c, c, a]) == TwoPair
  {
    TallyFive(a, b, c, c, a);
    assert Add([], a) == [(a, 1)];
    assert Add([], b) == [(b, 1)];
    assert Add([(a, 1)], b) == [(a, 1), (b, 1)];
    assert Add([], c) == [(c, 1)];
    assert Add([(b, 1)], c) == [(b, 1), (c, 1)];
    assert Add([(a, 1), (b, 1)], c) == [(a, 1), (b, 1), (c, 1)];
    assert Add([(c, 1)], c) == [(c, 2)];
    assert Add([(b, 1), (c, 1)], c) == [(b, 1), (c, 2)];
    assert Add([(a, 1), (b, 1), (c, 1)], c) == [(a, 1), (b, 1), (c, 2)];
    assert Add([(a, 1), (b, 1), (c, 2)], a) == [(a, 2), (b, 1), (c, 2)];
  }

  lemma ShapeABCAD(a: Card, b: Card, c: Card, d: Card)
    requires a != b && a != c && a != d && b != c && b != d && c != d
    ensures GetStrength([a, b, c, a, d]) == OnePair
  {
    TallyFive(a, b, c, a, d);
    assert Add([], a) == [(a, 1)];
    assert Add([], b) == [(b, 1)];
    assert Add([(a, 1)], b) == [(a, 1), (b, 1)];
    assert Add([], c) == [(c, 1)];
    assert Add([(b, 1)], c) == [(b, 1), (c, 1)];
    assert Add([(a, 1), (b, 1)], c) == [(a, 1), (b, 1), (c, 1)];
    assert Add([(a, 1), (b, 1), (c, 1)], a) == [(a, 2), (b, 1), (c, 1)];
    assert Add([], d) == [(d, 1)];
    assert Add([(c, 1)], d) == [(c, 1), (d, 1)];
    assert Add([(b, 1), (c, 1)], d) == [(b, 1), (c, 1), (d, 1)];
    assert Add([(a, 2), (b, 1), (c, 1)], d) == [(a, 2), (b, 1), (c, 1), (d, 1)];
  }

  lemma ShapeAABCD(a: Card, b: Card, c: Card, d: Card)
    requires a != b && a != c && a != d && b != c && b != d && c != d
    ensures GetStrength([a, a, b, c, d]) == OnePair
  {
    TallyFive(a, a, b, c, d);
    assert Add([], a) == [(a, 1)];
    assert Add([(a, 1)], a) == [(a, 2)];
    assert Add([], b) == [(b, 1)];
    assert Add([(a, 2)], b) == [(a, 2), (b, 1)];
    assert Add([], c) == [(c, 1)];
    assert Add([(b, 1)], c) == [(b, 1), (c, 1)];
    assert Add([(a, 2), (b, 1)], c) == [(a, 2), (b, 1), (c, 1)];
    assert Add([], d) == [(d, 1)];
    assert Add([(c, 1)], d) == [(c, 1), (d, 1)];
    assert Add([(b, 1), (c, 1)], d) == [(b, 1), (c, 1), (d, 1)];
    assert Add([(a, 2), (b, 1), (c, 1)], d) == [(a, 2), (b, 1), (c, 1), (d, 1)];
  }

  lemma ShapeABCDE(a: Card, b: Card, c: Card, d: Card, e: Card)
    requires a != b && a != c && a != d && a != e && b != c && b != d && b != e && c != d && c != e && d != e
    ensures GetStrength([a, b, c, d, e]) == HighCard
  {
    TallyFive(a, b, c, d, e);
    assert Add([], a) == [(a, 1)];
    assert Add([], b) == [(b, 1)];
    assert Add([(a, 1)], b) == [(a, 1), (b, 1)];
    assert Add([], c) == [(c, 1)];
    assert Add([(b, 1)], c) == [(b, 1), (c, 1)];
    assert Add([(a, 1), (b, 1)], c) == [(a, 1), (b, 1), (c, 1)];
    assert Add([], d) == [(d, 1)];
    assert Add([(c, 1)], d) == [(c, 1), (d, 1)];
    assert Add([(b, 1), (c, 1)], d) == [(b, 1), (c, 1), (d, 1)];
    assert Add([(a, 1), (b, 1), (c, 1)], d) == [(a, 1), (b, 1), (c, 1), (d, 1)];
    assert Add([], e) == [(e, 1)];
    assert Add([(d, 1)], e) == [(d, 1), (e, 1)];
    assert Add([(c, 1), (d, 1)], e) == [(c, 1), (d, 1), (e, 1)];
    assert Add([(b, 1), (c, 1), (d, 1)], e) == [(b, 1), (c, 1), (d, 1), (e, 1)];
    assert Add([(a, 1), (b, 1), (c, 1), (d, 1)], e) == [(a, 1), (b, 1), (c, 1), (d, 1), (e, 1)];
  }

  // ---------------------------------------------------------------------------
  // Hands and their order

  datatype Hand = Hand(cards: seq<Card>, bid: nat, strength: Strength)

  /** A hand as `Hand::new` builds it: five cards and their strength. */
  predicate ValidHand(h: Hand)
  {
    |h.cards| == 5 && h.strength == GetStrength(h.cards)
  }

  /** `Hand::new`. */
  function NewHand(cards: seq<Card>, bid: nat): (h: Hand)
    requires |cards| == 5
    ensures ValidHand(h) && h.cards == cards && h.bid == bid
  {
    Hand(cards, bid, GetStrength(cards))
  }

  datatype Ordering = Less | Equal | Greater

  function Flip(o: Ordering): Ordering
  {
    match o
    case Less => Greater
    case Equal => Equal
    case Greater => Less
  }

  function CompareNat(a: nat, b: nat): (o: Ordering)
  {
    if a < b then Less else if a == b then Equal else Greater
  }

  /** The card loop: the first differing position decides. */
  function CompareCards(a: seq<Card>, b: seq<Card>): (o: Ordering)
    requires |a| == |b|
  {
    if a == [] then Equal
    else if CardRank(a[0]) < CardRank(b[0]) then Less
    else if CardRank(a[0]) > CardRank(b[0]) then Greater
    else CompareCards(a[1..], b[1..])
  }

  /** `Ord for Hand`: strength first, then the cards from left to right. The
      bid is not looked at. */
  function Compare(a: Hand, b: Hand): (o: Ordering)
    requires |a.cards| == |b.cards|
  {
    match CompareNat(StrengthRank(a.strength), StrengthRank(b.strength))
    case Less => Less
    case Greater => Greater
    case Equal => CompareCards(a.cards, b.cards)
  }

  /** Card `k` is the first position where the two rows differ. */
  predicate FirstDiff(a: seq<Card>, b: seq<Card>, k: nat)
    requires |a| == |b|
  {
    k < |a| && a[k] != b[k] && a[..k] == b[..k]
  }

  /** The card loop answers by the first differing card, and `Equal` exactly
      for equal rows. */
  lemma {:induction false} CompareCardsMeaning(a: seq<Card>, b: seq<Card>)
    requires |a| == |b|
    ensures CompareCards(a, b) == Equal <==> a == b
    ensures forall k: nat :: FirstDiff(a, b, k) ==>
      CompareCards(a, b) == CompareNat(CardRank(a[k]), CardRank(b[k]))
    decreases |a|
  {
    if a != [] {
      CompareCardsMeaning(a[1..], b[1..]);
      RanksInjective(a[0], b[0], HighCard, HighCard);
      forall k: nat | FirstDiff(a, b, k)
        ensures CompareCards(a, b) == CompareNat(CardRank(a[k]), CardRank(b[k]))
      {
        if k > 0 {
          assert a[0] == a[..k][0] == b[..k][0] == b[0];
          assert a[1..][..k - 1] == a[1..k] == b[1..k] == b[1..][..k - 1];
          assert FirstDiff(a[1..], b[1..], k - 1);
        }
      }
      if a[0] == b[0] && a[1..] == b[1..] {
        assert a == [a[0]] + a[1..];
        assert b == [b[0]] + b[1..];
      }
    }
  }

  /** Comparing the other way round flips the answer. */
  lemma {:induction false} CompareCardsFlip(a: seq<Card>, b: seq<Card>)
    requires |a| == |b|
    ensures CompareCards(b, a) == Flip(CompareCards(a, b))
    decreases |a|
  {
    if a != [] {
      CompareCardsFlip(a[1..], b[1..]);
    }
  }

  /** The card loop is transitive. */
  lemma {:induction false} CompareCardsTransitive(a: seq<Card>, b: seq<Card>, c: seq<Card>, o: Ordering)
    requires |a| == |b| == |c|
    requires CompareCards(a, b) == o && CompareCards(b, c) == o
    ensures CompareCards(a, c) == o
    decreases |a|
  {
    if a != [] && CardRank(a[0]) == CardRank(b[0]) == CardRank(c[0]) {
      CompareCardsTransitive(a[1..], b[1..], c[1..], o);
    }
  }

  /** `cmp` orders valid hands totally: `Equal` exactly for hands with the same
      cards, whatever their bids, and swapping the hands flips the answer. */
  lemma CompareEqual(a: Hand, b: Hand)
    requires ValidHand(a) && ValidHand(b)
    ensures Compare(a, b) == Equal <==> a.cards == b.cards
    ensures Compare(b, a) == Flip(Compare(a, b))
  {
    CompareCardsMeaning(a.cards, b.cards);
    CompareCardsFlip(a.cards, b.cards);
    RanksInjective(Two, Two, a.strength, b.strength);
  }

  /** `cmp` is transitive. */
  lemma CompareTransitive(a: Hand, b: Hand, c: Hand, o: Ordering)
    requires |a.cards| == |b.cards| == |c.cards|
    requires Compare(a, b) == o && Compare(b, c) == o
    ensures Compare(a, c) == o
  {
    if StrengthRank(a.strength) == StrengthRank(b.strength) == StrengthRank(c.strength) {
      CompareCardsTransitive(a.cards, b.cards, c.cards, o);
    }
  }

  /** A stronger type wins whatever the cards; with equal types the first
      differing card decides. */
  lemma CompareMeaning(a: Hand, b: Hand)
    requires |a.cards| == |b.cards|
    ensures StrengthRank(a.strength) < StrengthRank(b.strength) ==> Compare(a, b) == Less
    ensures StrengthRank(a.strength) > StrengthRank(b.strength) ==> Compare(a, b) == Greater
    ensures a.strength == b.strength ==> forall k: nat :: FirstDiff(a.cards, b.cards, k) ==>
      Compare(a, b) == CompareNat(CardRank(a.cards[k]), CardRank(b.cards[k]))
  {
    CompareCardsMeaning(a.cards, b.cards);
  }

  /** The ordering tests: bids 100 and 150, compared by type and then by cards. */
  lemma OrderExamples()
    ensures Compare(NewHand([Ace, Ace, Ace, Ace, Ace], 100), NewHand([Ace, Ace, Ace, Ace, Ace], 150)) == Equal
    ensures Compare(NewHand([Ace, Ace, Ace, Ace, Ace], 100), NewHand([Nine, Nine, Nine, Nine, Nine], 150)) == Greater
    ensures Compare(NewHand([Nine, Nine, Nine, Nine, Nine], 100), NewHand([Nine, Nine, Eight, Nine, Nine], 150)) == Greater
    ensures Compare(NewHand([Nine, Nine, Eight, Eight, Nine], 100), NewHand([Nine, Nine, Eight, Nine, Nine], 150)) == Less
    ensures Compare(NewHand([Nine, Nine, Eight, Seven, Nine], 100), NewHand([Nine, Nine, Eight, Eight, Nine], 150)) == Less
    ensures Compare(NewHand([Nine, Nine, Eight, Seven, Nine], 100), NewHand([Ace, Two, Eight, Eight, Ace], 150)) == Greater
    ensures Compare(NewHand([Nine, Nine, Eight, Ten, Jack], 100), NewHand([Ace, Two, Eight, Eight, Ace], 150)) == Less
    ensures Compare(NewHand([Nine, Nine, Eight, Ten, Jack], 100), NewHand([Ace, Two, Eight, Three, King], 150)) == Greater
    ensures Compare(NewHand([Ace, King, Queen, Jack, Ten], 100), NewHand([Ace, King, Queen, Jack, Nine], 150)) == Greater
    ensures Compare(NewHand([Ace, King, Queen, Jack, Ten], 100), NewHand([Ace, King, Queen, Jack, Ten], 150)) == Equal
  {
    OrderAAAAAVsAAAAA();
    OrderAAAAAVs99999();
    Order99999Vs99899();
    Order99889Vs99899();
    Order99879Vs99889();
    Order99879VsA288A();
    Order998TJVsA288A();
    Order998TJVsA283K();
    OrderAKQJTVsAKQJ9();
    OrderAKQJTVsAKQJT();
  }

  /** Hands of different strength are ordered by strength alone. */
  lemma ByStrength(a: seq<Card>, b: seq<Card>, x: nat, y: nat)
    requires |a| == 5 && |b| == 5
    ensures StrengthRank(GetStrength(a)) < StrengthRank(GetStrength(b)) ==> Compare(NewHand(a, x), NewHand(b, y)) == Less
    ensures StrengthRank(GetStrength(a)) > StrengthRank(GetStrength(b)) ==> Compare(NewHand(a, x), NewHand(b, y)) == Greater
  {
  }

  lemma OrderAAAAAVsAAAAA()
    ensures Compare(NewHand([Ace, Ace, Ace, Ace, Ace], 100), NewHand([Ace, Ace, Ace, Ace, Ace], 150)) == Equal
  {
    CompareEqual(NewHand([Ace, Ace, Ace, Ace, Ace], 100), NewHand([Ace, Ace, Ace, Ace, Ace], 150));
  }

  lemma OrderAAAAAVs99999()
    ensures Compare(NewHand([Ace, Ace, Ace, Ace, Ace], 100), NewHand([Nine, Nine, Nine, Nine, Nine], 150)) == Greater
  {
    ByStrength([Ace, Ace, Ace, Ace, Ace], [Nine, Nine, Nine, Nine, Nine], 100, 150);
    ShapeAAAAA(Ace);
    ShapeAAAAA(Nine);
  }

  lemma Order99999Vs99899()
    ensures Compare(NewHand([Nine, Nine, Nine, Nine, Nine], 100), NewHand([Nine, Nine, Eight, Nine, Nine], 150)) == Greater
  {
    ByStrength([Nine, Nine, Nine, Nine, Nine], [Nine, Nine, Eight, Nine, Nine], 100, 150);
    ShapeAAAAA(Nine);
    ShapeAABAA(Nine, Eight);
  }

  lemma Order99889Vs99899()
    ensures Compare(NewHand([Nine, Nine, Eight, Eight, Nine], 100), NewHand([Nine, Nine, Eight, Nine, Nine], 150)) == Less
  {
    ByStrength([Nine, Nine, Eight, Eight, Nine], [Nine, Nine, Eight, Nine, Nine], 100, 150);
    ShapeAABBA(Nine, Eight);
    ShapeAABAA(Nine, Eight);
  }

  lemma Order99879Vs99889()
    ensures Compare(NewHand([Nine, Nine, Eight, Seven, Nine], 100), NewHand([Nine, Nine, Eight, Eight, Nine], 150)) == Less
  {
    ByStrength([Nine, Nine, Eight, Seven, Nine], [Nine, Nine, Eight, Eight, Nine], 100, 150);
    ShapeAABCA(Nine, Eight, Seven);
    ShapeAABBA(Nine, Eight);
  }

  lemma Order99879VsA288A()
    ensures Compare(NewHand([Nine, Nine, Eight, Seven, Nine], 100), NewHand([Ace, Two, Eight, Eight, Ace], 150)) == Greater
  {
    ByStrength([Nine, Nine, Eight, Seven, Nine], [Ace, Two, Eight, Eight, Ace], 100, 150);
    ShapeAABCA(Nine, Eight, Seven);
    ShapeABCCA(Ace, Two, Eight);
  }

  lemma Order998TJVsA288A()
    ensures Compare(NewHand([Nine, Nine, Eight, Ten, Jack], 100), NewHand([Ace, Two, Eight, Eight, Ace], 150)) == Less
  {
    ByStrength([Nine, Nine, Eight, Ten, Jack], [Ace, Two, Eight, Eight, Ace], 100, 150);
    ShapeAABCD(Nine, Eight, Ten, Jack);
    ShapeABCCA(Ace, Two, Eight);
  }

  lemma Order998TJVsA283K()
    ensures Compare(NewHand([Nine, Nine, Eight, Ten, Jack], 100), NewHand([Ace, Two, Eight, Three, King], 150)) == Greater
  {
    ByStrength([Nine, Nine, Eight, Ten, Jack], [Ace, Two, Eight, Three, King], 100, 150);
    ShapeAABCD(Nine, Eight, Ten, Jack);
    ShapeABCDE(Ace, Two, Eight, Three, King);
  }

  lemma OrderAKQJTVsAKQJ9()
    ensures Compare(NewHand([Ace, King, Queen, Jack, Ten], 100), NewHand([Ace, King, Queen, Jack, Nine], 150)) == Greater
  {
    ShapeABCDE(Ace, King, Queen, Jack, Ten);
    ShapeABCDE(Ace, King, Queen, Jack, Nine);
    ByCards([Ace, King, Queen, Jack, Ten], [Ace, King, Queen, Jack, Nine], 100, 150);
    LastCardDecides(Ace, King, Queen, Jack, Ten, Nine);
  }

  /** Hands of equal strength are ordered by their cards alone. */
  lemma ByCards(a: seq<Card>, b: seq<Card>, x: nat, y: nat)
    requires |a| == 5 && |b| == 5 && GetStrength(a) == GetStrength(b)
    ensures Compare(NewHand(a, x), NewHand(b, y)) == CompareCards(a, b)
  {
  }

  /** Rows that differ only in the last card are ordered by that card. */
  lemma LastCardDecides(a: Card, b: Card, c: Card, d: Card, e: Card, f: Card)
    requires CardRank(e) > CardRank(f)
    ensures CompareCards([a, b, c, d, e], [a, b, c, d, f]) == Greater
  {
    var u, v := [a, b, c, d, e], [a, b, c, d, f];
    assert CompareCards([e], [f]) == Greater;
    assert [d, e][1..] == [e] && [d, f][1..] == [f];
    assert CompareCards([d, e], [d, f]) == Greater;
    assert [c, d, e][1..] == [d, e] && [c, d, f][1..] == [d, f];
    assert CompareCards([c, d, e], [c, d, f]) == Greater;
    assert [b, c, d, e][1..] == [c, d, e] && [b, c, d, f][1..] == [c, d, f];
    assert CompareCards([b, c, d, e], [b, c, d, f]) == Greater;
    assert u[1..] == [b, c, d, e] && v[1..] == [b, c, d, f];
    assert CompareCards(u, v) == Greater;
  }

  lemma OrderAKQJTVsAKQJT()
    ensures Compare(NewHand([Ace, King, Queen, Jack, Ten], 100), NewHand([Ace, King, Queen, Jack, Ten], 150)) == Equal
  {
    CompareEqual(NewHand([Ace, King, Queen, Jack, Ten], 100), NewHand([Ace, King, Queen, Jack, Ten], 150));
  }

  // ---------------------------------------------------------------------------
  // Parsing

  /** Every character parsed as a card, failing on the first that is not. */
  function ParseCards(s: string): (r: Option<seq<Card>>)
    ensures r.Some? <==> forall i :: 0 <= i < |s| ==> ParseCard([s[i]]).Some?
    ensures r.Some? ==> |r.value| == |s| && forall i :: 0 <= i < |s| ==> Some(r.value[i]) == ParseCard([s[i]])
  {
    if s == [] then Some([])
    else
      match ParseCard([s[0]])
      case None => None
      case Some(c) =>
        match ParseCards(s[1..])
        case None => None
        case Some(cs) => Some([c] + cs)
  }

  /** `Hand::from_str`: the text before the first space is the cards, the
      text between the first and second space the `u64` bid. Five valid
      cards are required; text after a second space is ignored. */
  function ParseHand(s: string): (r: Option<Hand>)
    ensures r.Some? ==> ValidHand(r.value)
    ensures r.Some? <==> var parts := Split(s, " ");
      |parts| >= 2 && ParseCards(parts[0]).Some? && ParseU64(parts[1]).Some? && |parts[0]| == 5
    ensures r.Some? ==> var parts := Split(s, " ");
      Some(r.value.cards) == ParseCards(parts[0]) && Some(r.value.bid) == ParseU64(parts[1])
  {
    var parts := Split(s, " ");
    var cards :- ParseCards(parts[0]);
    var second :- Nth(parts, 1);
    var bid :- ParseU64(second);
    if |cards| != 5 then None else Some(NewHand(cards, bid))
  }

  function Symbols(cards: seq<Card>): (s: string)
    ensures |s| == |cards| && forall i :: 0 <= i < |cards| ==> s[i] == Symbol(cards[i])
  {
    if cards == [] then [] else [Symbol(cards[0])] + Symbols(cards[1..])
  }

  /** A hand's line: its cards, a space, its bid. */
  function FormatHand(h: Hand): string
  {
    Symbols(h.cards) + " " + Decimal(h.bid)
  }

  /** The line of a valid hand with a `u64` bid parses back to the hand. */
  lemma ParseFormatHand(h: Hand)
    requires ValidHand(h) && h.bid <= U64_MAX
    ensures ParseHand(FormatHand(h)) == Some(h)
  {
    var cs := Symbols(h.cards);
    var d := Decimal(h.bid);
    assert Free(cs, ' ');
    assert Free(d, ' ') by {
      assert forall i :: 0 <= i < |d| ==> IsDigit(d[i]);
    }
    assert FormatHand(h) == Join([cs, d], " ");
    SplitJoin([cs, d], " ");
    forall i | 0 <= i < |cs|
      ensures ParseCard([cs[i]]) == Some(h.cards[i])
    {
      ParseCardSymbol([cs[i]], h.cards[i]);
    }
    var r := ParseCards(cs);
    assert r.value == h.cards;
    ParseDecimal(h.bid, U64_MAX);
  }

  /** The parsing tests. */
  lemma ParseExamples()
    ensures ParseHand("32T4K 765") == Some(NewHand([Three, Two, Ten, Four, King], 765))
    ensures ParseHand("75896 134") == Some(NewHand([Seven, Five, Eight, Nine, Six], 134))
    ensures ParseHand("JAQJA 666") == Some(NewHand([Jack, Ace, Queen, Jack, Ace], 666))
  {
    ParseLine32T4K();
    ParseLine75896();
    ParseLineJAQJA();
  }

  lemma ParseLine32T4K()
    ensures ParseHand("32T4K 765") == Some(NewHand([Three, Two, Ten, Four, King], 765))
  {
    var h := NewHand([Three, Two, Ten, Four, King], 765);
    FormatLine32T4K(h);
    ParseFormatHand(h);
  }

  lemma FormatLine32T4K(h: Hand)
    requires h.cards == [Three, Two, Ten, Four, King] && h.bid == 765
    ensures FormatHand(h) == "32T4K 765"
  {
    assert Symbols(h.cards) == "32T4K";
    assert Decimal(7) == "7";
    assert Decimal(76) == "76";
    assert Decimal(765) == "765";
  }

  lemma ParseLine75896()
    ensures ParseHand("75896 134") == Some(NewHand([Seven, Five, Eight, Nine, Six], 134))
  {
    var h := NewHand([Seven, Five, Eight, Nine, Six], 134);
    FormatLine75896(h);
    ParseFormatHand(h);
  }

  lemma FormatLine75896(h: Hand)
    requires h.cards == [Seven, Five, Eight, Nine, Six] && h.bid == 134
    ensures FormatHand(h) == "75896 134"
  {
    assert Symbols(h.cards) == "75896";
    assert Decimal(1) == "1";
    assert Decimal(13) == "13";
    assert Decimal(134) == "134";
  }

  lemma ParseLineJAQJA()
    ensures ParseHand("JAQJA 666") == Some(NewHand([Jack, Ace, Queen, Jack, Ace], 666))
  {
    var h := NewHand([Jack, Ace, Queen, Jack, Ace], 666);
    FormatLineJAQJA(h);
    ParseFormatHand(h);
  }

  lemma FormatLineJAQJA(h: Hand)
    requires h.cards == [Jack, Ace, Queen, Jack, Ace] && h.bid == 666
    ensures FormatHand(h) == "JAQJA 666"
  {
    assert Symbols(h.cards) == "JAQJA";
    assert Decimal(6) == "6";
    assert Decimal(66) == "66";
    assert Decimal(666) == "666";
  }
}
