/** Day 1 (Trebuchet?!): the calibration value of a line is ten times its first
    digit plus its last digit, where a digit is a decimal numeral or one of the
    words "zero" to "nine". The first digit comes from a forward scan of the
    line; the last from the same scan run over the reversed line with reversed
    words. */
module Trebuchet {
  import opened Wrappers
  import opened Text

  /** A digit word and the value it stands for. */
  type DigitWord = (string, nat)

  /** The words of `callibration_number`, each paired with its position. */
  const DigitWords: seq<DigitWord> := [("zero", 0), ("one", 1), ("two", 2), ("three", 3), ("four", 4),
                                       ("five", 5), ("six", 6), ("seven", 7), ("eight", 8), ("nine", 9)]

  predicate SmallValues(words: seq<DigitWord>)
  {
    forall k :: 0 <= k < |words| ==> words[k].1 < 10
  }

  /** Every word reversed, with its value kept. */
  function ReverseWords(words: seq<DigitWord>): (r: seq<DigitWord>)
    ensures |r| == |words|
    ensures forall k :: 0 <= k < |r| ==> r[k] == (Reverse(words[k].0), words[k].1)
  {
    seq(|words|, k requires 0 <= k < |words| => (Reverse(words[k].0), words[k].1))
  }

  // ---------------------------------------------------------------------------
  // What counts as a digit at a position

  /** The index of the first word, from `k` on, that starts at position `i`. */
  function FirstWord(line: string, words: seq<DigitWord>, i: nat, k: nat): (r: Option<nat>)
    ensures r.Some? ==> k <= r.value < |words| && OccursAt(line, words[r.value].0, i)
    ensures r.Some? ==> forall k' :: k <= k' < r.value ==> !OccursAt(line, words[k'].0, i)
    ensures r.None? ==> forall k' :: k <= k' < |words| ==> !OccursAt(line, words[k'].0, i)
    decreases |words| - k
  {
    if k >= |words| then None
    else if OccursAt(line, words[k].0, i) then Some(k)
    else FirstWord(line, words, i, k + 1)
  }

  /** The digit found at position `p`: a numeral, else the value of the first
      word that starts there. */
  function HitAt(line: string, words: seq<DigitWord>, p: nat): (r: Option<nat>)
    requires p < |line|
    ensures r.Some? && SmallValues(words) ==> r.value < 10
  {
    if IsDigit(line[p]) then Some(DigitValue(line[p]))
    else
      match FirstWord(line, words, p, 0)
      case Some(k) => Some(words[k].1)
      case None => None
  }

  /** The index of the first word, from `k` on, that ends just before position `e`. */
  function FirstEnding(line: string, words: seq<DigitWord>, e: nat, k: nat): (r: Option<nat>)
    ensures r.Some? ==> k <= r.value < |words| && EndsAt(line, words[r.value].0, e)
    ensures r.Some? ==> forall k' :: k <= k' < r.value ==> !EndsAt(line, words[k'].0, e)
    ensures r.None? ==> forall k' :: k <= k' < |words| ==> !EndsAt(line, words[k'].0, e)
    decreases |words| - k
  {
    if k >= |words| then None
    else if EndsAt(line, words[k].0, e) then Some(k)
    else FirstEnding(line, words, e, k + 1)
  }

  predicate EndsAt(line: string, w: string, e: nat)
  {
    |w| <= e && OccursAt(line, w, e - |w|)
  }

  /** The digit that ends just before position `e`: a numeral at `e - 1`, else
      the value of the first word (in list order) that ends there. */
  function EndHit(line: string, words: seq<DigitWord>, e: nat): Option<nat>
    requires 0 < e <= |line|
  {
    if IsDigit(line[e - 1]) then Some(DigitValue(line[e - 1]))
    else
      match FirstEnding(line, words, e, 0)
      case Some(k) => Some(words[k].1)
      case None => None
  }

  // ---------------------------------------------------------------------------
  // find_digit

  /** No position in `i..j` holds a digit. */
  predicate NoHit(line: string, words: seq<DigitWord>, i: nat, j: nat)
    requires j <= |line|
  {
    forall q :: i <= q < j ==> HitAt(line, words, q).None?
  }

  /** `p` is the earliest position from `i` on that holds a digit. */
  predicate FirstHit(line: string, words: seq<DigitWord>, i: nat, p: nat)
  {
    i <= p < |line| && HitAt(line, words, p).Some? && NoHit(line, words, i, p)
  }

  /** No digit ends after position `e`. */
  predicate NoEndHit(line: string, words: seq<DigitWord>, e: nat)
  {
    forall q :: e < q <= |line| ==> EndHit(line, words, q).None?
  }

  /** `e` is the latest position a digit ends at. */
  predicate LastHit(line: string, words: seq<DigitWord>, e: nat)
  {
    0 < e <= |line| && EndHit(line, words, e).Some? && NoEndHit(line, words, e)
  }

  /** The scan of `find_digit` from position `i`, with a word that would run
      past the end of the line read as a mismatch. */
  function FindFrom(line: string, words: seq<DigitWord>, i: nat): (d: nat)
    requires i <= |line|
    ensures NoHit(line, words, i, |line|) ==> d == 0
    ensures forall p :: FirstHit(line, words, i, p) ==> d == HitAt(line, words, p).value
    ensures SmallValues(words) ==> d < 10
    decreases |line| - i
  {
    if i == |line| then 0
    else
      match HitAt(line, words, i)
      case Some(v) => v
      case None => FindFrom(line, words, i + 1)
  }

  /** `find_digit`: the digit at the earliest position holding a numeral or
      starting a word, or 0 when there is none. */
  function FindDigit(line: string, words: seq<DigitWord>): (d: nat)
    ensures NoHit(line, words, 0, |line|) ==> d == 0
    ensures forall p :: FirstHit(line, words, 0, p) ==> d == HitAt(line, words, p).value
    ensures SmallValues(words) ==> d < 10
  {
    FindFrom(line, words, 0)
  }

  // ---------------------------------------------------------------------------
  // The reversed scan

  /** Scanning the reversed line with reversed words at position `k` sees the
      digit that ends `k` characters before the end of the line. */
  lemma HitAtReverse(line: string, words: seq<DigitWord>, k: nat)
    requires k < |line|
    ensures HitAt(Reverse(line), ReverseWords(words), k) == EndHit(line, words, |line| - k)
  {
    FirstWordReverse(line, words, k, 0);
  }

  lemma {:induction false} FirstWordReverse(line: string, words: seq<DigitWord>, k: nat, j: nat)
    requires k < |line|
    ensures FirstWord(Reverse(line), ReverseWords(words), k, j) == FirstEnding(line, words, |line| - k, j)
    decreases |words| - j
  {
    if j < |words| {
      var w := words[j].0;
      var rl, rw, e: nat := Reverse(line), ReverseWords(words), |line| - k;
      assert rw[j].0 == Reverse(w);
      var here: bool;
      if k + |w| <= |line| {
        OccursAtReverse(line, w, k);
        here := OccursAt(line, w, e - |w|);
        assert OccursAt(rl, rw[j].0, k) <==> here;
      } else {
        here := false;
        assert !OccursAt(rl, rw[j].0, k);
      }
      assert EndsAt(line, w, e) <==> here;
      if !here {
        FirstWordReverse(line, words, k, j + 1);
      }
    }
  }

  /** The last digit of `callibration_number`: the digit of the latest end
      position that has one, or 0 when the line holds no digit. */
  lemma LastDigit(line: string, words: seq<DigitWord>)
    ensures NoEndHit(line, words, 0) ==> FindDigit(Reverse(line), ReverseWords(words)) == 0
    ensures forall e :: LastHit(line, words, e) ==>
      FindDigit(Reverse(line), ReverseWords(words)) == EndHit(line, words, e).value
  {
    var rl, rw := Reverse(line), ReverseWords(words);
    forall k | 0 <= k < |line|
      ensures HitAt(rl, rw, k) == EndHit(line, words, |line| - k)
    {
      HitAtReverse(line, words, k);
    }
    forall e | LastHit(line, words, e)
      ensures FindDigit(rl, rw) == EndHit(line, words, e).value
    {
      var p := |line| - e;
      assert HitAt(rl, rw, p) == EndHit(line, words, e);
      forall q | 0 <= q < p
        ensures HitAt(rl, rw, q).None?
      {
        assert HitAt(rl, rw, q) == EndHit(line, words, |line| - q);
      }
      assert FirstHit(rl, rw, 0, p);
    }
    if NoEndHit(line, words, 0) {
      forall p | 0 <= p < |rl|
        ensures HitAt(rl, rw, p).None?
      {
        assert HitAt(rl, rw, p) == EndHit(line, words, |line| - p);
      }
      assert NoHit(rl, rw, 0, |rl|);
    }
  }

  // ---------------------------------------------------------------------------
  // callibration_number

  /** `callibration_number`: the first digit times ten plus the last digit. */
  function CalibrationNumber(line: string): (n: nat)
    ensures n < 100
    ensures NoHit(line, DigitWords, 0, |line|) ==> n / 10 == 0
    ensures forall p :: FirstHit(line, DigitWords, 0, p) ==> n / 10 == HitAt(line, DigitWords, p).value
    ensures NoEndHit(line, DigitWords, 0) ==> n % 10 == 0
    ensures forall e :: LastHit(line, DigitWords, e) ==> n % 10 == EndHit(line, DigitWords, e).value
  {
    DigitWordsSmall();
    LastDigit(line, DigitWords);
    Tens(FindDigit(line, DigitWords), FindDigit(Reverse(line), ReverseWords(DigitWords)));
    Combine(FindDigit(line, DigitWords), FindDigit(Reverse(line), ReverseWords(DigitWords)))
  }

  lemma DigitWordsSmall()
    ensures SmallValues(DigitWords) && SmallValues(ReverseWords(DigitWords))
  {
    var rw := ReverseWords(DigitWords);
    forall k | 0 <= k < |rw|
      ensures rw[k].1 < 10
    {
      assert rw[k].1 == DigitWords[k].1;
    }
  }

  function Combine(a: nat, b: nat): nat
  {
    a * 10 + b
  }

  lemma Tens(a: nat, b: nat)
    requires a < 10 && b < 10
    ensures Combine(a, b) < 100 && Combine(a, b) / 10 == a && Combine(a, b) % 10 == b
  {
  }

  /** A line whose only digit is written once, as the numeral or the word of
      `d`, has `d` as first and last digit. */
  lemma SingleDigit(line: string, p: nat, w: string, d: nat)
    requires d < 10 && (w == [DigitChar(d)] || w == DigitWords[d].0) && OccursAt(line, w, p)
    requires forall q :: 0 <= q < |line| && q != p ==> HitAt(line, DigitWords, q).None?
    requires forall e :: 0 < e <= |line| && e != p + |w| ==> EndHit(line, DigitWords, e).None?
    ensures CalibrationNumber(line) == 11 * d
  {
    OccursChar(line, w, p, 0);
    OccursChar(line, w, p, |w| - 1);
    if w == [DigitChar(d)] {
      assert HitAt(line, DigitWords, p) == Some(d);
      assert EndHit(line, DigitWords, p + |w|) == Some(d);
    } else {
      WordHit(line, p, d);
      WordEndHit(line, p + |w|, d);
    }
    assert FirstHit(line, DigitWords, 0, p);
    assert LastHit(line, DigitWords, p + |w|);
    var n := CalibrationNumber(line);
    assert n == 10 * (n / 10) + n % 10;
  }

  lemma OccursChar(line: string, w: string, p: nat, i: nat)
    requires OccursAt(line, w, p) && i < |w|
    ensures line[p + i] == w[i]
  {
    assert line[p..p + |w|][i] == w[i];
  }

  /** The first two and the last three letters of each digit word. */
  const Heads: seq<string> := ["ze", "on", "tw", "th", "fo", "fi", "si", "se", "ei", "ni"]
  const Tails: seq<string> := ["ero", "one", "two", "ree", "our", "ive", "six", "ven", "ght", "ine"]

  lemma WordShape(a: nat)
    requires a < 10
    ensures var u, h, t := DigitWords[a].0, Heads[a], Tails[a];
      |u| >= 3 && u[0] == h[0] && u[1] == h[1] &&
      u[|u| - 3] == t[0] && u[|u| - 2] == t[1] && u[|u| - 1] == t[2] &&
      !IsDigit(u[0]) && !IsDigit(u[|u| - 1])
  {
    if a < 5 {
      if a == 0 {} else if a == 1 {} else if a == 2 {} else if a == 3 {} else {}
    } else {
      if a == 5 {} else if a == 6 {} else if a == 7 {} else if a == 8 {} else {}
    }
  }

  /** No two digit words share their first two letters, nor their last
      three. */
  lemma WordsApart(a: nat, b: nat)
    requires a < 10 && b < 10 && a != b
    ensures Heads[a][0] != Heads[b][0] || Heads[a][1] != Heads[b][1]
    ensures Tails[a][0] != Tails[b][0] || Tails[a][1] != Tails[b][1] || Tails[a][2] != Tails[b][2]
  {
  }

  /** A digit word starting at `p` is the digit found there. */
  lemma WordHit(line: string, p: nat, d: nat)
    requires d < 10 && OccursAt(line, DigitWords[d].0, p)
    ensures p < |line| && HitAt(line, DigitWords, p) == Some(d)
  {
    var w := DigitWords[d].0;
    WordShape(d);
    OccursChar(line, w, p, 0);
    OccursChar(line, w, p, 1);
    forall k | 0 <= k < 10 && k != d
      ensures !OccursAt(line, DigitWords[k].0, p)
    {
      OtherWordAt(line, p, d, k);
    }
    assert FirstWord(line, DigitWords, p, 0) == Some(d);
  }

  lemma OtherWordAt(line: string, p: nat, d: nat, k: nat)
    requires d < 10 && k < 10 && k != d && p + 2 <= |line|
    requires line[p] == Heads[d][0] && line[p + 1] == Heads[d][1]
    ensures !OccursAt(line, DigitWords[k].0, p)
  {
    WordsApart(d, k);
    WordShape(k);
    var v := DigitWords[k].0;
    if p + |v| <= |line| {
      assert line[p..p + |v|][0] == line[p] && line[p..p + |v|][1] == line[p + 1];
    }
  }

  /** A digit word ending just before `e` is the digit that ends there. */
  lemma WordEndHit(line: string, e: nat, d: nat)
    requires d < 10 && EndsAt(line, DigitWords[d].0, e)
    ensures 0 < e <= |line| && EndHit(line, DigitWords, e) == Some(d)
  {
    var w := DigitWords[d].0;
    WordShape(d);
    OccursChar(line, w, e - |w|, |w| - 1);
    OccursChar(line, w, e - |w|, |w| - 2);
    OccursChar(line, w, e - |w|, |w| - 3);
    forall k | 0 <= k < 10 && k != d
      ensures !EndsAt(line, DigitWords[k].0, e)
    {
      OtherWordEnds(line, e, d, k);
    }
    assert FirstEnding(line, DigitWords, e, 0) == Some(d);
  }

  lemma OtherWordEnds(line: string, e: nat, d: nat, k: nat)
    requires d < 10 && k < 10 && k != d && 3 <= e <= |line|
    requires line[e - 3] == Tails[d][0] && line[e - 2] == Tails[d][1] && line[e - 1] == Tails[d][2]
    ensures !EndsAt(line, DigitWords[k].0, e)
  {
    WordsApart(d, k);
    WordShape(k);
    var v := DigitWords[k].0;
    if |v| <= e {
      var x := line[e - |v|..e];
      assert x[|v| - 1] == line[e - 1] && x[|v| - 2] == line[e - 2] && x[|v| - 3] == line[e - 3];
    }
  }

  /** Two lines from the Rust code's tests. */
  lemma NumeralsExample()
    ensures CalibrationNumber("12") == 12
  {
    assert HitAt("12", DigitWords, 0) == Some(1);
    assert FirstHit("12", DigitWords, 0, 0);
    assert LastHit("12", DigitWords, 2);
  }

  lemma SingleWordExample()
    ensures CalibrationNumber("one") == 11
  {
    assert OccursAt("one", "one", 0);
    assert FirstWord("one", DigitWords, 0, 1) == Some(1);
    assert HitAt("one", DigitWords, 0) == Some(1);
    assert FirstHit("one", DigitWords, 0, 0);
    assert EndsAt("one", "one", 3);
    assert FirstEnding("one", DigitWords, 3, 1) == Some(1);
    assert LastHit("one", DigitWords, 3);
  }

  // ---------------------------------------------------------------------------
  // find_digit as written: `line[i + j]` is indexed without a bounds check

  datatype Probe = Match | Mismatch | OutOfBounds

  /** Comparing word `w` with the line from position `i`, character `j` on, as
      the Rust code does: the first mismatch stops the comparison, and reading
      past the end of the line panics. */
  function ProbeAsWritten(line: string, w: string, i: nat, j: nat): Probe
    decreases |w| - j
  {
    if j >= |w| then Match
    else if i + j >= |line| then OutOfBounds
    else if line[i + j] != w[j] then Mismatch
    else ProbeAsWritten(line, w, i, j + 1)
  }

  /** A probe that completes agrees with `OccursAt`; one that panics saw the
      rest of the line as a proper prefix of the word. */
  lemma {:induction false} ProbeSound(line: string, w: string, i: nat, j: nat)
    requires i < |line| && j <= |w| && i + j <= |line| && line[i..i + j] == w[..j]
    ensures ProbeAsWritten(line, w, i, j) == Match <==> OccursAt(line, w, i)
    ensures ProbeAsWritten(line, w, i, j) == OutOfBounds ==>
      |line| - i < |w| && line[i..] == w[..|line| - i]
    decreases |w| - j
  {
    if j < |w| {
      if i + j >= |line| {
        assert line[i..] == line[i..i + j];
      } else if line[i + j] != w[j] {
        if i + |w| <= |line| {
          assert line[i..i + |w|][j] == line[i + j];
        }
      } else {
        assert line[i..i + j + 1] == line[i..i + j] + [line[i + j]];
        assert w[..j + 1] == w[..j] + [w[j]];
        ProbeSound(line, w, i, j + 1);
      }
    } else {
      assert w[..j] == w;
    }
  }

  /** The word loop of `find_digit` at position `i` as written: the value of
      the first matching word, `Some(None)` when none matches, and `None` for a
      panic. */
  function WordsAsWritten(line: string, words: seq<DigitWord>, i: nat, k: nat): Option<Option<nat>>
    decreases |words| - k
  {
    if k >= |words| then Some(None)
    else
      match ProbeAsWritten(line, words[k].0, i, 0)
      case Match => Some(Some(words[k].1))
      case Mismatch => WordsAsWritten(line, words, i, k + 1)
      case OutOfBounds => None
  }

  /** `find_digit` as written, `None` standing for the panic. */
  function FindFromAsWritten(line: string, words: seq<DigitWord>, i: nat): Option<nat>
    requires i <= |line|
    decreases |line| - i
  {
    if i == |line| then Some(0)
    else if IsDigit(line[i]) then Some(DigitValue(line[i]))
    else
      match WordsAsWritten(line, words, i, 0)
      case None => None
      case Some(Some(v)) => Some(v)
      case Some(None) => FindFromAsWritten(line, words, i + 1)
  }

  lemma {:induction false} WordsAsWrittenSound(line: string, words: seq<DigitWord>, i: nat, k: nat)
    requires i < |line|
    ensures var r := WordsAsWritten(line, words, i, k);
      && (r.Some? ==> r.value == (match FirstWord(line, words, i, k)
                                  case Some(x) => Some(words[x].1)
                                  case None => None))
      && (r.None? ==> exists x :: k <= x < |words| && |line| - i < |words[x].0|
                                  && line[i..] == words[x].0[..|line| - i])
    decreases |words| - k
  {
    if k < |words| {
      assert line[i..i] == words[k].0[..0];
      ProbeSound(line, words[k].0, i, 0);
      WordsAsWrittenSound(line, words, i, k + 1);
    }
  }

  /** Whenever the Rust code's scan does not panic it returns what `FindDigit`
      returns; when it panics, some suffix of the line is a proper prefix of a
      digit word. */
  lemma {:induction false} AsWrittenAgrees(line: string, words: seq<DigitWord>, i: nat)
    requires i <= |line|
    ensures FindFromAsWritten(line, words, i).Some? ==> FindFromAsWritten(line, words, i).value == FindFrom(line, words, i)
    ensures FindFromAsWritten(line, words, i).None? ==>
      exists p, x :: i <= p < |line| && 0 <= x < |words| && |line| - p < |words[x].0|
                     && line[p..] == words[x].0[..|line| - p]
    decreases |line| - i
  {
    if i < |line| && !IsDigit(line[i]) {
      WordsAsWrittenSound(line, words, i, 0);
      AsWrittenAgrees(line, words, i + 1);
    }
  }

  /** The line "on" makes the Rust code panic (the word "one" is compared one
      character past the end), while the corrected scan finds no digit. */
  lemma OnPanics()
    ensures FindFromAsWritten("on", DigitWords, 0) == None
    ensures FindDigit("on", DigitWords) == 0
  {
    assert ProbeAsWritten("on", "zero", 0, 0) == Mismatch;
    assert ProbeAsWritten("on", "one", 0, 2) == OutOfBounds;
    assert ProbeAsWritten("on", "one", 0, 0) == OutOfBounds;
    assert WordsAsWritten("on", DigitWords, 0, 1) == None;
    forall p | 0 <= p < 2
      ensures HitAt("on", DigitWords, p).None?
    {
      forall k | 0 <= k < |DigitWords|
        ensures !OccursAt("on", DigitWords[k].0, p)
      {
      }
    }
  }
}
