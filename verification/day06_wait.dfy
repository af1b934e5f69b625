/** Day 6 (Wait For It): boat races. Holding the button for `x` of the race's
    `time` milliseconds gives speed `x`, so the boat covers `x * (time - x)`.
    A hold counts when that reaches the recorded `distance`. */
module Races {
  import opened Wrappers
  import opened Text

  datatype Race = Race(time: nat, distance: nat)

  // ---------------------------------------------------------------------------
  // Winning holds

  /** The inequality the Rust code solves: `x^2 - time * x + distance <= 0`,
      that is, holding `x` covers at least `distance`. */
  predicate Wins(r: Race, x: int)
  {
    x * x - r.time * x + r.distance <= 0
  }

  /** The number of winning holds among `0..n`. */
  function WinsBelow(r: Race, n: nat): (c: nat)
    ensures c <= n
  {
    if n == 0 then 0 else WinsBelow(r, n - 1) + (if Wins(r, n - 1) then 1 else 0)
  }

  /** The largest `s` with `s * s <= n`. */
  function ISqrt(n: nat): (s: nat)
    ensures s * s <= n < (s + 1) * (s + 1)
  {
    ISqrtFrom(n, 0)
  }

  function ISqrtFrom(n: nat, k: nat): (s: nat)
    requires k * k <= n
    ensures k <= s && s * s <= n < (s + 1) * (s + 1)
    decreases n - k
  {
    if (k + 1) * (k + 1) > n then k
    else
      assert k + 1 <= (k + 1) * (k + 1);
      ISqrtFrom(n, k + 1)
  }

  /** The integer square root is the only `s` with `s^2 <= n < (s+1)^2`. */
  lemma ISqrtUnique(n: nat, s: nat)
    requires s * s <= n < (s + 1) * (s + 1)
    ensures ISqrt(n) == s
  {
    var t := ISqrt(n);
    if t < s {
      SquareMono(t + 1, s);
    } else if s < t {
      SquareMono(s + 1, t);
    }
  }

  lemma SquareNonNegative(y: int)
    ensures y * y >= 0
  {
    if y < 0 {
      assert y * y == (-y) * (-y);
    }
  }

  lemma SquareMono(a: nat, b: nat)
    requires a <= b
    ensures a * a <= b * b
  {
    assert a * a <= a * b <= b * b;
  }

  /** `Race::winning_ways` with the square roots taken exactly. The
      determinant `time^2 - 4 * distance` is negative when no hold wins.
      Otherwise the winning holds are the `x` with `|2x - time|` at most the
      integer square root `s` of the determinant, and there are `s + 1` of
      them when `s` and `time` have the same parity and `s` otherwise. */
  function WinningWays(r: Race): (w: nat)
    ensures r.time * r.time < 4 * r.distance ==> w == 0
  {
    var determinant := r.time * r.time - 4 * r.distance;
    if determinant < 0 then 0
    else
      var s := ISqrt(determinant);
      if (r.time - s) % 2 == 0 then s + 1 else s
  }

  /** Every winning hold lies in `0..=time`. */
  lemma WinsInRace(r: Race, x: int)
    requires Wins(r, x)
    ensures 0 <= x <= r.time
  {
    assert x * (r.time - x) >= r.distance;
  }

  /** A hold wins exactly when `(2x - time)^2` is at most the determinant. */
  lemma WinsSquare(r: Race, x: int)
    ensures Wins(r, x) <==> (2 * x - r.time) * (2 * x - r.time) <= r.time * r.time - 4 * r.distance
  {
    assert (2 * x - r.time) * (2 * x - r.time) == 4 * (x * x - r.time * x) + r.time * r.time;
  }

  /** With `s` the integer square root of `d`, `y^2 <= d` exactly when `|y| <= s`. */
  lemma SquareAtMost(y: int, d: nat, s: nat)
    requires s * s <= d < (s + 1) * (s + 1)
    ensures y * y <= d <==> -(s as int) <= y <= s
  {
    var a: nat := if y < 0 then -y else y;
    assert y * y == a * a;
    if a <= s {
      SquareMono(a, s);
    } else {
      SquareMono(s + 1, a);
    }
  }

  /** The winning holds are exactly the integers in `lo..=hi`, where `lo` and
      `hi` are the ceiling and floor of `(time -+ s) / 2`. */
  lemma WinsInterval(r: Race, x: int)
    requires r.time * r.time >= 4 * r.distance
    ensures var s := ISqrt(r.time * r.time - 4 * r.distance);
      Wins(r, x) <==> (r.time - s + 1) / 2 <= x <= (r.time + s) / 2
  {
    var d := r.time * r.time - 4 * r.distance;
    var s := ISqrt(d);
    WinsSquare(r, x);
    SquareAtMost(2 * x - r.time, d, s);
  }

  /** Counting over `0..n` a property that holds exactly on `lo..=hi`. */
  lemma {:induction false} WinsBelowInterval(r: Race, lo: nat, hi: int, n: nat)
    requires forall x: nat :: Wins(r, x) <==> lo <= x <= hi
    ensures WinsBelow(r, n) == if n <= lo || hi < lo then 0 else if n <= hi + 1 then n - lo else hi - lo + 1
  {
    if n > 0 {
      WinsBelowInterval(r, lo, hi, n - 1);
      assert Wins(r, n - 1) <==> lo <= n - 1 <= hi;
    }
  }

  /** `winning_ways` counts the integer holds `x` with
      `x^2 - time * x + distance <= 0`, ties with the record included: they all
      lie in `0..=time`, and there are `WinningWays(r)` of them there. */
  lemma WinningWaysCounts(r: Race)
    ensures forall x: int :: Wins(r, x) ==> 0 <= x <= r.time
    ensures WinningWays(r) == WinsBelow(r, r.time + 1)
  {
    forall x: int | Wins(r, x)
      ensures 0 <= x <= r.time
    {
      WinsInRace(r, x);
    }
    if r.time * r.time < 4 * r.distance {
      NoWinsCount(r);
    } else {
      IntervalCount(r);
    }
  }

  /** A negative determinant leaves no winning hold. */
  lemma NoWinsCount(r: Race)
    requires r.time * r.time < 4 * r.distance
    ensures WinsBelow(r, r.time + 1) == 0
  {
    forall x: nat
      ensures !Wins(r, x)
    {
      WinsSquare(r, x);
      SquareNonNegative(2 * x - r.time);
    }
    WinsBelowInterval(r, 0, -1, r.time + 1);
  }

  /** Otherwise the count over `0..=time` is the closed form. */
  lemma IntervalCount(r: Race)
    requires r.time * r.time >= 4 * r.distance
    ensures WinningWays(r) == WinsBelow(r, r.time + 1)
  {
    var d := r.time * r.time - 4 * r.distance;
    var s := ISqrt(d);
    assert s <= r.time by {
      if s > r.time {
        SquareMono(r.time + 1, s);
      }
    }
    var lo: nat := (r.time - s + 1) / 2;
    var hi := (r.time + s) / 2;
    forall x: nat
      ensures Wins(r, x) <==> lo <= x <= hi
    {
      WinsInterval(r, x);
    }
    WinsBelowInterval(r, lo, hi, r.time + 1);
  }

  /** The Rust code's three examples: (7, 9) gives 4, (6, 9) gives 1 through a
      tie with the record, and (6, 10) gives 0. */
  lemma WinningWaysExamples()
    ensures WinningWays(Race(7, 9)) == 4
    ensures WinningWays(Race(6, 9)) == 1
    ensures WinningWays(Race(6, 10)) == 0
  {
    ISqrtUnique(13, 3);
    ISqrtUnique(0, 0);
  }

  // ---------------------------------------------------------------------------
  // Parsing

  /** The words after `prefix` on a line, or `None` without the prefix. */
  function Tokens(line: string, prefix: string): (r: Option<seq<string>>)
    ensures r.Some? <==> prefix <= line
    ensures r.Some? ==> r.value == Words(TrimStart(line[|prefix|..]))
  {
    var rest :- StripPrefix(line, prefix);
    Some(Words(TrimStart(rest)))
  }

  /** The time words and the distance words of the first two lines. */
  function RaceTokens(s: string): (r: Option<(seq<string>, seq<string>)>)
    ensures r.Some? <==> |Lines(s)| >= 2 && "Time:" <= Lines(s)[0] && "Distance:" <= Lines(s)[1]
    ensures r.Some? ==> Some(r.value.0) == Tokens(Lines(s)[0], "Time:")
    ensures r.Some? ==> Some(r.value.1) == Tokens(Lines(s)[1], "Distance:")
  {
    var lines := Lines(s);
    var first :- Nth(lines, 0);
    var times :- Tokens(first, "Time:");
    var second :- Nth(lines, 1);
    var distances :- Tokens(second, "Distance:");
    Some((times, distances))
  }

  function Min(a: nat, b: nat): nat
  {
    if a < b then a else b
  }

  /** The first `n` time and distance words are all `u64`s. */
  predicate PairsParse(times: seq<string>, distances: seq<string>, n: nat)
    requires n <= |times| && n <= |distances|
  {
    forall i :: 0 <= i < n ==> ParseU64(times[i]).Some? && ParseU64(distances[i]).Some?
  }

  /** Race `i` holds the `i`-th time word and the `i`-th distance word. */
  predicate PairedFrom(rs: seq<Race>, times: seq<string>, distances: seq<string>)
    requires |rs| <= |times| && |rs| <= |distances|
  {
    forall i :: 0 <= i < |rs| ==> ReadFrom(rs[i], times[i], distances[i])
  }

  /** A race holds the numbers its two words parse to. */
  predicate ReadFrom(r: Race, time: string, distance: string)
  {
    Some(r.time) == ParseU64(time) && Some(r.distance) == ParseU64(distance)
  }

  /** Pairs the words positionally up to the shorter list, failing when a
      paired word is not a `u64`. Words past the shorter list are never
      parsed. */
  function Zip(times: seq<string>, distances: seq<string>): (r: Option<seq<Race>>)
    ensures r.Some? <==> PairsParse(times, distances, Min(|times|, |distances|))
    ensures r.Some? ==> |r.value| == Min(|times|, |distances|) && PairedFrom(r.value, times, distances)
  {
    if times == [] || distances == [] then Some([])
    else
      var t := ParseU64(times[0]);
      var d := ParseU64(distances[0]);
      if t.None? || d.None? then None
      else
        ZipStep(times, distances);
        var rest :- Zip(times[1..], distances[1..]);
        PairedStep(Race(t.value, d.value), rest, times, distances);
        Some([Race(t.value, d.value)] + rest)
  }

  /** The pairing conditions split into the first pair and the rest. */
  lemma ZipStep(times: seq<string>, distances: seq<string>)
    requires |times| > 0 && |distances| > 0
    ensures var n := Min(|times|, |distances|);
      PairsParse(times, distances, n) <==>
        ParseU64(times[0]).Some? && ParseU64(distances[0]).Some?
        && PairsParse(times[1..], distances[1..], n - 1)
  {
    var n := Min(|times|, |distances|);
    if ParseU64(times[0]).Some? && ParseU64(distances[0]).Some? && PairsParse(times[1..], distances[1..], n - 1) {
      forall i | 0 <= i < n
        ensures ParseU64(times[i]).Some? && ParseU64(distances[i]).Some?
      {
        if i > 0 {
          assert times[i] == times[1..][i - 1] && distances[i] == distances[1..][i - 1];
        }
      }
    }
  }

  /** Races paired from the rest, after the first pair, are paired from all. */
  lemma PairedStep(r: Race, rs: seq<Race>, times: seq<string>, distances: seq<string>)
    requires |times| > 0 && |distances| > 0
    requires |rs| == Min(|times|, |distances|) - 1 && PairedFrom(rs, times[1..], distances[1..])
    requires ReadFrom(r, times[0], distances[0])
    ensures PairedFrom([r] + rs, times, distances)
  {
    var all := [r] + rs;
    forall i | 0 <= i < |all| ensures ReadFrom(all[i], times[i], distances[i]) {
      if i > 0 {
        assert all[i] == rs[i - 1] && times[i] == times[1..][i - 1] && distances[i] == distances[1..][i - 1];
      }
    }
  }

  /** `parse_races`: "Time:" and "Distance:" lines whose numbers pair up into
      races. */
  function ParseRaces(s: string): (r: Option<seq<Race>>)
    ensures r.Some? ==> RaceTokens(s).Some?
    ensures RaceTokens(s).Some? ==> r == Zip(RaceTokens(s).value.0, RaceTokens(s).value.1)
  {
    var (times, distances) :- RaceTokens(s);
    Zip(times, distances)
  }

  /** `parse_race`: the words of each line glued together into one number. */
  function ParseRace(s: string): (r: Option<Race>)
    ensures r.Some? <==> (RaceTokens(s).Some?
      && ParseU64(Concat(RaceTokens(s).value.0)).Some? && ParseU64(Concat(RaceTokens(s).value.1)).Some?)
    ensures r.Some? ==>
      Some(r.value.time) == ParseU64(Concat(RaceTokens(s).value.0))
      && Some(r.value.distance) == ParseU64(Concat(RaceTokens(s).value.1))
  {
    var (times, distances) :- RaceTokens(s);
    var time :- ParseU64(Concat(times));
    var distance :- ParseU64(Concat(distances));
    Some(Race(time, distance))
  }

  /** A line of numbers after a label, separated by single spaces. */
  function NumberLine(tag: string, ns: seq<nat>): string
  {
    tag + " " + Spaced(ns)
  }

  /** The two lines of a sheet of races. */
  function FormatRaces(times: seq<nat>, distances: seq<nat>): string
  {
    Join([NumberLine("Time:", times), NumberLine("Distance:", distances)], "\n")
  }

  /** The races paired from two lists, up to the shorter one. */
  function Pair(times: seq<nat>, distances: seq<nat>): (rs: seq<Race>)
    ensures |rs| == if |times| < |distances| then |times| else |distances|
    ensures forall i :: 0 <= i < |rs| ==> rs[i] == Race(times[i], distances[i])
  {
    if times == [] || distances == [] then [] else [Race(times[0], distances[0])] + Pair(times[1..], distances[1..])
  }

  /** The words of the two formatted lines are the numbers in decimal. */
  lemma FormatTokens(times: seq<nat>, distances: seq<nat>)
    ensures RaceTokens(FormatRaces(times, distances)) == Some((Decimals(times), Decimals(distances)))
  {
    FormatLines(times, distances);
    SpacedWords(times, "Time:");
    SpacedWords(distances, "Distance:");
  }

  lemma FormatLines(times: seq<nat>, distances: seq<nat>)
    ensures Lines(FormatRaces(times, distances)) == [NumberLine("Time:", times), NumberLine("Distance:", distances)]
  {
    PrefixedFree("Time:", times);
    PrefixedFree("Distance:", distances);
    LinesOfJoin([NumberLine("Time:", times), NumberLine("Distance:", distances)]);
  }

  /** A newline-free label, a space and spaced numbers make one line. */
  lemma PrefixedFree(tag: string, ns: seq<nat>)
    requires Free(tag, '\n')
    ensures Free(NumberLine(tag, ns), '\n')
  {
    SpacedFree(ns, '\n');
    FreeAppend(tag + " ", Spaced(ns), '\n');
  }

  /** A prefix, one space and spaced numbers: the words after the prefix are
      the numbers in decimal. */
  lemma SpacedWords(ns: seq<nat>, tag: string)
    ensures Tokens(NumberLine(tag, ns), tag) == Some(Decimals(ns))
  {
    assert NumberLine(tag, ns)[|tag|..] == " " + Spaced(ns);
    TrimSpaced(ns);
    WordsJoinDecimals(ns);
  }

  /** `trim_start` drops the space before spaced numbers and nothing else. */
  lemma TrimSpaced(ns: seq<nat>)
    ensures TrimStart(" " + Spaced(ns)) == Spaced(ns)
  {
    assert (" " + Spaced(ns))[1..] == Spaced(ns);
    if |ns| > 0 {
      JoinFirst(ns);
    }
  }

  /** Spaced numbers start with the first number's first digit. */
  lemma JoinFirst(ns: seq<nat>)
    requires |ns| > 0
    ensures IsDigit(Spaced(ns)[0])
  {
    var d := Decimal(ns[0]);
    if |ns| == 1 {
      assert Spaced(ns) == d;
    } else {
      JoinCons(d, Decimals(ns)[1..], " ");
      assert Decimals(ns) == [d] + Decimals(ns)[1..];
      assert Spaced(ns)[0] == d[0];
    }
  }

  lemma WordsJoinDecimals(ns: seq<nat>)
    ensures Words(Spaced(ns)) == Decimals(ns)
  {
    var ds := Decimals(ns);
    forall i | 0 <= i < |ds|
      ensures IsWord(ds[i])
    {
      var d := ds[i];
      assert forall k :: 0 <= k < |d| ==> IsDigit(d[k]);
    }
    WordsJoin(ds);
  }

  /** Formatted races with `u64` numbers parse back, paired up to the shorter
      list. */
  lemma ParseFormatRaces(times: seq<nat>, distances: seq<nat>)
    requires AtMost(times, U64_MAX) && AtMost(distances, U64_MAX)
    ensures ParseRaces(FormatRaces(times, distances)) == Some(Pair(times, distances))
  {
    FormatTokens(times, distances);
    ZipDecimals(times, distances);
  }

  /** Pairing the decimal words of two lists of `u64`s pairs the numbers. */
  lemma ZipDecimals(times: seq<nat>, distances: seq<nat>)
    requires AtMost(times, U64_MAX) && AtMost(distances, U64_MAX)
    ensures Zip(Decimals(times), Decimals(distances)) == Some(Pair(times, distances))
  {
    var ts := Decimals(times);
    var ds := Decimals(distances);
    var n := Min(|ts|, |ds|);
    forall i | 0 <= i < n
      ensures ParseU64(ts[i]) == Some(times[i]) && ParseU64(ds[i]) == Some(distances[i])
    {
      ParseDecimal(times[i], U64_MAX);
      ParseDecimal(distances[i], U64_MAX);
    }
    assert PairsParse(ts, ds, n);
    var r := Zip(ts, ds);
    assert r.Some?;
    forall i | 0 <= i < n
      ensures r.value[i] == Pair(times, distances)[i]
    {
      assert Some(r.value[i].time) == ParseU64(ts[i]);
      assert Some(r.value[i].distance) == ParseU64(ds[i]);
    }
    assert r.value == Pair(times, distances);
  }

  /** The sample's races (7, 9), (15, 40) and (30, 200). */
  lemma SampleRaces()
    ensures ParseRaces(FormatRaces([7, 15, 30], [9, 40, 200])) == Some([Race(7, 9), Race(15, 40), Race(30, 200)])
  {
    ThreeRaces(7, 15, 30, 9, 40, 200);
  }

  /** Three races written out are read back, for any `u64` numbers. */
  lemma ThreeRaces(t0: nat, t1: nat, t2: nat, d0: nat, d1: nat, d2: nat)
    requires t0 <= U64_MAX && t1 <= U64_MAX && t2 <= U64_MAX
    requires d0 <= U64_MAX && d1 <= U64_MAX && d2 <= U64_MAX
    ensures ParseRaces(FormatRaces([t0, t1, t2], [d0, d1, d2])) == Some([Race(t0, d0), Race(t1, d1), Race(t2, d2)])
  {
    ParseFormatRaces([t0, t1, t2], [d0, d1, d2]);
    PairThree(t0, t1, t2, d0, d1, d2);
  }

  lemma PairThree(t0: nat, t1: nat, t2: nat, d0: nat, d1: nat, d2: nat)
    ensures Pair([t0, t1, t2], [d0, d1, d2]) == [Race(t0, d0), Race(t1, d1), Race(t2, d2)]
  {
    var p := Pair([t0, t1, t2], [d0, d1, d2]);
    assert p == [p[0], p[1], p[2]];
  }

  /** Read as one race, the sample's numbers glue together into 71530 and
      940200. */
  lemma SampleRace()
    ensures ParseRace(FormatRaces([7, 15, 30], [9, 40, 200])) == Some(Race(71530, 940200))
  {
    FormatTokens([7, 15, 30], [9, 40, 200]);
    SampleDecimals();
    GlueTimes();
    GlueDistances();
  }

  lemma GlueTimes()
    ensures ParseU64(Concat(["7", "15", "30"])) == Some(71530)
  {
    var ss := ["7", "15", "30"];
    assert ss[..1][..0] == [];
    assert Concat(ss[..1]) == "7";
    assert ss[..2][..1] == ss[..1];
    assert Concat(ss[..2]) == "715";
    assert Concat(ss) == "71530";
    DecimalSteps("71530", [7, 71, 715, 7153, 71530]);
  }

  lemma GlueDistances()
    ensures ParseU64(Concat(["9", "40", "200"])) == Some(940200)
  {
    var ss := ["9", "40", "200"];
    assert ss[..1][..0] == [];
    assert Concat(ss[..1]) == "9";
    assert ss[..2][..1] == ss[..1];
    assert Concat(ss[..2]) == "940";
    assert Concat(ss) == "940200";
    DecimalSteps("940200", [9, 94, 940, 9402, 94020, 940200]);
  }

  /** The value of a string of digits, given the value of each prefix. */
  lemma {:induction false} DecimalSteps(s: string, vs: seq<nat>)
    requires |s| == |vs| > 0 && AllDigits(s)
    requires vs[0] == DigitValue(s[0])
    requires forall i :: 0 < i < |s| ==> vs[i] == vs[i - 1] * 10 + DigitValue(s[i])
    ensures DecimalValue(s) == vs[|s| - 1]
    decreases |s|
  {
    var t := s[..|s| - 1];
    if |t| == 0 {
      assert t == [];
    } else {
      assert AllDigits(t);
      DecimalSteps(t, vs[..|t|]);
    }
  }

  lemma SampleDecimals()
    ensures Decimals([7, 15, 30]) == ["7", "15", "30"]
    ensures Decimals([9, 40, 200]) == ["9", "40", "200"]
  {
    assert Decimal(15) == "15";
    assert Decimal(30) == "30";
    assert Decimal(40) == "40";
    assert Decimal(20) == "20";
    assert Decimal(200) == "200";
  }
}
