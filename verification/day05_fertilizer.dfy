/** Day 5 (If You Give A Seed A Fertilizer): an almanac of seven range maps
    that lead from a seed number to a location number. */
module Fertilizer {
  import opened Wrappers
  import opened Text

  /** One line of a map: `length` numbers from `source` on map to the same
      number of values from `destination` on (`u64` fields). */
  datatype Interval = Interval(source: nat, destination: nat, length: nat)

  // ---------------------------------------------------------------------------
  // One interval

  /** `IntervalMapping::get_mapping`, computed without overflow. */
  function GetMapping(m: Interval, x: nat): (r: Option<nat>)
    ensures r.Some? <==> m.source <= x < m.source + m.length
    ensures r.Some? ==> m.destination <= r.value < m.destination + m.length
    ensures r.Some? ==> r.value - m.destination == x - m.source
  {
    if m.source <= x < m.source + m.length then Some(m.destination + (x - m.source)) else None
  }

  /** The interval read the other way round. */
  function Swap(m: Interval): Interval
  {
    Interval(m.destination, m.source, m.length)
  }

  /** An interval is a bijection between its source and destination ranges,
      and the swapped interval is its inverse. */
  lemma MappingInverse(m: Interval, x: nat, y: nat)
    ensures GetMapping(m, x) == Some(y) <==> GetMapping(Swap(m), y) == Some(x)
  {
  }

  /** The test's interval 50 98 2 maps 98 and 99 and nothing around them. */
  lemma MappingExample()
    ensures GetMapping(Interval(98, 50, 2), 98) == Some(50)
    ensures GetMapping(Interval(98, 50, 2), 99) == Some(51)
    ensures GetMapping(Interval(98, 50, 2), 100) == None
    ensures GetMapping(Interval(98, 50, 2), 97) == None
  {
  }

  /** `get_mapping` as written: `source < self.source + self.length` and then
      `self.destination + source - self.source` are evaluated in `u64`, so
      either sum may overflow. `None` stands for that overflow, a panic in a
      debug build. */
  function GetMappingAsWritten(m: Interval, x: nat): (r: Option<Option<nat>>)
    requires m.source <= U64_MAX && m.destination <= U64_MAX && m.length <= U64_MAX && x <= U64_MAX
  {
    if x < m.source then Some(None)
    else if m.source + m.length > U64_MAX then None
    else if x >= m.source + m.length then Some(None)
    else if m.destination + x > U64_MAX then None
    else Some(Some(m.destination + x - m.source))
  }

  /** Whenever the written code does not overflow it agrees with `GetMapping`;
      it overflows exactly when a covered number's sum leaves `u64`. */
  lemma AsWrittenAgrees(m: Interval, x: nat)
    requires m.source <= U64_MAX && m.destination <= U64_MAX && m.length <= U64_MAX && x <= U64_MAX
    ensures GetMappingAsWritten(m, x).Some? ==> GetMappingAsWritten(m, x).value == GetMapping(m, x)
    ensures GetMappingAsWritten(m, x).None? <==>
      m.source <= x && (m.source + m.length > U64_MAX || (x < m.source + m.length && m.destination + x > U64_MAX))
  {
  }

  /** An interval that reaches the top of `u64`: the written code overflows on
      its last number, which the interval maps to 0. */
  lemma TopOfRangeOverflows()
    ensures GetMappingAsWritten(Interval(U64_MAX, 0, 1), U64_MAX) == None
    ensures GetMapping(Interval(U64_MAX, 0, 1), U64_MAX) == Some(0)
  {
  }

  // ---------------------------------------------------------------------------
  // A map: a list of intervals

  /** Interval `i` is the first in `ms` that covers `x`. */
  predicate FirstCover(ms: seq<Interval>, x: nat, i: nat)
  {
    i < |ms| && GetMapping(ms[i], x).Some? && forall j :: 0 <= j < i ==> GetMapping(ms[j], x).None?
  }

  /** `Mapping for Vec<IntervalMapping>`: the first interval that covers `x`
      maps it, and a number no interval covers maps to itself. */
  function MapThrough(ms: seq<Interval>, x: nat): (y: nat)
    ensures (forall i :: 0 <= i < |ms| ==> GetMapping(ms[i], x).None?) ==> y == x
    ensures forall i: nat :: FirstCover(ms, x, i) ==> Some(y) == GetMapping(ms[i], x)
  {
    if ms == [] then x
    else
      match GetMapping(ms[0], x)
      case Some(y) => y
      case None =>
        assert forall i: nat :: FirstCover(ms, x, i) && i > 0 ==> FirstCover(ms[1..], x, i - 1);
        MapThrough(ms[1..], x)
  }

  /** The test's two-interval map. */
  lemma MapThroughExample()
    ensures var ms := [Interval(98, 50, 2), Interval(50, 52, 48)];
      MapThrough(ms, 98) == 50 && MapThrough(ms, 99) == 51 && MapThrough(ms, 100) == 100
      && MapThrough(ms, 50) == 52 && MapThrough(ms, 55) == 57 && MapThrough(ms, 97) == 99
      && MapThrough(ms, 49) == 49 && MapThrough(ms, 10) == 10
  {
  }

  // ---------------------------------------------------------------------------
  // The almanac

  datatype Mappings = Mappings(
    seedToSoil: seq<Interval>,
    soilToFertilizer: seq<Interval>,
    fertilizerToWater: seq<Interval>,
    waterToLight: seq<Interval>,
    lightToTemperature: seq<Interval>,
    temperatureToHumidity: seq<Interval>,
    humidityToLocation: seq<Interval>)

  /** The seven maps in the order a seed passes through them. */
  function Stages(m: Mappings): (st: seq<seq<Interval>>)
    ensures |st| == 7
  {
    [m.seedToSoil, m.soilToFertilizer, m.fertilizerToWater, m.waterToLight,
     m.lightToTemperature, m.temperatureToHumidity, m.humidityToLocation]
  }

  /** Passes `x` through the maps `st`, first to last. */
  function Chain(st: seq<seq<Interval>>, x: nat): nat
  {
    if st == [] then x else Chain(st[1..], MapThrough(st[0], x))
  }

  /** `Mappings::get_location`. */
  function GetLocation(m: Mappings, seed: nat): (loc: nat)
  {
    var soil := MapThrough(m.seedToSoil, seed);
    var fertilizer := MapThrough(m.soilToFertilizer, soil);
    var water := MapThrough(m.fertilizerToWater, fertilizer);
    var light := MapThrough(m.waterToLight, water);
    var temperature := MapThrough(m.lightToTemperature, light);
    var humidity := MapThrough(m.temperatureToHumidity, temperature);
    MapThrough(m.humidityToLocation, humidity)
  }

  /** One step of a chain: the first map, then the rest. */
  lemma ChainStep(st: seq<seq<Interval>>, k: nat, x: nat)
    requires k < |st|
    ensures Chain(st[k..], x) == Chain(st[k + 1..], MapThrough(st[k], x))
  {
    assert st[k..][1..] == st[k + 1..];
  }

  /** The location is the seed passed through the seven maps in order. */
  lemma GetLocationChain(m: Mappings, seed: nat)
    ensures GetLocation(m, seed) == Chain(Stages(m), seed)
  {
    var st := Stages(m);
    assert st[0..] == st;
    var x1 := MapThrough(m.seedToSoil, seed);
    ChainStep(st, 0, seed);
    var x2 := MapThrough(m.soilToFertilizer, x1);
    ChainStep(st, 1, x1);
    var x3 := MapThrough(m.fertilizerToWater, x2);
    ChainStep(st, 2, x2);
    var x4 := MapThrough(m.waterToLight, x3);
    ChainStep(st, 3, x3);
    var x5 := MapThrough(m.lightToTemperature, x4);
    ChainStep(st, 4, x4);
    var x6 := MapThrough(m.temperatureToHumidity, x5);
    ChainStep(st, 5, x5);
    var x7 := MapThrough(m.humidityToLocation, x6);
    ChainStep(st, 6, x6);
    assert st[7..] == [];
  }

  /** A chain of maps splits at any point. */
  lemma {:induction false} ChainAppend(a: seq<seq<Interval>>, b: seq<seq<Interval>>, x: nat)
    ensures Chain(a + b, x) == Chain(b, Chain(a, x))
    decreases |a|
  {
    if a == [] {
      assert a + b == b;
    } else {
      assert (a + b)[1..] == a[1..] + b;
      ChainAppend(a[1..], b, MapThrough(a[0], x));
    }
  }

  /** The almanac of the tests. */
  function SampleMappings(): Mappings
  {
    Mappings(
      [Interval(98, 50, 2), Interval(50, 52, 48)],
      [Interval(15, 0, 37), Interval(52, 37, 2), Interval(0, 39, 15)],
      [Interval(53, 49, 8), Interval(11, 0, 42), Interval(0, 42, 7), Interval(7, 57, 4)],
      [Interval(18, 88, 7), Interval(25, 18, 70)],
      [Interval(77, 45, 23), Interval(45, 81, 19), Interval(64, 68, 13)],
      [Interval(69, 0, 1), Interval(0, 1, 69)],
      [Interval(56, 60, 37), Interval(93, 56, 4)])
  }

  /** Seeds 79, 14, 55 and 13 reach locations 82, 43, 86 and 35. */
  lemma LocationExample()
    ensures GetLocation(SampleMappings(), 79) == 82
    ensures GetLocation(SampleMappings(), 14) == 43
    ensures GetLocation(SampleMappings(), 55) == 86
    ensures GetLocation(SampleMappings(), 13) == 35
  {
    Location79();
    Location14();
    Location55();
    Location13();
  }

  lemma Location79()
    ensures GetLocation(SampleMappings(), 79) == 82
  {
    var m := SampleMappings();
    assert MapThrough(m.seedToSoil, 79) == 81;
    assert MapThrough(m.soilToFertilizer, 81) == 81;
    assert MapThrough(m.fertilizerToWater, 81) == 81;
    assert MapThrough(m.waterToLight, 81) == 74;
    assert MapThrough(m.lightToTemperature, 74) == 78;
    assert MapThrough(m.temperatureToHumidity, 78) == 78;
    assert MapThrough(m.humidityToLocation, 78) == 82;
  }

  lemma Location14()
    ensures GetLocation(SampleMappings(), 14) == 43
  {
    var m := SampleMappings();
    assert MapThrough(m.seedToSoil, 14) == 14;
    assert MapThrough(m.soilToFertilizer, 14) == 53;
    assert MapThrough(m.fertilizerToWater, 53) == 49;
    assert MapThrough(m.waterToLight, 49) == 42;
    assert MapThrough(m.lightToTemperature, 42) == 42;
    assert MapThrough(m.temperatureToHumidity, 42) == 43;
    assert MapThrough(m.humidityToLocation, 43) == 43;
  }

  lemma Location55()
    ensures GetLocation(SampleMappings(), 55) == 86
  {
    var m := SampleMappings();
    assert MapThrough(m.seedToSoil, 55) == 57;
    assert MapThrough(m.soilToFertilizer, 57) == 57;
    assert MapThrough(m.fertilizerToWater, 57) == 53;
    assert MapThrough(m.waterToLight, 53) == 46;
    assert MapThrough(m.lightToTemperature, 46) == 82;
    assert MapThrough(m.temperatureToHumidity, 82) == 82;
    assert MapThrough(m.humidityToLocation, 82) == 86;
  }

  lemma Location13()
    ensures GetLocation(SampleMappings(), 13) == 35
  {
    var m := SampleMappings();
    assert MapThrough(m.seedToSoil, 13) == 13;
    assert MapThrough(m.soilToFertilizer, 13) == 52;
    assert MapThrough(m.fertilizerToWater, 52) == 41;
    assert MapThrough(m.waterToLight, 41) == 34;
    assert MapThrough(m.lightToTemperature, 34) == 34;
    assert MapThrough(m.temperatureToHumidity, 34) == 35;
    assert MapThrough(m.humidityToLocation, 35) == 35;
  }

  // ---------------------------------------------------------------------------
  // Parsing

  /** `IntervalMapping::from_str`: exactly three `u64` words, read as
      destination, source and length. */
  function ParseInterval(s: string): (r: Option<Interval>)
    ensures r.Some? <==> ParseEach(Words(s), U64_MAX).Some? && |Words(s)| == 3
    ensures r.Some? ==>
      Some(r.value.destination) == ParseU64(Words(s)[0])
      && Some(r.value.source) == ParseU64(Words(s)[1])
      && Some(r.value.length) == ParseU64(Words(s)[2])
  {
    var values :- ParseEach(Words(s), U64_MAX);
    if |values| != 3 then None
    else Some(Interval(values[1], values[0], values[2]))
  }

  /** An interval's line in the almanac: destination, source, length. */
  function FormatInterval(m: Interval): string
  {
    Spaced([m.destination, m.source, m.length])
  }

  predicate Fits(m: Interval)
  {
    m.source <= U64_MAX && m.destination <= U64_MAX && m.length <= U64_MAX
  }

  /** Parsing an interval's line gives the interval back. */
  lemma ParseFormatInterval(m: Interval)
    requires Fits(m)
    ensures ParseInterval(FormatInterval(m)) == Some(m)
  {
    SpacedParses([m.destination, m.source, m.length], U64_MAX);
  }

  lemma IntervalExample()
    ensures ParseInterval("50 98 2") == Some(Interval(98, 50, 2))
  {
    assert FormatInterval(Interval(98, 50, 2)) == "50 98 2";
    ParseFormatInterval(Interval(98, 50, 2));
  }

  /** `parse_mapping_set`: one interval per line; any bad line is an error. */
  function ParseMappingSet(s: string): (r: Option<seq<Interval>>)
    ensures r.Some? <==> forall i :: 0 <= i < |Lines(s)| ==> ParseInterval(Lines(s)[i]).Some?
    ensures r.Some? ==> |r.value| == |Lines(s)|
    ensures r.Some? ==> forall i :: 0 <= i < |Lines(s)| ==> Some(r.value[i]) == ParseInterval(Lines(s)[i])
  {
    ParseIntervals(Lines(s))
  }

  function ParseIntervals(lines: seq<string>): (r: Option<seq<Interval>>)
    ensures r.Some? <==> forall i :: 0 <= i < |lines| ==> ParseInterval(lines[i]).Some?
    ensures r.Some? ==> |r.value| == |lines|
    ensures r.Some? ==> forall i :: 0 <= i < |lines| ==> Some(r.value[i]) == ParseInterval(lines[i])
  {
    if lines == [] then Some([])
    else
      match ParseInterval(lines[0])
      case None => None
      case Some(m) =>
        match ParseIntervals(lines[1..])
        case None => None
        case Some(ms) => Some([m] + ms)
  }

  /** A map's lines, each ended by a newline. */
  function FormatMappingSet(ms: seq<Interval>): (s: string)
  {
    Unlines(IntervalLines(ms))
  }

  function IntervalLines(ms: seq<Interval>): (ls: seq<string>)
    ensures |ls| == |ms|
    ensures forall i :: 0 <= i < |ms| ==> ls[i] == FormatInterval(ms[i])
  {
    if ms == [] then [] else [FormatInterval(ms[0])] + IntervalLines(ms[1..])
  }

  /** Parsing a map's lines gives the map back. */
  lemma ParseFormatMappingSet(ms: seq<Interval>)
    requires forall i :: 0 <= i < |ms| ==> Fits(ms[i])
    ensures ParseMappingSet(FormatMappingSet(ms)) == Some(ms)
  {
    var ls := IntervalLines(ms);
    forall i | 0 <= i < |ls|
      ensures Free(ls[i], '\n') && ParseInterval(ls[i]) == Some(ms[i])
    {
      SpacedFree([ms[i].destination, ms[i].source, ms[i].length], '\n');
      ParseFormatInterval(ms[i]);
    }
    LinesUnlines(ls);
    var r := ParseMappingSet(FormatMappingSet(ms));
    assert r.value == ms;
  }

  /** The text ends a section at `pos`: at the end, at a blank line or at
      another copy of the header. */
  predicate SectionEnd(s: string, name: string, pos: nat)
  {
    pos == |s| || OccursAt(s, BlankLine, pos) || OccursAt(s, name, pos)
  }

  /** `r` is the section body that starts at `start`: a slice of `s` with no
      blank line and no copy of the header, ended where `SectionEnd` holds. */
  predicate IsPart(s: string, name: string, start: nat, r: string)
    requires |name| > 0
  {
    start + |r| <= |s| && r == s[start..start + |r|]
    && !Contains(r, BlankLine) && !Contains(r, name)
    && SectionEnd(s, name, start + |r|)
  }

  /** `extract_part`: the text after the first occurrence of the header `name`,
      up to the next blank line (or the next copy of the header). A missing
      header is an error. */
  function ExtractPart(s: string, name: string): (r: Option<string>)
    requires |name| > 0
    ensures r.Some? <==> Contains(s, name)
    ensures r.Some? ==> IsPart(s, name, IndexOf(s, name).value + |name|, r.value)
  {
    SplitHead(s, name);
    var after :- Nth(Split(s, name), 1);
    ExtractPartFacts(s, name);
    Some(Split(after, BlankLine)[0])
  }

  lemma ExtractPartFacts(s: string, name: string)
    requires |name| > 0 && Contains(s, name)
    ensures |Split(s, name)| >= 2
    ensures IsPart(s, name, IndexOf(s, name).value + |name|, Split(Split(s, name)[1], BlankLine)[0])
  {
    AfterHeader(s, name);
    var start := IndexOf(s, name).value + |name|;
    var piece := Split(s, name)[1];
    assert piece == Split(s[start..], name)[0];
    BodyAt(s, name, start);
    assert IsPart(s, name, start, Split(piece, BlankLine)[0]);
  }

  /** The text from `start` up to the next header, then up to the next blank
      line, is a section body. */
  lemma BodyAt(s: string, name: string, start: nat)
    requires |name| > 0 && start <= |s|
    ensures IsPart(s, name, start, Split(Split(s[start..], name)[0], BlankLine)[0])
  {
    var piece := Split(s[start..], name)[0];
    FirstPiece(s[start..], name);
    FirstPiece(piece, BlankLine);
    PartOfPiece(s, name, start, piece, Split(piece, BlankLine)[0]);
  }

  /** The second piece of the split at the header is the first piece of the
      text after the header. */
  lemma AfterHeader(s: string, name: string)
    requires |name| > 0 && Contains(s, name)
    ensures |Split(s, name)| >= 2
    ensures Split(s, name)[1] == Split(s[IndexOf(s, name).value + |name|..], name)[0]
  {
    SplitHead(s, name);
  }

  /** The first blank-line piece `r` of the first header piece `piece` of the
      text after `start` is a section body. */
  lemma PartOfPiece(s: string, name: string, start: nat, piece: string, r: string)
    requires |name| > 0 && start <= |s|
    requires |piece| <= |s| - start && piece == s[start..][..|piece|] && !Contains(piece, name)
    requires |piece| == |s| - start || OccursAt(s[start..], name, |piece|)
    requires |r| <= |piece| && r == piece[..|r|] && !Contains(r, BlankLine)
    requires |r| == |piece| || OccursAt(piece, BlankLine, |r|)
    ensures IsPart(s, name, start, r)
  {
    PrefixNotContains(piece, name, |r|);
    assert r == s[start..start + |r|];
    var u := s[start..];
    if |r| < |piece| {
      assert piece[|r|..|r| + 2] == u[|r|..|r| + 2];
      OccursAtShift(s, BlankLine, start, |r|);
    } else if |piece| < |u| {
      OccursAtShift(s, name, start, |r|);
    }
  }

  /** The first piece of `split`: a prefix free of the separator, ended by the
      end of the text or by a separator. */
  lemma FirstPiece(t: string, sep: string)
    requires |sep| > 0
    ensures var r := Split(t, sep)[0];
      |r| <= |t| && r == t[..|r|] && !Contains(r, sep)
      && (|r| == |t| || OccursAt(t, sep, |r|))
  {
    SplitHead(t, sep);
    SplitPartsFree(t, sep);
  }

  /** The seven section headers, in the order of `Mappings`. */
  const Headers: seq<string> := [
    "seed-to-soil map:\n", "soil-to-fertilizer map:\n", "fertilizer-to-water map:\n",
    "water-to-light map:\n", "light-to-temperature map:\n",
    "temperature-to-humidity map:\n", "humidity-to-location map:\n"]

  /** One section of the almanac, parsed. */
  function Section(s: string, i: nat): (r: Option<seq<Interval>>)
    requires i < 7
  {
    assert |Headers[i]| > 0;
    var part :- ExtractPart(s, Headers[i]);
    ParseMappingSet(part)
  }

  /** All seven sections are present, spelt out. */
  lemma EachSection(s: string)
    ensures (forall i :: 0 <= i < 7 ==> Section(s, i).Some?) <==>
      Section(s, 0).Some? && Section(s, 1).Some? && Section(s, 2).Some? && Section(s, 3).Some?
      && Section(s, 4).Some? && Section(s, 5).Some? && Section(s, 6).Some?
  {
    if Section(s, 0).Some? && Section(s, 1).Some? && Section(s, 2).Some? && Section(s, 3).Some?
      && Section(s, 4).Some? && Section(s, 5).Some? && Section(s, 6).Some?
    {
      forall i | 0 <= i < 7
        ensures Section(s, i).Some?
      {
        if i == 0 {} else if i == 1 {} else if i == 2 {} else if i == 3 {}
        else if i == 4 {} else if i == 5 {} else {}
      }
    }
  }

  /** `Mappings::from_str`: each of the seven sections must be present and
      parse. */
  function ParseMappings(s: string): (r: Option<Mappings>)
    ensures r.Some? <==> forall i :: 0 <= i < 7 ==> Section(s, i).Some?
    ensures r.Some? ==>
      Some(r.value.seedToSoil) == Section(s, 0)
      && Some(r.value.soilToFertilizer) == Section(s, 1)
      && Some(r.value.fertilizerToWater) == Section(s, 2)
      && Some(r.value.waterToLight) == Section(s, 3)
      && Some(r.value.lightToTemperature) == Section(s, 4)
      && Some(r.value.temperatureToHumidity) == Section(s, 5)
      && Some(r.value.humidityToLocation) == Section(s, 6)
  {
    EachSection(s);
    var seedToSoil :- Section(s, 0);
    var soilToFertilizer :- Section(s, 1);
    var fertilizerToWater :- Section(s, 2);
    var waterToLight :- Section(s, 3);
    var lightToTemperature :- Section(s, 4);
    var temperatureToHumidity :- Section(s, 5);
    var humidityToLocation :- Section(s, 6);
    Some(Mappings(seedToSoil, soilToFertilizer, fertilizerToWater, waterToLight,
                  lightToTemperature, temperatureToHumidity, humidityToLocation))
  }

  // ---------------------------------------------------------------------------
  // Seeds

  /** The words of the seed line: the first block with "seeds: " removed from
      its front. */
  function SeedWords(input: string): seq<string>
  {
    Words(TrimStartMatches(Split(input, BlankLine)[0], "seeds: "))
  }

  /** `parse_seeds`: every word of the seed line as a `u64`, in order. */
  function ParseSeeds(input: string): (r: Option<seq<nat>>)
    ensures r.Some? <==> forall i :: 0 <= i < |SeedWords(input)| ==> ParseU64(SeedWords(input)[i]).Some?
    ensures r.Some? ==> |r.value| == |SeedWords(input)|
    ensures r.Some? ==> forall i :: 0 <= i < |r.value| ==> Some(r.value[i]) == ParseU64(SeedWords(input)[i])
  {
    ParseEach(SeedWords(input), U64_MAX)
  }

  /** A seed line followed by a blank line and any other text is read back. */
  lemma ParseFormatSeeds(seeds: seq<nat>, rest: string)
    requires AtMost(seeds, U64_MAX)
    ensures ParseSeeds("seeds: " + Spaced(seeds) + BlankLine + rest) == Some(seeds)
  {
    SeedBlock(seeds, rest);
    TrimSeeds(seeds);
    SpacedParses(seeds, U64_MAX);
  }

  lemma SeedBlock(seeds: seq<nat>, rest: string)
    ensures Split("seeds: " + Spaced(seeds) + BlankLine + rest, BlankLine)[0] == "seeds: " + Spaced(seeds)
  {
    var line := "seeds: " + Spaced(seeds);
    var input := line + BlankLine + rest;
    SpacedFree(seeds, '\n');
    assert Free(line, '\n');
    FirstOccurrence(line, BlankLine, rest, 0);
    SplitHead(input, BlankLine);
    assert input[..|line|] == line;
  }

  lemma TrimSeeds(seeds: seq<nat>)
    ensures TrimStartMatches("seeds: " + Spaced(seeds), "seeds: ") == Spaced(seeds)
  {
    var line := "seeds: " + Spaced(seeds);
    SpacedFree(seeds, 's');
    assert line[|"seeds: "|..] == Spaced(seeds);
    assert "seeds: " <= line;
    if |Spaced(seeds)| > 0 {
      assert Spaced(seeds)[0] != 's';
    }
  }
}
