/** Day 8 (Haunted Wasteland): a cyclic stream of left/right instructions and
    a map from each node to its left and right neighbours. */
module Wasteland {
  import opened Wrappers
  import opened Text
  import opened Arith

  // ---------------------------------------------------------------------------
  // The instruction stream

  datatype Instruction = Left | Right

  /** The instruction list and the index of the next one to hand out. */
  datatype Instructions = Instructions(list: seq<Instruction>, current: nat)

  /** `Instructions::new`: starts at the first instruction. */
  function NewInstructions(list: seq<Instruction>): (it: Instructions)
    ensures it.list == list && it.current == 0
  {
    Instructions(list, 0)
  }

  /** The index stays within `0..=len`, which `next` relies on. */
  predicate Valid(it: Instructions)
  {
    it.current <= |it.list|
  }

  /** `Iterator::next`: wraps round to the first instruction after the last
      one and never returns `None`. Indexing the list needs it to be
      non-empty. */
  function Next(it: Instructions): (r: (Option<Instruction>, Instructions))
    requires |it.list| > 0 && Valid(it)
    ensures r.0.Some? && r.0.value == it.list[it.current % |it.list|]
    ensures r.1.list == it.list && Valid(r.1) && r.1.current == it.current % |it.list| + 1
  {
    var c := if it.current == |it.list| then 0 else it.current;
    (Some(it.list[c]), Instructions(it.list, c + 1))
  }

  /** The first `k` instructions the iterator hands out. */
  function Take(it: Instructions, k: nat): (r: seq<Instruction>)
    requires |it.list| > 0 && Valid(it)
    ensures |r| == k
    decreases k
  {
    if k == 0 then []
    else
      var (x, rest) := Next(it);
      [x.value] + Take(rest, k - 1)
  }

  /** The iterator state after `k` calls. */
  function Advance(it: Instructions, k: nat): (r: Instructions)
    requires |it.list| > 0 && Valid(it)
    ensures r.list == it.list && Valid(r)
    decreases k
  {
    if k == 0 then it else Advance(Next(it).1, k - 1)
  }

  lemma ModStep(c: nat, n: nat, i: nat)
    requires n > 0 && c <= n
    ensures (c % n + 1 + i) % n == (c + 1 + i) % n
  {
    if c == n {
      ModShift(0, n);
      ModShift(1 + i, n);
    } else {
      ModSmall(c, n);
    }
  }

  /** The `i`-th instruction handed out is the one `i` places after the
      current index, counted round the list. */
  lemma {:induction false} TakeCycles(it: Instructions, k: nat, i: nat)
    requires |it.list| > 0 && Valid(it) && i < k
    ensures Take(it, k)[i] == it.list[(it.current + i) % |it.list|]
    decreases k
  {
    if i > 0 {
      var next := Next(it).1;
      TakeCycles(next, k - 1, i - 1);
      ModStep(it.current, |it.list|, i - 1);
    }
  }

  /** From a fresh stream, call `k` yields `list[k mod len]` and the index
      after `k > 0` calls is `(k - 1) mod len + 1`. */
  lemma StreamCycles(list: seq<Instruction>, k: nat)
    requires |list| > 0
    ensures forall i :: 0 <= i < k ==> Take(NewInstructions(list), k)[i] == list[i % |list|]
    ensures k > 0 ==> Advance(NewInstructions(list), k).current == (k - 1) % |list| + 1
  {
    forall i | 0 <= i < k
      ensures Take(NewInstructions(list), k)[i] == list[i % |list|]
    {
      TakeCycles(NewInstructions(list), k, i);
    }
    if k > 0 {
      AdvanceIndex(NewInstructions(list), k);
    }
  }

  lemma {:induction false} AdvanceIndex(it: Instructions, k: nat)
    requires |it.list| > 0 && Valid(it) && k > 0
    ensures Advance(it, k).current == (it.current + k - 1) % |it.list| + 1
    decreases k
  {
    if k > 1 {
      AdvanceIndex(Next(it).1, k - 1);
      ModStep(it.current, |it.list|, k - 2);
    }
  }

  /** The iterator test: LLR handed out seven times. */
  lemma StreamExample()
    ensures Take(NewInstructions([Left, Left, Right]), 7) == [Left, Left, Right, Left, Left, Right, Left]
  {
    StreamSeven(Left, Left, Right);
  }

  /** Seven calls on any three instructions go round the list twice and a bit. */
  lemma StreamSeven(a: Instruction, b: Instruction, c: Instruction)
    ensures Take(NewInstructions([a, b, c]), 7) == [a, b, c, a, b, c, a]
  {
    var list := [a, b, c];
    StreamCycles(list, 7);
    var t := Take(NewInstructions(list), 7);
    assert t[3] == list[0] && t[4] == list[1] && t[5] == list[2] && t[6] == list[0];
  }

  /** `Instructions::from_str`: 'R' is Right and every other character Left;
      parsing never fails. */
  function ParseInstructions(s: string): (r: Result<Instructions, ()>)
    ensures r.Success? && r.value.current == 0 && |r.value.list| == |s|
    ensures forall i :: 0 <= i < |s| ==> (r.value.list[i] == Right <==> s[i] == 'R')
  {
    Success(NewInstructions(seq(|s|, i requires 0 <= i < |s| => if s[i] == 'R' then Right else Left)))
  }

  function InstructionChar(x: Instruction): char
  {
    if x == Right then 'R' else 'L'
  }

  /** The instructions written as 'L' and 'R'. */
  function FormatInstructions(list: seq<Instruction>): (s: string)
    ensures |s| == |list| && forall i :: 0 <= i < |list| ==> s[i] == InstructionChar(list[i])
  {
    seq(|list|, i requires 0 <= i < |list| => InstructionChar(list[i]))
  }

  /** Writing instructions out and parsing them gives them back, and a string
      of 'L' and 'R' is written back from its parse. */
  lemma ParseFormatInstructions(list: seq<Instruction>, s: string)
    ensures ParseInstructions(FormatInstructions(list)).value.list == list
    ensures (forall i :: 0 <= i < |s| ==> s[i] in "LR") ==>
      FormatInstructions(ParseInstructions(s).value.list) == s
  {
    var parsed := ParseInstructions(FormatInstructions(list)).value.list;
    forall i | 0 <= i < |list|
      ensures parsed[i] == list[i]
    {
    }
  }

  /** The parsing test. */
  lemma ParseInstructionsExample()
    ensures ParseInstructions("LLR").value.list == [Left, Left, Right]
  {
  }

  // ---------------------------------------------------------------------------
  // Destinations and the map

  datatype Destination = Destination(left: string, right: string)

  const Comma: string := ", "

  /** `Destination::from_str`: the text before the first ", " must start
      with "(" and the text after it, up to a second ", ", must end with ")".
      Anything after a second ", " is ignored. */
  function ParseDestination(s: string): (r: Option<Destination>)
  {
    var parts := Split(s, Comma);
    var left :- StripPrefix(parts[0], "(");
    var second :- Nth(parts, 1);
    var right :- StripSuffix(second, ")");
    Some(Destination(left, right))
  }

  /** A destination parses exactly when the first piece starts with "(" and
      there is a second piece ending in ")"; the names are what lies inside. */
  lemma ParseDestinationMeaning(s: string)
    ensures var parts := Split(s, Comma);
      ParseDestination(s).Some? <==> "(" <= parts[0] && |parts| >= 2 && StripSuffix(parts[1], ")").Some?
    ensures var parts := Split(s, Comma);
      ParseDestination(s).Some? ==>
        parts[0] == "(" + ParseDestination(s).value.left && parts[1] == ParseDestination(s).value.right + ")"
  {
  }

  /** A destination as the input writes it: "(left, right)". */
  function FormatDestination(d: Destination): string
  {
    "(" + d.left + ", " + d.right + ")"
  }

  /** A destination whose names contain no comma is read back. */
  lemma ParseFormatDestination(d: Destination)
    requires Free(d.left, ',') && Free(d.right, ',')
    ensures ParseDestination(FormatDestination(d)) == Some(d)
  {
    var a := "(" + d.left;
    var b := d.right + ")";
    assert Free(a, ',') by { assert forall i :: 1 <= i < |a| ==> a[i] == d.left[i - 1]; }
    assert Free(b, ',') by { assert forall i :: 0 <= i < |d.right| ==> b[i] == d.right[i]; }
    assert FormatDestination(d) == Join([a, b], Comma);
    SplitJoin([a, b], Comma);
    assert b[..|b| - 1] == d.right;
  }

  datatype ParseMapError = MapError | DestinationError

  const Equals: string := " = "

  /** One line "from = (left, right)": the text before the first " = " names
      the node; the text after it, up to a second " = ", is the destination. */
  function ParseEntry(line: string): (r: Result<(string, Destination), ParseMapError>)
  {
    var parts := Split(line, Equals);
    var from := parts[0];
    var second :- OkOr(Nth(parts, 1), MapError);
    var to :- OkOr(ParseDestination(second), DestinationError);
    Success((from, to))
  }

  /** A line parses exactly when it has a second " = " piece that is a
      destination; a missing piece is `MapError`, a bad destination
      `DestinationError`. */
  lemma ParseEntryMeaning(line: string)
    ensures var parts := Split(line, Equals);
      ParseEntry(line).Success? <==> |parts| >= 2 && ParseDestination(parts[1]).Some?
    ensures var parts := Split(line, Equals);
      ParseEntry(line).Failure? ==> (ParseEntry(line).error == MapError <==> |parts| < 2)
    ensures var parts := Split(line, Equals);
      ParseEntry(line).Success? ==> ParseEntry(line).value == (parts[0], ParseDestination(parts[1]).value)
  {
  }

  /** The index of the first line that does not parse, `|lines|` when all do. */
  function FirstFailure(lines: seq<string>): (k: nat)
    ensures k <= |lines| && (k < |lines| ==> ParseEntry(lines[k]).Failure?)
    ensures forall j :: 0 <= j < k ==> ParseEntry(lines[j]).Success?
  {
    if lines == [] then 0
    else if ParseEntry(lines[0]).Failure? then 0
    else 1 + FirstFailure(lines[1..])
  }

  /** The entries of all lines, failing with the error of the first line
      that fails. */
  function ParseEntries(lines: seq<string>): (r: Result<seq<(string, Destination)>, ParseMapError>)
    ensures r.Success? <==> FirstFailure(lines) == |lines|
    ensures r.Success? ==> (|r.value| == |lines| &&
      forall i :: 0 <= i < |lines| ==> r.value[i] == ParseEntry(lines[i]).value)
    ensures r.Failure? ==> ParseEntry(lines[FirstFailure(lines)]) == Failure(r.error)
  {
    if lines == [] then Success([])
    else
      var e :- ParseEntry(lines[0]);
      var rest :- ParseEntries(lines[1..]);
      Success([e] + rest)
  }

  /** The entries inserted one after the other, a later key overwriting an
      earlier one. */
  function ToMap(entries: seq<(string, Destination)>): (m: map<string, Destination>)
    ensures m.Keys == set i | 0 <= i < |entries| :: entries[i].0
  {
    if entries == [] then map[]
    else
      var last := entries[|entries| - 1];
      var m := ToMap(entries[..|entries| - 1])[last.0 := last.1];
      assert forall i :: 0 <= i < |entries| - 1 ==> entries[..|entries| - 1][i] == entries[i];
      m
  }

  /** Entry `i` is the last one with its key. */
  predicate LastWithKey(entries: seq<(string, Destination)>, i: nat)
  {
    i < |entries| && forall j :: i < j < |entries| ==> entries[j].0 != entries[i].0
  }

  /** Each key maps to the destination of its last entry. */
  lemma {:induction false} ToMapLast(entries: seq<(string, Destination)>, i: nat)
    requires LastWithKey(entries, i)
    ensures entries[i].0 in ToMap(entries) && ToMap(entries)[entries[i].0] == entries[i].1
    decreases |entries|
  {
    var n := |entries|;
    if i < n - 1 {
      var init := entries[..n - 1];
      assert init[i] == entries[i];
      assert LastWithKey(init, i) by {
        forall j | i < j < |init| ensures init[j].0 != init[i].0 {
          assert init[j] == entries[j];
        }
      }
      ToMapLast(init, i);
    }
  }

  /** `Map::from_str`: one entry per line, a later line with the same key
      replacing an earlier one; the first bad line's error otherwise. */
  function ParseMap(s: string): (r: Result<map<string, Destination>, ParseMapError>)
  {
    var entries :- ParseEntries(Lines(s));
    Success(ToMap(entries))
  }

  /** A map line as the input writes it: "from = (left, right)". */
  function EntryLine(e: (string, Destination)): string
  {
    e.0 + Equals + FormatDestination(e.1)
  }

  /** The lines of `entries`, joined by newlines. */
  function FormatMap(entries: seq<(string, Destination)>): string
  {
    Join(seq(|entries|, i requires 0 <= i < |entries| => EntryLine(entries[i])), "\n")
  }

  /** Names that the line format can carry: no '=', ',' or newline. */
  predicate GoodName(s: string)
  {
    Free(s, '=') && Free(s, ',') && Free(s, '\n')
  }

  predicate GoodEntry(e: (string, Destination))
  {
    GoodName(e.0) && GoodName(e.1.left) && GoodName(e.1.right)
  }

  lemma FreeConcat(a: string, b: string, c: string, d: string, e: string, x: char)
    requires Free(a, x) && Free(b, x) && Free(c, x) && Free(d, x) && Free(e, x)
    ensures Free(a + b + c + d + e, x)
  {
    FreeAppend(a, b, x);
    FreeAppend(a + b, c, x);
    FreeAppend(a + b + c, d, x);
    FreeAppend(a + b + c + d, e, x);
  }

  /** A line of good names is read back as its entry. */
  lemma ParseFormatEntry(e: (string, Destination))
    requires GoodEntry(e)
    ensures ParseEntry(EntryLine(e)) == Success(e)
  {
    var dest := FormatDestination(e.1);
    FreeConcat("(", e.1.left, ", ", e.1.right, ")", '=');
    assert EntryLine(e) == Join([e.0, dest], Equals);
    SplitJoinAt([e.0, dest], Equals, 1);
    ParseFormatDestination(e.1);
  }

  /** A line of a good entry has no newline and reads back as the entry. */
  lemma EntryLineFacts(e: (string, Destination))
    requires GoodEntry(e)
    ensures Free(EntryLine(e), '\n') && ParseEntry(EntryLine(e)) == Success(e)
  {
    var d := e.1;
    FreeConcat("(", d.left, ", ", d.right, ")", '\n');
    FreeConcat(e.0, Equals, FormatDestination(d), "", "", '\n');
    assert EntryLine(e) == e.0 + Equals + FormatDestination(d) + "" + "";
    ParseFormatEntry(e);
  }

  /** The lines of `entries`. */
  function EntryLines(entries: seq<(string, Destination)>): (ls: seq<string>)
    ensures |ls| == |entries| && forall i :: 0 <= i < |entries| ==> ls[i] == EntryLine(entries[i])
  {
    seq(|entries|, i requires 0 <= i < |entries| => EntryLine(entries[i]))
  }

  /** The lines of a map written from good entries are read back. */
  lemma FormatMapLines(entries: seq<(string, Destination)>)
    requires forall i :: 0 <= i < |entries| ==> GoodEntry(entries[i])
    ensures Lines(FormatMap(entries)) == EntryLines(entries)
  {
    var lines := EntryLines(entries);
    assert FormatMap(entries) == Join(lines, "\n");
    if entries == [] {
      assert Split("", "\n") == [""];
    } else {
      forall i | 0 <= i < |lines| ensures Free(lines[i], '\n') {
        EntryLineFacts(entries[i]);
      }
      assert lines[|lines| - 1] != [];
      LinesOfJoin(lines);
    }
  }

  /** A map written line by line from good entries parses to those entries
      inserted in order, a later duplicate key winning. */
  lemma ParseFormatMap(entries: seq<(string, Destination)>)
    requires forall i :: 0 <= i < |entries| ==> GoodEntry(entries[i])
    ensures ParseMap(FormatMap(entries)) == Success(ToMap(entries))
  {
    var lines := EntryLines(entries);
    FormatMapLines(entries);
    forall i | 0 <= i < |lines| ensures ParseEntry(lines[i]) == Success(entries[i]) {
      EntryLineFacts(entries[i]);
    }
    EntriesOfLines(lines, entries);
  }

  lemma {:induction false} FirstFailureNone(lines: seq<string>)
    requires forall i :: 0 <= i < |lines| ==> ParseEntry(lines[i]).Success?
    ensures FirstFailure(lines) == |lines|
    decreases |lines|
  {
    if lines != [] {
      FirstFailureNone(lines[1..]);
    }
  }

  /** Lines that each parse give their entries in order. */
  lemma EntriesOfLines(lines: seq<string>, entries: seq<(string, Destination)>)
    requires |lines| == |entries|
    requires forall i :: 0 <= i < |lines| ==> ParseEntry(lines[i]) == Success(entries[i])
    ensures ParseEntries(lines) == Success(entries)
  {
    FirstFailureNone(lines);
    var r := ParseEntries(lines);
    assert r.value == entries;
  }

  /** The map of the test. */
  const SampleInput := Join(["AAA = (BBB, BBB)", "BBB = (AAA, ZZZ)", "ZZZ = (ZZZ, ZZZ)"], "\n")

  /** The map test. */
  lemma ParseMapExample()
    ensures var r := ParseMap(SampleInput);
      r.Success? && r.value.Keys == {"AAA", "BBB", "ZZZ"}
      && r.value["AAA"] == Destination("BBB", "BBB")
      && r.value["BBB"] == Destination("AAA", "ZZZ")
      && r.value["ZZZ"] == Destination("ZZZ", "ZZZ")
  {
    var entries := SampleEntries("AAA", "BBB", "ZZZ");
    SampleText();
    SampleMap("AAA", "BBB", "ZZZ");
  }

  function SampleEntries(a: string, b: string, z: string): seq<(string, Destination)>
  {
    [(a, Destination(b, b)), (b, Destination(a, z)), (z, Destination(z, z))]
  }

  /** The test's three entries, for any three distinct good names. */
  lemma SampleMap(a: string, b: string, z: string)
    requires GoodName(a) && GoodName(b) && GoodName(z) && a != b && a != z && b != z
    ensures var r := ParseMap(FormatMap(SampleEntries(a, b, z)));
      r.Success? && r.value.Keys == {a, b, z}
      && r.value[a] == Destination(b, b) && r.value[b] == Destination(a, z) && r.value[z] == Destination(z, z)
  {
    var entries := SampleEntries(a, b, z);
    SampleGood(a, b, z);
    ParseFormatMap(entries);
    SampleLookups(a, b, z);
    SampleKeys(a, b, z);
  }

  lemma SampleGood(a: string, b: string, z: string)
    requires GoodName(a) && GoodName(b) && GoodName(z)
    ensures forall i :: 0 <= i < 3 ==> GoodEntry(SampleEntries(a, b, z)[i])
  {
  }

  lemma SampleKeys(a: string, b: string, z: string)
    ensures ToMap(SampleEntries(a, b, z)).Keys == {a, b, z}
  {
    var entries := SampleEntries(a, b, z);
    var m := ToMap(entries);
    assert a == entries[0].0 && b == entries[1].0 && z == entries[2].0;
    forall k | k in m.Keys ensures k in {a, b, z} {
      var i :| 0 <= i < 3 && entries[i].0 == k;
    }
  }

  lemma SampleLookups(a: string, b: string, z: string)
    requires a != b && a != z && b != z
    ensures var m := ToMap(SampleEntries(a, b, z));
      a in m && b in m && z in m && m[a] == Destination(b, b) && m[b] == Destination(a, z) && m[z] == Destination(z, z)
  {
    var entries := SampleEntries(a, b, z);
    ToMapLast(entries, 0);
    ToMapLast(entries, 1);
    ToMapLast(entries, 2);
  }

  lemma SampleText()
    ensures FormatMap(SampleEntries("AAA", "BBB", "ZZZ")) == SampleInput
  {
    var entries := SampleEntries("AAA", "BBB", "ZZZ");
    assert EntryLine(entries[0]) == "AAA = (BBB, BBB)";
    assert EntryLine(entries[1]) == "BBB = (AAA, ZZZ)";
    assert EntryLine(entries[2]) == "ZZZ = (ZZZ, ZZZ)";
    assert EntryLines(entries) == ["AAA = (BBB, BBB)", "BBB = (AAA, ZZZ)", "ZZZ = (ZZZ, ZZZ)"];
  }
}
