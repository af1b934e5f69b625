/** Day 12 (Hot Springs): counting the ways to fill in the unknown springs of
    a row so that its runs of damaged springs have the listed sizes. */
module HotSprings {
  import opened Wrappers

  datatype Condition = Operational | Damaged | Unknown

  // ---------------------------------------------------------------------------
  // Parsing and printing

  function ParseCondition(ch: char): (r: Option<Condition>)
  {
    if ch == '#' then Some(Damaged)
    else if ch == '.' then Some(Operational)
    else if ch == '?' then Some(Unknown)
    else None
  }

  /** The character `line_to_string` draws for a spring. */
  function ConditionChar(c: Condition): char
  {
    match c
    case Operational => '.'
    case Damaged => '#'
    case Unknown => '?'
  }

  lemma ParseConditionChar(c: Condition)
    ensures ParseCondition(ConditionChar(c)) == Some(c)
  {
  }

  /** `parse_line`: '#', '.' and '?'; the Rust code panics on any other
      character, the model gives `None`. */
  function ParseLine(s: string): (r: Option<seq<Condition>>)
    ensures r.Some? <==> forall i :: 0 <= i < |s| ==> s[i] in "#.?"
    ensures r.Some? ==> LineToString(r.value) == s
  {
    if |s| == 0 then Some([])
    else
      var c :- ParseCondition(s[0]);
      var rest :- ParseLine(s[1..]);
      assert forall i :: 1 <= i < |s| ==> s[i] == s[1..][i - 1];
      assert LineToString([c] + rest) == [s[0]] + s[1..];
      Some([c] + rest)
  }

  /** `line_to_string`: one character per spring. */
  function LineToString(line: seq<Condition>): (s: string)
    ensures |s| == |line|
  {
    seq(|line|, i requires 0 <= i < |line| => ConditionChar(line[i]))
  }

  lemma LineToStringAppend(a: seq<Condition>, b: seq<Condition>)
    ensures LineToString(a + b) == LineToString(a) + LineToString(b)
  {
  }

  /** Every row is parsed back from the string drawn for it. */
  lemma {:induction false} ParseLineToString(line: seq<Condition>)
    ensures ParseLine(LineToString(line)) == Some(line)
    decreases |line|
  {
    if |line| > 0 {
      var s := LineToString(line);
      ParseLineToString(line[1..]);
      assert s[1..] == LineToString(line[1..]);
      ParseConditionChar(line[0]);
      assert [line[0]] + line[1..] == line;
    }
  }

  lemma ParseLineExample(s: string)
    requires s == "#.#.??#"
    ensures ParseLine(s) == Some([Damaged, Operational, Damaged, Operational, Unknown, Unknown, Damaged])
  {
    var l := [Damaged, Operational, Damaged, Operational, Unknown, Unknown, Damaged];
    ParseLineToString(l);
    assert LineToString(l) == s;
  }

  // ---------------------------------------------------------------------------
  // Unfolding

  /** `s` repeated `k` times. */
  function Repeat<T>(s: seq<T>, k: nat): (r: seq<T>)
    ensures |r| == k * |s|
  {
    if k == 0 then [] else Repeat(s, k - 1) + s
  }

  /** `multiply_line`: five copies of the row, each but the last followed by an
      unknown spring. */
  method MultiplyLine(line: seq<Condition>) returns (result: seq<Condition>)
    ensures result + [Unknown] == Repeat(line + [Unknown], 5)
    ensures |result| == 5 * |line| + 4
  {
    result := [];
    var k := 0;
    while k < 5
      invariant k <= 5
      invariant result == Repeat(line + [Unknown], k)
    {
      result := result + line;
      result := result + [Unknown];
      k := k + 1;
    }
    assert result == result[..|result| - 1] + [Unknown];
    result := result[..|result| - 1];
  }

  /** `multiply_group`: five copies of the sizes one after the other. */
  method MultiplyGroup(group: seq<nat>) returns (result: seq<nat>)
    ensures result == Repeat(group, 5)
    ensures |result| == 5 * |group|
  {
    result := [];
    var k := 0;
    while k < 5
      invariant k <= 5
      invariant result == Repeat(group, k)
    {
      result := result + group;
      k := k + 1;
    }
  }

  lemma RepeatFive<T>(s: seq<T>)
    ensures Repeat(s, 5) == s + s + s + s + s
  {
    assert Repeat(s, 1) == s;
    assert Repeat(s, 2) == s + s;
    assert Repeat(s, 3) == s + s + s;
    assert Repeat(s, 4) == s + s + s + s;
  }

  method MultiplyGroupExample() returns (g: seq<nat>)
    ensures g == [1, 2, 1, 2, 1, 2, 1, 2, 1, 2]
  {
    g := MultiplyGroup([1, 2]);
    RepeatFive([1, 2]);
  }

  /** The unfolded row of the Rust code's test, one copy per piece. */
  method MultiplyLineExample() returns (s: string)
    ensures s == "???.###?" + "???.###?" + "???.###?" + "???.###?" + "???.###"
  {
    var u := [Unknown, Unknown, Unknown, Operational, Damaged, Damaged, Damaged];
    var line := MultiplyLine(u);
    var c := u + [Unknown];
    RepeatFive(c);
    assert (c + c + c + c + u) + [Unknown] == c + c + c + c + c;
    assert line == (line + [Unknown])[..|line|];
    assert line == c + c + c + c + u;
    UnfoldedString(u, c);
    s := LineToString(line);
  }

  lemma UnfoldedString(u: seq<Condition>, c: seq<Condition>)
    requires u == [Unknown, Unknown, Unknown, Operational, Damaged, Damaged, Damaged]
    requires c == u + [Unknown]
    ensures LineToString(c + c + c + c + u) == "???.###?" + "???.###?" + "???.###?" + "???.###?" + "???.###"
  {
    assert LineToString(u) == "???.###" by {
      var t := LineToString(u);
      assert t[0] == '?' && t[1] == '?' && t[2] == '?' && t[3] == '.';
      assert t[4] == '#' && t[5] == '#' && t[6] == '#';
    }
    LineToStringAppend(u, [Unknown]);
    assert LineToString([Unknown]) == "?";
    assert LineToString(c) == "???.###?";
    LineToStringAppend(c + c + c + c, u);
    LineToStringAppend(c + c + c, c);
    LineToStringAppend(c + c, c);
    LineToStringAppend(c, c);
  }

  // ---------------------------------------------------------------------------
  // What is being counted

  /** The sizes of the maximal runs of damaged springs in a row made of `open`
      damaged springs followed by `t`; an unknown spring in `t` reads as
      operational. */
  function RunsFrom(t: seq<Condition>, open: nat): (r: seq<nat>)
    decreases |t|
  {
    if |t| == 0 then (if open == 0 then [] else [open])
    else if t[0] == Damaged then RunsFrom(t[1..], open + 1)
    else (if open == 0 then [] else [open]) + RunsFrom(t[1..], 0)
  }

  /** The sizes of the runs of damaged springs of a row, in order. */
  function Runs(t: seq<Condition>): seq<nat>
  {
    RunsFrom(t, 0)
  }

  predicate Positive(gs: seq<nat>)
  {
    forall i :: 0 <= i < |gs| ==> gs[i] > 0
  }

  function DamagedCount(t: seq<Condition>): (n: nat)
    ensures n <= |t|
  {
    if |t| == 0 then 0 else (if t[0] == Damaged then 1 else 0) + DamagedCount(t[1..])
  }

  function Total(gs: seq<nat>): nat
  {
    if |gs| == 0 then 0 else gs[0] + Total(gs[1..])
  }

  /** A run is never empty. */
  lemma {:induction false} RunsPositive(t: seq<Condition>, open: nat)
    ensures Positive(RunsFrom(t, open))
    decreases |t|
  {
    if |t| > 0 {
      RunsPositive(t[1..], if t[0] == Damaged then open + 1 else 0);
    }
  }

  /** The runs account for every damaged spring. */
  lemma {:induction false} RunsTotal(t: seq<Condition>, open: nat)
    ensures Total(RunsFrom(t, open)) == open + DamagedCount(t)
    decreases |t|
  {
    if |t| > 0 {
      if t[0] == Damaged {
        RunsTotal(t[1..], open + 1);
      } else {
        RunsTotal(t[1..], 0);
        var r := RunsFrom(t[1..], 0);
        if open > 0 {
          assert ([open] + r)[1..] == r;
        } else {
          assert [] + r == r;
        }
      }
    }
  }

  /** After `open` damaged springs there is a first run, at least that long. */
  lemma {:induction false} RunsOpen(t: seq<Condition>, open: nat)
    requires open > 0
    ensures |RunsFrom(t, open)| > 0 && RunsFrom(t, open)[0] >= open
    decreases |t|
  {
    if |t| > 0 && t[0] == Damaged {
      RunsOpen(t[1..], open + 1);
    }
  }

  /** `t` completes `line`: same length, nothing unknown, and every spring
      whose condition `line` knows kept. */
  predicate Fills(line: seq<Condition>, t: seq<Condition>)
  {
    |t| == |line| &&
    forall i :: 0 <= i < |t| ==> t[i] != Unknown && (line[i] != Unknown ==> t[i] == line[i])
  }

  function Prepend(c: Condition, ts: seq<seq<Condition>>): (r: seq<seq<Condition>>)
    ensures |r| == |ts|
    ensures forall i :: 0 <= i < |ts| ==> r[i] == [c] + ts[i]
  {
    seq(|ts|, i requires 0 <= i < |ts| => [c] + ts[i])
  }

  lemma PrependMember(c: Condition, ts: seq<seq<Condition>>, t: seq<Condition>)
    ensures t in Prepend(c, ts) <==> |t| > 0 && t[0] == c && t[1..] in ts
  {
    var r := Prepend(c, ts);
    if t in r {
      var i :| 0 <= i < |r| && r[i] == t;
      assert t[1..] == ts[i];
    }
    if |t| > 0 && t[0] == c && t[1..] in ts {
      var i :| 0 <= i < |ts| && ts[i] == t[1..];
      assert r[i] == t;
    }
  }

  /** Every completion of `line`, the unknown springs filled in from the
      front, damaged before operational. */
  function Completions(line: seq<Condition>): (ts: seq<seq<Condition>>)
    decreases |line|
  {
    if |line| == 0 then [[]]
    else
      var rest := Completions(line[1..]);
      if line[0] == Unknown then Prepend(Damaged, rest) + Prepend(Operational, rest)
      else Prepend(line[0], rest)
  }

  /** The completions are exactly the rows that fill `line`. */
  lemma {:induction false} CompletionsFill(line: seq<Condition>, t: seq<Condition>)
    ensures t in Completions(line) <==> Fills(line, t)
    decreases |line|
  {
    if |line| > 0 {
      var rest := Completions(line[1..]);
      PrependMember(Damaged, rest, t);
      PrependMember(Operational, rest, t);
      PrependMember(line[0], rest, t);
      if |t| > 0 {
        CompletionsFill(line[1..], t[1..]);
        assert Fills(line, t) <==>
          t[0] != Unknown && (line[0] != Unknown ==> t[0] == line[0]) && Fills(line[1..], t[1..]) by {
          if t[0] != Unknown && (line[0] != Unknown ==> t[0] == line[0]) && Fills(line[1..], t[1..]) {
            forall i | 0 <= i < |t|
              ensures t[i] != Unknown && (line[i] != Unknown ==> t[i] == line[i])
            {
              if i > 0 {
                assert t[1..][i - 1] == t[i] && line[1..][i - 1] == line[i];
              }
            }
          }
        }
      }
    } else {
      assert Fills(line, t) <==> t == [];
    }
  }

  lemma PrependDistinct(c: Condition, ts: seq<seq<Condition>>)
    requires forall a, b :: 0 <= a < b < |ts| ==> ts[a] != ts[b]
    ensures forall a, b :: 0 <= a < b < |ts| ==> Prepend(c, ts)[a] != Prepend(c, ts)[b]
  {
    var r := Prepend(c, ts);
    forall a, b | 0 <= a < b < |ts|
      ensures r[a] != r[b]
    {
      assert r[a][1..] == ts[a] && r[b][1..] == ts[b];
    }
  }

  /** No completion is listed twice. */
  lemma {:induction false} CompletionsDistinct(line: seq<Condition>)
    ensures forall a, b :: 0 <= a < b < |Completions(line)| ==> Completions(line)[a] != Completions(line)[b]
    decreases |line|
  {
    if |line| > 0 {
      var rest := Completions(line[1..]);
      CompletionsDistinct(line[1..]);
      PrependDistinct(Damaged, rest);
      PrependDistinct(Operational, rest);
      PrependDistinct(line[0], rest);
      if line[0] == Unknown {
        var d, o := Prepend(Damaged, rest), Prepend(Operational, rest);
        var all := d + o;
        forall a, b | 0 <= a < b < |all|
          ensures all[a] != all[b]
        {
          if b < |d| {
            assert all[a] == d[a] && all[b] == d[b];
          } else if a >= |d| {
            assert all[a] == o[a - |d|] && all[b] == o[b - |d|];
          } else {
            assert all[a][0] == Damaged && all[b][0] == Operational;
          }
        }
      }
    }
  }

  /** A row with nothing unknown is its only completion. */
  lemma {:induction false} CompletionsKnown(line: seq<Condition>)
    requires Unknown !in line
    ensures Completions(line) == [line]
    decreases |line|
  {
    if |line| > 0 {
      assert line[0] != Unknown;
      CompletionsKnown(line[1..]);
      assert [line[0]] + line[1..] == line;
    }
  }

  /** How many rows of `ts` have runs `gs` when they follow `open` damaged
      springs. */
  function Hits(ts: seq<seq<Condition>>, gs: seq<nat>, open: nat): (n: nat)
    ensures n <= |ts|
  {
    if |ts| == 0 then 0
    else (if RunsFrom(ts[0], open) == gs then 1 else 0) + Hits(ts[1..], gs, open)
  }

  lemma {:induction false} HitsAppend(a: seq<seq<Condition>>, b: seq<seq<Condition>>, gs: seq<nat>, open: nat)
    ensures Hits(a + b, gs, open) == Hits(a, gs, open) + Hits(b, gs, open)
    decreases |a|
  {
    if |a| > 0 {
      assert (a + b)[1..] == a[1..] + b;
      HitsAppend(a[1..], b, gs, open);
    } else {
      assert a + b == b;
    }
  }

  /** A damaged spring in front lengthens the open run. */
  lemma {:induction false} HitsDamaged(ts: seq<seq<Condition>>, gs: seq<nat>, open: nat)
    ensures Hits(Prepend(Damaged, ts), gs, open) == Hits(ts, gs, open + 1)
    decreases |ts|
  {
    if |ts| > 0 {
      var r := Prepend(Damaged, ts);
      assert r[1..] == Prepend(Damaged, ts[1..]);
      assert r[0][1..] == ts[0];
      HitsDamaged(ts[1..], gs, open);
    }
  }

  /** An operational spring in front closes the open run, which must then be
      the first size. */
  lemma {:induction false} HitsOperational(ts: seq<seq<Condition>>, gs: seq<nat>, open: nat)
    ensures Hits(Prepend(Operational, ts), gs, open) ==
      if open == 0 then Hits(ts, gs, 0)
      else if |gs| > 0 && gs[0] == open then Hits(ts, gs[1..], 0)
      else 0
    decreases |ts|
  {
    if |ts| > 0 {
      var r := Prepend(Operational, ts);
      assert r[1..] == Prepend(Operational, ts[1..]);
      assert r[0][1..] == ts[0];
      HitsOperational(ts[1..], gs, open);
      if open > 0 {
        var runs := RunsFrom(ts[0], 0);
        assert RunsFrom(r[0], open) == [open] + runs;
        if |gs| > 0 && gs[0] == open {
          assert [open] + runs == gs <==> runs == gs[1..] by {
            if runs == gs[1..] {
              assert gs == [gs[0]] + gs[1..];
            }
          }
        }
      }
    }
  }

  /** No row fits when the open run cannot be the first size. */
  lemma {:induction false} HitsNone(ts: seq<seq<Condition>>, gs: seq<nat>, open: nat)
    requires open > 0 && (|gs| == 0 || gs[0] < open)
    ensures Hits(ts, gs, open) == 0
    decreases |ts|
  {
    if |ts| > 0 {
      RunsOpen(ts[0], open);
      HitsNone(ts[1..], gs, open);
    }
  }

  /** The number of completions of `rest` that leave runs `gs` after `open`
      damaged springs. */
  function Ways(rest: seq<Condition>, gs: seq<nat>, open: nat): nat
  {
    Hits(Completions(rest), gs, open)
  }

  // ---------------------------------------------------------------------------
  // The search

  /** `count_arrangements_line` without its cache: the springs before `rest`
      have closed `cg` groups and left an open run of `size`, and a run is open
      exactly when the spring before `rest` is damaged. */
  function Arrangements(rest: seq<Condition>, groups: seq<nat>, cg: nat, size: nat): nat
    requires |groups| > 0 && cg <= |groups| && (size > 0 ==> cg < |groups|)
    decreases |rest|, 1
  {
    if |rest| == 0 then
      if cg == |groups| - 1 && size != groups[cg] then 0
      else if cg < |groups| - 1 then 0
      else 1
    else match rest[0]
      case Operational => AsOperational(rest[1..], groups, cg, size)
      case Damaged => AsDamaged(rest[1..], groups, cg, size)
      case Unknown => AsDamaged(rest[1..], groups, cg, size) + AsOperational(rest[1..], groups, cg, size)
  }

  /** The search past a damaged spring: it extends the open run, which must
      stay within the current size. */
  function AsDamaged(r: seq<Condition>, groups: seq<nat>, cg: nat, size: nat): nat
    requires |groups| > 0 && cg <= |groups| && (size > 0 ==> cg < |groups|)
    decreases |r|, 2
  {
    if cg >= |groups| then 0
    else if size + 1 > groups[cg] then 0
    else Arrangements(r, groups, cg, size + 1)
  }

  /** The search past an operational spring: an open run closes and must
      have the current size. */
  function AsOperational(r: seq<Condition>, groups: seq<nat>, cg: nat, size: nat): nat
    requires |groups| > 0 && cg <= |groups| && (size > 0 ==> cg < |groups|)
    decreases |r|, 2
  {
    if size > 0 then
      if groups[cg] != size then 0 else Arrangements(r, groups, cg + 1, 0)
    else Arrangements(r, groups, cg, size)
  }

  /** With positive sizes the search counts exactly the completions whose runs
      are the sizes not yet closed. */
  lemma {:induction false} ArrangementsAreWays(rest: seq<Condition>, groups: seq<nat>, cg: nat, size: nat)
    requires |groups| > 0 && cg <= |groups| && (size > 0 ==> cg < |groups|)
    requires Positive(groups)
    ensures Arrangements(rest, groups, cg, size) == Ways(rest, groups[cg..], size)
    decreases |rest|, 1
  {
    var gs := groups[cg..];
    if |rest| == 0 {
      assert Completions(rest) == [[]];
      assert Hits([[]], gs, size) == if RunsFrom([], size) == gs then 1 else 0;
      if cg < |groups| {
        assert gs[0] == groups[cg];
      }
    } else {
      var r := rest[1..];
      var ts := Completions(r);
      match rest[0]
      case Operational =>
        AsOperationalWays(r, groups, cg, size);
      case Damaged =>
        AsDamagedWays(r, groups, cg, size);
      case Unknown =>
        HitsAppend(Prepend(Damaged, ts), Prepend(Operational, ts), gs, size);
        AsDamagedWays(r, groups, cg, size);
        AsOperationalWays(r, groups, cg, size);
    }
  }

  lemma {:induction false} AsDamagedWays(r: seq<Condition>, groups: seq<nat>, cg: nat, size: nat)
    requires |groups| > 0 && cg <= |groups| && (size > 0 ==> cg < |groups|)
    requires Positive(groups)
    ensures AsDamaged(r, groups, cg, size) == Hits(Prepend(Damaged, Completions(r)), groups[cg..], size)
    decreases |r|, 2
  {
    var gs, ts := groups[cg..], Completions(r);
    HitsDamaged(ts, gs, size);
    if cg >= |groups| || size + 1 > groups[cg] {
      HitsNone(ts, gs, size + 1);
    } else {
      ArrangementsAreWays(r, groups, cg, size + 1);
    }
  }

  lemma {:induction false} AsOperationalWays(r: seq<Condition>, groups: seq<nat>, cg: nat, size: nat)
    requires |groups| > 0 && cg <= |groups| && (size > 0 ==> cg < |groups|)
    requires Positive(groups)
    ensures AsOperational(r, groups, cg, size) == Hits(Prepend(Operational, Completions(r)), groups[cg..], size)
    decreases |r|, 2
  {
    var gs, ts := groups[cg..], Completions(r);
    HitsOperational(ts, gs, size);
    if size > 0 {
      assert gs[0] == groups[cg] && gs[1..] == groups[cg + 1..];
      if groups[cg] == size {
        ArrangementsAreWays(r, groups, cg + 1, 0);
      }
    } else {
      ArrangementsAreWays(r, groups, cg, size);
    }
  }

  /** With nothing unknown there is no choice to make: at most one
      arrangement. */
  lemma {:induction false} KnownAtMostOne(rest: seq<Condition>, groups: seq<nat>, cg: nat, size: nat)
    requires |groups| > 0 && cg <= |groups| && (size > 0 ==> cg < |groups|)
    requires Unknown !in rest
    ensures Arrangements(rest, groups, cg, size) <= 1
    decreases |rest|
  {
    if |rest| > 0 {
      assert rest[0] != Unknown;
      if rest[0] == Operational {
        if size > 0 {
          if groups[cg] == size {
            KnownAtMostOne(rest[1..], groups, cg + 1, 0);
          }
        } else {
          KnownAtMostOne(rest[1..], groups, cg, size);
        }
      } else if cg < |groups| && size + 1 <= groups[cg] {
        KnownAtMostOne(rest[1..], groups, cg, size + 1);
      }
    }
  }

  /** A row with nothing unknown counts 1 exactly when its own runs are the
      sizes. */
  lemma KnownCount(line: seq<Condition>, groups: seq<nat>)
    requires |groups| > 0 && Positive(groups) && Unknown !in line
    ensures Arrangements(line, groups, 0, 0) == if Runs(line) == groups then 1 else 0
  {
    ArrangementsAreWays(line, groups, 0, 0);
    CompletionsKnown(line);
    assert groups[0..] == groups;
    assert Hits([line], groups, 0) == if Runs(line) == groups then 1 else 0;
  }

  /** The keys whose counts the cache holds are well formed, and each count is
      the uncached search from that key over the original row. */
  predicate CacheOk(cache: map<(nat, nat, nat), nat>, base: seq<Condition>, groups: seq<nat>)
    requires |groups| > 0
  {
    forall key :: key in cache ==>
      key.0 <= |base| && key.1 <= |groups| && (key.2 > 0 ==> key.1 < |groups|) &&
      cache[key] == Arrangements(base[key.0..], groups, key.1, key.2)
  }

  /** Recording the uncached count of a well-formed key keeps the cache
      sound. */
  lemma CacheInsert(cache: map<(nat, nat, nat), nat>, base: seq<Condition>, groups: seq<nat>,
                    key: (nat, nat, nat), count: nat)
    requires |groups| > 0 && CacheOk(cache, base, groups)
    requires key.0 <= |base| && key.1 <= |groups| && (key.2 > 0 ==> key.1 < |groups|)
    requires count == Arrangements(base[key.0..], groups, key.1, key.2)
    ensures CacheOk(cache[key := count], base, groups)
  {
  }

  /** `count_arrangements_line` at `spring`: the count of the search from
      there, the row given back as it came in and the cache still holding only
      uncached counts. `base` is the row the search started from; only springs
      before `spring` may differ from it. */
  method CountArrangementsLine(line: seq<Condition>, groups: seq<nat>, spring: nat, cg: nat, size: nat,
                               cache: map<(nat, nat, nat), nat>, ghost base: seq<Condition>)
    returns (count: nat, lineAfter: seq<Condition>, cacheAfter: map<(nat, nat, nat), nat>)
    requires |groups| > 0 && spring <= |line| && cg <= |groups| && (size > 0 ==> cg < |groups|)
    requires size > 0 <==> spring > 0 && line[spring - 1] == Damaged
    requires |base| == |line| && line[spring..] == base[spring..]
    requires CacheOk(cache, base, groups)
    ensures count == Arrangements(line[spring..], groups, cg, size)
    ensures lineAfter == line
    ensures CacheOk(cacheAfter, base, groups)
    decreases |line| - spring, 1
  {
    if spring == |line| {
      if cg == |groups| - 1 && size != groups[cg] {
        return 0, line, cache;
      }
      if cg < |groups| - 1 {
        return 0, line, cache;
      }
      return 1, line, cache;
    }

    var key := (spring, cg, size);
    if key in cache {
      return cache[key], line, cache;
    }

    var rest := line[spring..];
    assert rest[0] == line[spring] && rest[1..] == line[spring + 1..];
    assert line[spring + 1..] == base[spring + 1..] by {
      assert base[spring..][1..] == base[spring + 1..];
    }
    var currentGroup, currentSize := cg, size;
    match line[spring]
    case Operational =>
      if spring > 0 && line[spring - 1] == Damaged {
        if groups[currentGroup] != currentSize {
          CacheInsert(cache, base, groups, key, 0);
          return 0, line, cache[key := 0];
        }
        currentGroup := currentGroup + 1;
        currentSize := 0;
      }
      count, lineAfter, cacheAfter :=
        CountArrangementsLine(line, groups, spring + 1, currentGroup, currentSize, cache, base);
    case Damaged =>
      if currentGroup >= |groups| {
        CacheInsert(cache, base, groups, key, 0);
        return 0, line, cache[key := 0];
      }
      currentSize := currentSize + 1;
      if currentSize > groups[currentGroup] {
        CacheInsert(cache, base, groups, key, 0);
        return 0, line, cache[key := 0];
      }
      count, lineAfter, cacheAfter :=
        CountArrangementsLine(line, groups, spring + 1, currentGroup, currentSize, cache, base);
    case Unknown =>
      count, lineAfter, cacheAfter := CountUnknown(line, groups, spring, cg, size, cache, base);

    CacheInsert(cacheAfter, base, groups, key, count);
    cacheAfter := cacheAfter[key := count];
  }

  /** The unknown branch of `count_arrangements_line`: the spring is tried as
      damaged, then as operational, then set back to unknown. */
  method CountUnknown(line: seq<Condition>, groups: seq<nat>, spring: nat, cg: nat, size: nat,
                      cache: map<(nat, nat, nat), nat>, ghost base: seq<Condition>)
    returns (count: nat, lineAfter: seq<Condition>, cacheAfter: map<(nat, nat, nat), nat>)
    requires |groups| > 0 && spring < |line| && cg <= |groups| && (size > 0 ==> cg < |groups|)
    requires line[spring] == Unknown
    requires size > 0 <==> spring > 0 && line[spring - 1] == Damaged
    requires |base| == |line| && line[spring + 1..] == base[spring + 1..]
    requires CacheOk(cache, base, groups)
    ensures count == Arrangements(line[spring..], groups, cg, size)
    ensures lineAfter == line
    ensures CacheOk(cacheAfter, base, groups)
    decreases |line| - spring, 0
  {
    var rest := line[spring..];
    assert rest[0] == Unknown && rest[1..] == line[spring + 1..];
    var l := line[spring := Damaged];
    assert l[spring + 1..] == line[spring + 1..];
    var c := cache;
    var arrangements := 0;
    if cg < |groups| && size + 1 <= groups[cg] {
      var n;
      n, l, c := CountArrangementsLine(l, groups, spring + 1, cg, size + 1, c, base);
      arrangements := arrangements + n;
    }
    l := l[spring := Operational];
    assert l[spring + 1..] == line[spring + 1..];
    assert spring > 0 ==> l[spring - 1] == line[spring - 1];
    if spring > 0 && l[spring - 1] == Damaged {
      if groups[cg] != size {
        arrangements := arrangements + 0;
      } else {
        var n;
        n, l, c := CountArrangementsLine(l, groups, spring + 1, cg + 1, 0, c, base);
        arrangements := arrangements + n;
      }
    } else {
      var n;
      n, l, c := CountArrangementsLine(l, groups, spring + 1, cg, size, c, base);
      arrangements := arrangements + n;
    }
    l := l[spring := Unknown];
    assert l == line;
    count, lineAfter, cacheAfter := arrangements, l, c;
  }

  /** The search from the first spring with an empty cache, as `main` starts
      it: with positive sizes, the number of completions of the row whose runs
      are the sizes. */
  method CountArrangements(line: seq<Condition>, groups: seq<nat>) returns (count: nat)
    requires |groups| > 0
    ensures count == Arrangements(line, groups, 0, 0)
    ensures Positive(groups) ==> count == Ways(line, groups, 0)
  {
    var lineAfter, cache;
    count, lineAfter, cache := CountArrangementsLine(line, groups, 0, 0, 0, map[], line);
    if Positive(groups) {
      ArrangementsAreWays(line, groups, 0, 0);
      assert groups[0..] == groups;
    }
  }

  // ---------------------------------------------------------------------------
  // The tests

  // Each row is a parameter equal to the literal; the proof walks the
  // search from the last spring back to the first.

  /** "#.#.###" with sizes [1, 1, 3]: 1. */
  lemma ArrangementsExample1(line: seq<Condition>)
    requires line == [Damaged, Operational, Damaged, Operational, Damaged, Damaged, Damaged]
    ensures Arrangements(line, [1, 1, 3], 0, 0) == 1
  {
    assert Arrangements(line[7..], [1, 1, 3], 2, 3) == 1;
    assert Arrangements(line[6..], [1, 1, 3], 2, 2) == 1;
    assert Arrangements(line[5..], [1, 1, 3], 2, 1) == 1;
    assert Arrangements(line[4..], [1, 1, 3], 2, 0) == 1;
    assert Arrangements(line[3..], [1, 1, 3], 1, 1) == 1;
    assert Arrangements(line[2..], [1, 1, 3], 1, 0) == 1;
    assert Arrangements(line[1..], [1, 1, 3], 0, 1) == 1;
  }

  /** "???.###" with sizes [1, 1, 3]: 1. */
  lemma ArrangementsExample2(line: seq<Condition>)
    requires line == [Unknown, Unknown, Unknown, Operational, Damaged, Damaged, Damaged]
    ensures Arrangements(line, [1, 1, 3], 0, 0) == 1
  {
    assert Arrangements(line[7..], [1, 1, 3], 2, 3) == 1;
    assert Arrangements(line[6..], [1, 1, 3], 2, 2) == 1;
    assert Arrangements(line[5..], [1, 1, 3], 0, 1) == 0;
    assert Arrangements(line[5..], [1, 1, 3], 1, 1) == 0;
    assert Arrangements(line[5..], [1, 1, 3], 2, 1) == 1;
    assert Arrangements(line[4..], [1, 1, 3], 0, 0) == 0;
    assert Arrangements(line[4..], [1, 1, 3], 1, 0) == 0;
    assert Arrangements(line[4..], [1, 1, 3], 2, 0) == 1;
    assert Arrangements(line[3..], [1, 1, 3], 0, 0) == 0;
    assert Arrangements(line[3..], [1, 1, 3], 0, 1) == 0;
    assert Arrangements(line[3..], [1, 1, 3], 1, 0) == 0;
    assert Arrangements(line[3..], [1, 1, 3], 1, 1) == 1;
    assert Arrangements(line[2..], [1, 1, 3], 0, 0) == 0;
    assert Arrangements(line[2..], [1, 1, 3], 0, 1) == 0;
    assert Arrangements(line[2..], [1, 1, 3], 1, 0) == 1;
    assert Arrangements(line[1..], [1, 1, 3], 0, 0) == 0;
    assert Arrangements(line[1..], [1, 1, 3], 0, 1) == 1;
  }

  /** ".??..#....###." with sizes [1, 1, 3]: 2. */
  lemma ArrangementsExample3(line: seq<Condition>)
    requires line == [Operational, Unknown, Unknown, Operational, Operational, Damaged, Operational, Operational, Operational, Operational, Damaged, Damaged, Damaged, Operational]
    ensures Arrangements(line, [1, 1, 3], 0, 0) == 2
  {
    assert Arrangements(line[14..], [1, 1, 3], 3, 0) == 1;
    assert Arrangements(line[13..], [1, 1, 3], 2, 3) == 1;
    assert Arrangements(line[12..], [1, 1, 3], 2, 2) == 1;
    assert Arrangements(line[11..], [1, 1, 3], 1, 1) == 0;
    assert Arrangements(line[11..], [1, 1, 3], 2, 1) == 1;
    assert Arrangements(line[10..], [1, 1, 3], 1, 0) == 0;
    assert Arrangements(line[10..], [1, 1, 3], 2, 0) == 1;
    assert Arrangements(line[9..], [1, 1, 3], 1, 0) == 0;
    assert Arrangements(line[9..], [1, 1, 3], 2, 0) == 1;
    assert Arrangements(line[8..], [1, 1, 3], 1, 0) == 0;
    assert Arrangements(line[8..], [1, 1, 3], 2, 0) == 1;
    assert Arrangements(line[7..], [1, 1, 3], 1, 0) == 0;
    assert Arrangements(line[7..], [1, 1, 3], 2, 0) == 1;
    assert Arrangements(line[6..], [1, 1, 3], 0, 1) == 0;
    assert Arrangements(line[6..], [1, 1, 3], 1, 1) == 1;
    assert Arrangements(line[5..], [1, 1, 3], 0, 0) == 0;
    assert Arrangements(line[5..], [1, 1, 3], 1, 0) == 1;
    assert Arrangements(line[4..], [1, 1, 3], 0, 0) == 0;
    assert Arrangements(line[4..], [1, 1, 3], 1, 0) == 1;
    assert Arrangements(line[3..], [1, 1, 3], 0, 0) == 0;
    assert Arrangements(line[3..], [1, 1, 3], 0, 1) == 1;
    assert Arrangements(line[3..], [1, 1, 3], 1, 0) == 1;
    assert Arrangements(line[2..], [1, 1, 3], 0, 0) == 1;
    assert Arrangements(line[2..], [1, 1, 3], 0, 1) == 1;
    assert Arrangements(line[1..], [1, 1, 3], 0, 0) == 2;
  }

  /** ".??..??...?##." with sizes [1, 1, 3]: 4. */
  lemma ArrangementsExample4(line: seq<Condition>)
    requires line == [Operational, Unknown, Unknown, Operational, Operational, Unknown, Unknown, Operational, Operational, Operational, Unknown, Damaged, Damaged, Operational]
    ensures Arrangements(line, [1, 1, 3], 0, 0) == 4
  {
    ArrangementsExample4Tail(line);
    assert Arrangements(line[6..], [1, 1, 3], 0, 0) == 0;
    assert Arrangements(line[6..], [1, 1, 3], 0, 1) == 0;
    assert Arrangements(line[6..], [1, 1, 3], 1, 0) == 1;
    assert Arrangements(line[6..], [1, 1, 3], 1, 1) == 1;
    assert Arrangements(line[5..], [1, 1, 3], 0, 0) == 0;
    assert Arrangements(line[5..], [1, 1, 3], 1, 0) == 2;
    assert Arrangements(line[4..], [1, 1, 3], 0, 0) == 0;
    assert Arrangements(line[4..], [1, 1, 3], 1, 0) == 2;
    assert Arrangements(line[3..], [1, 1, 3], 0, 0) == 0;
    assert Arrangements(line[3..], [1, 1, 3], 0, 1) == 2;
    assert Arrangements(line[3..], [1, 1, 3], 1, 0) == 2;
    assert Arrangements(line[2..], [1, 1, 3], 0, 0) == 2;
    assert Arrangements(line[2..], [1, 1, 3], 0, 1) == 2;
    assert Arrangements(line[1..], [1, 1, 3], 0, 0) == 4;
  }

  /** The counts of the last seven springs of the fourth example. */
  lemma ArrangementsExample4Tail(line: seq<Condition>)
    requires line == [Operational, Unknown, Unknown, Operational, Operational, Unknown, Unknown, Operational, Operational, Operational, Unknown, Damaged, Damaged, Operational]
    ensures Arrangements(line[7..], [1, 1, 3], 0, 0) == 0
    ensures Arrangements(line[7..], [1, 1, 3], 0, 1) == 0
    ensures Arrangements(line[7..], [1, 1, 3], 1, 0) == 0
    ensures Arrangements(line[7..], [1, 1, 3], 1, 1) == 1
    ensures Arrangements(line[7..], [1, 1, 3], 2, 0) == 1
  {
    assert Arrangements(line[14..], [1, 1, 3], 3, 0) == 1;
    assert Arrangements(line[13..], [1, 1, 3], 2, 2) == 0;
    assert Arrangements(line[13..], [1, 1, 3], 2, 3) == 1;
    assert Arrangements(line[12..], [1, 1, 3], 0, 1) == 0;
    assert Arrangements(line[12..], [1, 1, 3], 1, 1) == 0;
    assert Arrangements(line[12..], [1, 1, 3], 2, 1) == 0;
    assert Arrangements(line[12..], [1, 1, 3], 2, 2) == 1;
    assert Arrangements(line[11..], [1, 1, 3], 0, 0) == 0;
    assert Arrangements(line[11..], [1, 1, 3], 0, 1) == 0;
    assert Arrangements(line[11..], [1, 1, 3], 1, 0) == 0;
    assert Arrangements(line[11..], [1, 1, 3], 1, 1) == 0;
    assert Arrangements(line[11..], [1, 1, 3], 2, 0) == 0;
    assert Arrangements(line[11..], [1, 1, 3], 2, 1) == 1;
    assert Arrangements(line[10..], [1, 1, 3], 0, 0) == 0;
    assert Arrangements(line[10..], [1, 1, 3], 1, 0) == 0;
    assert Arrangements(line[10..], [1, 1, 3], 2, 0) == 1;
    assert Arrangements(line[9..], [1, 1, 3], 0, 0) == 0;
    assert Arrangements(line[9..], [1, 1, 3], 1, 0) == 0;
    assert Arrangements(line[9..], [1, 1, 3], 2, 0) == 1;
    assert Arrangements(line[8..], [1, 1, 3], 0, 0) == 0;
    assert Arrangements(line[8..], [1, 1, 3], 1, 0) == 0;
    assert Arrangements(line[8..], [1, 1, 3], 2, 0) == 1;
    assert Arrangements(line[7..], [1, 1, 3], 0, 0) == 0;
    assert Arrangements(line[7..], [1, 1, 3], 0, 1) == 0;
    assert Arrangements(line[7..], [1, 1, 3], 1, 0) == 0;
    assert Arrangements(line[7..], [1, 1, 3], 1, 1) == 1;
    assert Arrangements(line[7..], [1, 1, 3], 2, 0) == 1;
  }

  /** "?#?#?#?#?#?#?#?" with sizes [1, 3, 1, 6]: 1. */
  lemma ArrangementsExample5(line: seq<Condition>)
    requires line == [Unknown, Damaged, Unknown, Damaged, Unknown, Damaged, Unknown, Damaged, Unknown, Damaged, Unknown, Damaged, Unknown, Damaged, Unknown]
    ensures Arrangements(line, [1, 3, 1, 6], 0, 0) == 1
  {
    assert Arrangements(line[15..], [1, 3, 1, 6], 3, 6) == 1;
    assert Arrangements(line[14..], [1, 3, 1, 6], 3, 5) == 1;
    assert Arrangements(line[13..], [1, 3, 1, 6], 3, 4) == 1;
    assert Arrangements(line[12..], [1, 3, 1, 6], 3, 3) == 1;
    assert Arrangements(line[11..], [1, 3, 1, 6], 3, 2) == 1;
    assert Arrangements(line[10..], [1, 3, 1, 6], 3, 1) == 1;
    assert Arrangements(line[9..], [1, 3, 1, 6], 3, 0) == 1;
    assert Arrangements(line[8..], [1, 3, 1, 6], 2, 1) == 1;
    assert Arrangements(line[7..], [1, 3, 1, 6], 2, 0) == 1;
    assert Arrangements(line[6..], [1, 3, 1, 6], 1, 3) == 1;
    assert Arrangements(line[5..], [1, 3, 1, 6], 1, 2) == 1;
    assert Arrangements(line[4..], [1, 3, 1, 6], 1, 1) == 1;
    assert Arrangements(line[3..], [1, 3, 1, 6], 1, 0) == 1;
    assert Arrangements(line[2..], [1, 3, 1, 6], 0, 1) == 1;
    assert Arrangements(line[1..], [1, 3, 1, 6], 0, 0) == 1;
    assert Arrangements(line[1..], [1, 3, 1, 6], 0, 1) == 0;
  }

  /** "?###????????" with sizes [3, 2, 1]: 10. */
  lemma ArrangementsExample6(line: seq<Condition>)
    requires line == [Unknown, Damaged, Damaged, Damaged, Unknown, Unknown, Unknown, Unknown, Unknown, Unknown, Unknown, Unknown]
    ensures Arrangements(line, [3, 2, 1], 0, 0) == 10
  {
    assert Arrangements(line[12..], [3, 2, 1], 1, 0) == 0;
    assert Arrangements(line[12..], [3, 2, 1], 1, 1) == 0;
    assert Arrangements(line[12..], [3, 2, 1], 1, 2) == 0;
    assert Arrangements(line[12..], [3, 2, 1], 2, 0) == 0;
    assert Arrangements(line[12..], [3, 2, 1], 2, 1) == 1;
    assert Arrangements(line[12..], [3, 2, 1], 3, 0) == 1;
    assert Arrangements(line[11..], [3, 2, 1], 1, 0) == 0;
    assert Arrangements(line[11..], [3, 2, 1], 1, 1) == 0;
    assert Arrangements(line[11..], [3, 2, 1], 1, 2) == 0;
    assert Arrangements(line[11..], [3, 2, 1], 2, 0) == 1;
    assert Arrangements(line[11..], [3, 2, 1], 2, 1) == 1;
    assert Arrangements(line[11..], [3, 2, 1], 3, 0) == 1;
    assert Arrangements(line[10..], [3, 2, 1], 1, 0) == 0;
    assert Arrangements(line[10..], [3, 2, 1], 1, 1) == 0;
    assert Arrangements(line[10..], [3, 2, 1], 1, 2) == 1;
    assert Arrangements(line[10..], [3, 2, 1], 2, 0) == 2;
    assert Arrangements(line[10..], [3, 2, 1], 2, 1) == 1;
    assert Arrangements(line[10..], [3, 2, 1], 3, 0) == 1;
    assert Arrangements(line[9..], [3, 2, 1], 1, 0) == 0;
    assert Arrangements(line[9..], [3, 2, 1], 1, 1) == 1;
    assert Arrangements(line[9..], [3, 2, 1], 1, 2) == 2;
    assert Arrangements(line[9..], [3, 2, 1], 2, 0) == 3;
    assert Arrangements(line[9..], [3, 2, 1], 2, 1) == 1;
    assert Arrangements(line[8..], [3, 2, 1], 1, 0) == 1;
    assert Arrangements(line[8..], [3, 2, 1], 1, 1) == 2;
    assert Arrangements(line[8..], [3, 2, 1], 1, 2) == 3;
    assert Arrangements(line[8..], [3, 2, 1], 2, 0) == 4;
    assert Arrangements(line[7..], [3, 2, 1], 1, 0) == 3;
    assert Arrangements(line[7..], [3, 2, 1], 1, 1) == 3;
    assert Arrangements(line[7..], [3, 2, 1], 1, 2) == 4;
    assert Arrangements(line[6..], [3, 2, 1], 1, 0) == 6;
    assert Arrangements(line[6..], [3, 2, 1], 1, 1) == 4;
    assert Arrangements(line[5..], [3, 2, 1], 1, 0) == 10;
    assert Arrangements(line[4..], [3, 2, 1], 0, 3) == 10;
    assert Arrangements(line[3..], [3, 2, 1], 0, 2) == 10;
    assert Arrangements(line[3..], [3, 2, 1], 0, 3) == 0;
    assert Arrangements(line[2..], [3, 2, 1], 0, 1) == 10;
    assert Arrangements(line[2..], [3, 2, 1], 0, 2) == 0;
    assert Arrangements(line[1..], [3, 2, 1], 0, 0) == 10;
    assert Arrangements(line[1..], [3, 2, 1], 0, 1) == 0;
  }

  /** ".##.?#??.#.?#" with sizes [2, 1, 1, 1]: 1. */
  lemma ArrangementsExample7(line: seq<Condition>)
    requires line == [Operational, Damaged, Damaged, Operational, Unknown, Damaged, Unknown, Unknown, Operational, Damaged, Operational, Unknown, Damaged]
    ensures Arrangements(line, [2, 1, 1, 1], 0, 0) == 1
  {
    assert Arrangements(line[13..], [2, 1, 1, 1], 3, 1) == 1;
    assert Arrangements(line[12..], [2, 1, 1, 1], 3, 0) == 1;
    assert Arrangements(line[12..], [2, 1, 1, 1], 3, 1) == 0;
    assert Arrangements(line[12..], [2, 1, 1, 1], 4, 0) == 0;
    assert Arrangements(line[11..], [2, 1, 1, 1], 3, 0) == 1;
    assert Arrangements(line[11..], [2, 1, 1, 1], 4, 0) == 0;
    assert Arrangements(line[10..], [2, 1, 1, 1], 2, 1) == 1;
    assert Arrangements(line[10..], [2, 1, 1, 1], 3, 1) == 0;
    assert Arrangements(line[9..], [2, 1, 1, 1], 2, 0) == 1;
    assert Arrangements(line[9..], [2, 1, 1, 1], 3, 0) == 0;
    assert Arrangements(line[8..], [2, 1, 1, 1], 2, 0) == 1;
    assert Arrangements(line[8..], [2, 1, 1, 1], 2, 1) == 0;
    assert Arrangements(line[7..], [2, 1, 1, 1], 2, 0) == 1;
    assert Arrangements(line[6..], [2, 1, 1, 1], 1, 1) == 1;
    assert Arrangements(line[5..], [2, 1, 1, 1], 1, 0) == 1;
    assert Arrangements(line[5..], [2, 1, 1, 1], 1, 1) == 0;
    assert Arrangements(line[4..], [2, 1, 1, 1], 1, 0) == 1;
    assert Arrangements(line[3..], [2, 1, 1, 1], 0, 2) == 1;
    assert Arrangements(line[2..], [2, 1, 1, 1], 0, 1) == 1;
    assert Arrangements(line[1..], [2, 1, 1, 1], 0, 0) == 1;
  }
}
