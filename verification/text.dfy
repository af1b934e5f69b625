/** The parts of Rust's `str` API the solvers rely on, written over `seq<char>`:
    splitting on a separator (`split`), `lines`, `split_ascii_whitespace`,
    prefix and suffix stripping, `replace`, and the decimal and hexadecimal
    integer parsers (`str::parse::<uN>`, `from_str_radix`). */
module Text {
  import opened Wrappers

  const U8_MAX: nat := 255
  const U32_MAX: nat := 4294967295
  const U64_MAX: nat := 18446744073709551615
  const I64_MAX: int := 9223372036854775807
  const I64_MIN: int := -9223372036854775808
  /** The separator of paragraphs: an empty line. */
  const BlankLine: string := "\n\n"


  // ---------------------------------------------------------------------------
  // Searching for a pattern

  /** `pat` occurs in `s` starting at index `i`. */
  predicate OccursAt(s: string, pat: string, i: nat)
  {
    i + |pat| <= |s| && s[i..i + |pat|] == pat
  }

  /** Index of the first occurrence of `pat` in `s` at or after `from` (Rust's `find`). */
  function IndexFrom(s: string, pat: string, from: nat): (r: Option<nat>)
    requires |pat| > 0
    ensures r.Some? ==> from <= r.value && r.value + |pat| <= |s| && OccursAt(s, pat, r.value)
    ensures r.Some? ==> forall k: nat :: from <= k < r.value ==> !OccursAt(s, pat, k)
    ensures r.None? ==> forall k: nat :: from <= k ==> !OccursAt(s, pat, k)
    decreases |s| - from
  {
    if from + |pat| > |s| then None
    else if s[from..from + |pat|] == pat then Some(from)
    else IndexFrom(s, pat, from + 1)
  }

  /** Index of the first occurrence of `pat` in `s`. */
  function IndexOf(s: string, pat: string): (r: Option<nat>)
    requires |pat| > 0
    ensures r.Some? ==> r.value + |pat| <= |s| && OccursAt(s, pat, r.value)
    ensures r.Some? ==> forall k: nat :: k < r.value ==> !OccursAt(s, pat, k)
    ensures r.None? ==> forall k: nat :: !OccursAt(s, pat, k)
  {
    IndexFrom(s, pat, 0)
  }

  /** Rust's `str::contains` for a non-empty pattern. */
  predicate Contains(s: string, pat: string)
    requires |pat| > 0
  {
    IndexOf(s, pat).Some?
  }

  /** A string with no occurrence of character `c`. */
  predicate Free(s: string, c: char)
  {
    forall i :: 0 <= i < |s| ==> s[i] != c
  }

  /** A string that does not contain `c` cannot contain a pattern starting with `c`. */
  lemma FreeNotContains(s: string, pat: string)
    requires |pat| > 0 && Free(s, pat[0])
    ensures !Contains(s, pat)
  {
  }

  /** A sequence backwards (Rust's `.rev().collect()`). */
  function Reverse<T>(s: seq<T>): (r: seq<T>)
    ensures |r| == |s|
    ensures forall i :: 0 <= i < |s| ==> r[i] == s[|s| - 1 - i]
  {
    seq(|s|, i requires 0 <= i < |s| => s[|s| - 1 - i])
  }

  /** A reversed pattern occurs at `i` of the reversed text exactly when the
      pattern ends `i` characters before the end of the text. */
  lemma OccursAtReverse(s: string, pat: string, i: nat)
    requires i + |pat| <= |s|
    ensures OccursAt(Reverse(s), Reverse(pat), i) <==> OccursAt(s, pat, |s| - i - |pat|)
  {
    var j := |s| - i - |pat|;
    ReverseSlice(s, i, |pat|);
    if Reverse(s[j..j + |pat|]) == Reverse(pat) {
      ReverseInjective(s[j..j + |pat|], pat);
    }
  }

  /** A slice of the reversed text is the reversed mirror slice. */
  lemma ReverseSlice<T>(s: seq<T>, i: nat, n: nat)
    requires i + n <= |s|
    ensures Reverse(s)[i..i + n] == Reverse(s[|s| - i - n..|s| - i])
  {
    var a, b := Reverse(s)[i..i + n], Reverse(s[|s| - i - n..|s| - i]);
    forall k | 0 <= k < n
      ensures a[k] == b[k]
    {
      assert a[k] == Reverse(s)[i + k];
    }
  }

  lemma ReverseInjective<T>(a: seq<T>, b: seq<T>)
    requires Reverse(a) == Reverse(b)
    ensures a == b
  {
    forall k | 0 <= k < |a|
      ensures a[k] == b[k]
    {
      assert Reverse(a)[|a| - 1 - k] == Reverse(b)[|a| - 1 - k];
    }
  }

  // ---------------------------------------------------------------------------
  // Splitting and joining

  /** Rust's `str::split` with a non-empty string pattern: the pieces between
      the leftmost non-overlapping occurrences of `sep`. */
  function Split(s: string, sep: string): (parts: seq<string>)
    requires |sep| > 0
    ensures |parts| >= 1
    decreases |s|
  {
    match IndexOf(s, sep)
    case None => [s]
    case Some(i) => [s[..i]] + Split(s[i + |sep|..], sep)
  }

  /** No piece of `split` contains the separator. */
  lemma {:induction false} SplitPartsFree(s: string, sep: string)
    requires |sep| > 0
    ensures forall i :: 0 <= i < |Split(s, sep)| ==> !Contains(Split(s, sep)[i], sep)
    decreases |s|
  {
    match IndexOf(s, sep)
    case None =>
    case Some(i) =>
      NoEarlierOccurrence(s, sep, i);
      SplitPartsFree(s[i + |sep|..], sep);
      assert Split(s, sep) == [s[..i]] + Split(s[i + |sep|..], sep);
  }

  /** A prefix of `s` that ends before the first occurrence of `sep` does not contain it. */
  lemma NoEarlierOccurrence(s: string, sep: string, i: nat)
    requires |sep| > 0 && i <= |s|
    requires forall k: nat :: k < i ==> !OccursAt(s, sep, k)
    ensures !Contains(s[..i], sep)
  {
    if Contains(s[..i], sep) {
      var k := IndexOf(s[..i], sep).value;
      assert s[..i][k..k + |sep|] == s[k..k + |sep|];
      assert OccursAt(s, sep, k);
    }
  }

  /** Every character of a piece of `split` comes from the split text. */
  lemma {:induction false} SplitChars(s: string, sep: string)
    requires |sep| > 0
    ensures forall i, c :: 0 <= i < |Split(s, sep)| && c in Split(s, sep)[i] ==> c in s
    decreases |s|
  {
    match IndexOf(s, sep)
    case None =>
    case Some(i) =>
      var rest := s[i + |sep|..];
      SplitChars(rest, sep);
      var parts := Split(s, sep);
      assert parts == [s[..i]] + Split(rest, sep);
      forall k, c | 0 <= k < |parts| && c in parts[k]
        ensures c in s
      {
        if k == 0 {
          var j :| 0 <= j < i && s[..i][j] == c;
          assert s[j] == c;
        } else {
          assert parts[k] == Split(rest, sep)[k - 1];
          assert c in rest;
          var j :| 0 <= j < |rest| && rest[j] == c;
          assert s[i + |sep| + j] == c;
        }
      }
  }

  /** Joins `parts` with `sep` between consecutive parts (Rust's `join`). */
  function Join(parts: seq<string>, sep: string): string
  {
    if |parts| == 0 then []
    else if |parts| == 1 then parts[0]
    else parts[0] + sep + Join(parts[1..], sep)
  }

  lemma JoinCons(p: string, rest: seq<string>, sep: string)
    requires |rest| >= 1
    ensures Join([p] + rest, sep) == p + sep + Join(rest, sep)
  {
    assert ([p] + rest)[1..] == rest;
  }

  lemma Slices<T>(s: seq<T>, i: nat, j: nat)
    requires i <= j <= |s|
    ensures s == s[..i] + s[i..j] + s[j..]
  {
  }

  /** Splitting and joining back with the same separator gives the original text. */
  lemma {:induction false} JoinSplit(s: string, sep: string)
    requires |sep| > 0
    ensures Join(Split(s, sep), sep) == s
    decreases |s|
  {
    match IndexOf(s, sep)
    case None =>
      assert Split(s, sep) == [s];
    case Some(i) =>
      var rest := s[i + |sep|..];
      assert Split(s, sep) == [s[..i]] + Split(rest, sep);
      JoinSplit(rest, sep);
      JoinCons(s[..i], Split(rest, sep), sep);
      assert s[i..i + |sep|] == sep;
      Slices(s, i, i + |sep|);
  }

  /** Joining parts that avoid the separator's first character and splitting
      again gives the parts back. */
  lemma SplitJoin(parts: seq<string>, sep: string)
    requires |sep| > 0 && |parts| >= 1
    requires forall i :: 0 <= i < |parts| ==> Free(parts[i], sep[0])
    ensures Split(Join(parts, sep), sep) == parts
  {
    SplitJoinAt(parts, sep, 0);
  }

  /** Two pieces free of the separator's first character, joined by it,
      split back into the two. */
  lemma SplitTwo(a: string, b: string, sep: string)
    requires |sep| > 0 && Free(a, sep[0]) && Free(b, sep[0])
    ensures Split(a + sep + b, sep) == [a, b]
  {
    assert a + sep + b == Join([a, b], sep);
    SplitJoin([a, b], sep);
  }

  /** The same for parts that avoid the separator's `k`-th character, when that
      character does not occur earlier in the separator (as '|' in " | "). */
  lemma {:induction false} SplitJoinAt(parts: seq<string>, sep: string, k: nat)
    requires k < |sep| && |parts| >= 1
    requires forall j :: 0 <= j < k ==> sep[j] != sep[k]
    requires forall i :: 0 <= i < |parts| ==> Free(parts[i], sep[k])
    ensures Split(Join(parts, sep), sep) == parts
    decreases |parts|
  {
    var s := Join(parts, sep);
    if |parts| == 1 {
      NoOccurrence(s, sep, k);
    } else {
      var p := parts[0];
      var rest := Join(parts[1..], sep);
      assert s == p + sep + rest;
      FirstOccurrence(p, sep, rest, k);
      assert s[..|p|] == p;
      assert s[|p| + |sep|..] == rest;
      SplitJoinAt(parts[1..], sep, k);
    }
  }

  /** A text without the separator's `k`-th character does not contain it. */
  lemma NoOccurrence(s: string, sep: string, k: nat)
    requires k < |sep| && Free(s, sep[k])
    ensures IndexOf(s, sep).None?
  {
    forall i: nat
      ensures !OccursAt(s, sep, i)
    {
      if i + |sep| <= |s| {
        assert s[i + k] != sep[k];
      }
    }
  }

  /** In `p + sep + rest`, the first separator is the one after `p` when `p`
      avoids the separator's `k`-th character and that character does not
      occur earlier in the separator. */
  lemma FirstOccurrence(p: string, sep: string, rest: string, k: nat)
    requires k < |sep| && Free(p, sep[k])
    requires forall j :: 0 <= j < k ==> sep[j] != sep[k]
    ensures IndexOf(p + sep + rest, sep) == Some(|p|)
  {
    var s := p + sep + rest;
    assert OccursAt(s, sep, |p|) by {
      assert s[|p|..|p| + |sep|] == sep;
    }
    forall i: nat | i < |p|
      ensures !OccursAt(s, sep, i)
    {
      if i + |sep| <= |s| {
        if i + k < |p| {
          assert s[i + k] == p[i + k];
        } else {
          assert s[i + k] == sep[i + k - |p|];
        }
      }
    }
  }

  /** The first two pieces of `split`: the text before the first separator,
      then the first piece of the text after it. */
  lemma SplitHead(s: string, sep: string)
    requires |sep| > 0
    ensures IndexOf(s, sep).None? ==> Split(s, sep) == [s]
    ensures IndexOf(s, sep).Some? ==>
      var k := IndexOf(s, sep).value;
      |Split(s, sep)| >= 2 && Split(s, sep)[0] == s[..k]
      && Split(s, sep)[1] == Split(s[k + |sep|..], sep)[0]
  {
  }

  /** A prefix of a text that does not contain `pat` does not contain it either. */
  lemma PrefixNotContains(s: string, pat: string, n: nat)
    requires |pat| > 0 && n <= |s| && !Contains(s, pat)
    ensures !Contains(s[..n], pat)
  {
    if Contains(s[..n], pat) {
      var k := IndexOf(s[..n], pat).value;
      assert s[..n][k..k + |pat|] == s[k..k + |pat|];
      assert OccursAt(s, pat, k);
    }
  }

  /** An occurrence in a suffix is an occurrence in the whole text. */
  lemma OccursAtShift(s: string, pat: string, start: nat, i: nat)
    requires start <= |s| && OccursAt(s[start..], pat, i)
    ensures OccursAt(s, pat, start + i)
  {
    assert s[start..][i..i + |pat|] == s[start + i..start + i + |pat|];
  }

  /** The `n`-th piece of `split`, if any (Rust's `split(..).nth(n)`). */
  function Nth(parts: seq<string>, n: nat): (r: Option<string>)
    ensures r.Some? <==> n < |parts|
    ensures r.Some? ==> r.value == parts[n]
  {
    if n < |parts| then Some(parts[n]) else None
  }

  /** Rust's `str::lines` for text with `\n` line endings: the pieces between
      newlines, without the empty piece a final newline leaves behind. */
  function Lines(s: string): (ls: seq<string>)
    ensures forall i :: 0 <= i < |ls| ==> Free(ls[i], '\n')
  {
    var parts := Split(s, "\n");
    NewlineFree(s);
    if parts[|parts| - 1] == [] then parts[..|parts| - 1] else parts
  }

  lemma NewlineFree(s: string)
    ensures forall i :: 0 <= i < |Split(s, "\n")| ==> Free(Split(s, "\n")[i], '\n')
  {
    var parts := Split(s, "\n");
    SplitPartsFree(s, "\n");
    forall i | 0 <= i < |parts|
      ensures Free(parts[i], '\n')
    {
      forall k | 0 <= k < |parts[i]|
        ensures parts[i][k] != '\n'
      {
        assert parts[i][k] == '\n' ==> OccursAt(parts[i], "\n", k);
      }
    }
  }

  /** Each line of `text`, followed by a newline. */
  function Unlines(ls: seq<string>): string
  {
    if |ls| == 0 then [] else ls[0] + "\n" + Unlines(ls[1..])
  }

  lemma {:induction false} UnlinesJoin(ls: seq<string>)
    requires |ls| >= 1
    ensures Unlines(ls) == Join(ls + [""], "\n")
    decreases |ls|
  {
    if |ls| == 1 {
      assert (ls + [""])[1..] == [""];
    } else {
      UnlinesJoin(ls[1..]);
      assert (ls + [""])[1..] == ls[1..] + [""];
    }
  }

  /** "\n"-terminated lines without newlines are read back by `Lines`. */
  lemma LinesUnlines(ls: seq<string>)
    requires forall i :: 0 <= i < |ls| ==> Free(ls[i], '\n')
    ensures Lines(Unlines(ls)) == ls
  {
    if |ls| == 0 {
      assert Split("", "\n") == [""];
    } else {
      UnlinesJoin(ls);
      var parts := ls + [""];
      AppendFree(ls);
      SplitJoin(parts, "\n");
      LinesOfParts(Unlines(ls), ls);
    }
  }

  lemma AppendFree(ls: seq<string>)
    requires forall i :: 0 <= i < |ls| ==> Free(ls[i], '\n')
    ensures forall i :: 0 <= i < |ls + [""]| ==> Free((ls + [""])[i], '\n')
  {
  }

  lemma LinesOfParts(s: string, ls: seq<string>)
    requires Split(s, "\n") == ls + [""]
    ensures Lines(s) == ls
  {
    var parts := ls + [""];
    assert parts[|parts| - 1] == [];
    assert parts[..|parts| - 1] == ls;
  }

  lemma FreeAppend(a: string, b: string, c: char)
    requires Free(a, c) && Free(b, c)
    ensures Free(a + b, c)
  {
    assert forall i :: 0 <= i < |b| ==> (a + b)[|a| + i] == b[i];
  }

  /** Lines joined by newlines, the last one not empty, are read back. */
  lemma LinesOfJoin(ls: seq<string>)
    requires |ls| >= 1 && ls[|ls| - 1] != []
    requires forall i :: 0 <= i < |ls| ==> Free(ls[i], '\n')
    ensures Lines(Join(ls, "\n")) == ls
  {
    SplitJoin(ls, "\n");
    LinesOfSplit(Join(ls, "\n"), ls);
  }

  /** Text whose last piece is not empty has its pieces as lines. */
  lemma LinesOfSplit(s: string, parts: seq<string>)
    requires Split(s, "\n") == parts && parts[|parts| - 1] != []
    ensures Lines(s) == parts
  {
  }

  // ---------------------------------------------------------------------------
  // Whitespace-separated words

  /** ASCII whitespace as Rust's `u8::is_ascii_whitespace` defines it. */
  predicate IsSpace(c: char)
  {
    c == ' ' || c == '\t' || c == '\n' || c == '\r' || c == 12 as char
  }

  /** A non-empty string with no ASCII whitespace. */
  predicate IsWord(w: string)
  {
    |w| > 0 && forall i :: 0 <= i < |w| ==> !IsSpace(w[i])
  }

  /** Length of the longest prefix of `s` with no whitespace. */
  function WordLength(s: string): (n: nat)
    ensures n <= |s|
    ensures forall i :: 0 <= i < n ==> !IsSpace(s[i])
    ensures n < |s| ==> IsSpace(s[n])
  {
    if s == [] || IsSpace(s[0]) then 0 else 1 + WordLength(s[1..])
  }

  /** Rust's `split_ascii_whitespace`: the maximal runs of non-whitespace characters. */
  function Words(s: string): (ws: seq<string>)
    ensures forall i :: 0 <= i < |ws| ==> IsWord(ws[i])
    decreases |s|
  {
    if s == [] then []
    else if IsSpace(s[0]) then Words(s[1..])
    else
      var n := WordLength(s);
      [s[..n]] + Words(s[n..])
  }

  /** Whitespace at the front of the text does not change its words. */
  lemma {:induction false} WordsSkipSpace(sp: string, s: string)
    requires forall i :: 0 <= i < |sp| ==> IsSpace(sp[i])
    ensures Words(sp + s) == Words(s)
    decreases |sp|
  {
    if sp == [] {
      assert sp + s == s;
    } else {
      assert IsSpace(sp[0]);
      assert (sp + s)[0] == sp[0];
      assert forall i :: 0 <= i < |sp[1..]| ==> IsSpace(sp[1..][i]);
      assert (sp + s)[1..] == sp[1..] + s;
      assert Words(sp + s) == Words(sp[1..] + s);
      WordsSkipSpace(sp[1..], s);
    }
  }

  /** Words joined by single spaces are read back by `Words`. */
  lemma {:induction false} WordsJoin(ws: seq<string>)
    requires forall i :: 0 <= i < |ws| ==> IsWord(ws[i])
    ensures Words(Join(ws, " ")) == ws
    decreases |ws|
  {
    if |ws| == 0 {
    } else {
      var w := ws[0];
      var s := Join(ws, " ");
      var rest := if |ws| == 1 then "" else " " + Join(ws[1..], " ");
      assert s == w + rest;
      WordLengthAppend(w, rest);
      assert s[..|w|] == w;
      assert s[|w|..] == rest;
      if |ws| > 1 {
        assert rest[1..] == Join(ws[1..], " ");
        WordsJoin(ws[1..]);
      }
    }
  }

  lemma {:induction false} WordLengthAppend(w: string, rest: string)
    requires forall i :: 0 <= i < |w| ==> !IsSpace(w[i])
    requires rest == [] || IsSpace(rest[0])
    ensures WordLength(w + rest) == |w|
    decreases |w|
  {
    if w != [] {
      assert (w + rest)[1..] == w[1..] + rest;
      WordLengthAppend(w[1..], rest);
    }
  }

  // ---------------------------------------------------------------------------
  // Lists of numbers

  /** Parses every word as an unsigned number of largest value `max`, failing
      on the first word that is not one (`collect` into a `Result`). */
  function ParseEach(words: seq<string>, max: nat): (r: Option<seq<nat>>)
    ensures r.Some? <==> forall i :: 0 <= i < |words| ==> ParseUnsigned(words[i], max).Some?
    ensures r.Some? ==> |r.value| == |words|
    ensures r.Some? ==> forall i :: 0 <= i < |words| ==> Some(r.value[i]) == ParseUnsigned(words[i], max)
  {
    if words == [] then Some([])
    else
      match ParseUnsigned(words[0], max)
      case None => None
      case Some(n) =>
        match ParseEach(words[1..], max)
        case None => None
        case Some(ns) => Some([n] + ns)
  }

  function Decimals(ns: seq<nat>): (ds: seq<string>)
    ensures |ds| == |ns|
    ensures forall i :: 0 <= i < |ns| ==> ds[i] == Decimal(ns[i])
  {
    if ns == [] then [] else [Decimal(ns[0])] + Decimals(ns[1..])
  }

  /** Numbers written in decimal with single spaces between them. */
  function Spaced(ns: seq<nat>): string
  {
    Join(Decimals(ns), " ")
  }

  predicate AtMost(ns: seq<nat>, max: nat)
  {
    forall i :: 0 <= i < |ns| ==> ns[i] <= max
  }

  /** Spaced numbers hold only digits and spaces. */
  lemma {:induction false} SpacedFree(ns: seq<nat>, c: char)
    requires !IsDigit(c) && c != ' '
    ensures Free(Spaced(ns), c)
    decreases |ns|
  {
    if |ns| >= 1 {
      var d := Decimal(ns[0]);
      assert forall i :: 0 <= i < |d| ==> IsDigit(d[i]);
      if |ns| >= 2 {
        assert Decimals(ns)[1..] == Decimals(ns[1..]);
        SpacedFree(ns[1..], c);
        JoinCons(d, Decimals(ns[1..]), " ");
        assert Spaced(ns) == d + " " + Spaced(ns[1..]);
      } else {
        assert Spaced(ns) == d;
      }
    }
  }

  /** Spaced numbers in range are read back word by word. */
  lemma SpacedParses(ns: seq<nat>, max: nat)
    requires AtMost(ns, max)
    ensures ParseEach(Words(Spaced(ns)), max) == Some(ns)
  {
    var ds := Decimals(ns);
    forall i | 0 <= i < |ds|
      ensures IsWord(ds[i]) && ParseUnsigned(ds[i], max) == Some(ns[i])
    {
      var d := ds[i];
      assert forall k :: 0 <= k < |d| ==> IsDigit(d[k]);
      ParseDecimal(ns[i], max);
    }
    WordsJoin(ds);
    var r := ParseEach(ds, max);
    assert r.value == ns;
  }

  // ---------------------------------------------------------------------------
  // Prefixes and suffixes

  /** Rust's `strip_prefix`. */
  function StripPrefix(s: string, p: string): (r: Option<string>)
    ensures r.Some? <==> p <= s
    ensures r.Some? ==> s == p + r.value
  {
    if p <= s then Some(s[|p|..]) else None
  }

  /** Rust's `strip_suffix`. */
  function StripSuffix(s: string, p: string): (r: Option<string>)
    ensures r.Some? <==> |p| <= |s| && s[|s| - |p|..] == p
    ensures r.Some? ==> s == r.value + p
  {
    if |p| <= |s| && s[|s| - |p|..] == p then Some(s[..|s| - |p|]) else None
  }

  /** Rust's `trim_start_matches` with a string pattern: removes `p` from the
      front of `s` as many times as it occurs there. */
  function TrimStartMatches(s: string, p: string): (r: string)
    ensures |p| > 0 ==> !(p <= r)
    ensures |r| <= |s| && r == s[|s| - |r|..]
    decreases |s|
  {
    if |p| > 0 && p <= s then
      var r := TrimStartMatches(s[|p|..], p);
      SuffixOfSuffix(s, |p|, r);
      r
    else s
  }

  /** A suffix of a suffix is a suffix. */
  lemma SuffixOfSuffix(s: string, k: nat, r: string)
    requires k <= |s| && |r| <= |s| - k && r == s[k..][|s| - k - |r|..]
    ensures r == s[|s| - |r|..]
  {
  }

  /** Unicode `White_Space`, as Rust's `char::is_whitespace` defines it. */
  predicate IsWhitespace(c: char)
  {
    c == ' ' || '\t' <= c <= '\r' || c == 0x85 as char || c == 0xA0 as char
    || c == 0x1680 as char || 0x2000 as char <= c <= 0x200A as char
    || c == 0x2028 as char || c == 0x2029 as char || c == 0x202F as char
    || c == 0x205F as char || c == 0x3000 as char
  }

  /** Rust's `trim_start`: the text without its leading whitespace. */
  function TrimStart(s: string): (r: string)
    ensures |r| <= |s| && r == s[|s| - |r|..]
    ensures r == [] || !IsWhitespace(r[0])
    ensures forall i :: 0 <= i < |s| - |r| ==> IsWhitespace(s[i])
  {
    if s != [] && IsWhitespace(s[0]) then TrimStart(s[1..]) else s
  }

  /** Strings laid end to end (folding with `+` from the empty string). */
  function Concat(ss: seq<string>): (r: string)
  {
    if ss == [] then [] else Concat(ss[..|ss| - 1]) + ss[|ss| - 1]
  }

  /** Rust's `replace`: every leftmost non-overlapping occurrence of `from` becomes `to`. */
  function Replace(s: string, from: string, to: string): string
    requires |from| > 0
  {
    Join(Split(s, from), to)
  }

  /** Replacing a pattern in text that does not contain it changes nothing. */
  lemma ReplaceAbsent(s: string, from: string, to: string)
    requires |from| > 0 && !Contains(s, from)
    ensures Replace(s, from, to) == s
  {
  }

  /** Replacing the only occurrence of `from`, between two pieces that avoid
      its first character, puts `to` in its place. */
  lemma ReplaceOnce(a: string, b: string, from: string, to: string)
    requires |from| > 0 && Free(a, from[0]) && Free(b, from[0])
    ensures Replace(a + from + b, from, to) == a + to + b
  {
    var parts := [a, b];
    assert Join(parts, from) == a + from + b;
    SplitJoin(parts, from);
    assert Join(parts, to) == a + to + b;
  }

  // ---------------------------------------------------------------------------
  // Numbers

  predicate IsDigit(c: char) { '0' <= c <= '9' }

  function DigitValue(c: char): (d: nat)
    requires IsDigit(c)
    ensures d < 10
  {
    c as int - '0' as int
  }

  function DigitChar(d: nat): (c: char)
    requires d < 10
    ensures IsDigit(c) && DigitValue(c) == d
  {
    ('0' as int + d) as char
  }

  predicate AllDigits(s: string)
  {
    forall i :: 0 <= i < |s| ==> IsDigit(s[i])
  }

  /** The value of a string of decimal digits, most significant first. */
  function DecimalValue(s: string): nat
    requires AllDigits(s)
  {
    if s == [] then 0 else DecimalValue(s[..|s| - 1]) * 10 + DigitValue(s[|s| - 1])
  }

  /** The decimal representation of `n` without leading zeros (Rust's `to_string`). */
  function Decimal(n: nat): (s: string)
    ensures |s| >= 1 && AllDigits(s) && DecimalValue(s) == n
    ensures |s| > 1 ==> s[0] != '0'
  {
    if n < 10 then [DigitChar(n)]
    else
      var s := Decimal(n / 10) + [DigitChar(n % 10)];
      assert s[..|s| - 1] == Decimal(n / 10);
      s
  }

  /** Rust's `str::parse` for an unsigned type whose largest value is `max`:
      an optional `+`, then one or more decimal digits, with value at most `max`. */
  function ParseUnsigned(s: string, max: nat): (r: Option<nat>)
    ensures r.Some? ==> r.value <= max
    ensures r.Some? ==> |s| > 0 && (AllDigits(s) || (s[0] == '+' && |s| > 1 && AllDigits(s[1..])))
    ensures AllDigits(s) && |s| > 0 ==> (r.Some? <==> DecimalValue(s) <= max)
    ensures AllDigits(s) && |s| > 0 && r.Some? ==> r.value == DecimalValue(s)
  {
    var d := if |s| > 0 && s[0] == '+' then s[1..] else s;
    if |d| > 0 && AllDigits(d) && DecimalValue(d) <= max then Some(DecimalValue(d)) else None
  }

  /** Parsing the decimal representation of a value in range gives the value back. */
  lemma ParseDecimal(n: nat, max: nat)
    requires n <= max
    ensures ParseUnsigned(Decimal(n), max) == Some(n)
  {
  }

  function ParseU8(s: string): (r: Option<nat>)
    ensures r.Some? ==> r.value <= U8_MAX
  {
    ParseUnsigned(s, U8_MAX)
  }

  function ParseU32(s: string): (r: Option<nat>)
    ensures r.Some? ==> r.value <= U32_MAX
  {
    ParseUnsigned(s, U32_MAX)
  }

  function ParseU64(s: string): (r: Option<nat>)
    ensures r.Some? ==> r.value <= U64_MAX
  {
    ParseUnsigned(s, U64_MAX)
  }

  /** Rust's `str::parse::<i64>`: an optional sign, then one or more decimal digits. */
  function ParseI64(s: string): (r: Option<int>)
    ensures r.Some? ==> I64_MIN <= r.value <= I64_MAX
    ensures r.Some? && |s| > 0 && s[0] == '-' ==> r.value <= 0
    ensures r.Some? && (|s| == 0 || s[0] != '-') ==> r.value >= 0
  {
    if |s| > 0 && s[0] == '-' then
      var d := s[1..];
      if |d| > 0 && AllDigits(d) && DecimalValue(d) <= -I64_MIN then Some(0 - DecimalValue(d) as int) else None
    else
      match ParseUnsigned(s, I64_MAX)
      case Some(v) => Some(v)
      case None => None
  }

  /** The decimal representation of an integer, with `-` for negative values. */
  function SignedDecimal(n: int): string
  {
    if n < 0 then "-" + Decimal(-n) else Decimal(n)
  }

  lemma ParseSignedDecimal(n: int)
    requires I64_MIN <= n <= I64_MAX
    ensures ParseI64(SignedDecimal(n)) == Some(n)
  {
    if n < 0 {
      assert SignedDecimal(n)[1..] == Decimal(-n);
    } else {
      ParseDecimal(n, I64_MAX);
    }
  }

  // Hexadecimal (Rust's `from_str_radix(.., 16)` and `to_digit(16)`)

  predicate IsHexDigit(c: char)
  {
    IsDigit(c) || 'a' <= c <= 'f' || 'A' <= c <= 'F'
  }

  function HexDigitValue(c: char): (d: nat)
    requires IsHexDigit(c)
    ensures d < 16
    ensures IsDigit(c) ==> d == DigitValue(c)
  {
    if IsDigit(c) then DigitValue(c)
    else if 'a' <= c <= 'f' then c as int - 'a' as int + 10
    else c as int - 'A' as int + 10
  }

  predicate AllHexDigits(s: string)
  {
    forall i :: 0 <= i < |s| ==> IsHexDigit(s[i])
  }

  /** The value of a string of hexadecimal digits, most significant first. */
  function HexValue(s: string): nat
    requires AllHexDigits(s)
  {
    if s == [] then 0 else HexValue(s[..|s| - 1]) * 16 + HexDigitValue(s[|s| - 1])
  }

  /** Lower-case hexadecimal digit for a value below 16. */
  function HexChar(d: nat): (c: char)
    requires d < 16
    ensures IsHexDigit(c) && HexDigitValue(c) == d
  {
    if d < 10 then DigitChar(d) else ('a' as int + d - 10) as char
  }

  /** Hexadecimal representation of `n` padded to `width` digits. */
  function Hex(n: nat, width: nat): (s: string)
    requires n < Pow16(width)
    ensures |s| == width && AllHexDigits(s) && HexValue(s) == n
  {
    if width == 0 then []
    else
      var s := Hex(n / 16, width - 1) + [HexChar(n % 16)];
      assert s[..|s| - 1] == Hex(n / 16, width - 1);
      s
  }

  function Pow16(k: nat): (p: nat)
    ensures p >= 1
  {
    if k == 0 then 1 else 16 * Pow16(k - 1)
  }

  /** Rust's `from_str_radix(s, 16)` for a `u32`: an optional `+`, then one or
      more hexadecimal digits, with value at most `u32::MAX`. */
  function ParseHexU32(s: string): (r: Option<nat>)
    ensures r.Some? ==> r.value <= U32_MAX
  {
    var d := if |s| > 0 && s[0] == '+' then s[1..] else s;
    if |d| > 0 && AllHexDigits(d) && HexValue(d) <= U32_MAX then Some(HexValue(d)) else None
  }
}
