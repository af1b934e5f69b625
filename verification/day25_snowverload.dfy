/** Day 25 (Snowverload): the text rewrites that prepare the component graph
    for drawing. One drops the adjacency lines of chosen nodes. The other
    turns adjacency lines "a: b c" into a Graphviz `graph` of edge lists. */
module Snowverload {
  import opened Wrappers
  import opened Text

  /** The separator between a node and its neighbours in an adjacency line. */
  const Colon: string := ": "
  /** What `dot_notation` writes in place of the separator. */
  const Arrow: string := " -- {"
  /** The first line of the drawing. */
  const Header: string := "graph {\n"

  // ---------------------------------------------------------------------------
  // dot_notation

  /** One adjacency line as a drawing line: a tab, the line with every ": "
      replaced, and a closing brace, then a newline. */
  function Edge(line: string): string
  {
    "\t" + Replace(line, Colon, Arrow) + "}\n"
  }

  /** The loop of `dot_notation`: the drawing lines of `ls`, in order. */
  function Edges(ls: seq<string>): string
  {
    if ls == [] then [] else Edge(ls[0]) + Edges(ls[1..])
  }

  /** `dot_notation`: the header, one drawing line per input line, and the
      closing brace without a newline. */
  function DotNotation(s: string): (r: string)
    ensures Header <= r
    ensures |r| > |Header| && r[|r| - 1] == '}'
  {
    Header + Edges(Lines(s)) + "}"
  }

  /** A joined text is free of a character its parts and separator avoid. */
  lemma {:induction false} JoinFree(parts: seq<string>, sep: string, c: char)
    requires Free(sep, c)
    requires forall i :: 0 <= i < |parts| ==> Free(parts[i], c)
    ensures Free(Join(parts, sep), c)
    decreases |parts|
  {
    if |parts| > 1 {
      JoinFree(parts[1..], sep, c);
      FreeAppend(parts[0], sep, c);
      FreeAppend(parts[0] + sep, Join(parts[1..], sep), c);
    }
  }

  /** Replacing a pattern by text without `c` in text without `c` gives text
      without `c`. */
  lemma ReplaceFree(s: string, from: string, to: string, c: char)
    requires |from| > 0 && Free(s, c) && Free(to, c)
    ensures Free(Replace(s, from, to), c)
  {
    var parts := Split(s, from);
    SplitChars(s, from);
    forall i, k | 0 <= i < |parts| && 0 <= k < |parts[i]|
      ensures parts[i][k] != c
    {
      var x := parts[i][k];
      assert x in parts[i];
      assert x in s;
      var j :| 0 <= j < |s| && s[j] == x;
    }
    JoinFree(parts, to, c);
  }

  /** A drawing line without its newline. */
  function EdgeLine(line: string): string
  {
    "\t" + Replace(line, Colon, Arrow) + "}"
  }

  lemma EdgeLineFree(line: string)
    requires Free(line, '\n')
    ensures Free(EdgeLine(line), '\n')
  {
    ReplaceFree(line, Colon, Arrow, '\n');
    FreeAppend("\t", Replace(line, Colon, Arrow), '\n');
    FreeAppend("\t" + Replace(line, Colon, Arrow), "}", '\n');
  }

  /** The drawing lines of `ls` are the `EdgeLine`s, each newline-terminated. */
  lemma {:induction false} EdgesUnlines(ls: seq<string>)
    ensures Edges(ls) == Unlines(seq(|ls|, k requires 0 <= k < |ls| => EdgeLine(ls[k])))
    decreases |ls|
  {
    var es := seq(|ls|, k requires 0 <= k < |ls| => EdgeLine(ls[k]));
    if ls != [] {
      EdgesUnlines(ls[1..]);
      assert es[1..] == seq(|ls[1..]|, k requires 0 <= k < |ls[1..]| => EdgeLine(ls[1..][k]));
    }
  }

  /** Read back by `lines`, the drawing is the header line, then line `k`
      of the input drawn as a tab, the line with every ": " replaced by
      " -- {", and a closing brace, then a line holding only the brace. */
  lemma DotLines(s: string)
    ensures var ls := Lines(s);
      Lines(DotNotation(s)) == ["graph {"] + seq(|ls|, k requires 0 <= k < |ls| => EdgeLine(ls[k])) + ["}"]
  {
    var ls := Lines(s);
    var all := ["graph {"] + seq(|ls|, k requires 0 <= k < |ls| => EdgeLine(ls[k])) + ["}"];
    DrawingFree(ls);
    DrawingUnlines(s);
    LinesUnlines(all);
    LinesDropNewline(DotNotation(s), all);
  }

  /** No line of the drawing holds a newline. */
  lemma DrawingFree(ls: seq<string>)
    requires forall i :: 0 <= i < |ls| ==> Free(ls[i], '\n')
    ensures var all := ["graph {"] + seq(|ls|, k requires 0 <= k < |ls| => EdgeLine(ls[k])) + ["}"];
      forall i :: 0 <= i < |all| ==> Free(all[i], '\n')
  {
    var es := seq(|ls|, k requires 0 <= k < |ls| => EdgeLine(ls[k]));
    var all := ["graph {"] + es + ["}"];
    forall i | 0 <= i < |all|
      ensures Free(all[i], '\n')
    {
      if 0 < i <= |es| {
        assert all[i] == EdgeLine(ls[i - 1]);
        EdgeLineFree(ls[i - 1]);
      }
    }
  }

  /** The drawing lines, each newline-terminated, are the drawing and a
      final newline. */
  lemma DrawingUnlines(s: string)
    ensures var ls := Lines(s);
      Unlines(["graph {"] + seq(|ls|, k requires 0 <= k < |ls| => EdgeLine(ls[k])) + ["}"]) == DotNotation(s) + "\n"
  {
    var ls := Lines(s);
    var es := seq(|ls|, k requires 0 <= k < |ls| => EdgeLine(ls[k]));
    EdgesUnlines(ls);
    UnlinesAppend(["graph {"], es);
    UnlinesAppend(["graph {"] + es, ["}"]);
    assert Unlines(["graph {"]) == Header;
    assert Unlines(["}"]) == "}\n";
  }

  lemma {:induction false} UnlinesAppend(a: seq<string>, b: seq<string>)
    ensures Unlines(a + b) == Unlines(a) + Unlines(b)
    decreases |a|
  {
    if a != [] {
      assert (a + b)[0] == a[0];
      assert (a + b)[1..] == a[1..] + b;
      UnlinesAppend(a[1..], b);
    } else {
      assert a + b == b;
    }
  }

  /** A final newline does not change the lines of text that does not
      already end in one. */
  lemma LinesDropNewline(s: string, ls: seq<string>)
    requires |s| > 0 && s[|s| - 1] != '\n'
    requires Lines(s + "\n") == ls
    ensures Lines(s) == ls
  {
    var parts := Split(s, "\n");
    SplitAppendNewline(s);
    assert Split(s + "\n", "\n") == parts + [""];
    assert Lines(s + "\n") == parts;
    LastPiece(s);
  }

  /** The last piece of `split` ends the text. */
  lemma {:induction false} LastPiece(s: string)
    requires |s| > 0 && s[|s| - 1] != '\n'
    ensures var parts := Split(s, "\n"); parts[|parts| - 1] != []
    decreases |s|
  {
    match IndexOf(s, "\n")
    case None =>
    case Some(i) =>
      var rest := s[i + 1..];
      assert Split(s, "\n") == [s[..i]] + Split(rest, "\n");
      assert s[i..i + 1] == "\n";
      assert i != |s| - 1;
      assert rest[|rest| - 1] == s[|s| - 1];
      LastPiece(rest);
  }

  /** Appending a newline adds an empty last piece to `split`. */
  lemma {:induction false} SplitAppendNewline(s: string)
    ensures Split(s + "\n", "\n") == Split(s, "\n") + [""]
    decreases |s|
  {
    var t := s + "\n";
    match IndexOf(s, "\n")
    case None =>
      assert IndexOf(t, "\n") == Some(|s|) by {
        assert OccursAt(t, "\n", |s|) by { assert t[|s|..|s| + 1] == "\n"; }
        forall k: nat | k < |s|
          ensures !OccursAt(t, "\n", k)
        {
          assert !OccursAt(s, "\n", k);
          assert t[k] == s[k];
        }
      }
      assert t[..|s|] == s;
      assert t[|s| + 1..] == [];
      assert Split([], "\n") == [[]];
    case Some(i) =>
      assert IndexOf(t, "\n") == Some(i) by {
        assert OccursAt(t, "\n", i) by { assert t[i..i + 1] == s[i..i + 1]; }
        forall k: nat | k < i
          ensures !OccursAt(t, "\n", k)
        {
          assert !OccursAt(s, "\n", k);
          assert t[k] == s[k];
        }
      }
      var rest := s[i + 1..];
      assert t[..i] == s[..i];
      assert t[i + 1..] == rest + "\n";
      SplitAppendNewline(rest);
  }

  /** An adjacency line "a: b" for a node `a` and a neighbour list `b`, both
      without ':', is drawn as a tab, `a`, " -- {", `b` and the closing brace. */
  lemma EdgeOfAdjacency(a: string, b: string)
    requires Free(a, ':') && Free(b, ':')
    ensures Edge(a + Colon + b) == "\t" + a + Arrow + b + "}\n"
  {
    ReplaceOnce(a, b, Colon, Arrow);
  }

  // ---------------------------------------------------------------------------
  // remove_nodes

  /** The node an adjacency line is about: its text before the first ": ",
      or the whole line when there is none. */
  function Key(line: string): string
  {
    Split(line, Colon)[0]
  }

  /** The loop of `remove_nodes`: each line whose node is not in `names`,
      followed by a newline. */
  function KeptText(ls: seq<string>, names: set<string>): string
  {
    if ls == [] then []
    else (if Key(ls[0]) !in names then ls[0] + "\n" else []) + KeptText(ls[1..], names)
  }

  /** `remove_nodes`. */
  function RemoveNodes(s: string, names: set<string>): string
  {
    KeptText(Lines(s), names)
  }

  /** The lines of `ls` whose node is not in `names`, in their order. */
  function Kept(ls: seq<string>, names: set<string>): (r: seq<string>)
    ensures |r| <= |ls|
  {
    if ls == [] then []
    else if Key(ls[0]) in names then Kept(ls[1..], names)
    else [ls[0]] + Kept(ls[1..], names)
  }

  /** A line is kept exactly when it is a line of `ls` whose node is not in
      `names`. */
  lemma {:induction false} KeptMembers(ls: seq<string>, names: set<string>, x: string)
    ensures x in Kept(ls, names) <==> x in ls && Key(x) !in names
    decreases |ls|
  {
    if ls != [] {
      KeptMembers(ls[1..], names, x);
      assert ls == [ls[0]] + ls[1..];
    }
  }

  /** `sub` is `ls` with some lines left out, the rest in their order. */
  predicate Subsequence(sub: seq<string>, ls: seq<string>)
  {
    if sub == [] then true
    else if ls == [] then false
    else (sub[0] == ls[0] && Subsequence(sub[1..], ls[1..])) || Subsequence(sub, ls[1..])
  }

  /** Keeping preserves order: the kept lines are a subsequence. */
  lemma {:induction false} KeptInOrder(ls: seq<string>, names: set<string>)
    ensures Subsequence(Kept(ls, names), ls)
    decreases |ls|
  {
    if ls != [] {
      KeptInOrder(ls[1..], names);
    }
  }

  lemma {:induction false} KeptTextUnlines(ls: seq<string>, names: set<string>)
    ensures KeptText(ls, names) == Unlines(Kept(ls, names))
    decreases |ls|
  {
    if ls != [] {
      KeptTextUnlines(ls[1..], names);
    }
  }

  lemma {:induction false} KeptFree(ls: seq<string>, names: set<string>)
    requires forall i :: 0 <= i < |ls| ==> Free(ls[i], '\n')
    ensures forall i :: 0 <= i < |Kept(ls, names)| ==> Free(Kept(ls, names)[i], '\n')
    decreases |ls|
  {
    if ls != [] {
      KeptFree(ls[1..], names);
    }
  }

  /** Read back by `lines`, the result of `remove_nodes` is exactly the kept
      lines, in order. */
  lemma RemovedLines(s: string, names: set<string>)
    ensures Lines(RemoveNodes(s, names)) == Kept(Lines(s), names)
  {
    KeptTextUnlines(Lines(s), names);
    KeptFree(Lines(s), names);
    LinesUnlines(Kept(Lines(s), names));
  }

  /** With no names to remove, every line is kept, each newline-terminated. */
  lemma {:induction false} KeepAll(ls: seq<string>)
    ensures Kept(ls, {}) == ls
    decreases |ls|
  {
    if ls != [] {
      KeepAll(ls[1..]);
    }
  }

  /** `remove_nodes` with the empty set returns every line, newline-terminated. */
  lemma RemoveNothing(s: string)
    ensures RemoveNodes(s, {}) == Unlines(Lines(s))
  {
    KeptTextUnlines(Lines(s), {});
    KeepAll(Lines(s));
  }

  lemma {:induction false} KeptTwice(ls: seq<string>, a: set<string>, b: set<string>)
    ensures Kept(Kept(ls, a), b) == Kept(ls, a + b)
    decreases |ls|
  {
    if ls != [] {
      KeptTwice(ls[1..], a, b);
    }
  }

  /** Removing two sets of nodes one after the other removes their union. */
  lemma RemoveTwice(s: string, a: set<string>, b: set<string>)
    ensures RemoveNodes(RemoveNodes(s, a), b) == RemoveNodes(s, a + b)
  {
    RemovedLines(s, a);
    KeptTextUnlines(Lines(RemoveNodes(s, a)), b);
    KeptTextUnlines(Lines(s), a + b);
    KeptTwice(Lines(s), a, b);
  }

  /** The node of an adjacency line "a: b" with `a` free of ':' is `a`, and a
      line without ": " is its own node. */
  lemma KeyOf(a: string, b: string)
    requires Free(a, ':')
    ensures Key(a + Colon + b) == a
    ensures Free(a, ':') ==> Key(a) == a
  {
    FirstOccurrence(a, Colon, b, 0);
    NoOccurrence(a, Colon, 0);
  }
}
