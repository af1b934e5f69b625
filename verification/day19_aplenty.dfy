/** Day 19 (Aplenty): workflows of comparison rules that send a machine part
    (four ratings x, m, a, s) to another workflow, to acceptance or to
    rejection, and the same rules applied to whole boxes of ratings, which a
    workflow cuts into pieces that each go one way. */
module Aplenty {
  import opened Wrappers
  import opened Text

  datatype Category = X | M | A | S

  datatype Order = Less | Greater

  /** Where a rule or a workflow sends a part. */
  datatype Destination = Accepted | Rejected | Forward(name: string)

  datatype Rule = Rule(category: Category, order: Order, threshold: int, destination: Destination)

  datatype Workflow = Workflow(rules: seq<Rule>, final: Destination)

  /** A machine part: one `i64` rating per category. */
  datatype Part = Part(x: int, m: int, a: int, s: int)

  // ---------------------------------------------------------------------------
  // Parsing and display

  /** `Category::parse`: the letters x, m, a, s. Any other text panics, which
      is `None` here. */
  function ParseCategory(s: string): (r: Option<Category>)
    ensures r.Some? <==> s == "x" || s == "m" || s == "a" || s == "s"
  {
    if s == "x" then Some(X)
    else if s == "m" then Some(M)
    else if s == "a" then Some(A)
    else if s == "s" then Some(S)
    else None
  }

  function ShowCategory(c: Category): (r: string)
    ensures ParseCategory(r) == Some(c)
  {
    match c
    case X => "x"
    case M => "m"
    case A => "a"
    case S => "s"
  }

  /** `Destination::parse`: "A" accepts, "R" rejects, any other text names a
      workflow. */
  function ParseDestination(s: string): (r: Destination)
    ensures r == Accepted <==> s == "A"
    ensures r == Rejected <==> s == "R"
    ensures r.Forward? ==> r.name == s
  {
    if s == "A" then Accepted
    else if s == "R" then Rejected
    else Forward(s)
  }

  /** The text of a destination; a workflow named "A" or "R" would read back
      as a verdict. */
  function ShowDestination(d: Destination): (r: string)
    ensures NameOk(d) ==> ParseDestination(r) == d
  {
    match d
    case Accepted => "A"
    case Rejected => "R"
    case Forward(name) => name
  }

  /** A workflow name that reads back as itself: not one of the two verdicts. */
  predicate NameOk(d: Destination)
  {
    d.Forward? ==> d.name != "A" && d.name != "R"
  }

  function Sign(o: Order): string
  {
    match o
    case Less => "<"
    case Greater => ">"
  }

  /** The comparison of a rule text: "<" when the text holds one, else ">"
      when it holds that; a text with neither panics, which is `None` here. */
  function RuleOrder(s: string): (r: Option<Order>)
    ensures r.Some? ==> Contains(s, Sign(r.value))
    ensures r == Some(Greater) ==> !Contains(s, "<")
    ensures r.None? ==> !Contains(s, "<") && !Contains(s, ">")
  {
    if Contains(s, "<") then Some(Less)
    else if Contains(s, ">") then Some(Greater)
    else None
  }

  /** The text after the comparison: an `i64` threshold and a destination
      separated by ':'. A missing ':' or a bad threshold panics. */
  function ParseLimit(c: Category, o: Order, s: string): (r: Option<Rule>)
    ensures r.Some? ==> r.value.category == c && r.value.order == o
    ensures r.Some? ==> I64_MIN <= r.value.threshold <= I64_MAX
  {
    var colon := Split(s, ":");
    if |colon| < 2 then None
    else
      match ParseI64(colon[0])
      case None => None
      case Some(t) => Some(Rule(c, o, t, ParseDestination(colon[1])))
  }

  /** `Rule::parse`: the text before the comparison names the category and
      the text after it is the threshold and destination. An unknown category
      panics, which is `None` here. */
  function ParseRule(s: string): (r: Option<Rule>)
    ensures r.Some? ==> RuleOrder(s) == Some(r.value.order)
    ensures r.Some? ==> I64_MIN <= r.value.threshold <= I64_MAX
  {
    match RuleOrder(s)
    case None => None
    case Some(o) =>
      var pieces := Split(s, Sign(o));
      match ParseCategory(pieces[0])
      case None => None
      case Some(c) => if |pieces| < 2 then None else ParseLimit(c, o, pieces[1])
  }

  function ShowRule(r: Rule): string
  {
    ShowCategory(r.category) + Sign(r.order) + SignedDecimal(r.threshold) + ":" + ShowDestination(r.destination)
  }

  /** A destination that can stand in a rule and in a workflow: a name free of
      the characters the parsers split on. */
  predicate Printable(d: Destination)
  {
    NameOk(d) && var n := ShowDestination(d);
    Free(n, '<') && Free(n, '>') && Free(n, ':') && Free(n, ',')
  }

  /** A rule the input format can carry: an `i64` threshold and a printable
      destination. */
  predicate WellFormed(r: Rule)
  {
    I64_MIN <= r.threshold <= I64_MAX && Printable(r.destination)
  }

  lemma SignedDecimalFree(n: int, c: char)
    requires !IsDigit(c) && c != '-'
    ensures Free(SignedDecimal(n), c)
  {
    var d := Decimal(if n < 0 then -n else n);
    assert forall i :: 0 <= i < |d| ==> IsDigit(d[i]);
  }

  lemma RuleFree(r: Rule, c: char)
    requires WellFormed(r)
    requires (c == '<' || c == '>' || c == ',') && c != Sign(r.order)[0]
    ensures Free(ShowRule(r), c)
  {
    SignedDecimalFree(r.threshold, c);
  }

  /** The comparison sign of a displayed rule is found again. */
  lemma OrderParses(r: Rule)
    requires WellFormed(r)
    ensures RuleOrder(ShowRule(r)) == Some(r.order)
  {
    var s := ShowRule(r);
    if r.order == Less {
      assert OccursAt(s, "<", 1);
    } else {
      RuleFree(r, '<');
      FreeNotContains(s, "<");
      assert OccursAt(s, ">", 1);
    }
  }

  lemma LimitParses(r: Rule)
    requires WellFormed(r)
    ensures ParseLimit(r.category, r.order, SignedDecimal(r.threshold) + ":" + ShowDestination(r.destination)) == Some(r)
  {
    SignedDecimalFree(r.threshold, ':');
    SplitTwo(SignedDecimal(r.threshold), ShowDestination(r.destination), ":");
    ParseSignedDecimal(r.threshold);
  }

  /** A displayed rule splits at its sign into the category and the rest. */
  lemma RuleSplits(r: Rule)
    requires WellFormed(r)
    ensures Split(ShowRule(r), Sign(r.order))
      == [ShowCategory(r.category), SignedDecimal(r.threshold) + ":" + ShowDestination(r.destination)]
  {
    var cat := ShowCategory(r.category);
    var rest := SignedDecimal(r.threshold) + ":" + ShowDestination(r.destination);
    SignedDecimalFree(r.threshold, Sign(r.order)[0]);
    assert ShowRule(r) == cat + Sign(r.order) + rest;
    SplitTwo(cat, rest, Sign(r.order));
  }

  /** Every well-formed rule parses back from its display. */
  lemma RuleParses(r: Rule)
    requires WellFormed(r)
    ensures ParseRule(ShowRule(r)) == Some(r)
  {
    OrderParses(r);
    RuleSplits(r);
    LimitParses(r);
  }

  /** `Workflow::parse`: the comma-separated pieces, every one but the last a
      rule and the last the final destination. `split` always gives at least
      one piece, so `split_last` never fails. */
  function ParseWorkflow(s: string): (r: Option<Workflow>)
    ensures r.Some? ==> |r.value.rules| == |Split(s, ",")| - 1
    ensures r.Some? ==> r.value.final == ParseDestination(Split(s, ",")[|Split(s, ",")| - 1])
  {
    var pieces := Split(s, ",");
    var n := |pieces| - 1;
    match ParseRules(pieces[..n])
    case None => None
    case Some(rules) => Some(Workflow(rules, ParseDestination(pieces[n])))
  }

  /** Every piece parsed as a rule; a piece that is not a rule panics, which
      is `None` here. */
  function ParseRules(ps: seq<string>): (r: Option<seq<Rule>>)
    ensures r.Some? <==> forall i :: 0 <= i < |ps| ==> ParseRule(ps[i]).Some?
    ensures r.Some? ==> (|r.value| == |ps|
      && forall i :: 0 <= i < |ps| ==> ParseRule(ps[i]) == Some(r.value[i]))
  {
    var os := seq(|ps|, i requires 0 <= i < |ps| => ParseRule(ps[i]));
    assert forall i :: 0 <= i < |ps| ==> os[i] == ParseRule(ps[i]);
    CollectRules(os)
  }

  /** `collect` into an `Option`: every element present, or nothing. */
  function CollectRules(os: seq<Option<Rule>>): (r: Option<seq<Rule>>)
    ensures r.Some? <==> forall i :: 0 <= i < |os| ==> os[i].Some?
    ensures r.Some? ==> (|r.value| == |os|
      && forall i :: 0 <= i < |os| ==> os[i] == Some(r.value[i]))
  {
    if os == [] then Some([])
    else
      match os[0]
      case None => None
      case Some(b) =>
        match CollectRules(os[1..])
        case None => None
        case Some(bs) => Some([b] + bs)
  }

  function ShowRules(rs: seq<Rule>): (r: seq<string>)
    ensures |r| == |rs|
  {
    seq(|rs|, i requires 0 <= i < |rs| => ShowRule(rs[i]))
  }

  function ShowWorkflow(w: Workflow): string
  {
    Join(ShowRules(w.rules) + [ShowDestination(w.final)], ",")
  }

  predicate WellFormedWorkflow(w: Workflow)
  {
    Printable(w.final) && forall i :: 0 <= i < |w.rules| ==> WellFormed(w.rules[i])
  }

  lemma RulesParse(rs: seq<Rule>)
    requires forall i :: 0 <= i < |rs| ==> WellFormed(rs[i])
    ensures ParseRules(ShowRules(rs)) == Some(rs)
  {
    var ps := ShowRules(rs);
    forall i | 0 <= i < |rs|
      ensures ParseRule(ps[i]) == Some(rs[i])
    {
      RuleParses(rs[i]);
    }
    var r := ParseRules(ps);
    assert r.Some?;
    assert r.value == rs;
  }

  lemma PiecesFree(w: Workflow)
    requires WellFormedWorkflow(w)
    ensures forall i :: 0 <= i < |w.rules| + 1 ==> Free((ShowRules(w.rules) + [ShowDestination(w.final)])[i], ',')
  {
    var parts := ShowRules(w.rules) + [ShowDestination(w.final)];
    forall i | 0 <= i < |parts|
      ensures Free(parts[i], ',')
    {
      if i < |w.rules| {
        RuleFree(w.rules[i], ',');
      }
    }
  }

  /** Every well-formed workflow parses back from its display. */
  lemma WorkflowParses(w: Workflow)
    requires WellFormedWorkflow(w)
    ensures ParseWorkflow(ShowWorkflow(w)) == Some(w)
  {
    var parts := ShowRules(w.rules) + [ShowDestination(w.final)];
    PiecesFree(w);
    SplitJoin(parts, ",");
    assert parts[..|w.rules|] == ShowRules(w.rules);
    RulesParse(w.rules);
  }

  /** `Part::parse_value`: the text after the category's "x=" prefix, as an
      `i64`. */
  function ParseValue(s: string, name: string): (r: Option<int>)
    ensures r.Some? ==> name <= s && I64_MIN <= r.value <= I64_MAX
  {
    match StripPrefix(s, name)
    case None => None
    case Some(t) => ParseI64(t)
  }

  /** The four fields of a part, in the order x, m, a, s. */
  function ParseFields(f: seq<string>): (r: Option<Part>)
  {
    if |f| < 4 then None
    else
      match ParseValue(f[0], "x=")
      case None => None
      case Some(x) =>
        match ParseValue(f[1], "m=")
        case None => None
        case Some(m) =>
          match ParseValue(f[2], "a=")
          case None => None
          case Some(a) =>
            match ParseValue(f[3], "s=")
            case None => None
            case Some(v) => Some(Part(x, m, a, v))
  }

  /** `Part::parse`: "{x=..,m=..,a=..,s=..}"; missing braces, fewer than four
      fields or a bad field panic, which is `None` here. Fields past the fourth
      are ignored. */
  function ParsePart(s: string): (r: Option<Part>)
    ensures r.Some? ==> InRange(r.value)
  {
    match StripPrefix(s, "{")
    case None => None
    case Some(t) =>
      match StripSuffix(t, "}")
      case None => None
      case Some(u) => ParseFields(Split(u, ","))
  }

  function Fields(p: Part): seq<string>
  {
    ["x=" + SignedDecimal(p.x), "m=" + SignedDecimal(p.m), "a=" + SignedDecimal(p.a), "s=" + SignedDecimal(p.s)]
  }

  function ShowPart(p: Part): string
  {
    "{" + Join(Fields(p), ",") + "}"
  }

  predicate InRange(p: Part)
  {
    I64_MIN <= p.x <= I64_MAX && I64_MIN <= p.m <= I64_MAX
      && I64_MIN <= p.a <= I64_MAX && I64_MIN <= p.s <= I64_MAX
  }

  lemma ValueParses(name: string, n: int)
    requires I64_MIN <= n <= I64_MAX
    ensures ParseValue(name + SignedDecimal(n), name) == Some(n)
  {
    assert (name + SignedDecimal(n))[|name|..] == SignedDecimal(n);
    ParseSignedDecimal(n);
  }

  lemma FieldsParse(p: Part)
    requires InRange(p)
    ensures ParseFields(Fields(p)) == Some(p)
  {
    ValueParses("x=", p.x);
    ValueParses("m=", p.m);
    ValueParses("a=", p.a);
    ValueParses("s=", p.s);
  }

  lemma FieldFree(name: string, n: int)
    requires Free(name, ',')
    ensures Free(name + SignedDecimal(n), ',')
  {
    SignedDecimalFree(n, ',');
  }

  lemma FieldsFree(p: Part)
    ensures forall i :: 0 <= i < |Fields(p)| ==> Free(Fields(p)[i], ',')
  {
    var fs := Fields(p);
    FieldFree("x=", p.x);
    FieldFree("m=", p.m);
    FieldFree("a=", p.a);
    FieldFree("s=", p.s);
    forall i | 0 <= i < |fs|
      ensures Free(fs[i], ',')
    {
      if i == 0 {
      } else if i == 1 {
      } else if i == 2 {
      } else {
        assert i == 3;
      }
    }
  }

  lemma FieldsSplit(p: Part)
    ensures Split(Join(Fields(p), ","), ",") == Fields(p)
  {
    FieldsFree(p);
    SplitJoin(Fields(p), ",");
  }

  /** Stripping the braces of a part text gives back what is between them. */
  lemma Braces(u: string)
    ensures ParsePart("{" + u + "}") == ParseFields(Split(u, ","))
  {
    assert ("{" + u + "}")[1..] == u + "}";
    assert (u + "}")[..|u|] == u;
  }

  /** Every part with `i64` ratings parses back from its display. */
  lemma PartParses(p: Part)
    requires InRange(p)
    ensures ParsePart(ShowPart(p)) == Some(p)
  {
    var u := Join(Fields(p), ",");
    Braces(u);
    FieldsSplit(p);
    FieldsParse(p);
  }

  // ---------------------------------------------------------------------------
  // Single parts

  /** The part's rating in a category. */
  function Value(p: Part, c: Category): int
  {
    match c
    case X => p.x
    case M => p.m
    case A => p.a
    case S => p.s
  }

  /** `Rule::satisfies`. */
  predicate Satisfies(r: Rule, p: Part)
  {
    match r.order
    case Less => Value(p, r.category) < r.threshold
    case Greater => Value(p, r.category) > r.threshold
  }

  /** The loop of `Workflow::process_part` from rule `k` on. */
  function Route(rules: seq<Rule>, final: Destination, p: Part, k: nat): Destination
    requires k <= |rules|
    decreases |rules| - k
  {
    if k == |rules| then final
    else if Satisfies(rules[k], p) then rules[k].destination
    else Route(rules, final, p, k + 1)
  }

  /** `Workflow::process_part`. */
  function ProcessPart(w: Workflow, p: Part): Destination
  {
    Route(w.rules, w.final, p, 0)
  }

  /** From rule `k` on, the part goes where the first rule it satisfies sends
      it, or to the final destination when it satisfies none. */
  lemma {:induction false} RouteFirst(rules: seq<Rule>, final: Destination, p: Part, k: nat)
    requires k <= |rules|
    ensures (forall i :: k <= i < |rules| ==> !Satisfies(rules[i], p)) ==> Route(rules, final, p, k) == final
    ensures forall i :: (k <= i < |rules| && Satisfies(rules[i], p)
                         && forall j :: k <= j < i ==> !Satisfies(rules[j], p))
                        ==> Route(rules, final, p, k) == rules[i].destination
    decreases |rules| - k
  {
    if k < |rules| && !Satisfies(rules[k], p) {
      RouteFirst(rules, final, p, k + 1);
    }
  }

  /** `process_part` returns the destination of the first rule the part
      satisfies, and the final destination when it satisfies none. */
  lemma ProcessPartFirst(w: Workflow, p: Part)
    ensures (forall i :: 0 <= i < |w.rules| ==> !Satisfies(w.rules[i], p)) ==> ProcessPart(w, p) == w.final
    ensures forall i :: (0 <= i < |w.rules| && Satisfies(w.rules[i], p)
                         && forall j :: 0 <= j < i ==> !Satisfies(w.rules[j], p))
                        ==> ProcessPart(w, p) == w.rules[i].destination
  {
    RouteFirst(w.rules, w.final, p, 0);
  }

  // ---------------------------------------------------------------------------
  // Intervals

  /** An inclusive range of ratings; it is empty when `start > end`. */
  datatype Interval = Interval(start: int, end: int)

  predicate Has(iv: Interval, v: int)
  {
    iv.start <= v <= iv.end
  }

  /** `Interval::split`: the values up to `mid` and the values above it. A
      side is `None` exactly when the whole interval lies on the other side. */
  function SplitAt(iv: Interval, mid: int): (r: (Option<Interval>, Option<Interval>))
    ensures r.0.None? <==> iv.start > mid
    ensures r.1.None? <==> iv.start <= mid && iv.end <= mid
    ensures r.0.Some? ==> r.0.value.start == iv.start && forall v :: Has(r.0.value, v) <==> Has(iv, v) && v <= mid
    ensures r.1.Some? ==> r.1.value.end == iv.end && forall v :: Has(r.1.value, v) <==> Has(iv, v) && v > mid
    ensures OptValues(r.0) + OptValues(r.1) == Values(iv)
    ensures iv.start <= iv.end && r.0.Some? ==> r.0.value.start <= r.0.value.end
    ensures iv.start <= iv.end && r.1.Some? ==> r.1.value.start <= r.1.value.end
  {
    if iv.start > mid then (None, Some(iv))
    else if iv.end <= mid then (Some(iv), None)
    else (Some(Interval(iv.start, mid)), Some(Interval(mid + 1, iv.end)))
  }

  /** The cases of the `split_interval` unit test. */
  lemma SplitExamples()
    ensures SplitAt(Interval(5, 10), 7) == (Some(Interval(5, 7)), Some(Interval(8, 10)))
    ensures SplitAt(Interval(5, 10), 5) == (Some(Interval(5, 5)), Some(Interval(6, 10)))
    ensures SplitAt(Interval(5, 10), 9) == (Some(Interval(5, 9)), Some(Interval(10, 10)))
    ensures SplitAt(Interval(5, 10), 4) == (None, Some(Interval(5, 10)))
    ensures SplitAt(Interval(5, 10), 10) == (Some(Interval(5, 10)), None)
  {
  }

  /** `Interval::values`. */
  function Values(iv: Interval): int
  {
    iv.end - iv.start + 1
  }

  function Members(iv: Interval): set<int>
  {
    set v | iv.start <= v <= iv.end && Has(iv, v)
  }

  /** `values` counts the interval's members; for an empty interval with
      `start == end + 1` that count is 0. */
  lemma {:induction false} ValuesCount(iv: Interval)
    requires iv.start <= iv.end + 1
    ensures |Members(iv)| == Values(iv)
    decreases iv.end - iv.start
  {
    if iv.start == iv.end + 1 {
      assert Members(iv) == {};
    } else {
      var shorter := Interval(iv.start, iv.end - 1);
      ValuesCount(shorter);
      assert Members(iv) == Members(shorter) + {iv.end};
    }
  }

  function OptValues(o: Option<Interval>): int
  {
    if o.Some? then Values(o.value) else 0
  }

  // ---------------------------------------------------------------------------
  // Boxes of ratings

  /** An `IntervalPart`: a rating interval per category. */
  type Box = map<Category, Interval>

  /** The box has an interval for every category. */
  predicate Full(b: Box)
  {
    forall c: Category :: c in b
  }

  /** The part lies in the box: the box has all four categories and each
      rating is in its interval. */
  predicate InBox(p: Part, b: Box)
  {
    Full(b) && Has(b[X], p.x) && Has(b[M], p.m) && Has(b[A], p.a) && Has(b[S], p.s)
  }

  predicate InSome(p: Part, o: Option<Box>)
  {
    o.Some? && InBox(p, o.value)
  }

  /** `new_interval_part`: a copy of the box with category `c`'s interval
      replaced; every other category keeps its interval. */
  function NewIntervalPart(b: Box, iv: Interval, c: Category): (r: Box)
    ensures r.Keys == b.Keys + {c}
    ensures c in r && r[c] == iv
    ensures forall k :: k in b && k != c ==> k in r && r[k] == b[k]
  {
    b[c := iv]
  }

  /** `Rule::split_interval`: the (rejected, accepted) sub-boxes. "<" splits
      the interval at `threshold - 1`, keeping the lower side; ">" splits at
      `threshold`, keeping the upper side. The box must hold the rule's
      category, which the Rust code indexes unconditionally. */
  function SplitInterval(rule: Rule, b: Box): (r: (Option<Box>, Option<Box>))
    requires rule.category in b
    ensures r.0.Some? ==> r.0.value.Keys == b.Keys
    ensures r.1.Some? ==> r.1.value.Keys == b.Keys
    ensures r.0.Some? ==> forall k :: k in b && k != rule.category ==> r.0.value[k] == b[k]
    ensures r.1.Some? ==> forall k :: k in b && k != rule.category ==> r.1.value[k] == b[k]
  {
    var c := rule.category;
    match rule.order
    case Less =>
      var (lower, higher) := SplitAt(b[c], rule.threshold - 1);
      var accepted := if lower.Some? then Some(NewIntervalPart(b, lower.value, c)) else None;
      var rejected := if higher.Some? then Some(NewIntervalPart(b, higher.value, c)) else None;
      (rejected, accepted)
    case Greater =>
      var (lower, higher) := SplitAt(b[c], rule.threshold);
      var accepted := if higher.Some? then Some(NewIntervalPart(b, higher.value, c)) else None;
      var rejected := if lower.Some? then Some(NewIntervalPart(b, lower.value, c)) else None;
      (rejected, accepted)
  }

  /** The accepted sub-box holds exactly the parts of the box that satisfy
      the rule, and the rejected one exactly those that do not. */
  lemma SplitIntervalSound(rule: Rule, b: Box, p: Part)
    requires rule.category in b
    ensures InSome(p, SplitInterval(rule, b).1) <==> InBox(p, b) && Satisfies(rule, p)
    ensures InSome(p, SplitInterval(rule, b).0) <==> InBox(p, b) && !Satisfies(rule, p)
  {
    var c := rule.category;
    var v := Value(p, c);
    var mid := if rule.order == Less then rule.threshold - 1 else rule.threshold;
    var cut := SplitAt(b[c], mid);
    if cut.0.Some? {
      ReplaceInBox(p, b, c, cut.0.value);
    }
    if cut.1.Some? {
      ReplaceInBox(p, b, c, cut.1.value);
    }
  }

  /** A part lies in the box with category `c`'s interval replaced exactly
      when its rating for `c` lies in the new interval and its other ratings
      lie in the box. */
  lemma ReplaceInBox(p: Part, b: Box, c: Category, iv: Interval)
    requires c in b
    ensures InBox(p, b[c := iv]) <==> Has(iv, Value(p, c)) && InBox(p, b[c := Interval(Value(p, c), Value(p, c))])
  {
    var point := Interval(Value(p, c), Value(p, c));
    assert b[c := iv].Keys == b[c := point].Keys;
  }

  /** The number of rating combinations in a full box: the product of its
      four interval sizes. */
  function Volume(b: Box): int
    requires Full(b)
  {
    Values(b[X]) * Values(b[M]) * Values(b[A]) * Values(b[S])
  }

  /** The product of the sizes of the three categories other than `c`. */
  function Others(b: Box, c: Category): int
    requires Full(b)
  {
    match c
    case X => Values(b[M]) * Values(b[A]) * Values(b[S])
    case M => Values(b[X]) * Values(b[A]) * Values(b[S])
    case A => Values(b[X]) * Values(b[M]) * Values(b[S])
    case S => Values(b[X]) * Values(b[M]) * Values(b[A])
  }

  lemma VolumeFactors(b: Box, c: Category)
    requires Full(b)
    ensures Volume(b) == Values(b[c]) * Others(b, c)
  {
  }

  function OptVolume(o: Option<Box>): int
    requires o.Some? ==> Full(o.value)
  {
    if o.Some? then Volume(o.value) else 0
  }

  /** Splitting a full box by a rule keeps its volume: the rejected and the
      accepted sub-boxes together hold as many combinations as the box. */
  lemma SplitIntervalVolume(rule: Rule, b: Box)
    requires Full(b)
    ensures var r := SplitInterval(rule, b);
      (r.0.Some? ==> Full(r.0.value)) && (r.1.Some? ==> Full(r.1.value))
      && OptVolume(r.0) + OptVolume(r.1) == Volume(b)
  {
    var c := rule.category;
    var r := SplitInterval(rule, b);
    var mid := if rule.order == Less then rule.threshold - 1 else rule.threshold;
    var cut := SplitAt(b[c], mid);
    var o := Others(b, c);
    var lower := OptValues(cut.0);
    var upper := OptValues(cut.1);
    VolumeFactors(b, c);
    assert Volume(b) == (lower + upper) * o;
    Distribute(lower, upper, o);
    if rule.order == Less {
      SideVolume(b, c, cut.1, r.0);
      SideVolume(b, c, cut.0, r.1);
    } else {
      SideVolume(b, c, cut.0, r.0);
      SideVolume(b, c, cut.1, r.1);
    }
  }

  /** A sub-box that replaces category `c`'s interval by one side of a split
      has that side's size times the other categories' sizes. */
  lemma SideVolume(b: Box, c: Category, side: Option<Interval>, sub: Option<Box>)
    requires Full(b)
    requires sub == if side.Some? then Some(NewIntervalPart(b, side.value, c)) else None
    ensures sub.Some? ==> Full(sub.value)
    ensures OptVolume(sub) == OptValues(side) * Others(b, c)
  {
    if sub.Some? {
      VolumeFactors(sub.value, c);
      assert Others(sub.value, c) == Others(b, c);
    }
  }

  lemma Distribute(x: int, y: int, z: int)
    ensures x * z + y * z == (x + y) * z
  {
  }

  // ---------------------------------------------------------------------------
  // Workflows on boxes

  /** A sub-box and where the workflow sends it. */
  type Piece = (Box, Destination)

  /** The loop of `Workflow::process_interval` from rule `k` on: each rule
      sends the parts it accepts to its destination and passes the rest on;
      once nothing is left the loop stops, and what survives every rule goes
      to the final destination. A rule whose category the box lacks panics,
      which is `None` here. */
  function Pieces(rules: seq<Rule>, final: Destination, b: Box, k: nat): (r: Option<seq<Piece>>)
    requires k <= |rules|
    decreases |rules| - k
  {
    if k == |rules| then Some([(b, final)])
    else if rules[k].category !in b then None
    else
      var (rejected, accepted) := SplitInterval(rules[k], b);
      var head := Taken(accepted, rules[k].destination);
      match rejected
      case None => Some(head)
      case Some(rest) =>
        match Pieces(rules, final, rest, k + 1)
        case None => None
        case Some(tail) => Some(head + tail)
  }

  /** The piece a rule contributes: its accepted sub-box, if any. */
  function Taken(accepted: Option<Box>, d: Destination): (r: seq<Piece>)
    ensures |r| <= 1
  {
    if accepted.Some? then [(accepted.value, d)] else []
  }

  /** `Workflow::process_interval`. */
  function ProcessInterval(w: Workflow, b: Box): Option<seq<Piece>>
  {
    Pieces(w.rules, w.final, b, 0)
  }

  /** One pass of the loop: the rule's accepted piece, if any, followed by
      the pieces the later rules make of the rejected sub-box, if any. */
  lemma PiecesStep(rules: seq<Rule>, final: Destination, b: Box, k: nat)
    requires k < |rules|
    requires Pieces(rules, final, b, k).Some?
    ensures rules[k].category in b
    ensures var (rejected, accepted) := SplitInterval(rules[k], b);
      var head := Taken(accepted, rules[k].destination);
      if rejected.None? then Pieces(rules, final, b, k).value == head
      else (Pieces(rules, final, rejected.value, k + 1).Some?
            && Pieces(rules, final, b, k).value == head + Pieces(rules, final, rejected.value, k + 1).value)
  {
  }

  /** The loop panics only when a rule's category is missing from the box,
      and every piece has the box's categories. */
  lemma {:induction false} PiecesTotal(rules: seq<Rule>, final: Destination, b: Box, k: nat)
    requires k <= |rules|
    ensures (forall i :: k <= i < |rules| ==> rules[i].category in b) ==> Pieces(rules, final, b, k).Some?
    ensures Pieces(rules, final, b, k).None? ==> exists i :: k <= i < |rules| && rules[i].category !in b
    ensures var r := Pieces(rules, final, b, k);
      r.Some? ==> forall i :: 0 <= i < |r.value| ==> r.value[i].0.Keys == b.Keys
    decreases |rules| - k
  {
    if k < |rules| && rules[k].category in b {
      var (rejected, accepted) := SplitInterval(rules[k], b);
      if rejected.Some? {
        PiecesTotal(rules, final, rejected.value, k + 1);
      }
    }
  }

  /** Every piece lies inside the box, and a part in a piece goes where
      `process_part` sends it. */
  lemma {:induction false} PiecesWithin(rules: seq<Rule>, final: Destination, b: Box, k: nat, p: Part)
    requires k <= |rules|
    requires Pieces(rules, final, b, k).Some?
    ensures var r := Pieces(rules, final, b, k).value;
      forall i :: 0 <= i < |r| && InBox(p, r[i].0) ==> InBox(p, b) && r[i].1 == Route(rules, final, p, k)
    decreases |rules| - k
  {
    if k < |rules| {
      PiecesStep(rules, final, b, k);
      var (rejected, accepted) := SplitInterval(rules[k], b);
      SplitIntervalSound(rules[k], b, p);
      if rejected.Some? {
        PiecesWithin(rules, final, rejected.value, k + 1, p);
      }
    }
  }

  /** Every part of the box lies in some piece. */
  lemma {:induction false} PiecesCover(rules: seq<Rule>, final: Destination, b: Box, k: nat, p: Part)
    requires k <= |rules|
    requires Pieces(rules, final, b, k).Some?
    requires InBox(p, b)
    ensures var r := Pieces(rules, final, b, k).value;
      exists i :: 0 <= i < |r| && InBox(p, r[i].0)
    decreases |rules| - k
  {
    var r := Pieces(rules, final, b, k).value;
    if k == |rules| {
      assert InBox(p, r[0].0);
    } else {
      PiecesStep(rules, final, b, k);
      var (rejected, accepted) := SplitInterval(rules[k], b);
      SplitIntervalSound(rules[k], b, p);
      var head := Taken(accepted, rules[k].destination);
      if Satisfies(rules[k], p) {
        assert r[0] == head[0];
      } else {
        PiecesCover(rules, final, rejected.value, k + 1, p);
        var tail := Pieces(rules, final, rejected.value, k + 1).value;
        var i :| 0 <= i < |tail| && InBox(p, tail[i].0);
        assert r[|head| + i] == tail[i];
      }
    }
  }

  /** No part lies in two pieces. */
  lemma {:induction false} PiecesDisjoint(rules: seq<Rule>, final: Destination, b: Box, k: nat, p: Part)
    requires k <= |rules|
    requires Pieces(rules, final, b, k).Some?
    ensures var r := Pieces(rules, final, b, k).value;
      forall i, j :: 0 <= i < j < |r| ==> !(InBox(p, r[i].0) && InBox(p, r[j].0))
    decreases |rules| - k
  {
    if k < |rules| {
      PiecesStep(rules, final, b, k);
      var (rejected, accepted) := SplitInterval(rules[k], b);
      SplitIntervalSound(rules[k], b, p);
      if rejected.Some? {
        var tail := Pieces(rules, final, rejected.value, k + 1).value;
        PiecesDisjoint(rules, final, rejected.value, k + 1, p);
        PiecesWithin(rules, final, rejected.value, k + 1, p);
        assert forall i :: 0 <= i < |tail| && InBox(p, tail[i].0) ==> InSome(p, rejected);
      }
    }
  }

  /** `process_interval` partitions a full box: it does not panic, every
      piece is a full box inside it, every part of the box lies in exactly
      one piece, and that piece carries the destination `process_part` gives
      the part. */
  lemma ProcessIntervalPartition(w: Workflow, b: Box, p: Part)
    requires Full(b)
    ensures ProcessInterval(w, b).Some?
    ensures var r := ProcessInterval(w, b).value;
      (forall i :: 0 <= i < |r| ==> Full(r[i].0))
      && (forall i :: 0 <= i < |r| && InBox(p, r[i].0) ==> InBox(p, b) && r[i].1 == ProcessPart(w, p))
      && (InBox(p, b) ==> exists i :: 0 <= i < |r| && InBox(p, r[i].0))
      && (forall i, j :: 0 <= i < j < |r| ==> !(InBox(p, r[i].0) && InBox(p, r[j].0)))
  {
    PiecesTotal(w.rules, w.final, b, 0);
    PiecesWithin(w.rules, w.final, b, 0, p);
    PiecesDisjoint(w.rules, w.final, b, 0, p);
    if InBox(p, b) {
      PiecesCover(w.rules, w.final, b, 0, p);
    }
  }

  // ---------------------------------------------------------------------------
  // Counting combinations

  predicate AllFull(bs: seq<Box>)
  {
    forall i :: 0 <= i < |bs| ==> Full(bs[i])
  }

  /** `combinations`: the sum over the boxes of their volumes. */
  function Combinations(bs: seq<Box>): int
    requires AllFull(bs)
  {
    if bs == [] then 0 else Volume(bs[0]) + Combinations(bs[1..])
  }

  /** The count over two lists of boxes is the sum of their counts. */
  lemma {:induction false} CombinationsAppend(xs: seq<Box>, ys: seq<Box>)
    requires AllFull(xs) && AllFull(ys)
    ensures AllFull(xs + ys) && Combinations(xs + ys) == Combinations(xs) + Combinations(ys)
  {
    if xs == [] {
      assert xs + ys == ys;
    } else {
      assert (xs + ys)[1..] == xs[1..] + ys;
      CombinationsAppend(xs[1..], ys);
    }
  }

  function Boxes(ps: seq<Piece>): (r: seq<Box>)
    ensures |r| == |ps| && forall i :: 0 <= i < |ps| ==> r[i] == ps[i].0
  {
    seq(|ps|, i requires 0 <= i < |ps| => ps[i].0)
  }

  /** The pieces of a full box hold exactly as many combinations as the box:
      nothing is lost or counted twice by `process_interval`. */
  lemma {:induction false} PiecesVolume(rules: seq<Rule>, final: Destination, b: Box, k: nat)
    requires k <= |rules|
    requires Full(b)
    ensures Pieces(rules, final, b, k).Some?
    ensures var bs := Boxes(Pieces(rules, final, b, k).value);
      AllFull(bs) && Combinations(bs) == Volume(b)
    decreases |rules| - k
  {
    PiecesTotal(rules, final, b, k);
    var r := Pieces(rules, final, b, k).value;
    if k == |rules| {
      assert Boxes(r)[1..] == [];
    } else {
      PiecesStep(rules, final, b, k);
      var (rejected, accepted) := SplitInterval(rules[k], b);
      SplitIntervalVolume(rules[k], b);
      var head := Taken(accepted, rules[k].destination);
      TakenVolume(accepted, rules[k].destination);
      if rejected.Some? {
        var tail := Pieces(rules, final, rejected.value, k + 1).value;
        PiecesVolume(rules, final, rejected.value, k + 1);
        PiecesAppend(head, tail);
      }
    }
  }

  lemma PiecesAppend(head: seq<Piece>, tail: seq<Piece>)
    requires AllFull(Boxes(head)) && AllFull(Boxes(tail))
    ensures AllFull(Boxes(head + tail))
    ensures Combinations(Boxes(head + tail)) == Combinations(Boxes(head)) + Combinations(Boxes(tail))
  {
    assert Boxes(head + tail) == Boxes(head) + Boxes(tail);
    CombinationsAppend(Boxes(head), Boxes(tail));
  }

  lemma TakenVolume(accepted: Option<Box>, d: Destination)
    requires accepted.Some? ==> Full(accepted.value)
    ensures AllFull(Boxes(Taken(accepted, d)))
    ensures Combinations(Boxes(Taken(accepted, d))) == OptVolume(accepted)
  {
    if accepted.Some? {
      assert Boxes(Taken(accepted, d))[1..] == [];
    }
  }

  /** Over a whole workflow: the pieces `process_interval` makes of a full
      box count as many combinations as the box. */
  lemma ProcessIntervalVolume(w: Workflow, b: Box)
    requires Full(b)
    ensures ProcessInterval(w, b).Some?
    ensures var bs := Boxes(ProcessInterval(w, b).value);
      AllFull(bs) && Combinations(bs) == Volume(b)
  {
    PiecesVolume(w.rules, w.final, b, 0);
  }
}
