/** Day 15 (Lens Library): the HASH of a string, and 256 boxes of labelled
    lenses that `label=f` and `label-` steps put in and take out. */
module LensLibrary {
  import opened Wrappers
  import opened Text

  /** The number of boxes, one per HASH value. */
  const BoxCount := 256

  // ---------------------------------------------------------------------------
  // HASH

  function HashStep(h: nat, c: char): nat
  {
    (h + c as int) * 17 % 256
  }

  /** `hash`: each character in turn added, times 17, modulo 256. */
  function Hash(s: string): (h: nat)
    ensures h < BoxCount
  {
    if |s| == 0 then 0 else HashStep(Hash(s[..|s| - 1]), s[|s| - 1])
  }

  /** Hashing a text in two pieces carries on from the hash of the first. */
  lemma {:induction false} HashAppend(a: string, c: char)
    ensures Hash(a + [c]) == HashStep(Hash(a), c)
  {
    assert (a + [c])[..|a|] == a;
  }

  /** The loop of `hash`, in `u32`: the running value stays below 256, so
      adding a character and multiplying by 17 never overflows. */
  method HashLoop(s: string) returns (h: nat)
    ensures h == Hash(s) && h < BoxCount
  {
    h := 0;
    for i := 0 to |s|
      invariant h == Hash(s[..i]) && h < BoxCount
    {
      assert (h + s[i] as int) * 17 <= U32_MAX;
      HashAppend(s[..i], s[i]);
      assert s[..i] + [s[i]] == s[..i + 1];
      h := (h + s[i] as int) * 17 % 256;
    }
    assert s[..|s|] == s;
  }

  /** The three hashes the tests of `hash` check. */
  lemma HashOfHash()
    ensures Hash("HASH") == 52
  {
    assert Hash("H") == 200 by { HashAppend("", 'H'); assert "" + ['H'] == "H"; }
    assert Hash("HA") == 153 by { HashAppend("H", 'A'); assert "H" + ['A'] == "HA"; }
    assert Hash("HAS") == 172 by { HashAppend("HA", 'S'); assert "HA" + ['S'] == "HAS"; }
    assert Hash("HASH") == 52 by { HashAppend("HAS", 'H'); assert "HAS" + ['H'] == "HASH"; }
  }

  lemma HashOfPut()
    ensures Hash("rn=1") == 30
  {
    assert Hash("r") == 146 by { HashAppend("", 'r'); assert "" + ['r'] == "r"; }
    assert Hash("rn") == 0 by { HashAppend("r", 'n'); assert "r" + ['n'] == "rn"; }
    assert Hash("rn=") == 13 by { HashAppend("rn", '='); assert "rn" + ['='] == "rn="; }
    assert Hash("rn=1") == 30 by { HashAppend("rn=", '1'); assert "rn=" + ['1'] == "rn=1"; }
  }

  lemma HashOfRemove()
    ensures Hash("cm-") == 253
  {
    assert Hash("c") == 147 by { HashAppend("", 'c'); assert "" + ['c'] == "c"; }
    assert Hash("cm") == 0 by { HashAppend("c", 'm'); assert "c" + ['m'] == "cm"; }
    assert Hash("cm-") == 253 by { HashAppend("cm", '-'); assert "cm" + ['-'] == "cm-"; }
  }

  // ---------------------------------------------------------------------------
  // One box

  datatype Lens = Lens(name: string, focal: nat)

  /** The lenses of a box, front first. */
  type Box = seq<Lens>

  predicate Has(b: Box, name: string)
  {
    exists k :: 0 <= k < |b| && b[k].name == name
  }

  /** No two lenses of the box share a label. */
  predicate UniqueLabels(b: Box)
  {
    forall i, j :: 0 <= i < j < |b| ==> b[i].name != b[j].name
  }

  /** The focal length of the first lens labelled `name`, if any. */
  function FocalOf(b: Box, name: string): (r: Option<nat>)
    ensures r.None? <==> !Has(b, name)
    ensures r.Some? ==> exists k :: 0 <= k < |b| && b[k].name == name && b[k].focal == r.value
  {
    if |b| == 0 then None
    else if b[0].name == name then Some(b[0].focal)
    else
      var r := FocalOf(b[1..], name);
      assert forall k :: 1 <= k < |b| ==> b[k] == b[1..][k - 1];
      assert Has(b[1..], name) ==> Has(b, name);
      r
  }

  /** `i` is the position of the first lens labelled `name`. */
  predicate FirstWith(b: Box, name: string, i: int)
  {
    0 <= i < |b| && b[i].name == name && forall k :: 0 <= k < i ==> b[k].name != name
  }

  /** The loops of `add_lens` and `remove_lens`: the position of the first
      lens labelled `name`. */
  function FindLabel(b: Box, name: string): (r: Option<nat>)
    ensures r.None? <==> !Has(b, name)
    ensures r.Some? ==> FirstWith(b, name, r.value)
  {
    if |b| == 0 then None
    else if b[0].name == name then Some(0)
    else
      match FindLabel(b[1..], name)
      case None =>
        assert forall k :: 1 <= k < |b| ==> b[k] == b[1..][k - 1];
        None
      case Some(i) => Some(i + 1)
  }

  /** The first lens labelled `name` is the one the query reads. */
  lemma {:induction false} FocalAtFirst(b: Box, name: string)
    requires Has(b, name)
    ensures FindLabel(b, name).Some? && FocalOf(b, name) == Some(b[FindLabel(b, name).value].focal)
  {
    if b[0].name != name {
      assert b[1..][FindLabel(b, name).value - 1] == b[FindLabel(b, name).value];
      FocalAtFirst(b[1..], name);
    }
  }

  /** Replacing the lens at `i` by one of another label leaves the query for
      `l` as it was, if the replaced lens had another label too. */
  lemma {:induction false} FocalOfUpdate(b: Box, i: nat, x: Lens, l: string)
    requires i < |b| && b[i].name != l && x.name != l
    ensures FocalOf(b[i := x], l) == FocalOf(b, l)
  {
    if i > 0 && b[0].name != l {
      assert b[i := x][1..] == b[1..][i - 1 := x];
      FocalOfUpdate(b[1..], i - 1, x, l);
    }
  }

  /** Deleting the lens at `i`, of another label, leaves the query for `l`
      as it was. */
  lemma {:induction false} FocalOfDelete(b: Box, i: nat, l: string)
    requires i < |b| && b[i].name != l
    ensures FocalOf(b[..i] + b[i + 1..], l) == FocalOf(b, l)
  {
    var r := b[..i] + b[i + 1..];
    if i == 0 {
      assert r == b[1..];
    } else {
      assert r[0] == b[0];
      if b[0].name != l {
        assert r[1..] == b[1..][..i - 1] + b[1..][i..];
        FocalOfDelete(b[1..], i - 1, l);
      }
    }
  }

  /** Appending a lens leaves the query for every other label as it was. */
  lemma {:induction false} FocalOfAppend(b: Box, x: Lens, l: string)
    requires x.name != l
    ensures FocalOf(b + [x], l) == FocalOf(b, l)
  {
    if |b| > 0 && b[0].name != l {
      assert (b + [x])[1..] == b[1..] + [x];
      FocalOfAppend(b[1..], x, l);
    }
  }

  /** `add_lens`: the first lens with the new lens's label takes its focal
      length in place; with no such lens the new one goes at the back. */
  function AddLens(b: Box, lens: Lens): (r: Box)
    ensures Has(b, lens.name) ==> |r| == |b|
    ensures !Has(b, lens.name) ==> r == b + [lens]
    ensures forall k :: 0 <= k < |b| ==> r[k].name == b[k].name && (b[k].name != lens.name ==> r[k] == b[k])
    ensures FocalOf(r, lens.name) == Some(lens.focal)
    ensures forall l :: l != lens.name ==> FocalOf(r, l) == FocalOf(b, l)
    ensures UniqueLabels(b) ==> UniqueLabels(r)
  {
    match FindLabel(b, lens.name)
    case Some(i) =>
      var r := b[i := b[i].(focal := lens.focal)];
      assert FindLabel(r, lens.name) == Some(i) by {
        FindFirst(r, lens.name, i);
      }
      FocalAtFirst(r, lens.name);
      forall l | l != lens.name
        ensures FocalOf(r, l) == FocalOf(b, l)
      {
        FocalOfUpdate(b, i, r[i], l);
      }
      r
    case None =>
      var r := b + [lens];
      assert r[|b|].name == lens.name;
      FocalAtFirst(r, lens.name);
      assert FindLabel(r, lens.name) == Some(|b|) by {
        FindFirst(r, lens.name, |b|);
      }
      forall l | l != lens.name
        ensures FocalOf(r, l) == FocalOf(b, l)
      {
        FocalOfAppend(b, lens, l);
      }
      r
  }

  /** A position with the label, before which none has it, is the one the
      search finds. */
  lemma {:induction false} FindFirst(b: Box, name: string, i: nat)
    requires FirstWith(b, name, i)
    ensures FindLabel(b, name) == Some(i)
  {
    if i > 0 {
      assert b[1..][i - 1] == b[i];
      FindFirst(b[1..], name, i - 1);
    }
  }

  /** `remove_lens`: the first lens labelled `name` is taken out and the
      others keep their order; with no such lens nothing changes. */
  function RemoveLens(b: Box, name: string): (r: Box)
    ensures !Has(b, name) ==> r == b
    ensures Has(b, name) ==> exists i :: FirstWith(b, name, i) && r == b[..i] + b[i + 1..]
    ensures forall l :: l != name ==> FocalOf(r, l) == FocalOf(b, l)
    ensures UniqueLabels(b) ==> UniqueLabels(r) && !Has(r, name)
  {
    match FindLabel(b, name)
    case Some(i) =>
      var r := b[..i] + b[i + 1..];
      assert forall k :: 0 <= k < |r| ==> r[k] == if k < i then b[k] else b[k + 1];
      forall l | l != name
        ensures FocalOf(r, l) == FocalOf(b, l)
      {
        FocalOfDelete(b, i, l);
      }
      r
    case None => b
  }

  // ---------------------------------------------------------------------------
  // All the boxes

  type Boxes = seq<Box>

  function EmptyBoxes(): (bs: Boxes)
  {
    seq(BoxCount, _ => [])
  }

  /** `Boxes::new`: exactly 256 boxes, all empty. */
  method NewBoxes() returns (bs: Boxes)
    ensures |bs| == BoxCount && forall k :: 0 <= k < |bs| ==> bs[k] == []
    ensures bs == EmptyBoxes()
  {
    bs := [];
    for i := 0 to BoxCount
      invariant |bs| == i && forall k :: 0 <= k < i ==> bs[k] == []
    {
      bs := bs + [[]];
    }
  }

  datatype Operation = Put(lens: Lens) | Remove(name: string)

  function LabelOf(op: Operation): string
  {
    match op
    case Put(lens) => lens.name
    case Remove(name) => name
  }

  /** `operation`: the step applied to the box its label hashes to. */
  function Apply(bs: Boxes, op: Operation): (r: Boxes)
    requires |bs| == BoxCount
    ensures |r| == BoxCount
    ensures forall k :: 0 <= k < BoxCount && k != Hash(LabelOf(op)) ==> r[k] == bs[k]
  {
    var h := Hash(LabelOf(op));
    bs[h := StepBox(bs[h], op)]
  }

  /** What a step does to the box of its label. */
  function StepBox(b: Box, op: Operation): Box
  {
    match op
    case Put(lens) => AddLens(b, lens)
    case Remove(name) => RemoveLens(b, name)
  }

  /** Every box holds only lenses whose labels hash to it, each label once. */
  predicate Sorted(bs: Boxes)
  {
    |bs| == BoxCount &&
    forall k :: 0 <= k < BoxCount ==> UniqueLabels(bs[k]) && forall j :: 0 <= j < |bs[k]| ==> Hash(bs[k][j].name) == k
  }

  /** The focal length the boxes hold for `label`, read from its box. */
  function Lookup(bs: Boxes, name: string): Option<nat>
    requires |bs| == BoxCount
  {
    FocalOf(bs[Hash(name)], name)
  }

  /** The boxes start sorted, and every step keeps them so. */
  lemma EmptySorted()
    ensures Sorted(EmptyBoxes())
  {
  }

  lemma ApplySorted(bs: Boxes, op: Operation)
    requires Sorted(bs)
    ensures Sorted(Apply(bs, op))
  {
    var h := Hash(LabelOf(op));
    var r: Boxes := Apply(bs, op);
    match op
    case Put(lens) =>
      forall j | 0 <= j < |r[h]|
        ensures Hash(r[h][j].name) == h
      {
        if j >= |bs[h]| {
          assert r[h] == bs[h] + [lens];
        }
      }
    case Remove(name) =>
      if Has(bs[h], name) {
        var i :| FirstWith(bs[h], name, i) && r[h] == bs[h][..i] + bs[h][i + 1..];
        forall j | 0 <= j < |r[h]|
          ensures Hash(r[h][j].name) == h
        {
          assert r[h][j] == if j < i then bs[h][j] else bs[h][j + 1];
        }
      }
  }

  /** The boxes behave as a map from label to focal length: a step sets or
      clears its own label and leaves every other label as it was. */
  lemma ApplyLookup(bs: Boxes, op: Operation, l: string)
    requires Sorted(bs)
    ensures op.Put? ==> Lookup(Apply(bs, op), op.lens.name) == Some(op.lens.focal)
    ensures op.Remove? ==> Lookup(Apply(bs, op), op.name) == None
    ensures l != LabelOf(op) ==> Lookup(Apply(bs, op), l) == Lookup(bs, l)
  {
  }

  // ---------------------------------------------------------------------------
  // Focusing power

  /** The first `j` slots of a box numbered `n` from 1. */
  function SlotsPower(b: Box, n: nat, j: nat): nat
    requires j <= |b|
  {
    if j == 0 then 0 else SlotsPower(b, n, j - 1) + n * j * b[j - 1].focal
  }

  /** The first `i` boxes. */
  function BoxesPower(bs: Boxes, i: nat): nat
    requires i <= |bs|
  {
    if i == 0 then 0 else BoxesPower(bs, i - 1) + SlotsPower(bs[i - 1], i, |bs[i - 1]|)
  }

  /** `focusing_power`: box number times slot number times focal length,
      summed over every lens, both numbered from 1. */
  method FocusingPower(bs: Boxes) returns (power: nat)
    ensures power == BoxesPower(bs, |bs|)
    ensures (forall k :: 0 <= k < |bs| ==> bs[k] == []) ==> power == 0
  {
    power := 0;
    for i := 0 to |bs|
      invariant power == BoxesPower(bs, i)
    {
      var bx := bs[i];
      for j := 0 to |bx|
        invariant power == BoxesPower(bs, i) + SlotsPower(bx, i + 1, j)
      {
        var term := (i + 1) * (j + 1) * bx[j].focal;
        assert SlotsPower(bx, i + 1, j + 1) == SlotsPower(bx, i + 1, j) + term;
        power := power + term;
      }
      assert BoxesPower(bs, i + 1) == BoxesPower(bs, i) + SlotsPower(bx, i + 1, |bx|);
    }
    if forall k :: 0 <= k < |bs| ==> bs[k] == [] {
      EmptyPower(bs, |bs|);
    }
  }

  lemma {:induction false} EmptyPower(bs: Boxes, i: nat)
    requires i <= |bs| && forall k :: 0 <= k < i ==> bs[k] == []
    ensures BoxesPower(bs, i) == 0
  {
    if i > 0 {
      EmptyPower(bs, i - 1);
    }
  }

  /** Empty boxes add nothing to the power. */
  lemma {:induction false} EmptyBoxesAddNothing(bs: Boxes, i: nat, n: nat)
    requires i <= n <= |bs| && forall k :: i <= k < n ==> bs[k] == []
    ensures BoxesPower(bs, n) == BoxesPower(bs, i)
    decreases n
  {
    if n > i {
      EmptyBoxesAddNothing(bs, i, n - 1);
    }
  }

  // ---------------------------------------------------------------------------
  // Reading a step

  /** `Operation::new`: `label=f` puts a lens of focal length `f` (a `u8`),
      anything else must end in '-' and removes the label before it. The
      Rust code panics where the model gives `None`. */
  function ParseOperation(s: string): (r: Option<Operation>)
    ensures Free(s, '=') ==> (r.Some? <==> |s| > 0 && s[|s| - 1] == '-')
    ensures Free(s, '=') && r.Some? ==> r.value == Remove(s[..|s| - 1])
    ensures !Free(s, '=') && r.Some? ==> (r.value.Put? && r.value.lens.focal <= U8_MAX &&
      Free(r.value.lens.name, '=') && r.value.lens.name + "=" <= s)
  {
    var parts := Split(s, "=");
    SplitHead(s, "=");
    if |parts| == 1 then
      assert Free(s, '=') by {
        forall i | 0 <= i < |s|
          ensures s[i] != '='
        {
          assert !OccursAt(s, "=", i);
          assert s[i..i + 1] == [s[i]];
        }
      }
      var name :- StripSuffix(parts[0], "-");
      Some(Remove(name))
    else
      var k := IndexOf(s, "=").value;
      assert s[k] == '=' by {
        assert s[k..k + 1] == "=";
      }
      assert Free(s[..k], '=') by {
        forall i | 0 <= i < k
          ensures s[..k][i] != '='
        {
          assert !OccursAt(s, "=", i);
          assert s[i..i + 1] == [s[i]];
        }
      }
      assert s[..k] + "=" == s[..k + 1];
      var f :- ParseU8(parts[1]);
      Some(Put(Lens(parts[0], f)))
  }

  /** A step as the puzzle writes it. */
  function FormatOperation(op: Operation): string
  {
    match op
    case Put(lens) => lens.name + "=" + Decimal(lens.focal)
    case Remove(name) => name + "-"
  }

  lemma DecimalFree(n: nat, c: char)
    requires !IsDigit(c)
    ensures Free(Decimal(n), c)
  {
  }

  /** Reading a written step gives it back, for labels without '=' and
      focal lengths that fit a `u8`. */
  lemma ParseFormatOperation(op: Operation)
    requires Free(LabelOf(op), '=')
    requires op.Put? ==> op.lens.focal <= U8_MAX
    ensures ParseOperation(FormatOperation(op)) == Some(op)
  {
    match op
    case Put(lens) =>
      DecimalFree(lens.focal, '=');
      SplitTwo(lens.name, Decimal(lens.focal), "=");
      ParseDecimal(lens.focal, U8_MAX);
    case Remove(name) =>
      var s := name + "-";
      assert Free(s, '=');
      NoOccurrence(s, "=", 0);
      SplitHead(s, "=");
  }

  // ---------------------------------------------------------------------------
  // The puzzle's example

  function ApplyAll(bs: Boxes, ops: seq<Operation>): (r: Boxes)
    requires |bs| == BoxCount
    ensures |r| == BoxCount
    decreases |ops|
  {
    if |ops| == 0 then bs else ApplyAll(Apply(bs, ops[0]), ops[1..])
  }

  /** The reference the boxes are measured against: the focal length a
      label ends with is set by its last step, starting from `m`. */
  function LastFocal(m: Option<nat>, ops: seq<Operation>, l: string): Option<nat>
    decreases |ops|
  {
    if |ops| == 0 then m
    else
      var next := match ops[0]
        case Put(lens) => if lens.name == l then Some(lens.focal) else m
        case Remove(name) => if name == l then None else m;
      LastFocal(next, ops[1..], l)
  }

  /** After any run of steps the boxes hold, for every label, the focal
      length its last step left. */
  lemma {:induction false} ApplyAllLookup(bs: Boxes, ops: seq<Operation>, l: string)
    requires Sorted(bs)
    ensures Lookup(ApplyAll(bs, ops), l) == LastFocal(Lookup(bs, l), ops, l)
    decreases |ops|
  {
    if |ops| > 0 {
      ApplyLookup(bs, ops[0], l);
      ApplySorted(bs, ops[0]);
      ApplyAllLookup(Apply(bs, ops[0]), ops[1..], l);
    }
  }

  /** The steps of the puzzle's example,
      `rn=1,cm-,qp=3,cm=2,qp-,pc=4,ot=9,ab=5,pc-,pc=6,ot=7`. */
  const Example := [Put(Lens("rn", 1)), Remove("cm"), Put(Lens("qp", 3)), Put(Lens("cm", 2)),
                    Remove("qp"), Put(Lens("pc", 4)), Put(Lens("ot", 9)), Put(Lens("ab", 5)),
                    Remove("pc"), Put(Lens("pc", 6)), Put(Lens("ot", 7))]

  lemma HashOfRN()
    ensures Hash("rn") == 0
  {
    assert Hash("r") == 146 by { HashAppend("", 'r'); assert "" + ['r'] == "r"; }
    assert Hash("rn") == 0 by { HashAppend("r", 'n'); assert "r" + ['n'] == "rn"; }
  }

  lemma HashOfCM()
    ensures Hash("cm") == 0
  {
    assert Hash("c") == 147 by { HashAppend("", 'c'); assert "" + ['c'] == "c"; }
    assert Hash("cm") == 0 by { HashAppend("c", 'm'); assert "c" + ['m'] == "cm"; }
  }

  lemma HashOfQP()
    ensures Hash("qp") == 1
  {
    assert Hash("q") == 129 by { HashAppend("", 'q'); assert "" + ['q'] == "q"; }
    assert Hash("qp") == 1 by { HashAppend("q", 'p'); assert "q" + ['p'] == "qp"; }
  }

  lemma HashOfPC()
    ensures Hash("pc") == 3
  {
    assert Hash("p") == 112 by { HashAppend("", 'p'); assert "" + ['p'] == "p"; }
    assert Hash("pc") == 3 by { HashAppend("p", 'c'); assert "p" + ['c'] == "pc"; }
  }

  lemma HashOfOT()
    ensures Hash("ot") == 3
  {
    assert Hash("o") == 95 by { HashAppend("", 'o'); assert "" + ['o'] == "o"; }
    assert Hash("ot") == 3 by { HashAppend("o", 't'); assert "o" + ['t'] == "ot"; }
  }

  lemma HashOfAB()
    ensures Hash("ab") == 3
  {
    assert Hash("a") == 113 by { HashAppend("", 'a'); assert "" + ['a'] == "a"; }
    assert Hash("ab") == 3 by { HashAppend("a", 'b'); assert "a" + ['b'] == "ab"; }
  }

  /** One box's share of a run of steps: the steps whose label hashes to
      box `k`, applied in order. */
  function RunBox(b: Box, ops: seq<Operation>, k: nat): Box
    decreases |ops|
  {
    if |ops| == 0 then b
    else RunBox(if Hash(LabelOf(ops[0])) == k then StepBox(b, ops[0]) else b, ops[1..], k)
  }

  /** A step of another box is skipped ... */
  lemma RunBoxSkip(b: Box, ops: seq<Operation>, j: nat, k: nat)
    requires j < |ops| && Hash(LabelOf(ops[j])) != k
    ensures RunBox(b, ops[j..], k) == RunBox(b, ops[j + 1..], k)
  {
    assert ops[j..][1..] == ops[j + 1..];
  }

  /** ... and a step of this box is applied to it. */
  lemma RunBoxTake(b: Box, ops: seq<Operation>, j: nat, k: nat, c: Box)
    requires j < |ops| && Hash(LabelOf(ops[j])) == k && StepBox(b, ops[j]) == c
    ensures RunBox(b, ops[j..], k) == RunBox(c, ops[j + 1..], k)
  {
    assert ops[j..][1..] == ops[j + 1..];
  }

  /** The boxes never interact: box `k` after a run of steps is its own
      share of them. */
  lemma {:induction false} ApplyAllBox(bs: Boxes, ops: seq<Operation>, k: nat)
    requires |bs| == BoxCount && k < BoxCount
    ensures ApplyAll(bs, ops)[k] == RunBox(bs[k], ops, k)
    decreases |ops|
  {
    if |ops| > 0 {
      ApplyAllBox(Apply(bs, ops[0]), ops[1..], k);
    }
  }

  /** A box no step of the run hashes to is left as it was. */
  lemma {:induction false} RunBoxUntouched(b: Box, ops: seq<Operation>, k: nat)
    requires forall j :: 0 <= j < |ops| ==> Hash(LabelOf(ops[j])) != k
    ensures RunBox(b, ops, k) == b
    decreases |ops|
  {
    if |ops| > 0 {
      assert forall j :: 0 <= j < |ops| - 1 ==> ops[1..][j] == ops[j + 1];
      RunBoxUntouched(b, ops[1..], k);
    }
  }

  /** A lens whose label the box lacks goes at the back. */
  lemma AddNew(b: Box, lens: Lens)
    requires forall k :: 0 <= k < |b| ==> b[k].name != lens.name
    ensures AddLens(b, lens) == b + [lens]
  {
  }

  /** A lens whose label the box has replaces the first lens with it. */
  lemma AddAt(b: Box, lens: Lens, i: nat)
    requires FirstWith(b, lens.name, i)
    ensures AddLens(b, lens) == b[i := lens]
  {
    FindFirst(b, lens.name, i);
  }

  /** Removing a label takes out the first lens with it. */
  lemma RemoveAt(b: Box, name: string, i: nat)
    requires FirstWith(b, name, i)
    ensures RemoveLens(b, name) == b[..i] + b[i + 1..]
  {
    FindFirst(b, name, i);
  }

  lemma StepIs0()
    ensures StepBox([], Example[0]) == [Lens("rn", 1)]
  {
    AddNew([], Example[0].lens);
  }

  lemma StepIs1()
    ensures StepBox([Lens("rn", 1)], Example[1]) == [Lens("rn", 1)]
  {
  }

  lemma StepIs2()
    ensures StepBox([], Example[2]) == [Lens("qp", 3)]
  {
    AddNew([], Example[2].lens);
  }

  lemma StepIs3()
    ensures StepBox([Lens("rn", 1)], Example[3]) == [Lens("rn", 1), Lens("cm", 2)]
  {
    AddNew([Lens("rn", 1)], Example[3].lens);
  }

  lemma StepIs4()
    ensures StepBox([Lens("qp", 3)], Example[4]) == []
  {
    var b := [Lens("qp", 3)];
    assert Example[4] == Remove("qp");
    RemoveAt(b, "qp", 0);
    assert b[..0] + b[1..] == [];
  }

  lemma StepIs5()
    ensures StepBox([], Example[5]) == [Lens("pc", 4)]
  {
    AddNew([], Example[5].lens);
  }

  lemma StepIs6()
    ensures StepBox([Lens("pc", 4)], Example[6]) == [Lens("pc", 4), Lens("ot", 9)]
  {
    AddNew([Lens("pc", 4)], Example[6].lens);
  }

  lemma StepIs7()
    ensures StepBox([Lens("pc", 4), Lens("ot", 9)], Example[7]) == [Lens("pc", 4), Lens("ot", 9), Lens("ab", 5)]
  {
    AddNew([Lens("pc", 4), Lens("ot", 9)], Example[7].lens);
  }

  lemma StepIs8()
    ensures StepBox([Lens("pc", 4), Lens("ot", 9), Lens("ab", 5)], Example[8]) == [Lens("ot", 9), Lens("ab", 5)]
  {
    RemoveAt([Lens("pc", 4), Lens("ot", 9), Lens("ab", 5)], "pc", 0);
  }

  lemma StepIs9()
    ensures StepBox([Lens("ot", 9), Lens("ab", 5)], Example[9]) == [Lens("ot", 9), Lens("ab", 5), Lens("pc", 6)]
  {
    AddNew([Lens("ot", 9), Lens("ab", 5)], Example[9].lens);
  }

  lemma StepIs10()
    ensures StepBox([Lens("ot", 9), Lens("ab", 5), Lens("pc", 6)], Example[10]) == [Lens("ot", 7), Lens("ab", 5), Lens("pc", 6)]
  {
    AddAt([Lens("ot", 9), Lens("ab", 5), Lens("pc", 6)], Example[10].lens, 0);
  }

  /** The box each step of the example goes to. */
  lemma ExampleHashes()
    ensures Hash(LabelOf(Example[0])) == 0
    ensures Hash(LabelOf(Example[1])) == 0
    ensures Hash(LabelOf(Example[2])) == 1
    ensures Hash(LabelOf(Example[3])) == 0
    ensures Hash(LabelOf(Example[4])) == 1
    ensures Hash(LabelOf(Example[5])) == 3
    ensures Hash(LabelOf(Example[6])) == 3
    ensures Hash(LabelOf(Example[7])) == 3
    ensures Hash(LabelOf(Example[8])) == 3
    ensures Hash(LabelOf(Example[9])) == 3
    ensures Hash(LabelOf(Example[10])) == 3
  {
    HashOfRN(); HashOfCM(); HashOfQP(); HashOfPC(); HashOfOT(); HashOfAB();
  }

  lemma ExampleBox0From0(ops: seq<Operation>)
    requires ops == Example
    ensures RunBox([], ops[0..], 0) == RunBox([Lens("rn", 1), Lens("cm", 2)], ops[4..], 0)
  {
    ExampleHashes();
    StepIs0();
    RunBoxTake([], ops, 0, 0, [Lens("rn", 1)]);
    StepIs1();
    RunBoxTake([Lens("rn", 1)], ops, 1, 0, [Lens("rn", 1)]);
    RunBoxSkip([Lens("rn", 1)], ops, 2, 0);
    StepIs3();
    RunBoxTake([Lens("rn", 1)], ops, 3, 0, [Lens("rn", 1), Lens("cm", 2)]);
  }

  lemma ExampleBox0From4(ops: seq<Operation>)
    requires ops == Example
    ensures RunBox([Lens("rn", 1), Lens("cm", 2)], ops[4..], 0) == RunBox([Lens("rn", 1), Lens("cm", 2)], ops[8..], 0)
  {
    ExampleHashes();
    RunBoxSkip([Lens("rn", 1), Lens("cm", 2)], ops, 4, 0);
    RunBoxSkip([Lens("rn", 1), Lens("cm", 2)], ops, 5, 0);
    RunBoxSkip([Lens("rn", 1), Lens("cm", 2)], ops, 6, 0);
    RunBoxSkip([Lens("rn", 1), Lens("cm", 2)], ops, 7, 0);
  }

  lemma ExampleBox0From8(ops: seq<Operation>)
    requires ops == Example
    ensures RunBox([Lens("rn", 1), Lens("cm", 2)], ops[8..], 0) == RunBox([Lens("rn", 1), Lens("cm", 2)], ops[11..], 0)
  {
    ExampleHashes();
    RunBoxSkip([Lens("rn", 1), Lens("cm", 2)], ops, 8, 0);
    RunBoxSkip([Lens("rn", 1), Lens("cm", 2)], ops, 9, 0);
    RunBoxSkip([Lens("rn", 1), Lens("cm", 2)], ops, 10, 0);
  }

  lemma ExampleBox0(ops: seq<Operation>)
    requires ops == Example
    ensures RunBox([], ops, 0) == [Lens("rn", 1), Lens("cm", 2)]
  {
    assert ops[0..] == ops;
    ExampleBox0From0(ops);
    ExampleBox0From4(ops);
    ExampleBox0From8(ops);
    assert ops[11..] == [];
  }

  lemma ExampleBox1From0(ops: seq<Operation>)
    requires ops == Example
    ensures RunBox([], ops[0..], 1) == RunBox([Lens("qp", 3)], ops[4..], 1)
  {
    ExampleHashes();
    RunBoxSkip([], ops, 0, 1);
    RunBoxSkip([], ops, 1, 1);
    StepIs2();
    RunBoxTake([], ops, 2, 1, [Lens("qp", 3)]);
    RunBoxSkip([Lens("qp", 3)], ops, 3, 1);
  }

  lemma ExampleBox1From4(ops: seq<Operation>)
    requires ops == Example
    ensures RunBox([Lens("qp", 3)], ops[4..], 1) == RunBox([], ops[8..], 1)
  {
    ExampleHashes();
    StepIs4();
    RunBoxTake([Lens("qp", 3)], ops, 4, 1, []);
    RunBoxSkip([], ops, 5, 1);
    RunBoxSkip([], ops, 6, 1);
    RunBoxSkip([], ops, 7, 1);
  }

  lemma ExampleBox1From8(ops: seq<Operation>)
    requires ops == Example
    ensures RunBox([], ops[8..], 1) == RunBox([], ops[11..], 1)
  {
    ExampleHashes();
    RunBoxSkip([], ops, 8, 1);
    RunBoxSkip([], ops, 9, 1);
    RunBoxSkip([], ops, 10, 1);
  }

  lemma ExampleBox1(ops: seq<Operation>)
    requires ops == Example
    ensures RunBox([], ops, 1) == []
  {
    assert ops[0..] == ops;
    ExampleBox1From0(ops);
    ExampleBox1From4(ops);
    ExampleBox1From8(ops);
    assert ops[11..] == [];
  }

  lemma ExampleBox3From0(ops: seq<Operation>)
    requires ops == Example
    ensures RunBox([], ops[0..], 3) == RunBox([], ops[4..], 3)
  {
    ExampleHashes();
    RunBoxSkip([], ops, 0, 3);
    RunBoxSkip([], ops, 1, 3);
    RunBoxSkip([], ops, 2, 3);
    RunBoxSkip([], ops, 3, 3);
  }

  lemma ExampleBox3From4(ops: seq<Operation>)
    requires ops == Example
    ensures RunBox([], ops[4..], 3) == RunBox([Lens("pc", 4), Lens("ot", 9), Lens("ab", 5)], ops[8..], 3)
  {
    ExampleHashes();
    RunBoxSkip([], ops, 4, 3);
    StepIs5();
    RunBoxTake([], ops, 5, 3, [Lens("pc", 4)]);
    StepIs6();
    RunBoxTake([Lens("pc", 4)], ops, 6, 3, [Lens("pc", 4), Lens("ot", 9)]);
    StepIs7();
    RunBoxTake([Lens("pc", 4), Lens("ot", 9)], ops, 7, 3, [Lens("pc", 4), Lens("ot", 9), Lens("ab", 5)]);
  }

  lemma ExampleBox3From8(ops: seq<Operation>)
    requires ops == Example
    ensures RunBox([Lens("pc", 4), Lens("ot", 9), Lens("ab", 5)], ops[8..], 3) == RunBox([Lens("ot", 7), Lens("ab", 5), Lens("pc", 6)], ops[11..], 3)
  {
    ExampleHashes();
    StepIs8();
    RunBoxTake([Lens("pc", 4), Lens("ot", 9), Lens("ab", 5)], ops, 8, 3, [Lens("ot", 9), Lens("ab", 5)]);
    StepIs9();
    RunBoxTake([Lens("ot", 9), Lens("ab", 5)], ops, 9, 3, [Lens("ot", 9), Lens("ab", 5), Lens("pc", 6)]);
    StepIs10();
    RunBoxTake([Lens("ot", 9), Lens("ab", 5), Lens("pc", 6)], ops, 10, 3, [Lens("ot", 7), Lens("ab", 5), Lens("pc", 6)]);
  }

  lemma ExampleBox3(ops: seq<Operation>)
    requires ops == Example
    ensures RunBox([], ops, 3) == [Lens("ot", 7), Lens("ab", 5), Lens("pc", 6)]
  {
    assert ops[0..] == ops;
    ExampleBox3From0(ops);
    ExampleBox3From4(ops);
    ExampleBox3From8(ops);
    assert ops[11..] == [];
  }

  /** Boxes 0 and 3 are all that is left after the example. */
  lemma ExampleBoxes(bs: Boxes, ops: seq<Operation>)
    requires bs == EmptyBoxes() && ops == Example
    ensures ApplyAll(bs, ops)[0] == [Lens("rn", 1), Lens("cm", 2)]
    ensures ApplyAll(bs, ops)[1] == [] && ApplyAll(bs, ops)[2] == []
    ensures ApplyAll(bs, ops)[3] == [Lens("ot", 7), Lens("ab", 5), Lens("pc", 6)]
    ensures forall k :: 4 <= k < BoxCount ==> ApplyAll(bs, ops)[k] == []
  {
    ApplyAllBox(bs, ops, 0);
    ExampleBox0(ops);
    ApplyAllBox(bs, ops, 1);
    ExampleBox1(ops);
    ApplyAllBox(bs, ops, 2);
    ExampleUntouched(ops, 2);
    ApplyAllBox(bs, ops, 3);
    ExampleBox3(ops);
    ExampleEmptyBoxes(bs, ops);
  }

  lemma ExampleEmptyBoxes(bs: Boxes, ops: seq<Operation>)
    requires bs == EmptyBoxes() && ops == Example
    ensures forall k :: 4 <= k < BoxCount ==> ApplyAll(bs, ops)[k] == []
  {
    forall k | 4 <= k < BoxCount
      ensures ApplyAll(bs, ops)[k] == []
    {
      ApplyAllBox(bs, ops, k);
      assert bs[k] == [];
      ExampleUntouched(ops, k);
    }
  }

  lemma ExampleUntouched(ops: seq<Operation>, k: nat)
    requires ops == Example && k != 0 && k != 1 && k != 3
    ensures RunBox([], ops, k) == []
  {
    ExampleHashes();
    forall j | 0 <= j < |ops|
      ensures Hash(LabelOf(ops[j])) != k
    {
      assert j in {0, 1, 2, 3, 4, 5, 6, 7, 8, 9, 10};
    }
    RunBoxUntouched([], ops, k);
  }

  lemma ExamplePower(bs: Boxes)
    requires |bs| == BoxCount && bs[0] == [Lens("rn", 1), Lens("cm", 2)] && bs[1] == [] && bs[2] == [] && bs[3] == [Lens("ot", 7), Lens("ab", 5), Lens("pc", 6)]
    requires forall k :: 4 <= k < BoxCount ==> bs[k] == []
    ensures BoxesPower(bs, BoxCount) == 145
  {
    assert SlotsPower(bs[0], 1, 1) == 1;
    assert SlotsPower(bs[0], 1, 2) == 5;
    assert SlotsPower(bs[3], 4, 1) == 28;
    assert SlotsPower(bs[3], 4, 2) == 68;
    assert SlotsPower(bs[3], 4, 3) == 140;
    assert BoxesPower(bs, 1) == 5;
    assert BoxesPower(bs, 3) == 5;
    assert BoxesPower(bs, 4) == 145;
    EmptyBoxesAddNothing(bs, 4, BoxCount);
  }

  /** The example leaves `rn 1, cm 2` in box 0 and `ot 7, ab 5, pc 6` in
      box 3, a focusing power of 145. */
  lemma FocusingPowerExample(bs: Boxes, ops: seq<Operation>)
    requires bs == EmptyBoxes() && ops == Example
    ensures BoxesPower(ApplyAll(bs, ops), BoxCount) == 145
  {
    ExampleBoxes(bs, ops);
    ExamplePower(ApplyAll(bs, ops));
  }

  lemma {:induction false} ApplyAllSorted(bs: Boxes, ops: seq<Operation>)
    requires Sorted(bs)
    ensures Sorted(ApplyAll(bs, ops))
    decreases |ops|
  {
    if |ops| > 0 {
      ApplySorted(bs, ops[0]);
      ApplyAllSorted(Apply(bs, ops[0]), ops[1..]);
    }
  }
}
