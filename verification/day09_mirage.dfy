/** Day 9 (Mirage Maintenance): extrapolating a history of readings one step
    forwards and one step backwards through its table of differences. */
module Mirage {
  import opened Text

  /** The loop of `predict_next`: the difference of each adjacent pair, one
      fewer than there are readings. */
  function Diffs(s: seq<int>): (d: seq<int>)
    ensures |d| == if |s| == 0 then 0 else |s| - 1
    ensures forall i {:trigger d[i]} :: 0 <= i < |d| ==> d[i] == s[i + 1] - s[i]
  {
    if |s| < 2 then [] else [s[1] - s[0]] + Diffs(s[1..])
  }

  predicate AllZero(s: seq<int>)
  {
    forall i :: 0 <= i < |s| ==> s[i] == 0
  }

  /** `predict_next`: (the reading before the first, the reading after the
      last). An all-zero history, the empty one included, stops the
      recursion. */
  function PredictNext(s: seq<int>): (r: (int, int))
    decreases |s|
  {
    if AllZero(s) then (0, 0)
    else
      var next := PredictNext(Diffs(s));
      (s[0] - next.0, s[|s| - 1] + next.1)
  }

  /** The same extrapolation without the all-zero shortcut: it recurses until
      the differences run out. */
  function Extrapolate(s: seq<int>): (r: (int, int))
    decreases |s|
  {
    if |s| == 0 then (0, 0)
    else
      var next := Extrapolate(Diffs(s));
      (s[0] - next.0, s[|s| - 1] + next.1)
  }

  lemma ExtrapolateStep(s: seq<int>)
    requires |s| > 0
    ensures Extrapolate(s).0 == s[0] - Extrapolate(Diffs(s)).0
    ensures Extrapolate(s).1 == s[|s| - 1] + Extrapolate(Diffs(s)).1
  {
  }

  lemma PredictStep(s: seq<int>)
    requires !AllZero(s)
    ensures |s| > 0
    ensures PredictNext(s).0 == s[0] - PredictNext(Diffs(s)).0
    ensures PredictNext(s).1 == s[|s| - 1] + PredictNext(Diffs(s)).1
  {
  }

  /** The differences of an all-zero history are all zero, so it extrapolates
      to zeros however far the recursion goes. */
  lemma {:induction false} ZeroExtrapolates(s: seq<int>)
    requires AllZero(s)
    ensures Extrapolate(s) == (0, 0)
    decreases |s|
  {
    if |s| > 0 {
      ZeroExtrapolates(Diffs(s));
    }
  }

  /** The shortcut only cuts the recursion short: it never changes the result. */
  lemma {:induction false} PredictIsExtrapolate(s: seq<int>)
    ensures PredictNext(s) == Extrapolate(s)
    decreases |s|
  {
    if AllZero(s) {
      ZeroExtrapolates(s);
    } else {
      assert |s| > 0;
      var d := Diffs(s);
      PredictIsExtrapolate(d);
      assert PredictNext(s) == (s[0] - PredictNext(d).0, s[|s| - 1] + PredictNext(d).1);
    }
  }

  /** A constant history `c` is extended by `c` at both ends. */
  lemma ConstantPredict(s: seq<int>, c: int)
    requires |s| > 0 && forall i :: 0 <= i < |s| ==> s[i] == c
    ensures PredictNext(s) == (c, c)
  {
    if c != 0 {
      assert !AllZero(s) by { assert s[0] != 0; }
      assert AllZero(Diffs(s));
    }
  }

  // ---------------------------------------------------------------------------
  // Linearity and symmetry

  function Plus(a: seq<int>, b: seq<int>): (c: seq<int>)
    requires |a| == |b|
    ensures |c| == |a| && forall i {:trigger c[i]} :: 0 <= i < |a| ==> c[i] == a[i] + b[i]
  {
    seq(|a|, i requires 0 <= i < |a| => a[i] + b[i])
  }

  function Negate(a: seq<int>): (c: seq<int>)
    ensures |c| == |a| && forall i {:trigger c[i]} :: 0 <= i < |a| ==> c[i] == -a[i]
  {
    seq(|a|, i requires 0 <= i < |a| => -a[i])
  }

  /** The extrapolation of a sum of histories is the sum of their
      extrapolations. */
  lemma {:induction false} ExtrapolatePlus(a: seq<int>, b: seq<int>)
    requires |a| == |b|
    ensures Extrapolate(Plus(a, b)).0 == Extrapolate(a).0 + Extrapolate(b).0
    ensures Extrapolate(Plus(a, b)).1 == Extrapolate(a).1 + Extrapolate(b).1
    decreases |a|
  {
    if |a| > 0 {
      var c := Plus(a, b);
      assert Diffs(c) == Plus(Diffs(a), Diffs(b));
      ExtrapolatePlus(Diffs(a), Diffs(b));
      ExtrapolateStep(a);
      ExtrapolateStep(b);
      ExtrapolateStep(c);
    }
  }

  /** Negating a history negates both extrapolated readings. */
  lemma {:induction false} ExtrapolateNegate(a: seq<int>)
    ensures Extrapolate(Negate(a)) == (-Extrapolate(a).0, -Extrapolate(a).1)
    decreases |a|
  {
    if |a| > 0 {
      var d := Diffs(a);
      assert Diffs(Negate(a)) == Negate(d);
      ExtrapolateNegate(d);
      ExtrapolateStep(a);
      ExtrapolateStep(Negate(a));
    }
  }

  /** The differences of a reversed history are the reversed differences,
      negated. */
  lemma DiffsReverse(s: seq<int>)
    ensures Diffs(Reverse(s)) == Negate(Reverse(Diffs(s)))
  {
    var n := |s|;
    if n > 0 {
      var l, r := Diffs(Reverse(s)), Negate(Reverse(Diffs(s)));
      forall i | 0 <= i < n - 1
        ensures l[i] == r[i]
      {
        assert Reverse(s)[i + 1] == s[n - 2 - i] && Reverse(s)[i] == s[n - 1 - i];
        assert Reverse(Diffs(s))[i] == Diffs(s)[n - 2 - i];
      }
    }
  }

  /** Extrapolating the reversed history swaps the two readings: looking
      backwards is looking forwards at the history read from the end. */
  lemma {:induction false} ExtrapolateReverse(s: seq<int>)
    ensures Extrapolate(Reverse(s)) == (Extrapolate(s).1, Extrapolate(s).0)
    decreases |s|
  {
    if |s| > 0 {
      var r, d := Reverse(s), Diffs(s);
      DiffsReverse(s);
      ExtrapolateNegate(Reverse(d));
      ExtrapolateReverse(d);
      ExtrapolateStep(s);
      ExtrapolateStep(r);
      assert r[0] == s[|s| - 1] && r[|s| - 1] == s[0];
    }
  }

  /** `predict_next` of the reversed history gives the two readings swapped. */
  lemma PredictReverse(s: seq<int>)
    ensures PredictNext(Reverse(s)) == (PredictNext(s).1, PredictNext(s).0)
  {
    PredictIsExtrapolate(s);
    PredictIsExtrapolate(Reverse(s));
    ExtrapolateReverse(s);
  }

  /** Appending the predicted next reading does not move the predicted
      previous one: both come from the same table of differences. */
  lemma {:induction false} AppendPrediction(s: seq<int>)
    ensures Extrapolate(s + [Extrapolate(s).1]).0 == Extrapolate(s).0
    decreases |s|
  {
    var p := Extrapolate(s).1;
    if |s| == 0 {
      assert Diffs([p]) == [];
    } else {
      var d := Diffs(s);
      assert Diffs(s + [p]) == d + [Extrapolate(d).1];
      AppendPrediction(d);
      ExtrapolateStep(s);
      ExtrapolateStep(s + [p]);
    }
  }

  /** The same for `predict_next`. */
  lemma PredictAppend(s: seq<int>)
    ensures PredictNext(s + [PredictNext(s).1]).0 == PredictNext(s).0
  {
    PredictIsExtrapolate(s);
    PredictIsExtrapolate(s + [PredictNext(s).1]);
    AppendPrediction(s);
  }

  // ---------------------------------------------------------------------------
  // The tests

  lemma PredictExamples()
    ensures PredictNext([0, 3, 6, 9, 12, 15]) == (-3, 18)
    ensures PredictNext([1, 3, 6, 10, 15, 21]) == (0, 28)
    ensures PredictNext([10, 13, 16, 21, 30, 45]) == (5, 68)
  {
    PredictLinear([0, 3, 6, 9, 12, 15]);
    PredictSquare([1, 3, 6, 10, 15, 21]);
    PredictCubic([10, 13, 16, 21, 30, 45]);
  }

  // Each history is passed as a parameter equal to the literal, so that the
  // verifier reasons through the contracts of Diffs instead of evaluating it.

  lemma PredictLinear(s: seq<int>)
    requires s == [0, 3, 6, 9, 12, 15]
    ensures PredictNext(s) == (-3, 18)
  {
    var d := Diffs(s);
    assert d == [3, 3, 3, 3, 3];
    ConstantPredict(d, 3);
    assert !AllZero(s) by { assert s[1] != 0; }
    PredictStep(s);
  }

  lemma PredictSquare(s: seq<int>)
    requires s == [1, 3, 6, 10, 15, 21]
    ensures PredictNext(s) == (0, 28)
  {
    var d := Diffs(s);
    assert d == [2, 3, 4, 5, 6];
    var dd := Diffs(d);
    assert dd == [1, 1, 1, 1];
    ConstantPredict(dd, 1);
    assert !AllZero(d) by { assert d[0] != 0; }
    PredictStep(d);
    assert !AllZero(s) by { assert s[0] != 0; }
    PredictStep(s);
  }

  lemma PredictCubic(s: seq<int>)
    requires s == [10, 13, 16, 21, 30, 45]
    ensures PredictNext(s) == (5, 68)
  {
    var d := Diffs(s);
    assert d == [3, 3, 5, 9, 15];
    PredictCubicDiffs(d);
    assert !AllZero(s) by { assert s[0] != 0; }
    PredictStep(s);
  }

  lemma PredictCubicDiffs(d: seq<int>)
    requires d == [3, 3, 5, 9, 15]
    ensures PredictNext(d) == (5, 23)
  {
    var dd := Diffs(d);
    assert dd == [0, 2, 4, 6];
    PredictCubicSecond(dd);
    assert !AllZero(d) by { assert d[0] != 0; }
    PredictStep(d);
  }

  lemma PredictCubicSecond(dd: seq<int>)
    requires dd == [0, 2, 4, 6]
    ensures PredictNext(dd) == (-2, 8)
  {
    var ddd := Diffs(dd);
    assert ddd == [2, 2, 2];
    ConstantPredict(ddd, 2);
    assert !AllZero(dd) by { assert dd[1] != 0; }
    PredictStep(dd);
  }
}
