/** Sums, means and the few facts of real arithmetic the reductions need. */
module Reals {

  /** Sum of a sequence of reals. */
  function Sum(s: seq<real>): real
  {
    if s == [] then 0.0 else Sum(s[..|s| - 1]) + s[|s| - 1]
  }

  /** Arithmetic mean of a non-empty sequence (`np.mean`). */
  function Mean(s: seq<real>): real
    requires |s| > 0
  {
    Sum(s) / |s| as real
  }

  /** Every element of `s` multiplied by `c`. */
  function Scale(s: seq<real>, c: real): seq<real>
  {
    seq(|s|, i requires 0 <= i < |s| => s[i] * c)
  }

  lemma {:induction false} SumScale(s: seq<real>, c: real)
    ensures Sum(Scale(s, c)) == Sum(s) * c
  {
    if s == [] {
      assert Scale(s, c) == [];
    } else {
      var front := s[..|s| - 1];
      assert forall i :: 0 <= i < |front| ==> Scale(s, c)[i] == Scale(front, c)[i];
      assert Scale(s, c)[..|s| - 1] == Scale(front, c);
      SumScale(front, c);
      assert (Sum(front) + s[|s| - 1]) * c == Sum(front) * c + s[|s| - 1] * c;
    }
  }

  lemma MeanScale(s: seq<real>, c: real)
    requires |s| > 0
    ensures Mean(Scale(s, c)) == Mean(s) * c
  {
    SumScale(s, c);
    MulDivSwap(Sum(s), c, |s| as real);
  }

  /** All elements of `s` lie in `[low, high]`. */
  predicate Within(s: seq<real>, low: real, high: real)
  {
    forall k :: 0 <= k < |s| ==> low <= s[k] <= high
  }

  lemma WithinConcat(s: seq<real>, t: seq<real>, low: real, high: real)
    requires Within(s, low, high) && Within(t, low, high)
    ensures Within(s + t, low, high)
  {
    forall k | 0 <= k < |s + t| ensures low <= (s + t)[k] <= high {
      if k < |s| {
        assert (s + t)[k] == s[k];
      } else {
        assert (s + t)[k] == t[k - |s|];
      }
    }
  }

  /** Elements in `[low, high]` sum to between `low` and `high` times the length. */
  lemma {:induction false} SumBounds(s: seq<real>, low: real, high: real)
    requires Within(s, low, high)
    ensures low * |s| as real <= Sum(s) <= high * |s| as real
  {
    if s != [] {
      var front := s[..|s| - 1];
      assert forall k :: 0 <= k < |front| ==> front[k] == s[k];
      SumBounds(front, low, high);
      var n := |front| as real;
      assert low * (n + 1.0) == low * n + low;
      assert high * (n + 1.0) == high * n + high;
    }
  }

  /** The mean of values that lie in `[low, high]` lies there too. */
  lemma MeanBounds(s: seq<real>, low: real, high: real)
    requires |s| > 0
    requires Within(s, low, high)
    ensures low <= Mean(s) <= high
  {
    SumBounds(s, low, high);
    var n := |s| as real;
    assert Sum(s) / n >= low by {
      assert low == (low * n) / n;
    }
    assert Sum(s) / n <= high by {
      assert high == (high * n) / n;
    }
  }

  /** Scaling by a non-negative factor scales the bounds of the mean. */
  lemma MeanScaleBounds(s: seq<real>, high: real, c: real)
    requires |s| > 0
    requires Within(s, 0.0, high)
    requires c >= 0.0
    ensures 0.0 <= Mean(Scale(s, c)) <= high * c
  {
    MeanBounds(s, 0.0, high);
    MeanScale(s, c);
    MulMonotone(0.0, Mean(s), c);
    MulMonotone(Mean(s), high, c);
  }

  /** A sequence of zeros still has mean 0 once scaled. */
  lemma MeanScaleZero(s: seq<real>, c: real)
    requires |s| > 0
    requires Within(s, 0.0, 0.0)
    ensures Mean(Scale(s, c)) == 0.0
  {
    MeanBounds(s, 0.0, 0.0);
    MeanScale(s, c);
  }

  lemma DivMonotone(x: real, y: real, d: real)
    requires x <= y && d > 0.0
    ensures x / d <= y / d
  {
    assert y / d - x / d == (y - x) / d;
  }

  lemma DivNonnegative(x: real, d: real)
    requires d > 0.0
    ensures x >= 0.0 ==> x / d >= 0.0
  {
    if x >= 0.0 {
      DivMonotone(0.0, x, d);
    }
  }

  lemma MulMonotone(x: real, y: real, c: real)
    requires x <= y && c >= 0.0
    ensures x * c <= y * c
  {
    assert y * c - x * c == (y - x) * c;
  }

  lemma MulDivSwap(x: real, c: real, d: real)
    requires d > 0.0
    ensures (x * c) / d == (x / d) * c
  {
  }

  lemma DivSelf(d: real)
    requires d > 0.0
    ensures d / d == 1.0
  {
  }

  lemma DivZero(x: real, d: real)
    requires d > 0.0
    ensures x / d == 0.0 <==> x == 0.0
  {
    assert x == (x / d) * d;
  }
}
