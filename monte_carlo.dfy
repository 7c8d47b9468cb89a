/**
 * The barrier-hit Monte Carlo estimator `monte_carlo_option_hit`.
 *
 * The random normal draws and the per-step growth factor
 * `exp((r - q - sigma^2/2) dt + sigma sqrt(dt) Z)` are supplied by the caller
 * as an `n_paths x n_steps` array of factors; everything downstream of them
 * (filling the price grid, the hit mask, first-crossing indices, the mean hit
 * time over hitting paths and the discounted fixed payoff) is modelled exactly
 * over the reals.
 */
module MonteCarlo {
  import opened Wrappers
  import opened Reals

  /** A simulated grid: one row per path, one column per time step. */
  type Grid = seq<seq<real>>

  // ---------------------------------------------------------------------------
  // Path generation
  // ---------------------------------------------------------------------------

  /** Price of a path at step `t`: `s0` at step 0, then the previous price
      times that step's factor. `factors[0]` is never used. */
  function Price(s0: real, factors: seq<real>, t: nat): real
    requires t < |factors|
  {
    if t == 0 then s0 else Price(s0, factors, t - 1) * factors[t]
  }

  /** The whole path driven by one row of factors. */
  function Path(s0: real, factors: seq<real>): (p: seq<real>)
    ensures |p| == |factors|
    ensures |p| > 0 ==> p[0] == s0
  {
    seq(|factors|, t requires 0 <= t < |factors| => Price(s0, factors, t))
  }

  /** Each price of a path is the previous one times that step's factor. */
  lemma PathRecurrence(s0: real, factors: seq<real>, t: nat)
    requires 1 <= t < |factors|
    ensures Path(s0, factors)[t] == Path(s0, factors)[t - 1] * factors[t]
  {
  }

  /** The grid the simulator builds from a matrix of factors. */
  function SimulatedPaths(s0: real, factors: Grid): (g: Grid)
  {
    seq(|factors|, i requires 0 <= i < |factors| => Path(s0, factors[i]))
  }

  /** Row `i` of a two-dimensional array, as a sequence. */
  function Row(a: array2<real>, i: nat): seq<real>
    reads a
    requires i < a.Length0
  {
    seq(a.Length1, t requires 0 <= t < a.Length1 reads a => a[i, t])
  }

  /** All rows of a two-dimensional array. */
  function Rows(a: array2<real>): Grid
    reads a
  {
    seq(a.Length0, i requires 0 <= i < a.Length0 reads a => Row(a, i))
  }

  lemma RowsWidth(a: array2<real>)
    ensures |Rows(a)| == a.Length0
    ensures forall i :: 0 <= i < a.Length0 ==> |Rows(a)[i]| == a.Length1
  {
  }

  /** A grid whose every cell holds the price of its path at its step is
      the simulated grid. */
  lemma GridOfPrices(s: array2<real>, s0: real, factors: array2<real>)
    requires s.Length0 == factors.Length0 && s.Length1 == factors.Length1
    requires forall j, u :: 0 <= j < s.Length0 && 0 <= u < s.Length1 ==> s[j, u] == Price(s0, Row(factors, j), u)
    ensures Rows(s) == SimulatedPaths(s0, Rows(factors))
  {
    forall i | 0 <= i < s.Length0
      ensures Rows(s)[i] == SimulatedPaths(s0, Rows(factors))[i]
    {
      assert Rows(factors)[i] == Row(factors, i);
      assert Row(s, i) == Path(s0, Row(factors, i));
    }
  }

  /** One vectorised step of the simulation: column `t` becomes column
      `t - 1` times the factors of step `t`; every other column is kept. */
  method StepColumn(s: array2<real>, factors: array2<real>, t: nat)
    requires s != factors
    requires s.Length0 == factors.Length0 && s.Length1 == factors.Length1
    requires 1 <= t < s.Length1
    modifies s
    ensures forall j, u :: 0 <= j < s.Length0 && 0 <= u < s.Length1 && u != t ==> s[j, u] == old(s[j, u])
    ensures forall j :: 0 <= j < s.Length0 ==> s[j, t] == old(s[j, t - 1]) * factors[j, t]
  {
    for i := 0 to s.Length0
      invariant forall j, u :: 0 <= j < s.Length0 && 0 <= u < s.Length1 && u != t ==> s[j, u] == old(s[j, u])
      invariant forall j :: 0 <= j < i ==> s[j, t] == old(s[j, t - 1]) * factors[j, t]
    {
      s[i, t] := s[i, t - 1] * factors[i, t];
    }
  }

  /** Once columns before `t` hold their prices and column `t` is column
      `t - 1` times the factors, columns up to `t` hold their prices. */
  lemma NextColumnOfPrices(s: array2<real>, s0: real, factors: array2<real>, t: nat)
    requires s.Length0 == factors.Length0 && s.Length1 == factors.Length1
    requires 1 <= t < s.Length1
    requires forall j, u :: 0 <= j < s.Length0 && 0 <= u < t ==> s[j, u] == Price(s0, Row(factors, j), u)
    requires forall j :: 0 <= j < s.Length0 ==> s[j, t] == s[j, t - 1] * factors[j, t]
    ensures forall j, u :: 0 <= j < s.Length0 && 0 <= u <= t ==> s[j, u] == Price(s0, Row(factors, j), u)
  {
    forall j | 0 <= j < s.Length0
      ensures s[j, t] == Price(s0, Row(factors, j), t)
    {
      assert Row(factors, j)[t] == factors[j, t];
    }
  }

  /** Allocates the grid and fills it column by column: column 0 is `s0`,
      column `t` is column `t - 1` times the factors of step `t`. */
  method SimulateGrid(s0: real, factors: array2<real>) returns (s: array2<real>)
    requires factors.Length1 > 0
    ensures fresh(s)
    ensures s.Length0 == factors.Length0 && s.Length1 == factors.Length1
    ensures Rows(s) == SimulatedPaths(s0, Rows(factors))
  {
    var nPaths, nSteps := factors.Length0, factors.Length1;
    s := new real[nPaths, nSteps];
    for i := 0 to nPaths
      invariant forall j :: 0 <= j < i ==> s[j, 0] == s0
    {
      s[i, 0] := s0;
    }
    for t := 1 to nSteps
      invariant forall j, u :: 0 <= j < nPaths && 0 <= u < t ==> s[j, u] == Price(s0, Row(factors, j), u)
    {
      StepColumn(s, factors, t);
      NextColumnOfPrices(s, s0, factors, t);
    }
    GridOfPrices(s, s0, factors);
  }

  /** With a positive start and positive factors (as every `exp` is), every
      simulated price is positive. */
  lemma {:induction false} PricePositive(s0: real, factors: seq<real>, t: nat)
    requires s0 > 0.0
    requires forall u :: 1 <= u < |factors| ==> factors[u] > 0.0
    requires t < |factors|
    ensures Price(s0, factors, t) > 0.0
  {
    if t > 0 {
      PricePositive(s0, factors, t - 1);
    }
  }

  /** The loop starts at step 1, so the factor of step 0 (the draw
      `Z[:, 0]`) never affects any price. */
  lemma {:induction false} PriceIgnoresFirstFactor(s0: real, factors: seq<real>, x: real, t: nat)
    requires t < |factors|
    ensures Price(s0, factors, t) == Price(s0, factors[0 := x], t)
  {
    if t > 0 {
      PriceIgnoresFirstFactor(s0, factors, x, t - 1);
      assert factors[0 := x][t] == factors[t];
    }
  }

  // ---------------------------------------------------------------------------
  // Reductions over the grid
  // ---------------------------------------------------------------------------

  /** `np.any(S >= threshold)` for one path: some step is at or above the
      barrier. Step 0 is included. */
  predicate Hits(p: seq<real>, threshold: real)
  {
    exists t :: 0 <= t < |p| && p[t] >= threshold
  }

  /** `np.argmax` of the boolean row `p[t:] >= threshold`, offset by `t`:
      the first index from `t` on that is at or above the barrier, and 0 when
      there is none (argmax of an all-False row). */
  function FirstIndexFrom(p: seq<real>, threshold: real, t: nat): (r: nat)
    requires t <= |p|
    decreases |p| - t
    ensures (exists u :: t <= u < |p| && p[u] >= threshold) ==>
              t <= r < |p| && p[r] >= threshold && forall u :: t <= u < r ==> p[u] < threshold
    ensures !(exists u :: t <= u < |p| && p[u] >= threshold) ==> r == 0
  {
    if t == |p| then 0
    else if p[t] >= threshold then t
    else FirstIndexFrom(p, threshold, t + 1)
  }

  /** First-crossing index of one path (`np.argmax(S >= threshold, axis=1)`). */
  function FirstIndex(p: seq<real>, threshold: real): (r: nat)
    ensures Hits(p, threshold) ==>
              r < |p| && p[r] >= threshold && forall u :: 0 <= u < r ==> p[u] < threshold
    ensures !Hits(p, threshold) ==> r == 0
  {
    FirstIndexFrom(p, threshold, 0)
  }

  /** Number of paths that hit (the sum of `hit_mask`). */
  function HitCount(g: Grid, threshold: real): (n: nat)
    ensures n <= |g|
  {
    if g == [] then 0
    else HitCount(g[..|g| - 1], threshold) + (if Hits(g[|g| - 1], threshold) then 1 else 0)
  }

  /** The indices of the hitting paths: an independent description of the mask. */
  function HitSet(g: Grid, threshold: real): set<nat>
  {
    set i: nat | i < |g| && Hits(g[i], threshold)
  }

  /** The recursive count is the size of the set of hitting paths. */
  lemma {:induction false} HitCountIsCardinality(g: Grid, threshold: real)
    ensures HitCount(g, threshold) == |HitSet(g, threshold)|
  {
    if g != [] {
      var n := |g| - 1;
      var front := g[..n];
      HitCountIsCardinality(front, threshold);
      assert forall i :: 0 <= i < n ==> front[i] == g[i];
      if Hits(g[n], threshold) {
        assert HitSet(g, threshold) == HitSet(front, threshold) + {n};
      } else {
        assert HitSet(g, threshold) == HitSet(front, threshold);
      }
    }
  }

  /** No hit is counted exactly when no path reaches the barrier. */
  lemma NoHitsIffZeroCount(g: Grid, threshold: real)
    ensures HitCount(g, threshold) == 0 <==> forall i :: 0 <= i < |g| ==> !Hits(g[i], threshold)
  {
    HitCountIsCardinality(g, threshold);
    if HitCount(g, threshold) == 0 {
      assert HitSet(g, threshold) == {};
      forall i | 0 <= i < |g| ensures !Hits(g[i], threshold) {
        assert i !in HitSet(g, threshold);
      }
    } else {
      var i :| i in HitSet(g, threshold);
      assert Hits(g[i], threshold);
    }
  }

  /** `hit_mask` as numbers: 1 for a hitting path, 0 otherwise. */
  function Mask(g: Grid, threshold: real): seq<real>
  {
    seq(|g|, i requires 0 <= i < |g| => if Hits(g[i], threshold) then 1.0 else 0.0)
  }

  /** The mask adds up to the number of hitting paths. */
  lemma {:induction false} MaskSum(g: Grid, threshold: real)
    ensures Sum(Mask(g, threshold)) == HitCount(g, threshold) as real
  {
    if g == [] {
      assert Mask(g, threshold) == [];
    } else {
      var front := g[..|g| - 1];
      assert Mask(g, threshold)[..|g| - 1] == Mask(front, threshold);
      MaskSum(front, threshold);
    }
  }

  /** `hit_mask.mean()`: the fraction of paths that hit. */
  function HitProbability(g: Grid, threshold: real): (p: real)
    requires |g| > 0
    ensures 0.0 <= p <= 1.0
  {
    MeanBounds(Mask(g, threshold), 0.0, 1.0);
    Mean(Mask(g, threshold))
  }

  /** `hit_prob` is the number of paths with some step at or above the
      barrier, divided by the number of paths. */
  lemma HitProbabilityIsFraction(g: Grid, threshold: real)
    requires |g| > 0
    ensures HitProbability(g, threshold) == HitCount(g, threshold) as real / |g| as real
    ensures HitProbability(g, threshold) == |HitSet(g, threshold)| as real / |g| as real
  {
    MaskSum(g, threshold);
    HitCountIsCardinality(g, threshold);
  }

  /** A higher barrier never hits more paths. */
  lemma {:induction false} HitCountAntitone(g: Grid, low: real, high: real)
    requires low <= high
    ensures HitCount(g, high) <= HitCount(g, low)
  {
    if g != [] {
      HitCountAntitone(g[..|g| - 1], low, high);
      if Hits(g[|g| - 1], high) {
        var t :| 0 <= t < |g[|g| - 1]| && g[|g| - 1][t] >= high;
        assert g[|g| - 1][t] >= low;
      }
    }
  }

  /** `hit_prob` is weakly decreasing in the threshold. */
  lemma HitProbabilityAntitone(g: Grid, low: real, high: real)
    requires |g| > 0
    requires low <= high
    ensures HitProbability(g, high) <= HitProbability(g, low)
  {
    HitCountAntitone(g, low, high);
    HitProbabilityIsFraction(g, low);
    HitProbabilityIsFraction(g, high);
    DivMonotone(HitCount(g, high) as real, HitCount(g, low) as real, |g| as real);
  }

  /** The contribution of one path to `hit_indices[hit_mask]`: its first
      crossing step when it hits, nothing otherwise. */
  function PathHitIndex(p: seq<real>, threshold: real): seq<real>
  {
    if Hits(p, threshold) then [FirstIndex(p, threshold) as real] else []
  }

  /** `hit_indices[hit_mask]`: the first-crossing steps of the hitting
      paths, in path order. */
  function HitIndices(g: Grid, threshold: real): (indices: seq<real>)
    ensures |indices| == HitCount(g, threshold)
  {
    if g == [] then []
    else HitIndices(g[..|g| - 1], threshold) + PathHitIndex(g[|g| - 1], threshold)
  }

  /** `hit_times = hit_indices[hit_mask] * dt`. */
  function HitTimes(g: Grid, threshold: real, dt: real): (times: seq<real>)
    ensures |times| == HitCount(g, threshold)
  {
    Scale(HitIndices(g, threshold), dt)
  }

  /** The mean first-crossing time over hitting paths only, or `None`
      when no path hits. */
  function AvgHitTime(g: Grid, threshold: real, dt: real): (avg: Option<real>)
    ensures avg.None? <==> forall i :: 0 <= i < |g| ==> !Hits(g[i], threshold)
    ensures avg.Some? ==> HitCount(g, threshold) > 0 && avg.value == Sum(HitTimes(g, threshold, dt)) / HitCount(g, threshold) as real
  {
    NoHitsIffZeroCount(g, threshold);
    var times := HitTimes(g, threshold, dt);
    if |times| > 0 then Some(Mean(times)) else None
  }

  /** The first-crossing step of one path is one of its columns. */
  lemma PathHitIndexBounded(p: seq<real>, threshold: real)
    ensures Within(PathHitIndex(p, threshold), 0.0, (|p| - 1) as real)
  {
  }

  /** If every path's own crossing step lies in `[low, high]`, so do all of them. */
  lemma {:induction false} HitIndicesWithin(g: Grid, threshold: real, low: real, high: real)
    requires forall i :: 0 <= i < |g| ==> Within(PathHitIndex(g[i], threshold), low, high)
    ensures Within(HitIndices(g, threshold), low, high)
  {
    if g != [] {
      var front, last := g[..|g| - 1], g[|g| - 1];
      assert forall i :: 0 <= i < |front| ==> front[i] == g[i];
      HitIndicesWithin(front, threshold, low, high);
      WithinConcat(HitIndices(front, threshold), PathHitIndex(last, threshold), low, high);
    }
  }

  /** On a grid of `n_steps` columns, every recorded crossing step is at
      most the last column `n_steps - 1`. */
  lemma HitIndicesBounded(g: Grid, threshold: real, nSteps: nat)
    requires forall i :: 0 <= i < |g| ==> |g[i]| == nSteps
    ensures Within(HitIndices(g, threshold), 0.0, (nSteps - 1) as real)
  {
    forall i | 0 <= i < |g|
      ensures Within(PathHitIndex(g[i], threshold), 0.0, (nSteps - 1) as real)
    {
      PathHitIndexBounded(g[i], threshold);
    }
    HitIndicesWithin(g, threshold, 0.0, (nSteps - 1) as real);
  }

  /** The time of the last column, `(n_steps - 1) * dt`. */
  function LastStepTime(nSteps: nat, dt: real): real
  {
    (nSteps - 1) as real * dt
  }

  /** `avg_hit_time`, when present, lies in `[0, (n_steps - 1) * dt]`: the
      last column is `n_steps - 1`, so the horizon `T` itself is never reached. */
  lemma AvgHitTimeBounds(g: Grid, threshold: real, dt: real, nSteps: nat)
    requires dt >= 0.0
    requires forall i :: 0 <= i < |g| ==> |g[i]| == nSteps
    ensures AvgHitTime(g, threshold, dt).Some? ==>
              0.0 <= AvgHitTime(g, threshold, dt).value <= LastStepTime(nSteps, dt)
  {
    var indices := HitIndices(g, threshold);
    if |indices| > 0 {
      HitIndicesBounded(g, threshold, nSteps);
      MeanScaleBounds(indices, (nSteps - 1) as real, dt);
    }
  }

  /** When every path starts at or above the barrier, every path counts and
      every crossing step is 0. */
  lemma {:induction false} AllHitAtStart(g: Grid, threshold: real)
    requires forall i :: 0 <= i < |g| ==> |g[i]| > 0 && g[i][0] >= threshold
    ensures HitCount(g, threshold) == |g|
    ensures Within(HitIndices(g, threshold), 0.0, 0.0)
  {
    if g != [] {
      var front, last := g[..|g| - 1], g[|g| - 1];
      assert forall i :: 0 <= i < |front| ==> front[i] == g[i];
      AllHitAtStart(front, threshold);
      assert Hits(last, threshold);
      assert FirstIndex(last, threshold) == 0;
      WithinConcat(HitIndices(front, threshold), PathHitIndex(last, threshold), 0.0, 0.0);
    }
  }

  /** Every simulated path starts at `s0` and is as long as its row of factors. */
  lemma SimulatedPathsStart(s0: real, factors: Grid)
    ensures |SimulatedPaths(s0, factors)| == |factors|
    ensures forall i :: 0 <= i < |factors| ==>
              |SimulatedPaths(s0, factors)[i]| == |factors[i]|
              && (|factors[i]| > 0 ==> SimulatedPaths(s0, factors)[i][0] == s0)
  {
    forall i | 0 <= i < |factors|
      ensures |SimulatedPaths(s0, factors)[i]| == |factors[i]|
      ensures |factors[i]| > 0 ==> SimulatedPaths(s0, factors)[i][0] == s0
    {
      assert SimulatedPaths(s0, factors)[i] == Path(s0, factors[i]);
    }
  }

  /** A barrier at or below `s0` is hit by every path at time 0, because
      column 0 holds `s0` and is part of the barrier check. */
  lemma ThresholdAtOrBelowStart(s0: real, factors: Grid, threshold: real, dt: real)
    requires |factors| > 0
    requires forall i :: 0 <= i < |factors| ==> |factors[i]| > 0
    requires threshold <= s0
    ensures HitCount(SimulatedPaths(s0, factors), threshold) == |factors|
    ensures HitProbability(SimulatedPaths(s0, factors), threshold) == 1.0
    ensures AvgHitTime(SimulatedPaths(s0, factors), threshold, dt) == Some(0.0)
  {
    var g := SimulatedPaths(s0, factors);
    SimulatedPathsStart(s0, factors);
    AllHitAtStart(g, threshold);
    HitCountIsCardinality(g, threshold);
    var indices := HitIndices(g, threshold);
    MeanScaleZero(indices, dt);
    HitProbabilityIsFraction(g, threshold);
    DivSelf(|g| as real);
  }

  /** `np.where(hit_mask, threshold - K, 0)`: the fixed sell-at-barrier
      payoff of each path. */
  function Payoffs(g: Grid, threshold: real, k: real): seq<real>
  {
    seq(|g|, i requires 0 <= i < |g| => if Hits(g[i], threshold) then threshold - k else 0.0)
  }

  /** Non-hitting paths pay nothing: the payoffs are the mask scaled by
      `threshold - K`. */
  lemma PayoffsScaleMask(g: Grid, threshold: real, k: real)
    ensures Payoffs(g, threshold, k) == Scale(Mask(g, threshold), threshold - k)
  {
  }

  /** `PV = mean(payoff) * exp(-r T)`, with the discount factor supplied:
      the hit probability times the fixed payoff, discounted. */
  function PresentValue(g: Grid, threshold: real, k: real, discount: real): (pv: real)
    requires |g| > 0
    ensures pv == HitProbability(g, threshold) * (threshold - k) * discount
  {
    PayoffsScaleMask(g, threshold, k);
    MeanScale(Mask(g, threshold), threshold - k);
    Mean(Payoffs(g, threshold, k)) * discount
  }

  /** `avg_hit_time` is `None` exactly when `hit_prob` is 0. */
  lemma NoAverageIffZeroProbability(g: Grid, threshold: real, dt: real)
    requires |g| > 0
    ensures AvgHitTime(g, threshold, dt).None? <==> HitProbability(g, threshold) == 0.0
  {
    NoHitsIffZeroCount(g, threshold);
    HitProbabilityIsFraction(g, threshold);
    DivZero(HitCount(g, threshold) as real, |g| as real);
  }

  /** `dt = T / n_steps`: the horizon split into `n_steps` equal steps. */
  function StepSize(T: real, nSteps: nat): (dt: real)
    requires nSteps > 0
    ensures T >= 0.0 ==> dt >= 0.0
  {
    DivNonnegative(T, nSteps as real);
    T / nSteps as real
  }

  /** The last column is one step short of the horizon: the largest
      recordable hit time is `T - dt`, strictly before `T`. */
  lemma LastStepBeforeHorizon(T: real, nSteps: nat)
    requires nSteps > 0 && T > 0.0
    ensures LastStepTime(nSteps, StepSize(T, nSteps)) == T - StepSize(T, nSteps) < T
  {
    var n, dt := nSteps as real, StepSize(T, nSteps);
    assert dt * n == T;
    assert (n - 1.0) * dt == dt * n - dt;
    assert dt > 0.0 by {
      DivNonnegative(T, n);
      DivZero(T, n);
    }
  }

  /** The reductions over a finished grid: the hit fraction, the mean
      first-crossing time over hitting paths (or `None`) and the discounted
      mean payoff. */
  method Summarize(g: Grid, threshold: real, k: real, discount: real, dt: real, nSteps: nat)
    returns (hitProb: real, avgHitTime: Option<real>, pv: real)
    requires |g| > 0
    requires forall i :: 0 <= i < |g| ==> |g[i]| == nSteps
    ensures hitProb == HitProbability(g, threshold)
    ensures avgHitTime == AvgHitTime(g, threshold, dt)
    ensures pv == PresentValue(g, threshold, k, discount)
    ensures 0.0 <= hitProb <= 1.0
    ensures pv == hitProb * (threshold - k) * discount
    ensures avgHitTime.None? <==> hitProb == 0.0
    ensures dt >= 0.0 && avgHitTime.Some? ==> 0.0 <= avgHitTime.value <= LastStepTime(nSteps, dt)
  {
    hitProb := HitProbability(g, threshold);
    avgHitTime := AvgHitTime(g, threshold, dt);
    pv := PresentValue(g, threshold, k, discount);
    NoAverageIffZeroProbability(g, threshold, dt);
    if dt >= 0.0 {
      AvgHitTimeBounds(g, threshold, dt, nSteps);
    }
  }

  /**
   * `monte_carlo_option_hit`: fills the grid, then returns the hit
   * probability, the mean first-crossing time over hitting paths (or `None`)
   * and the discounted payoff. `dt` is `T / n_steps`; `discount` stands for
   * `exp(-r T)`.
   */
  method MonteCarloOptionHit(s0: real, k: real, T: real, threshold: real, discount: real,
                             factors: array2<real>)
    returns (hitProb: real, avgHitTime: Option<real>, pv: real)
    requires factors.Length0 > 0 && factors.Length1 > 0
    ensures var g := SimulatedPaths(s0, Rows(factors));
            && hitProb == HitProbability(g, threshold)
            && avgHitTime == AvgHitTime(g, threshold, StepSize(T, factors.Length1))
            && pv == PresentValue(g, threshold, k, discount)
    ensures 0.0 <= hitProb <= 1.0
    ensures pv == hitProb * (threshold - k) * discount
    ensures avgHitTime.None? <==> hitProb == 0.0
    ensures T >= 0.0 && avgHitTime.Some? ==>
              0.0 <= avgHitTime.value <= LastStepTime(factors.Length1, StepSize(T, factors.Length1))
    ensures threshold <= s0 ==> hitProb == 1.0 && avgHitTime == Some(0.0)
  {
    var nSteps := factors.Length1;
    var dt := StepSize(T, nSteps);
    var s := SimulateGrid(s0, factors);
    RowsWidth(s);
    hitProb, avgHitTime, pv := Summarize(Rows(s), threshold, k, discount, dt, nSteps);
    if threshold <= s0 {
      RowsWidth(factors);
      ThresholdAtOrBelowStart(s0, Rows(factors), threshold, dt);
    }
  }
}
