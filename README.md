# Take-profit option pricer: verified model of its decision core

The program is a small desktop tool. The user enters a call option's spot
price, strike, rates, volatility, bid/ask quote, expiration date (as
MMDDYYYY) and a take-profit multiple. The tool then:

- prices the option with Black-Scholes;
- runs a Monte Carlo simulation of the underlying stock to estimate how
  likely its simulated price is to reach `midpoint * multiple` before
  expiry, how soon, and what a sell at that barrier is worth today;
- prints a verdict comparing the quoted midpoint with the fair value.

This project models and proves the exact, deterministic parts of that
pipeline in Dafny:

- `wrappers.dfy` (`Wrappers`) defines `Option`, Python's `None` or a value.
- `reals.dfy` (`Reals`) holds sums and means of real sequences, scaling, and
  bounds. These are the helper facts the estimator needs.
- `monte_carlo.dfy` (`MonteCarlo`) models `monte_carlo_option_hit`:
  - The price grid is a two-dimensional `array2<real>`, filled in place column by column
    (`SimulateGrid`, with `StepColumn` as one vectorised column update).
  - Its contents are tied to the pure description `SimulatedPaths`.
  - The reductions are functions over the finished grid: the hit mask, hit
    probability, first-crossing index (`argmax`), the mean hit time over
    hitting paths only, and the discounted fixed payoff.
  - `MonteCarloOptionHit` is the whole routine.
- `expiry.dfy` (`Expiry`) models the expiration entry:
  - `strip()`, then an all-digits check for exactly eight characters, then the
    month/day/year slices;
  - a formatter that is its inverse, with round-trip lemmas in both
    directions.
- `analyzer.dfy` (`Analyzer`) models:
  - the quote midpoint and the take-profit barrier;
  - the three-way verdict with its one-cent tolerance;
  - the order in which "Run" rejects input, including the pricer's
    exceptions and the division by `C0`;
  - the monotonicity of hits in the multiple.

The random normal draws and the growth factor
`exp((r - q - sigma^2/2) dt + sigma sqrt(dt) Z)` are inputs: an
`n_paths x n_steps` array of factors. The discount factor `exp(-r T)` is an
input too. Everything downstream of them is exact over the reals. "Run"
relies on the defaults `n_paths = 20000` and `n_steps = 126`, which become
the two dimensions of the factor array rather than constants of the model.
`q` is passed explicitly, and inside the estimator it enters only the
factors; `r` enters the factors and the discount.

Some facts the model keeps from the code:

- The barrier check includes column 0. A barrier at or below `S0` is
  therefore hit by every path at time 0 (`ThresholdAtOrBelowStart`).
- The barrier is an option price (`threshold = midpoint * multiple`, from the
  option's own bid and ask), but it is compared with simulated prices of the
  underlying stock, which start at `S0`, and paid out as `threshold - K`.
  The model keeps this as written. For an ordinary quote (midpoint 5,
  multiple 2, `S0 = 100`) the barrier is below `S0`, so `hit_prob = 1`,
  `avg_hit_time = 0` and `PV = (threshold - K) * discount`, which is
  negative whenever `threshold < K`.
- The column loop starts at 1, so factor column 0 is never used
  (`PriceIgnoresFirstFactor`).
- The largest possible hit time is `(n_steps - 1) * dt`, which is `T - dt`
  and so falls short of `T` (`AvgHitTimeBounds`, `MonteCarloOptionHit`,
  `LastStepBeforeHorizon`).
- A fair value of exactly 0 makes the percentage on line 152 divide by
  zero, so "Run" ends in its error message without a verdict (see
  Findings).

The verdict labels follow the code as written: a midpoint at least a cent
above the fair value is labelled `UNDERVALUED` (`Classify`). The labels are
not swapped to their usual financial reading.

## Model

| member | source | states |
|---|---|---|
| MonteCarlo.Price | optiontakeprofitui_pandas.py:25-27 | the reference price of a path at step `t`: `S0` at step 0, then the previous price times that step's factor (stated by `PathRecurrence`) |
| MonteCarlo.Path | optiontakeprofitui_pandas.py:25-27 | one reference path is as long as its factor row and starts at `S0` |
| MonteCarlo.SimulatedPaths | optiontakeprofitui_pandas.py:24-27 | the reference grid, one path per factor row, that `SimulateGrid` is proved to build (its shape and start in `SimulatedPathsStart`) |
| MonteCarlo.PathRecurrence | optiontakeprofitui_pandas.py:25-27 | each simulated price is the previous step's price times that step's factor |
| MonteCarlo.GridOfPrices | optiontakeprofitui_pandas.py:24-27 | a grid whose every cell is the price of its path at its step is exactly the simulated grid |
| MonteCarlo.StepColumn | optiontakeprofitui_pandas.py:26-27 | one statement `S[:, t] = S[:, t-1] * factor[:, t]`: column `t` becomes column `t-1` times the factors, every other cell is unchanged |
| MonteCarlo.SimulateGrid | optiontakeprofitui_pandas.py:24-27 | allocates a fresh grid of the factors' shape whose rows are the simulated paths: column 0 is `S0`, column `t` is column `t-1` times factor column `t` |
| MonteCarlo.PricePositive | optiontakeprofitui_pandas.py:25-27 | with a positive start and positive factors from step 1 on, every simulated price is positive |
| MonteCarlo.PriceIgnoresFirstFactor | optiontakeprofitui_pandas.py:26-27 | replacing the factor of step 0 changes no price, because the loop starts at `t = 1` |
| MonteCarlo.Hits | optiontakeprofitui_pandas.py:29 | `np.any(S >= threshold, axis=1)` for one path: some step, step 0 included, is at or above the barrier (used by `FirstIndex` and `HitCountIsCardinality`) |
| MonteCarlo.FirstIndexFrom | optiontakeprofitui_pandas.py:31 | the first index from `t` on at or above the barrier, with every earlier index from `t` below it; 0 when there is none |
| MonteCarlo.FirstIndex | optiontakeprofitui_pandas.py:31 | `argmax` of the boolean row: for a hitting path the smallest step at or above the barrier, every earlier step below it; 0 for a non-hitting path |
| MonteCarlo.HitCount | optiontakeprofitui_pandas.py:29 | the number of hitting paths is at most the number of paths |
| MonteCarlo.HitCountIsCardinality | optiontakeprofitui_pandas.py:29-30 | the count of hitting paths is the size of the set of indices of paths with some step at or above the barrier |
| MonteCarlo.NoHitsIffZeroCount | optiontakeprofitui_pandas.py:29-30 | the count is 0 exactly when no path reaches the barrier |
| MonteCarlo.Mask | optiontakeprofitui_pandas.py:29-30 | `hit_mask` as numbers, 1 for a hitting path and 0 otherwise, whose sum `MaskSum` gives |
| MonteCarlo.MaskSum | optiontakeprofitui_pandas.py:29-30 | the 0/1 hit mask sums to the number of hitting paths |
| MonteCarlo.HitProbability | optiontakeprofitui_pandas.py:30 | `hit_mask.mean()` lies in [0, 1] |
| MonteCarlo.HitProbabilityIsFraction | optiontakeprofitui_pandas.py:29-30 | `hit_prob` equals the number of hitting paths divided by `n_paths` |
| MonteCarlo.HitCountAntitone | optiontakeprofitui_pandas.py:29-30 | on the same grid, raising the threshold never increases the number of hitting paths |
| MonteCarlo.HitProbabilityAntitone | optiontakeprofitui_pandas.py:29-30 | on the same grid, raising the threshold never increases `hit_prob` |
| MonteCarlo.HitIndices | optiontakeprofitui_pandas.py:31-32 | `hit_indices[hit_mask]` has one entry per hitting path |
| MonteCarlo.HitTimes | optiontakeprofitui_pandas.py:32 | `hit_times` has one entry per hitting path |
| MonteCarlo.AvgHitTime | optiontakeprofitui_pandas.py:32-33 | `None` exactly when no path hits; otherwise the sum of the hitting paths' times divided by their number |
| MonteCarlo.PathHitIndexBounded | optiontakeprofitui_pandas.py:26-31 | a path's first-crossing index is one of its columns, between 0 and its last step |
| MonteCarlo.HitIndicesWithin | optiontakeprofitui_pandas.py:31-32 | if every path's own crossing index lies in an interval, so does every entry of `hit_indices[hit_mask]` |
| MonteCarlo.HitIndicesBounded | optiontakeprofitui_pandas.py:26-32 | on a grid of `n_steps` columns every recorded crossing index lies in [0, n_steps - 1] |
| MonteCarlo.AvgHitTimeBounds | optiontakeprofitui_pandas.py:26-33 | a present `avg_hit_time` lies in [0, (n_steps - 1) * dt] for `dt >= 0` |
| MonteCarlo.AllHitAtStart | optiontakeprofitui_pandas.py:29-32 | when every path starts at or above the barrier, every path hits and every crossing index is 0 |
| MonteCarlo.SimulatedPathsStart | optiontakeprofitui_pandas.py:24-25 | every simulated path is as long as its factor row and starts at `S0` |
| MonteCarlo.ThresholdAtOrBelowStart | optiontakeprofitui_pandas.py:25-33 | a threshold at or below `S0` gives every path a hit, `hit_prob = 1` and `avg_hit_time = 0` |
| MonteCarlo.Payoffs | optiontakeprofitui_pandas.py:35 | `np.where(hit_mask, threshold - K, 0)`, related to the mask by `PayoffsScaleMask` |
| MonteCarlo.PayoffsScaleMask | optiontakeprofitui_pandas.py:35 | the payoff vector is the hit mask scaled by `threshold - K`, so non-hitting paths pay 0 |
| MonteCarlo.PresentValue | optiontakeprofitui_pandas.py:35-36 | `PV` is `hit_prob * (threshold - K)` times the discount factor |
| MonteCarlo.NoAverageIffZeroProbability | optiontakeprofitui_pandas.py:29-33 | `avg_hit_time` is `None` exactly when `hit_prob` is 0 |
| MonteCarlo.StepSize | optiontakeprofitui_pandas.py:21 | `dt = T / n_steps` is non-negative for a non-negative horizon |
| MonteCarlo.LastStepBeforeHorizon | optiontakeprofitui_pandas.py:21-32 | for `T > 0` the time of the last column, `(n_steps - 1) * dt`, equals `T - dt` and is strictly less than `T` |
| MonteCarlo.Summarize | optiontakeprofitui_pandas.py:29-36 | the three results on a finished grid: `hit_prob` in [0, 1], `PV = hit_prob * (threshold - K) * discount`, `None` average exactly when `hit_prob = 0`, average within [0, (n_steps - 1) * dt] |
| MonteCarlo.MonteCarloOptionHit | optiontakeprofitui_pandas.py:20-37 | the returned triple is the reductions of the simulated grid, and satisfies the probability, payoff, `None` and time-bound facts, plus `hit_prob = 1`, `avg_hit_time = 0` when `threshold <= S0` |
| Expiry.Strip | optiontakeprofitui_pandas.py:127 | `strip()` is no longer than the entry and has no white space, in Python's sense, at either end |
| Expiry.SkipSpaceFrom | optiontakeprofitui_pandas.py:127 | the first position from `k` on that is not white space, with only white space skipped |
| Expiry.SkipSpaceBack | optiontakeprofitui_pandas.py:127 | the end of the text before `k` once trailing white space is dropped, with only white space dropped |
| Expiry.StripIsTrimmedSlice | optiontakeprofitui_pandas.py:127 | `strip()` keeps a contiguous piece of the entry, removes only white space on either side, and leaves no white space at either end |
| Expiry.StripNoSpace | optiontakeprofitui_pandas.py:127 | `strip()` leaves a string without white space unchanged |
| Expiry.StripLeadingSpace | optiontakeprofitui_pandas.py:127 | one leading white-space character, whichever it is, is removed from a string without white space |
| Expiry.IsDigits | optiontakeprofitui_pandas.py:128 | `isdigit()` on ASCII text: non-empty and every character a decimal digit (the acceptance condition of `ParseExpiry`) |
| Expiry.DigitsValue | optiontakeprofitui_pandas.py:132-134 | `int()` of a k-digit string is below 10^k |
| Expiry.Digits | optiontakeprofitui_pandas.py:128-134 | zero-padded formatting, the inverse of the slice reading: exactly `w` characters, all digits |
| Expiry.DigitsValueOfDigits | optiontakeprofitui_pandas.py:132-134 | a number below 10^w written in `w` digits reads back as itself |
| Expiry.DigitsOfDigitsValue | optiontakeprofitui_pandas.py:132-134 | a digit string read as a number and written back in as many digits is itself, leading zeros included |
| Expiry.Field | optiontakeprofitui_pandas.py:132-134 | `int(s[lo:hi])` of a digit slice is below 10^(hi - lo) |
| Expiry.ParseExpiry | optiontakeprofitui_pandas.py:127-134 | the stripped entry is accepted exactly when it is 8 characters long and all digits; then month, day and year are the numbers of slices [0:2], [2:4], [4:8] |
| Expiry.FormatExpiry | optiontakeprofitui_pandas.py:128-134 | the MMDDYYYY text of a date is 8 digits, the shape the check accepts |
| Expiry.ParseFormat | optiontakeprofitui_pandas.py:127-134 | every date with a 2-digit month and day and a 4-digit year, written as MMDDYYYY, is accepted and read back unchanged |
| Expiry.FormatParse | optiontakeprofitui_pandas.py:127-134 | an accepted entry, once stripped, is exactly the MMDDYYYY text of the date read from it |
| Expiry.ParseAfterLeadingSpace | optiontakeprofitui_pandas.py:127-134 | a date entered after any one white-space character, the unit separator U+001F included, is accepted and read as that date |
| Analyzer.Midpoint | optiontakeprofitui_pandas.py:125 | the midpoint is equidistant from bid and ask and lies between them |
| Analyzer.TakeProfitThreshold | optiontakeprofitui_pandas.py:143 | `threshold = midpoint * multiple`, whose monotonicity `ThresholdMonotone` states |
| Analyzer.ThresholdMonotone | optiontakeprofitui_pandas.py:143 | with a non-negative midpoint, a larger multiple never lowers the barrier, and a multiple of at least 1 puts it at or above the midpoint |
| Analyzer.Classify | optiontakeprofitui_pandas.py:150-151 | FAIRLY PRICED iff abs(midpoint - C0) < 0.01, UNDERVALUED iff the difference is at least 0.01, OVERVALUED iff it is at most -0.01; exactly one applies |
| Analyzer.VerdictUnderShift | optiontakeprofitui_pandas.py:150-151 | with `C0` fixed, raising the midpoint keeps UNDERVALUED, and lowering it keeps OVERVALUED |
| Analyzer.YearsToExpiry | optiontakeprofitui_pandas.py:136-137 | `T = days / 365` is positive exactly when the expiry is at least one day ahead, and 365 T recovers the days |
| Analyzer.PricerDefined | optiontakeprofitui_pandas.py:11-12 | `black_scholes_call` returns instead of raising: `K` non-zero, `S0 / K` in the domain of `log`, `sigma` non-zero |
| Analyzer.DiffPercent | optiontakeprofitui_pandas.py:152 | `diff_percent` times `C0` is `100 * diff` |
| Analyzer.Run | optiontakeprofitui_pandas.py:125-152 | a malformed entry is rejected first, then a date read from it that the calendar rejects, then a horizon (the day count of that date over 365) that is not in the future, then a pricer exception (line 146), then `C0 = 0` (the division on line 152); each gives an error and no verdict. Only otherwise, so only with `C0` non-zero, is a report produced, with the midpoint, `diff = midpoint - C0`, `diff_percent`, the verdict and `threshold = midpoint * multiple` |
| Analyzer.ZeroFairValueLosesVerdict | optiontakeprofitui_pandas.py:150-152 | with every entry accepted and `C0 = 0`, "Run" as written ends in the division-by-zero error instead of a verdict |
| Analyzer.RunCorrected | optiontakeprofitui_pandas.py:150-152 | never ends in the division by zero; it leaves the percentage undefined exactly when `C0 = 0`, and agrees with `Run` whenever `C0` is non-zero |
| Analyzer.CorrectedAlwaysReports | optiontakeprofitui_pandas.py:150-152 | with the correction, every accepted input the pricer can price gets the verdict `Classify` gives |
| Analyzer.HigherMultipleNoMoreHits | optiontakeprofitui_pandas.py:143-146 | on the same grid, a larger take-profit multiple never raises the number of hitting paths or the hit probability |

## Left out

- `black_scholes_call` (lines 11-15) is not modelled, because it needs `log`, `sqrt`, `exp` and `erf`, which Dafny reals do not have. Its result `C0` is an input to `Analyzer.Run` and `Analyzer.Classify`; when it raises, `Run` ends in `PricingError`.
- Analyzer.PricerDefined: only the exceptions visible in the pricer's text are modelled (`K = 0`, `S0 / K <= 0`, `sigma = 0`); a floating-point overflow inside `exp` is not.
- Random draws and seeding (`np.random.seed`, `np.random.normal`) are not modelled. Neither is the `exp`/`sqrt` growth factor: it is an input array of factors, and `PricePositive` assumes them positive, as `exp` values are.
- The discount factor `exp(-r T)` is an input (`discount`) to `MonteCarloOptionHit` and `PresentValue`.
- `autofill_from_ticker` is not modelled: it is a network call to a market-data service.
- The tkinter user interface is not modelled: widgets, reading and clearing entries, and text output.
- `float(...)` parsing of the numeric fields is not modelled. These errors would be reported through the generic `except` branch; the numbers are inputs.
- Analyzer.Run: the day count `(expiry_date - today).days` needs a clock and a calendar, so it is a function parameter (`dayCount`), applied to the date read from the entry. `None` stands for a date `datetime(...)` rejects, such as month 0.
- The runtime measurement with `time.time()` is not modelled.
- The display rule on line 161 is not modelled: it prints `N/A` for an average hit time of exactly 0.0.
- Machine floating point is not modelled. All arithmetic is exact over the reals, so rounding near the 0.01 tolerance or in the means is outside the model.
- MonteCarloOptionHit: `n_paths > 0` and `n_steps > 0` are preconditions. The code divides by zero for `n_steps = 0` and takes the mean of an empty array for `n_paths = 0`.
- Expiry.IsDigits, Expiry.ParseExpiry: only ASCII `0`-`9` count as digits. Python's `str.isdigit()` also accepts other Unicode digits, which `int(...)` may then reject.

## Findings

| source | as written | input that shows it | evidently intended | confidence | as-written member | corrected member |
|---|---|---|---|---|---|---|
| optiontakeprofitui_pandas.py:152 | `diff_percent = 100 * diff / C0` raises `ZeroDivisionError` when `C0 == 0.0`, so "Run" prints only an error and no verdict | S0 = 100, K = 200, sigma = 0.3, 7 days to expiry, r = q = 0: `d1` is about -16.7, so `erf(d1 / sqrt(2))` rounds to -1.0 and both `N(d1)` and `N(d2)` are exactly 0.0, hence `C0 == 0.0` | report the verdict against `C0 = 0` and leave the percentage undefined | not executed | Analyzer.ZeroFairValueLosesVerdict | Analyzer.CorrectedAlwaysReports |
