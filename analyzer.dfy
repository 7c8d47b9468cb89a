/**
 * The decision logic of the pricer form's "Run" action: the quoted
 * midpoint, the take-profit barrier, the order in which bad input is
 * rejected, and the verdict that compares the midpoint with the
 * model's fair value.
 */
module Analyzer {
  import opened Wrappers
  import opened Expiry
  import opened MonteCarlo
  import Reals

  /** The three verdict labels, as the form prints them. */
  datatype Verdict = FairlyPriced | Undervalued | Overvalued

  /** Differences smaller than a cent count as fairly priced. */
  const Tolerance: real := 0.01

  function Abs(x: real): (a: real)
    ensures a >= 0.0 && (a == x || a == -x)
  {
    if x < 0.0 then -x else x
  }

  /** `(bid + ask) / 2`: the point halfway between the two quotes. */
  function Midpoint(bid: real, ask: real): (m: real)
    ensures m - bid == ask - m
    ensures bid <= ask ==> bid <= m <= ask
    ensures ask <= bid ==> ask <= m <= bid
  {
    (bid + ask) / 2.0
  }

  /** `threshold = midpoint * multiple`: the option price at which the
      position would be sold. */
  function TakeProfitThreshold(midpoint: real, multiple: real): real
  {
    midpoint * multiple
  }

  /** A multiple of at least 1 puts the barrier at or above a non-negative
      midpoint; a larger multiple never lowers it. */
  lemma ThresholdMonotone(midpoint: real, m1: real, m2: real)
    requires midpoint >= 0.0 && m1 <= m2
    ensures TakeProfitThreshold(midpoint, m1) <= TakeProfitThreshold(midpoint, m2)
    ensures m1 >= 1.0 ==> TakeProfitThreshold(midpoint, m1) >= midpoint
  {
    Reals.MulMonotone(m1, m2, midpoint);
    if m1 >= 1.0 {
      Reals.MulMonotone(1.0, m1, midpoint);
    }
  }

  /** The verdict on `diff = midpoint - C0`. */
  function Classify(midpoint: real, fairValue: real): (v: Verdict)
    ensures v == FairlyPriced <==> Abs(midpoint - fairValue) < Tolerance
    ensures v == Undervalued <==> midpoint - fairValue >= Tolerance
    ensures v == Overvalued <==> midpoint - fairValue <= -Tolerance
  {
    var diff := midpoint - fairValue;
    if Abs(diff) < Tolerance then FairlyPriced
    else if diff > 0.0 then Undervalued
    else Overvalued
  }

  /** The verdict only moves one way as the quote rises against a fixed
      fair value: an undervalued quote stays undervalued when raised, and an
      overvalued one stays overvalued when lowered. */
  lemma VerdictUnderShift(fairValue: real, m1: real, m2: real)
    requires m1 <= m2
    ensures Classify(m1, fairValue) == Undervalued ==> Classify(m2, fairValue) == Undervalued
    ensures Classify(m2, fairValue) == Overvalued ==> Classify(m1, fairValue) == Overvalued
  {
  }

  /** What the "Run" action ends with. Every outcome but `Report` is an
      error message and no verdict. */
  datatype Outcome =
    | DateRejected
    | CalendarError
    | NotInFuture
    | PricingError
    | ZeroFairValue
    | Report(verdict: Verdict, diff: real, diffPercent: Option<real>, midpoint: real,
             threshold: real, horizon: real)

  /** The horizon `T` in years for a number of days to expiry. */
  function YearsToExpiry(days: int): (t: real)
    ensures t > 0.0 <==> days > 0
    ensures t * 365.0 == days as real
  {
    days as real / 365.0
  }

  /** `black_scholes_call` returns instead of raising: the strike is
      non-zero (`S / K`), the ratio is in the domain of `log`, and the
      volatility is non-zero (`sigma * sqrt(T)` divides). */
  predicate PricerDefined(s0: real, k: real, sigma: real)
  {
    k != 0.0 && s0 / k > 0.0 && sigma != 0.0
  }

  /** `100 * diff / C0`, the percentage the verdict line prints. */
  function DiffPercent(diff: real, fairValue: real): (p: real)
    requires fairValue != 0.0
    ensures p * fairValue == 100.0 * diff
  {
    100.0 * diff / fairValue
  }

  /**
   * The checks and computations of "Run", in their order: the expiry entry
   * is checked first, then the date must exist in the calendar, then the
   * horizon must be positive; then the barrier is computed and the pricer
   * called, and the verdict line needs `diff / C0`. Any exception on the way
   * ends in an error message instead of a report. `dayCount` gives, for the
   * date read from the entry, the number of days from today to it, or
   * `None` when the calendar rejects that date; `fairValue` is what
   * `black_scholes_call` returns when it returns.
   */
  function Run(s0: real, k: real, sigma: real, bid: real, ask: real, rawDate: string,
               dayCount: ExpiryDate -> Option<int>, multiple: real, fairValue: real): (o: Outcome)
    ensures o == DateRejected <==> ParseExpiry(rawDate).None?
    ensures o == CalendarError <==>
              ParseExpiry(rawDate).Some? && dayCount(ParseExpiry(rawDate).value).None?
    ensures o == NotInFuture <==>
              ParseExpiry(rawDate).Some? && dayCount(ParseExpiry(rawDate).value).Some?
              && dayCount(ParseExpiry(rawDate).value).value <= 0
    ensures o == PricingError <==>
              ParseExpiry(rawDate).Some? && dayCount(ParseExpiry(rawDate).value).Some?
              && dayCount(ParseExpiry(rawDate).value).value > 0
              && !PricerDefined(s0, k, sigma)
    ensures o == ZeroFairValue <==>
              ParseExpiry(rawDate).Some? && dayCount(ParseExpiry(rawDate).value).Some?
              && dayCount(ParseExpiry(rawDate).value).value > 0
              && PricerDefined(s0, k, sigma) && fairValue == 0.0
    ensures o.Report? ==>
              && ParseExpiry(rawDate).Some? && dayCount(ParseExpiry(rawDate).value).Some?
              && PricerDefined(s0, k, sigma) && fairValue != 0.0
              && o.horizon > 0.0
              && o.horizon * 365.0 == dayCount(ParseExpiry(rawDate).value).value as real
              && o.midpoint == Midpoint(bid, ask)
              && o.diff == o.midpoint - fairValue
              && o.diffPercent == Some(DiffPercent(o.diff, fairValue))
              && o.verdict == Classify(o.midpoint, fairValue)
              && o.threshold == TakeProfitThreshold(o.midpoint, multiple)
  {
    var midpoint := Midpoint(bid, ask);
    var date := ParseExpiry(rawDate);
    if date.None? then DateRejected
    else
      var days := dayCount(date.value);
      if days.None? then CalendarError
      else
        var t := YearsToExpiry(days.value);
        if t <= 0.0 then NotInFuture
        else
          var threshold := TakeProfitThreshold(midpoint, multiple);
          if !PricerDefined(s0, k, sigma) then PricingError
          else
            var diff := midpoint - fairValue;
            if fairValue == 0.0 then ZeroFairValue
            else Report(Classify(midpoint, fairValue), diff, Some(DiffPercent(diff, fairValue)),
                        midpoint, threshold, t)
  }

  /** As written, a fair value of exactly 0 (a far out-of-the-money call)
      loses the verdict although every input was accepted: the percentage
      divides by zero. */
  lemma ZeroFairValueLosesVerdict()
    ensures Run(100.0, 200.0, 0.3, 0.05, 0.07, FormatExpiry(ExpiryDate(12, 20, 2025)),
                d => Some(7), 2.0, 0.0)
              == ZeroFairValue
  {
    ParseFormat(ExpiryDate(12, 20, 2025));
  }

  /** "Run" with the evident intent for a zero fair value: the verdict is
      still reported and only the percentage is left undefined. */
  function RunCorrected(s0: real, k: real, sigma: real, bid: real, ask: real, rawDate: string,
                        dayCount: ExpiryDate -> Option<int>, multiple: real, fairValue: real): (o: Outcome)
    ensures o != ZeroFairValue
    ensures o.Report? ==> (o.diffPercent.None? <==> fairValue == 0.0)
    ensures fairValue != 0.0 ==>
              o == Run(s0, k, sigma, bid, ask, rawDate, dayCount, multiple, fairValue)
  {
    var o := Run(s0, k, sigma, bid, ask, rawDate, dayCount, multiple, fairValue);
    if o == ZeroFairValue then
      var midpoint := Midpoint(bid, ask);
      Report(Classify(midpoint, fairValue), midpoint - fairValue, None, midpoint,
             TakeProfitThreshold(midpoint, multiple),
             YearsToExpiry(dayCount(ParseExpiry(rawDate).value).value))
    else o
  }

  /** With the correction, every accepted input with a defined price gets a
      verdict, the one `Classify` gives. */
  lemma CorrectedAlwaysReports(s0: real, k: real, sigma: real, bid: real, ask: real, rawDate: string,
                               dayCount: ExpiryDate -> Option<int>, multiple: real, fairValue: real)
    requires ParseExpiry(rawDate).Some? && dayCount(ParseExpiry(rawDate).value).Some?
    requires dayCount(ParseExpiry(rawDate).value).value > 0 && PricerDefined(s0, k, sigma)
    ensures var o := RunCorrected(s0, k, sigma, bid, ask, rawDate, dayCount, multiple, fairValue);
            o.Report? && o.verdict == Classify(Midpoint(bid, ask), fairValue)
  {
  }

  /** On the same simulated grid, a larger take-profit multiple never
      raises the number of paths that reach the barrier, nor the hit
      probability. */
  lemma HigherMultipleNoMoreHits(g: Grid, midpoint: real, m1: real, m2: real)
    requires midpoint >= 0.0 && m1 <= m2
    ensures HitCount(g, TakeProfitThreshold(midpoint, m2)) <= HitCount(g, TakeProfitThreshold(midpoint, m1))
    ensures |g| > 0 ==>
              HitProbability(g, TakeProfitThreshold(midpoint, m2)) <= HitProbability(g, TakeProfitThreshold(midpoint, m1))
  {
    ThresholdMonotone(midpoint, m1, m2);
    HitCountAntitone(g, TakeProfitThreshold(midpoint, m1), TakeProfitThreshold(midpoint, m2));
    if |g| > 0 {
      HitProbabilityAntitone(g, TakeProfitThreshold(midpoint, m1), TakeProfitThreshold(midpoint, m2));
    }
  }
}
