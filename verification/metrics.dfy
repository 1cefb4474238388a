/** The risk metrics of `metrics.py`. Each drops the missing values of its
    input series first and answers the undefined sentinel (`None`) when
    nothing is left. Square root, non-integer powers and Pearson
    correlation are parameters; means and sample variances are exact. */
module Metrics {
  import opened Wrappers
  import opened SeqMath

  // ---------------------------------------------------------------------
  // Max drawdown

  /** `cummax()` at position i: the largest of s[0..i]. */
  function Peak(s: seq<real>, i: nat): (p: real)
    requires i < |s|
    ensures s[i] <= p
  {
    if i == 0 then s[0]
    else if s[i] >= Peak(s, i - 1) then s[i] else Peak(s, i - 1)
  }

  /** A position at or before i where the running maximum is attained. */
  function PeakIndex(s: seq<real>, i: nat): (k: nat)
    requires i < |s|
    ensures k <= i && s[k] == Peak(s, i)
  {
    if i == 0 then 0
    else if s[i] >= Peak(s, i - 1) then i else PeakIndex(s, i - 1)
  }

  lemma {:induction false} PeakAbove(s: seq<real>, k: nat, i: nat)
    requires k <= i < |s|
    ensures s[k] <= Peak(s, i)
    decreases i
  {
    if k < i {
      PeakAbove(s, k, i - 1);
    }
  }

  lemma {:induction false} PeakMonotone(s: seq<real>, i: nat, j: nat)
    requires i <= j < |s|
    ensures Peak(s, i) <= Peak(s, j)
    decreases j
  {
    if i < j {
      PeakMonotone(s, i, j - 1);
    }
  }

  /** The smallest element of a non-empty series (`min()`), and where it is. */
  function MinIndex(s: seq<real>): (k: nat)
    requires |s| > 0
    ensures k < |s|
    ensures forall i :: 0 <= i < |s| ==> s[k] <= s[i]
    decreases |s|
  {
    if |s| == 1 then 0
    else
      var k := MinIndex(s[..|s| - 1]);
      if s[k] <= s[|s| - 1] then k else |s| - 1
  }

  function Min(s: seq<real>): (r: real)
    requires |s| > 0
    ensures r in s
    ensures forall i :: 0 <= i < |s| ==> r <= s[i]
  {
    s[MinIndex(s)]
  }

  lemma DivUnique(a: real, b: real, q: real)
    requires b != 0.0 && q * b == a
    ensures a / b == q
  {
  }

  lemma QuotientTimes(x: real, p: real)
    requires p != 0.0
    ensures x / p * p == x
  {
  }

  /** The relative fall from peak to x is x / peak - 1. */
  lemma DrawdownAsRatio(x: real, peak: real)
    requires peak > 0.0
    ensures (x - peak) / peak == x / peak - 1.0
  {
    QuotientTimes(x, peak);
    DivUnique(x - peak, peak, x / peak - 1.0);
  }

  lemma RatioPositive(x: real, p: real)
    requires x > 0.0 && p > 0.0
    ensures x / p > 0.0
  {
    QuotientTimes(x, p);
    if x / p <= 0.0 {
      NonPositiveTimesPositive(x / p, p);
    }
  }

  lemma NonPositiveTimesPositive(a: real, p: real)
    requires a <= 0.0 && p > 0.0
    ensures a * p <= 0.0
  {
  }

  lemma RatioAtLeastOne(x: real, p: real)
    requires p > 0.0
    ensures x / p >= 1.0 <==> x >= p
    ensures x / p == 1.0 <==> x == p
  {
    QuotientTimes(x, p);
    var q := x / p;
    if q >= 1.0 {
      ScaleAtLeast(q, p);
    } else {
      ScaleBelow(q, p);
    }
  }

  lemma ScaleAtLeast(q: real, p: real)
    requires q >= 1.0 && p > 0.0
    ensures q * p >= p
    ensures q * p == p ==> q == 1.0
  {
    assert q * p - p == (q - 1.0) * p;
    if q > 1.0 {
      ProductPositive(q - 1.0, p);
    }
  }

  lemma ScaleBelow(q: real, p: real)
    requires q < 1.0 && p > 0.0
    ensures q * p < p
  {
    assert p - q * p == (1.0 - q) * p;
    ProductPositive(1.0 - q, p);
  }

  lemma RatioMonotone(x: real, low: real, peak: real)
    requires x > 0.0 && 0.0 < low <= peak
    ensures x / peak <= x / low
  {
    QuotientTimes(x, peak);
    QuotientTimes(x, low);
    var a := x / peak;
    var b := x / low;
    if a > b {
      assert a * peak - b * peak == (a - b) * peak;
      ProductPositive(a - b, peak);
      assert b * peak - b * low == b * (peak - low);
      RatioPositive(x, low);
      ProductNonNegative(peak - low, b);
    }
  }

  lemma DrawdownAboveMinusOne(x: real, peak: real)
    requires x > 0.0 && peak > 0.0
    ensures (x - peak) / peak > -1.0
  {
    DrawdownAsRatio(x, peak);
    RatioPositive(x, peak);
  }

  lemma DrawdownSign(x: real, peak: real)
    requires peak > 0.0
    ensures (x - peak) / peak >= 0.0 <==> x >= peak
    ensures (x - peak) / peak == 0.0 <==> x == peak
  {
    DrawdownAsRatio(x, peak);
    RatioAtLeastOne(x, peak);
  }

  lemma DeeperBelowHigherPeak(x: real, low: real, peak: real)
    requires x > 0.0 && 0.0 < low <= peak
    ensures (x - peak) / peak <= (x - low) / low
  {
    DrawdownAsRatio(x, peak);
    DrawdownAsRatio(x, low);
    RatioMonotone(x, low, peak);
  }

  lemma {:induction false} PeakAtLeastFirst(s: seq<real>, i: nat)
    requires i < |s|
    ensures s[0] <= Peak(s, i)
  {
    PeakAbove(s, 0, i);
  }

  /** `(equity - running_max) / running_max`. */
  function Drawdowns(s: seq<real>): (d: seq<real>)
    requires |s| > 0 && s[0] > 0.0
    ensures |d| == |s|
  {
    seq(|s|, i requires 0 <= i < |s| => DrawdownAt(s, i))
  }

  /** The drawdown at position i: the fall of s[i] below the running maximum. */
  function DrawdownAt(s: seq<real>, i: nat): (r: real)
    requires i < |s| && s[0] > 0.0
    ensures r <= 0.0
    ensures i == 0 ==> r == 0.0
  {
    PeakAtLeastFirst(s, i);
    DrawdownSign(s[i], Peak(s, i));
    (s[i] - Peak(s, i)) / Peak(s, i)
  }

  /** A drawdown is never positive, is 0 at the first point, and is above -1
      wherever the value is positive. */
  lemma DrawdownAtBounds(s: seq<real>, i: nat)
    requires i < |s| && s[0] > 0.0
    ensures DrawdownAt(s, i) <= 0.0
    ensures i == 0 ==> DrawdownAt(s, i) == 0.0
    ensures s[i] > 0.0 ==> DrawdownAt(s, i) > -1.0
  {
    PeakAtLeastFirst(s, i);
    DrawdownSign(s[i], Peak(s, i));
    if s[i] > 0.0 {
      DrawdownAboveMinusOne(s[i], Peak(s, i));
    }
  }

  /** The first present value is positive, so every running maximum is. */
  predicate StartsPositive(equity: seq<Option<real>>)
  {
    DropNa(equity) == [] || DropNa(equity)[0] > 0.0
  }

  predicate NonDecreasing(s: seq<real>)
  {
    forall i, j :: 0 <= i <= j < |s| ==> s[i] <= s[j]
  }

  /** The deepest fall below the running maximum of a series whose first
      value is positive, as a fraction (`dd.min()`). */
  function WorstDrawdown(s: seq<real>): (r: real)
    requires |s| > 0 && s[0] > 0.0
    ensures r <= 0.0
    ensures AllPositive(s) ==> r > -1.0
  {
    var d := Drawdowns(s);
    DrawdownBounds(s);
    Min(d)
  }

  /** `max_drawdown(equity)`: the worst drawdown of the present values in
      percent; undefined for a series with no present value. */
  function MaxDrawdown(equity: seq<Option<real>>): (r: Option<real>)
    requires StartsPositive(equity)
    ensures r.None? <==> DropNa(equity) == []
    ensures r.Some? ==> r.value <= 0.0
    ensures r.Some? && PresentPositive(equity) ==> r.value > -100.0
  {
    var s := DropNa(equity);
    if s == [] then None
    else
      PositiveWhenPresentPositive(equity);
      Some(WorstDrawdown(s) * 100.0)
  }

  lemma PositiveWhenPresentPositive(equity: seq<Option<real>>)
    ensures PresentPositive(equity) ==> AllPositive(DropNa(equity))
  {
    if PresentPositive(equity) {
      DropNaPositive(equity);
    }
  }

  /** Drawdown is 0 at the first point and above -1 wherever the value is positive. */
  lemma DrawdownBounds(s: seq<real>)
    requires |s| > 0 && s[0] > 0.0
    ensures Drawdowns(s)[0] == 0.0
    ensures Min(Drawdowns(s)) <= 0.0
    ensures AllPositive(s) ==> Min(Drawdowns(s)) > -1.0
  {
    DrawdownAtBounds(s, 0);
    if AllPositive(s) {
      var d := Drawdowns(s);
      var k := MinIndex(d);
      DrawdownAtBounds(s, k);
    }
  }

  /** Under a non-decreasing series every value is its own running maximum. */
  lemma {:induction false} PeakOfNonDecreasing(s: seq<real>, i: nat)
    requires NonDecreasing(s) && i < |s|
    ensures Peak(s, i) == s[i]
  {
    if i > 0 {
      PeakOfNonDecreasing(s, i - 1);
    }
  }

  /** The worst drawdown is exactly 0 when, and only when, the series never falls. */
  lemma ZeroDrawdownIffNonDecreasing(s: seq<real>)
    requires |s| > 0 && s[0] > 0.0
    ensures WorstDrawdown(s) == 0.0 <==> NonDecreasing(s)
  {
    var d := Drawdowns(s);
    var k := MinIndex(d);
    assert WorstDrawdown(s) == d[k];
    if NonDecreasing(s) {
      PeakOfNonDecreasing(s, k);
      PeakAtLeastFirst(s, k);
      DrawdownSign(s[k], Peak(s, k));
    }
    if d[k] == 0.0 {
      forall i | 0 <= i < |s|
        ensures s[i] == Peak(s, i)
      {
        PeakAtLeastFirst(s, i);
        assert d[k] <= d[i] == (s[i] - Peak(s, i)) / Peak(s, i);
        DrawdownSign(s[i], Peak(s, i));
        PeakAbove(s, i, i);
      }
      forall i, j | 0 <= i <= j < |s|
        ensures s[i] <= s[j]
      {
        PeakMonotone(s, i, j);
      }
    }
  }

  /** The relative change from the value at i to the value at j. */
  function Decline(s: seq<real>, i: nat, j: nat): real
    requires i <= j < |s| && s[i] > 0.0
  {
    (s[j] - s[i]) / s[i]
  }

  /** Reference definition: the worst drawdown is the worst relative change
      from any value to any later one. */
  lemma WorstDrawdownIsWorstDecline(s: seq<real>)
    requires |s| > 0 && AllPositive(s)
    ensures forall i, j :: 0 <= i <= j < |s| ==> WorstDrawdown(s) <= Decline(s, i, j)
    ensures exists i, j :: 0 <= i <= j < |s| && WorstDrawdown(s) == Decline(s, i, j)
  {
    var d := Drawdowns(s);
    var k := MinIndex(d);
    assert WorstDrawdown(s) == d[k];
    forall i, j | 0 <= i <= j < |s|
      ensures d[k] <= Decline(s, i, j)
    {
      DrawdownBelowDecline(s, i, j);
      assert d[k] <= d[j];
    }
    DrawdownFromPeak(s, k);
    assert d[k] == Decline(s, PeakIndex(s, k), k);
  }

  /** The drawdown at j is no shallower than the fall from any earlier value. */
  lemma DrawdownBelowDecline(s: seq<real>, i: nat, j: nat)
    requires AllPositive(s) && i <= j < |s|
    ensures DrawdownAt(s, j) <= Decline(s, i, j)
  {
    PeakAbove(s, i, j);
    DeeperBelowHigherPeak(s[j], s[i], Peak(s, j));
  }

  /** The drawdown at k is the fall from the position where its peak was set. */
  lemma DrawdownFromPeak(s: seq<real>, k: nat)
    requires AllPositive(s) && k < |s|
    ensures DrawdownAt(s, k) == Decline(s, PeakIndex(s, k), k)
  {
  }

  // ---------------------------------------------------------------------
  // Mean, sample variance and standard deviation

  /** `mean()` of a non-empty series. */
  function Mean(xs: seq<real>): (m: real)
    requires |xs| > 0
    ensures m * (|xs| as real) == Sum(xs)
  {
    Sum(xs) / |xs| as real
  }

  function Square(x: real): real
  {
    x * x
  }

  /** The sum of squared deviations from mu. */
  function SumSquares(xs: seq<real>, mu: real): real
  {
    if xs == [] then 0.0 else Square(xs[0] - mu) + SumSquares(xs[1..], mu)
  }

  /** `var()` with pandas' default of one degree of freedom. */
  function SampleVariance(xs: seq<real>): (v: real)
    requires |xs| >= 2
    ensures v * ((|xs| - 1) as real) == SumSquares(xs, Mean(xs))
  {
    SumSquares(xs, Mean(xs)) / (|xs| - 1) as real
  }

  /** `std()`: undefined below two observations (one degree of freedom). */
  function Std(xs: seq<real>, sqrt: real -> real): (r: Option<real>)
    ensures r.Some? <==> |xs| >= 2
  {
    if |xs| < 2 then None else Some(sqrt(SampleVariance(xs)))
  }

  /** The scaling of a per-period statistic by `sqrt(periods_per_year)`. */
  function Product(a: real, b: real): real
  {
    a * b
  }

  /** `xs - c`, element-wise. */
  function Subtract(xs: seq<real>, c: real): (r: seq<real>)
    ensures |r| == |xs|
    ensures forall i :: 0 <= i < |xs| ==> r[i] + c == xs[i]
  {
    seq(|xs|, i requires 0 <= i < |xs| => xs[i] - c)
  }

  predicate Constant(xs: seq<real>)
  {
    forall i, j :: 0 <= i < |xs| && 0 <= j < |xs| ==> xs[i] == xs[j]
  }

  lemma {:induction false} SumSubtract(xs: seq<real>, c: real)
    ensures Sum(Subtract(xs, c)) == Sum(xs) - |xs| as real * c
  {
    if xs != [] {
      assert Subtract(xs, c)[1..] == Subtract(xs[1..], c);
      SumSubtract(xs[1..], c);
    }
  }

  lemma ShiftedQuotient(s: real, n: real, c: real)
    requires n > 0.0
    ensures (s - n * c) / n == s / n - c
  {
    DivUnique(s - n * c, n, s / n - c);
  }

  /** Subtracting a constant moves the mean by that constant. */
  lemma MeanSubtract(xs: seq<real>, c: real)
    requires |xs| > 0
    ensures Mean(Subtract(xs, c)) == Mean(xs) - c
  {
    SumSubtract(xs, c);
    ShiftedQuotient(Sum(xs), |xs| as real, c);
  }

  lemma {:induction false} SumSquaresSubtract(xs: seq<real>, mu: real, c: real)
    ensures SumSquares(Subtract(xs, c), mu - c) == SumSquares(xs, mu)
  {
    if xs != [] {
      assert Subtract(xs, c)[1..] == Subtract(xs[1..], c);
      assert Subtract(xs, c)[0] - (mu - c) == xs[0] - mu;
      SumSquaresSubtract(xs[1..], mu, c);
    }
  }

  /** The sample variance does not change when every value is shifted by
      the same amount. */
  lemma VarianceSubtract(xs: seq<real>, c: real)
    requires |xs| >= 2
    ensures SampleVariance(Subtract(xs, c)) == SampleVariance(xs)
  {
    MeanSubtract(xs, c);
    SumSquaresSubtract(xs, Mean(xs), c);
  }

  lemma {:induction false} SumSquaresAtValue(xs: seq<real>, mu: real)
    requires forall i :: 0 <= i < |xs| ==> xs[i] == mu
    ensures SumSquares(xs, mu) == 0.0
  {
    if xs != [] {
      SumSquaresAtValue(xs[1..], mu);
    }
  }

  /** The mean of a constant series is its value. */
  lemma MeanOfConstant(xs: seq<real>)
    requires |xs| > 0 && Constant(xs)
    ensures Mean(xs) == xs[0]
  {
    assert xs == seq(|xs|, _ => xs[0]);
    SumConstant(|xs|, xs[0]);
    DivUnique(|xs| as real * xs[0], |xs| as real, xs[0]);
  }

  /** A constant series has no spread. */
  lemma VarianceOfConstant(xs: seq<real>)
    requires |xs| >= 2 && Constant(xs)
    ensures SampleVariance(xs) == 0.0
  {
    MeanOfConstant(xs);
    SumSquaresAtValue(xs, xs[0]);
  }

  // ---------------------------------------------------------------------
  // Annualised volatility, return and Sharpe ratio

  /** `annualized_vol(returns, periods_per_year)`: the sample standard
      deviation of the present returns scaled by the square root of the
      periods per year, in percent. */
  function AnnualizedVol(periodReturns: seq<Option<real>>, periodsPerYear: int := 252, sqrt: real -> real): (r: Option<real>)
    ensures r.Some? <==> |DropNa(periodReturns)| >= 2
  {
    var xs := DropNa(periodReturns);
    if xs == [] then None
    else
      match Std(xs, sqrt)
      case None => None
      case Some(sd) => Some(Product(sd, sqrt(periodsPerYear as real)) * 100.0)
  }

  /** With a square root that maps 0 to 0, returns that never vary have no
      volatility. */
  lemma VolOfConstant(periodReturns: seq<Option<real>>, periodsPerYear: int, sqrt: real -> real)
    requires sqrt(0.0) == 0.0
    requires |DropNa(periodReturns)| >= 2 && Constant(DropNa(periodReturns))
    ensures AnnualizedVol(periodReturns, periodsPerYear, sqrt) == Some(0.0)
  {
    VarianceOfConstant(DropNa(periodReturns));
  }

  /** `annualized_return(returns, periods_per_year)`: the product of
      `1 + r` over the present returns raised to `periods_per_year / n`,
      minus one, in percent. */
  function AnnualizedReturn(periodReturns: seq<Option<real>>, periodsPerYear: int := 252, pow: (real, real) -> real): (r: Option<real>)
    ensures r.None? <==> DropNa(periodReturns) == []
  {
    var xs := DropNa(periodReturns);
    if xs == [] then None
    else Some((pow(Compound(xs), periodsPerYear as real / |xs| as real) - 1.0) * 100.0)
  }

  /** Over exactly one year of observations the annualised return is the
      total compounded return of the present values. */
  lemma AnnualizedReturnOverOneYear(periodReturns: seq<Option<real>>, periodsPerYear: int, pow: (real, real) -> real)
    requires forall x :: pow(x, 1.0) == x
    requires periodsPerYear == |DropNa(periodReturns)| > 0
    ensures AnnualizedReturn(periodReturns, periodsPerYear, pow) == Some((Compound(DropNa(periodReturns)) - 1.0) * 100.0)
  {
    var n := |DropNa(periodReturns)| as real;
    DivideSelf(n);
  }

  /** Present returns that are all zero annualise to zero. */
  lemma AnnualizedReturnOfFlat(periodReturns: seq<Option<real>>, periodsPerYear: int, pow: (real, real) -> real)
    requires forall e :: pow(1.0, e) == 1.0
    requires forall i :: 0 <= i < |periodReturns| && periodReturns[i].Some? ==> periodReturns[i].value == 0.0
    requires DropNa(periodReturns) != []
    ensures AnnualizedReturn(periodReturns, periodsPerYear, pow) == Some(0.0)
  {
    DropNaZeros(periodReturns);
    CompoundOfZeros(DropNa(periodReturns));
  }

  lemma {:induction false} DropNaZeros(s: seq<Option<real>>)
    requires forall i :: 0 <= i < |s| && s[i].Some? ==> s[i].value == 0.0
    ensures forall i :: 0 <= i < |DropNa(s)| ==> DropNa(s)[i] == 0.0
  {
    if s != [] {
      DropNaZeros(s[1..]);
    }
  }

  /** `sharpe_ratio(returns, rf_annual, periods_per_year)`: mean excess
      return over its sample standard deviation, scaled by the square root
      of the periods per year. Dividing the annual risk-free rate by zero
      periods raises `ZeroDivisionError`. */
  function SharpeRatio(periodReturns: seq<Option<real>>, rfAnnual: real := 0.0, periodsPerYear: int := 252, sqrt: real -> real): (r: Result<Option<real>>)
    ensures r.Err? <==> DropNa(periodReturns) != [] && periodsPerYear == 0
    ensures DropNa(periodReturns) == [] ==> r == Ok(None)
    ensures |DropNa(periodReturns)| == 1 && periodsPerYear != 0 ==> r == Ok(None)
  {
    var xs := DropNa(periodReturns);
    if xs == [] then Ok(None)
    else if periodsPerYear == 0 then Err(ZeroDivisionError)
    else
      var excess := Subtract(xs, rfAnnual / periodsPerYear as real);
      var vol := Std(excess, sqrt);
      if vol.None? || vol.value == 0.0 then Ok(None)
      else Ok(Some(Product(Mean(excess) / vol.value, sqrt(periodsPerYear as real))))
  }

  /** Subtracting the risk-free rate does not change the spread: the Sharpe
      ratio is the mean return less the per-period risk-free rate, over the
      standard deviation of the returns themselves, and it is undefined
      exactly when that deviation is zero. */
  lemma SharpeUsesReturnSpread(periodReturns: seq<Option<real>>, rfAnnual: real, periodsPerYear: int, sqrt: real -> real)
    requires periodsPerYear != 0 && |DropNa(periodReturns)| >= 2
    ensures var xs := DropNa(periodReturns);
      var sd := Std(xs, sqrt).value;
      && (SharpeRatio(periodReturns, rfAnnual, periodsPerYear, sqrt) == Ok(None) <==> sd == 0.0)
      && (sd != 0.0 ==>
            SharpeRatio(periodReturns, rfAnnual, periodsPerYear, sqrt)
              == Ok(Some(Product((Mean(xs) - rfAnnual / periodsPerYear as real) / sd, sqrt(periodsPerYear as real)))))
  {
    var xs := DropNa(periodReturns);
    var c := rfAnnual / periodsPerYear as real;
    var excess := Subtract(xs, c);
    VarianceSubtract(xs, c);
    MeanSubtract(xs, c);
  }

  /** With a square root that maps 0 to 0, returns that never vary have no
      Sharpe ratio, whatever the risk-free rate. */
  lemma SharpeOfConstant(periodReturns: seq<Option<real>>, rfAnnual: real, periodsPerYear: int, sqrt: real -> real)
    requires sqrt(0.0) == 0.0 && periodsPerYear != 0
    requires |DropNa(periodReturns)| >= 2 && Constant(DropNa(periodReturns))
    ensures SharpeRatio(periodReturns, rfAnnual, periodsPerYear, sqrt) == Ok(None)
  {
    SharpeUsesReturnSpread(periodReturns, rfAnnual, periodsPerYear, sqrt);
    VarianceOfConstant(DropNa(periodReturns));
  }

  /** Only the present values matter: each metric gives the same answer
      on the series with its missing values dropped. */
  lemma VolIgnoresMissing(periodReturns: seq<Option<real>>, periodsPerYear: int, sqrt: real -> real)
    ensures AnnualizedVol(Present(DropNa(periodReturns)), periodsPerYear, sqrt)
         == AnnualizedVol(periodReturns, periodsPerYear, sqrt)
  {
    DropNaOfPresent(DropNa(periodReturns));
    VolDependsOnPresent(Present(DropNa(periodReturns)), periodReturns, periodsPerYear, sqrt);
  }

  /** The annualised volatility only sees the present values. */
  lemma VolDependsOnPresent(p1: seq<Option<real>>, p2: seq<Option<real>>, periodsPerYear: int, sqrt: real -> real)
    requires DropNa(p1) == DropNa(p2)
    ensures AnnualizedVol(p1, periodsPerYear, sqrt) == AnnualizedVol(p2, periodsPerYear, sqrt)
  {
  }

  lemma ReturnIgnoresMissing(periodReturns: seq<Option<real>>, periodsPerYear: int, pow: (real, real) -> real)
    ensures AnnualizedReturn(Present(DropNa(periodReturns)), periodsPerYear, pow)
         == AnnualizedReturn(periodReturns, periodsPerYear, pow)
  {
    DropNaOfPresent(DropNa(periodReturns));
    ReturnDependsOnPresent(Present(DropNa(periodReturns)), periodReturns, periodsPerYear, pow);
  }

  /** The annualised return only sees the present values. */
  lemma ReturnDependsOnPresent(p1: seq<Option<real>>, p2: seq<Option<real>>, periodsPerYear: int, pow: (real, real) -> real)
    requires DropNa(p1) == DropNa(p2)
    ensures AnnualizedReturn(p1, periodsPerYear, pow) == AnnualizedReturn(p2, periodsPerYear, pow)
  {
  }

  lemma SharpeIgnoresMissing(periodReturns: seq<Option<real>>, rfAnnual: real, periodsPerYear: int, sqrt: real -> real)
    ensures SharpeRatio(Present(DropNa(periodReturns)), rfAnnual, periodsPerYear, sqrt)
         == SharpeRatio(periodReturns, rfAnnual, periodsPerYear, sqrt)
  {
    DropNaOfPresent(DropNa(periodReturns));
    SharpeDependsOnPresent(Present(DropNa(periodReturns)), periodReturns, rfAnnual, periodsPerYear, sqrt);
  }

  /** The Sharpe ratio only sees the present values. */
  lemma SharpeDependsOnPresent(p1: seq<Option<real>>, p2: seq<Option<real>>, rfAnnual: real, periodsPerYear: int, sqrt: real -> real)
    requires DropNa(p1) == DropNa(p2)
    ensures SharpeRatio(p1, rfAnnual, periodsPerYear, sqrt) == SharpeRatio(p2, rfAnnual, periodsPerYear, sqrt)
  {
  }

  /** A series with every value present. */
  function Present(xs: seq<real>): (s: seq<Option<real>>)
    ensures |s| == |xs|
  {
    seq(|xs|, i requires 0 <= i < |xs| => Some(xs[i]))
  }

  lemma DropNaOfPresent(xs: seq<real>)
    ensures DropNa(Present(xs)) == xs
  {
    DropNaOfComplete(Present(xs));
  }

  // ---------------------------------------------------------------------
  // Correlation matrix

  /** A frame of return columns: column names and, per column, `length`
      values that may be missing. */
  datatype ReturnsFrame = ReturnsFrame(columns: seq<string>, length: nat, data: seq<seq<Option<real>>>)

  predicate FrameShaped(f: ReturnsFrame)
  {
    |f.data| == |f.columns| && forall j :: 0 <= j < |f.data| ==> |f.data[j]| == f.length
  }

  /** `DataFrame.empty`: no columns or no rows. */
  predicate FrameEmpty(f: ReturnsFrame)
  {
    |f.columns| == 0 || f.length == 0
  }

  /** A correlation frame: the same names on both axes. */
  datatype CorrFrame = CorrFrame(columns: seq<string>, matrix: seq<seq<Option<real>>>)

  /** `returns_df.corr()`: one coefficient per unordered pair of columns,
      written to both cells of the pair. */
  function Corr(f: ReturnsFrame, pearson: (seq<Option<real>>, seq<Option<real>>) -> Option<real>): (c: CorrFrame)
    requires FrameShaped(f)
    ensures c.columns == f.columns && |c.matrix| == |f.columns|
    ensures forall i :: 0 <= i < |c.matrix| ==> |c.matrix[i]| == |f.columns|
  {
    CorrFrame(f.columns, seq(|f.columns|, i requires 0 <= i < |f.columns| =>
      seq(|f.columns|, j requires 0 <= j < |f.columns| =>
        if j <= i then pearson(f.data[i], f.data[j]) else pearson(f.data[j], f.data[i]))))
  }

  /** `corr_matrix(returns_df)`: the empty frame for a missing or empty
      input, the correlation matrix otherwise. */
  function CorrMatrix(f: Option<ReturnsFrame>, pearson: (seq<Option<real>>, seq<Option<real>>) -> Option<real>): (c: CorrFrame)
    requires f.Some? ==> FrameShaped(f.value)
    ensures f.None? || FrameEmpty(f.value) ==> c == CorrFrame([], [])
    ensures f.Some? && !FrameEmpty(f.value) ==> c.columns == f.value.columns
  {
    if f.None? || FrameEmpty(f.value) then CorrFrame([], []) else Corr(f.value, pearson)
  }

  /** The correlation matrix is square and symmetric, whatever the
      coefficient function, and its diagonal pairs each column with itself. */
  lemma CorrSymmetric(f: Option<ReturnsFrame>, pearson: (seq<Option<real>>, seq<Option<real>>) -> Option<real>)
    requires f.Some? ==> FrameShaped(f.value)
    ensures var c := CorrMatrix(f, pearson);
      && |c.matrix| == |c.columns|
      && (forall i :: 0 <= i < |c.matrix| ==> |c.matrix[i]| == |c.columns|)
      && (forall i, j :: 0 <= i < |c.matrix| && 0 <= j < |c.matrix| ==> c.matrix[i][j] == c.matrix[j][i])
      && (forall i :: 0 <= i < |c.matrix| ==> c.matrix[i][i] == pearson(f.value.data[i], f.value.data[i]))
  {
  }
}
