/** The single-asset backtests of `strategies.py`. Each works on a copy of
    the input frame and adds columns computed from the `Close` series; a
    frame is modelled as the record of its columns, so the input is never
    changed. Closes are positive, so every period return is defined. */
module Strategies {
  import opened Wrappers
  import opened SeqMath

  /** Both equity curves start at 100. */
  const Base: real := 100.0

  /** `Close.pct_change()`: undefined at the first row, then the relative
      change from the previous close. */
  function PctChange(close: seq<real>): (r: seq<Option<real>>)
    requires AllPositive(close)
    ensures |r| == |close|
    ensures |close| > 0 ==> r[0] == None
    ensures forall t {:trigger r[t]} :: 0 < t < |close| ==> r[t].Some? && 1.0 + r[t].value == close[t] / close[t - 1]
  {
    seq(|close|, t requires 0 <= t < |close| => if t == 0 then None else Some(close[t] / close[t - 1] - 1.0))
  }

  // ---------------------------------------------------------------------
  // Buy and hold

  /** The frame `calculate_buy_and_hold` returns: the input `Close`, the
      filled `Returns` and `Strategy_Equity`. */
  datatype BuyAndHold = BuyAndHold(close: seq<real>, periodReturns: seq<real>, equity: seq<real>)

  /** `calculate_buy_and_hold(df)`: period returns with the first one set to
      0, compounded from 100. */
  function CalculateBuyAndHold(close: seq<real>): (df: BuyAndHold)
    requires AllPositive(close)
    ensures df.close == close && |df.periodReturns| == |close| && |df.equity| == |close|
    ensures |close| > 0 ==> df.periodReturns[0] == 0.0 && df.equity[0] == Base
    ensures forall t {:trigger df.periodReturns[t]} :: 0 < t < |close| ==> 1.0 + df.periodReturns[t] == close[t] / close[t - 1]
    ensures df.equity == EquityCurve(Base, df.periodReturns)
  {
    var periodReturns := FillNa(PctChange(close));
    if |close| > 0 then
      EquityCurveStart(Base, periodReturns);
      BuyAndHold(close, periodReturns, EquityCurve(Base, periodReturns))
    else
      BuyAndHold(close, periodReturns, EquityCurve(Base, periodReturns))
  }

  /** Buy and hold is worth 100 times the price relative to the first close. */
  lemma {:induction false} BuyAndHoldTracksClose(close: seq<real>, t: nat)
    requires AllPositive(close) && t < |close|
    ensures CalculateBuyAndHold(close).equity[t] == Base * (close[t] / close[0])
  {
    var df := CalculateBuyAndHold(close);
    var v := seq(|close|, u requires 0 <= u < |close| => close[u] / close[0]);
    forall u | 0 <= u < t ensures GrowsLike(df.periodReturns, v, u) {
      RelativeStep(close[0], close[u], close[u + 1], 1.0 + df.periodReturns[u + 1]);
    }
    DivideSelf(close[0]);
    EquityTracksValue(Base, df.periodReturns, v, 0, t);
  }

  lemma {:induction false} RelativeStep(first: real, prev: real, cur: real, growth: real)
    requires first > 0.0 && prev > 0.0 && growth == cur / prev
    ensures prev / first != 0.0 && growth == (cur / first) / (prev / first)
  {
    calc {
      (cur / first) / (prev / first);
      == cur / prev;
    }
  }

  /** Closes 100, 110, 99, 121: returns 0, 10%, -10%, 2/9 and the equity
      curve repeats the closes. */
  lemma {:induction false} BuyAndHoldExample()
    ensures var df := CalculateBuyAndHold([100.0, 110.0, 99.0, 121.0]);
      && df.periodReturns == [0.0, 0.1, -0.1, 2.0 / 9.0]
      && df.equity == [100.0, 110.0, 99.0, 121.0]
  {
    var close := [100.0, 110.0, 99.0, 121.0];
    var df := CalculateBuyAndHold(close);
    assert df.periodReturns[1] == 0.1 && df.periodReturns[2] == -0.1 && df.periodReturns[3] == 2.0 / 9.0;
    BuyAndHoldTracksClose(close, 1);
    BuyAndHoldTracksClose(close, 2);
    BuyAndHoldTracksClose(close, 3);
  }

  // ---------------------------------------------------------------------
  // Moving-average crossover

  /** `Close.rolling(window=w).mean()` at row t: the mean of the last w
      closes, undefined until w closes are available. */
  function RollingMean(close: seq<real>, w: nat, t: nat): (m: Option<real>)
    requires t < |close|
    ensures m.Some? <==> 1 <= w <= t + 1
    ensures m.Some? ==> m.value * (w as real) == Sum(close[t + 1 - w .. t + 1])
  {
    if 1 <= w <= t + 1 then Some(Sum(close[t + 1 - w .. t + 1]) / w as real) else None
  }

  /** The whole rolling-mean column. */
  function Rolling(close: seq<real>, w: nat): (m: seq<Option<real>>)
    ensures |m| == |close|
    ensures forall t :: 0 <= t < |close| ==> (m[t].Some? <==> 1 <= w <= t + 1)
  {
    seq(|close|, t requires 0 <= t < |close| => RollingMean(close, w, t))
  }

  /** `Signal`: 0.0, then 1.0 where `SMA_Short > SMA_Long` (a comparison
      with a missing mean is false). */
  function Signal(smaShort: seq<Option<real>>, smaLong: seq<Option<real>>): (s: seq<real>)
    requires |smaShort| == |smaLong|
    ensures |s| == |smaShort|
    ensures forall t :: 0 <= t < |s| ==> s[t] == 0.0 || s[t] == 1.0
  {
    seq(|smaShort|, t requires 0 <= t < |smaShort| => Above(smaShort[t], smaLong[t]))
  }

  /** `SMA_Short > SMA_Long` as a signal value: 1.0 when both means are
      present and the short one is larger, 0.0 otherwise. */
  function Above(short: Option<real>, long: Option<real>): real
  {
    if short.Some? && long.Some? && short.value > long.value then 1.0 else 0.0
  }

  /** `shift(1)`: each row takes the previous row's value; the first is missing. */
  function Shift(s: seq<real>): (r: seq<Option<real>>)
    ensures |r| == |s|
    ensures |s| > 0 ==> r[0].None?
    ensures forall t :: 0 < t < |s| ==> r[t] == Some(s[t - 1])
  {
    seq(|s|, t requires 0 <= t < |s| => if t == 0 then None else Some(s[t - 1]))
  }

  /** Element-wise product of two columns; missing wherever either is. */
  function Times(a: seq<Option<real>>, b: seq<Option<real>>): (r: seq<Option<real>>)
    requires |a| == |b|
    ensures |r| == |a|
    ensures forall t :: 0 <= t < |a| ==> (r[t].Some? <==> a[t].Some? && b[t].Some?)
  {
    seq(|a|, t requires 0 <= t < |a| => if a[t].Some? && b[t].Some? then Some(a[t].value * b[t].value) else None)
  }

  /** `(Signal.shift(1) * Returns).fillna(0)`: the strategy's return per row. */
  function LaggedReturns(signal: seq<real>, periodReturns: seq<Option<real>>): (r: seq<real>)
    requires |signal| == |periodReturns|
    ensures |r| == |signal|
    ensures forall t :: 0 <= t < |r| && (t == 0 || periodReturns[t].None?) ==> r[t] == 0.0
  {
    FillNa(Times(Shift(signal), periodReturns))
  }

  /** The frame `calculate_ma_crossover` returns: the input `Close` and the
      columns `SMA_Short`, `SMA_Long`, `Signal`, `Returns`,
      `Strategy_Returns` and `Strategy_Equity`. */
  datatype MaCrossover = MaCrossover(close: seq<real>, smaShort: seq<Option<real>>, smaLong: seq<Option<real>>,
                                     signal: seq<real>, periodReturns: seq<Option<real>>,
                                     strategyReturns: seq<real>, equity: seq<real>)

  /** `calculate_ma_crossover(df, short_window, long_window)`. */
  function CalculateMaCrossover(close: seq<real>, shortWindow: nat := 20, longWindow: nat := 50): (df: MaCrossover)
    requires AllPositive(close)
    ensures df.close == close
    ensures |df.smaShort| == |df.smaLong| == |df.signal| == |df.periodReturns| == |close|
    ensures |df.strategyReturns| == |df.equity| == |close|
    ensures df.periodReturns == PctChange(close)
    ensures df.strategyReturns == LaggedReturns(df.signal, df.periodReturns)
    ensures df.equity == EquityCurve(Base, df.strategyReturns)
    ensures |close| > 0 ==> df.strategyReturns[0] == 0.0 && df.equity[0] == Base
  {
    var smaShort := Rolling(close, shortWindow);
    var smaLong := Rolling(close, longWindow);
    var signal := Signal(smaShort, smaLong);
    var periodReturns := PctChange(close);
    var strategyReturns := LaggedReturns(signal, periodReturns);
    assert |close| > 0 ==> EquityCurve(Base, strategyReturns)[0] == Base by {
      if |close| > 0 { EquityCurveStart(Base, strategyReturns); }
    }
    MaCrossover(close, smaShort, smaLong, signal, periodReturns, strategyReturns, EquityCurve(Base, strategyReturns))
  }

  /** The signal is 1 exactly where both windows are full and the short mean
      of the closes is above the long mean; it is 0 everywhere else. */
  lemma {:induction false} SignalMeaning(close: seq<real>, shortWindow: nat, longWindow: nat, t: nat)
    requires AllPositive(close) && t < |close|
    ensures var df := CalculateMaCrossover(close, shortWindow, longWindow);
      && (df.signal[t] == 0.0 || df.signal[t] == 1.0)
      && (df.signal[t] == 1.0 <==>
            && 1 <= shortWindow <= t + 1 && 1 <= longWindow <= t + 1
            && Sum(close[t + 1 - shortWindow .. t + 1]) / shortWindow as real
               > Sum(close[t + 1 - longWindow .. t + 1]) / longWindow as real)
  {
  }

  /** Until the long window is full there is no position. */
  lemma {:induction false} NoSignalBeforeLongWindow(close: seq<real>, shortWindow: nat, longWindow: nat, t: nat)
    requires AllPositive(close) && t < |close| && t + 1 < longWindow
    ensures CalculateMaCrossover(close, shortWindow, longWindow).signal[t] == 0.0
  {
    SignalMeaning(close, shortWindow, longWindow, t);
  }

  /** The lagged strategy earns the previous row's signal times this row's
      return; the first row earns nothing. */
  lemma {:induction false} LaggedReturnAt(signal: seq<real>, periodReturns: seq<Option<real>>, t: nat)
    requires |signal| == |periodReturns| && t < |periodReturns|
    ensures t == 0 ==> LaggedReturns(signal, periodReturns)[t] == 0.0
    ensures t > 0 && periodReturns[t].Some? ==>
      LaggedReturns(signal, periodReturns)[t] == signal[t - 1] * periodReturns[t].value
  {
  }

  /** No look-ahead: the position held during row t is decided by the closes
      before row t alone. */
  lemma {:induction false} PositionUsesPastOnly(close1: seq<real>, close2: seq<real>, shortWindow: nat, longWindow: nat, t: nat)
    requires AllPositive(close1) && AllPositive(close2)
    requires 0 < t < |close1| && t < |close2| && close1[..t] == close2[..t]
    ensures CalculateMaCrossover(close1, shortWindow, longWindow).signal[t - 1]
         == CalculateMaCrossover(close2, shortWindow, longWindow).signal[t - 1]
  {
    SignalOfPast(close1, shortWindow, longWindow, t);
    SignalOfPast(close2, shortWindow, longWindow, t);
  }

  /** The signal of row t - 1 is the crossing computed from the closes
      before row t alone. */
  lemma SignalOfPast(close: seq<real>, shortWindow: nat, longWindow: nat, t: nat)
    requires AllPositive(close) && 0 < t <= |close|
    ensures CalculateMaCrossover(close, shortWindow, longWindow).signal[t - 1]
         == Crossing(close[..t], shortWindow, longWindow, t - 1)
  {
    SignalAt(close, shortWindow, longWindow, t - 1);
    CrossingOfPrefix(close, shortWindow, longWindow, t);
  }

  lemma CrossingOfPrefix(close: seq<real>, shortWindow: nat, longWindow: nat, t: nat)
    requires 0 < t <= |close|
    ensures Crossing(close, shortWindow, longWindow, t - 1) == Crossing(close[..t], shortWindow, longWindow, t - 1)
  {
    assert close[..t][..t] == close[..t];
    CrossingOfPast(close, close[..t], shortWindow, longWindow, t);
  }

  /** Whether the short mean of row t is above the long one, as a signal value. */
  function Crossing(close: seq<real>, shortWindow: nat, longWindow: nat, t: nat): real
    requires t < |close|
  {
    Above(RollingMean(close, shortWindow, t), RollingMean(close, longWindow, t))
  }

  /** The signal of row t compares the two rolling means of row t. */
  lemma SignalAt(close: seq<real>, shortWindow: nat, longWindow: nat, t: nat)
    requires AllPositive(close) && t < |close|
    ensures CalculateMaCrossover(close, shortWindow, longWindow).signal[t] == Crossing(close, shortWindow, longWindow, t)
  {
  }

  lemma CrossingOfPast(close1: seq<real>, close2: seq<real>, shortWindow: nat, longWindow: nat, t: nat)
    requires 0 < t <= |close1| && t <= |close2| && close1[..t] == close2[..t]
    ensures Crossing(close1, shortWindow, longWindow, t - 1) == Crossing(close2, shortWindow, longWindow, t - 1)
  {
    MeanOfPast(close1, close2, shortWindow, t);
    MeanOfPast(close1, close2, longWindow, t);
  }

  /** The rolling mean at row t - 1 only sees closes before row t. */
  lemma MeanOfPast(close1: seq<real>, close2: seq<real>, w: nat, t: nat)
    requires 0 < t <= |close1| && t <= |close2| && close1[..t] == close2[..t]
    ensures RollingMean(close1, w, t - 1) == RollingMean(close2, w, t - 1)
  {
    WindowOfPast(close1, close2, w, t);
  }

  /** A window ending before row t only sees closes before row t. */
  lemma {:induction false} WindowOfPast(close1: seq<real>, close2: seq<real>, w: nat, t: nat)
    requires t <= |close1| && t <= |close2| && close1[..t] == close2[..t]
    ensures 1 <= w <= t ==> close1[t - w .. t] == close2[t - w .. t]
  {
    if 1 <= w <= t {
      assert close1[t - w .. t] == close1[..t][t - w .. t];
      assert close2[t - w .. t] == close2[..t][t - w .. t];
    }
  }

  /** The last row's signal never reaches any strategy return. */
  lemma {:induction false} LastSignalUnused(signal1: seq<real>, signal2: seq<real>, periodReturns: seq<Option<real>>)
    requires |signal1| == |signal2| == |periodReturns| > 0
    requires signal1[..|signal1| - 1] == signal2[..|signal2| - 1]
    ensures LaggedReturns(signal1, periodReturns) == LaggedReturns(signal2, periodReturns)
  {
    forall u | 0 <= u < |periodReturns| - 1 ensures signal1[u] == signal2[u] {
      assert signal1[u] == signal1[..|signal1| - 1][u];
    }
    assert Shift(signal1) == Shift(signal2);
  }

  /** Out of the market (previous signal 0) the strategy earns nothing and its
      equity stays where it was. */
  lemma {:induction false} FlatWhenOut(close: seq<real>, signal: seq<real>, t: nat)
    requires AllPositive(close) && |signal| == |close| && 0 < t < |close|
    requires signal[t - 1] == 0.0
    ensures var strategyReturns := LaggedReturns(signal, PctChange(close));
      && strategyReturns[t] == 0.0
      && EquityCurve(Base, strategyReturns)[t] == EquityCurve(Base, strategyReturns)[t - 1]
  {
    var strategyReturns := LaggedReturns(signal, PctChange(close));
    LaggedReturnAt(signal, PctChange(close), t);
    EquityCurveSteps(Base, strategyReturns, t);
  }

  /** In the market (previous signal 1) the strategy earns the asset's
      return, so its equity grows by the close-to-close ratio. */
  lemma {:induction false} InvestedTracksClose(close: seq<real>, signal: seq<real>, strategyReturns: seq<real>, equity: seq<real>, t: nat)
    requires AllPositive(close) && |signal| == |close| && 0 < t < |close|
    requires strategyReturns == LaggedReturns(signal, PctChange(close))
    requires equity == EquityCurve(Base, strategyReturns)
    requires signal[t - 1] == 1.0
    ensures 1.0 + strategyReturns[t] == close[t] / close[t - 1]
    ensures equity[t] == equity[t - 1] * (close[t] / close[t - 1])
  {
    LaggedReturnAt(signal, PctChange(close), t);
    EquityCurveGrowsBy(Base, strategyReturns, t, close[t] / close[t - 1]);
  }

  /** A 0/1 signal lagged against positive closes never loses everything:
      each period either stays in cash or holds a positive-priced asset. */
  lemma {:induction false} LaggedEquityPositive(close: seq<real>, signal: seq<real>, t: nat)
    requires AllPositive(close) && |signal| == |close| && t < |close|
    requires forall u :: 0 <= u < |signal| ==> signal[u] == 0.0 || signal[u] == 1.0
    ensures EquityCurve(Base, LaggedReturns(signal, PctChange(close)))[t] > 0.0
  {
    var strategyReturns := LaggedReturns(signal, PctChange(close));
    forall u | 0 <= u < |close| ensures 1.0 + strategyReturns[u] > 0.0 {
      LaggedReturnAt(signal, PctChange(close), u);
      if u > 0 {
        GrowthPositive(close[u - 1], close[u], 1.0 + PctChange(close)[u].value);
      }
    }
    EquityCurvePositive(Base, strategyReturns, t);
  }

  lemma {:induction false} GrowthPositive(prev: real, cur: real, growth: real)
    requires prev > 0.0 && cur > 0.0 && growth == cur / prev
    ensures growth > 0.0
  {
  }

  /** The crossover's signal is 0 or 1, so its equity stays positive. */
  lemma {:induction false} CrossoverEquityPositive(close: seq<real>, shortWindow: nat, longWindow: nat, t: nat)
    requires AllPositive(close) && t < |close|
    ensures CalculateMaCrossover(close, shortWindow, longWindow).equity[t] > 0.0
  {
    var df := CalculateMaCrossover(close, shortWindow, longWindow);
    LaggedEquityPositive(close, df.signal, t);
  }
}
