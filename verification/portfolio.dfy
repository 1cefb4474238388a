/** The portfolio simulator (`simulate_portfolio`): one pass over the rows
    of the aligned price matrix, carrying the weights held as state. At a
    rebalance timestamp the weights go back to target; each period books the
    dot product of weights and asset returns; then the weights drift with
    the prices and are renormalised when their total is positive. */
module Portfolio {
  import opened Wrappers
  import opened SeqMath
  import opened Weights
  import opened Prices
  import Metrics

  /** The frame `simulate_portfolio` returns: its index, `Portfolio_Returns`
      and `Portfolio_Equity`; all three empty for the empty frame. */
  datatype Simulation = Simulation(index: seq<int>, portfolioReturns: seq<real>, portfolioEquity: seq<real>)

  /** Every price is positive, so every period return is defined and above -1. */
  predicate PositivePrices(m: PriceMatrix)
  {
    forall i, j :: 0 <= i < |m.rows| && 0 <= j < |m.rows[i].prices| ==> m.rows[i].prices[j] > 0.0
  }

  /** The matrices `simulate_portfolio` accepts. */
  predicate Simulable(m: PriceMatrix)
  {
    ValidMatrix(m) && PositivePrices(m)
  }

  /** Row t of `prices.pct_change().fillna(0.0)`. */
  function AssetReturns(m: PriceMatrix, t: nat): (r: seq<real>)
    requires Simulable(m) && t < |m.rows|
    ensures |r| == |m.columns|
    ensures t == 0 ==> forall j :: 0 <= j < |r| ==> r[j] == 0.0
    ensures t > 0 ==> forall j :: 0 <= j < |r| ==>
      m.rows[t - 1].prices[j] * (1.0 + r[j]) == m.rows[t].prices[j]
    ensures forall j :: 0 <= j < |r| ==> 1.0 + r[j] > 0.0
  {
    if t == 0 then seq(|m.columns|, _ => 0.0)
    else
      var r := seq(|m.columns|, j requires 0 <= j < |m.columns| =>
        m.rows[t].prices[j] / m.rows[t - 1].prices[j] - 1.0);
      assert forall j :: 0 <= j < |r| ==> 1.0 + r[j] == m.rows[t].prices[j] / m.rows[t - 1].prices[j];
      r
  }

  /** `{a: weights.get(a, 0.0) for a in assets}`, then normalised: the target
      allocation over the matrix columns. */
  function TargetWeights(columns: seq<Key>, weights: WeightMap): (w: seq<real>)
    requires DistinctKeys(columns) && WellFormed(weights) && |columns| > 0
    ensures |w| == |columns| && Sum(w) == 1.0
  {
    NormalizeWeights(Restrict(columns, weights)).value.values
  }

  /** The weight dict restricted to the columns; an absent column weighs 0. */
  function Restrict(columns: seq<Key>, weights: WeightMap): (r: WeightMap)
    requires DistinctKeys(columns) && WellFormed(weights)
    ensures WellFormed(r) && r.keys == columns
    ensures forall j :: 0 <= j < |columns| ==> r.values[j] == Lookup(weights, columns[j])
  {
    WeightMap(columns, seq(|columns|, j requires 0 <= j < |columns| => Lookup(weights, columns[j])))
  }

  /** Weight drift: `current_w * (1.0 + r_t)`, divided by its total when
      that total is positive, left as it is otherwise. */
  function Drift(w: seq<real>, r: seq<real>): (d: seq<real>)
    requires |w| == |r|
    ensures |d| == |w|
    ensures Sum(Grow(w, r)) > 0.0 ==> Sum(d) == 1.0
    ensures Sum(Grow(w, r)) > 0.0 ==> forall j :: 0 <= j < |d| ==> d[j] * Sum(Grow(w, r)) == w[j] * (1.0 + r[j])
    ensures Sum(Grow(w, r)) <= 0.0 ==> d == Grow(w, r)
  {
    var g := Grow(w, r);
    if Sum(g) > 0.0 then
      SumDivide(g, Sum(g));
      assert Sum(g) / Sum(g) == 1.0;
      Divide(g, Sum(g))
    else g
  }

  /** Row t's timestamp is one of the rebalance labels. */
  predicate RebalancesAt(m: PriceMatrix, rebalance: set<int>, t: nat)
    requires t < |m.rows|
  {
    m.rows[t].timestamp in rebalance
  }

  /** The weights held during row t: target at the first row and at every
      rebalance timestamp, the drifted weights of row t-1 otherwise. */
  ghost function HeldWeights(m: PriceMatrix, target: seq<real>, rebalance: set<int>, t: nat): (w: seq<real>)
    requires Simulable(m) && |target| == |m.columns| && t < |m.rows|
    ensures |w| == |target|
    decreases t
  {
    if t == 0 || RebalancesAt(m, rebalance, t) then target
    else Drift(HeldWeights(m, target, rebalance, t - 1), AssetReturns(m, t - 1))
  }

  /** `Portfolio_Returns`: the dot product of held weights and asset returns, row by row. */
  ghost function PortfolioReturns(m: PriceMatrix, target: seq<real>, rebalance: set<int>): (r: seq<real>)
    requires Simulable(m) && |target| == |m.columns|
    ensures |r| == |m.rows|
  {
    ReturnsUpTo(m, target, rebalance, |m.rows|)
  }

  /** The first n entries of `Portfolio_Returns`. */
  ghost function ReturnsUpTo(m: PriceMatrix, target: seq<real>, rebalance: set<int>, n: nat): (r: seq<real>)
    requires Simulable(m) && |target| == |m.columns| && n <= |m.rows|
    ensures |r| == n
    decreases n
  {
    if n == 0 then []
    else ReturnsUpTo(m, target, rebalance, n - 1) + [Dot(HeldWeights(m, target, rebalance, n - 1), AssetReturns(m, n - 1))]
  }

  /** With a simplex target and positive prices the portfolio never loses
      everything: every return is above -1 and the equity stays positive. */
  lemma ReturnsAboveMinusOne(m: PriceMatrix, target: seq<real>, rebalance: set<int>, base: real, t: nat)
    requires Simulable(m) && |target| == |m.columns| && OnSimplex(target) && t < |m.rows|
    requires base > 0.0
    ensures PortfolioReturns(m, target, rebalance)[t] > -1.0
    ensures EquityCurve(base, PortfolioReturns(m, target, rebalance))[t] > 0.0
  {
    var rets := PortfolioReturns(m, target, rebalance);
    forall u | 0 <= u < |rets| ensures 1.0 + rets[u] > 0.0 {
      HeldWeightsOnSimplex(m, target, rebalance, u);
      DotAboveMinusOne(HeldWeights(m, target, rebalance, u), AssetReturns(m, u));
      ReturnAt(m, target, rebalance, |m.rows|, u);
    }
    EquityCurvePositive(base, rets, t);
  }

  /** Simplex weights against returns above -1 earn more than -1: the
      portfolio never loses everything in one period. */
  lemma DotAboveMinusOne(w: seq<real>, r: seq<real>)
    requires |w| == |r| && OnSimplex(w)
    requires forall j :: 0 <= j < |r| ==> 1.0 + r[j] > 0.0
    ensures Dot(w, r) > -1.0
  {
    GrowPositive(w, r);
    SumGrow(w, r);
  }

  /** Row t books the dot product of the weights held during row t and
      row t's asset returns. */
  lemma {:induction false} ReturnAt(m: PriceMatrix, target: seq<real>, rebalance: set<int>, n: nat, t: nat)
    requires Simulable(m) && |target| == |m.columns| && t < n <= |m.rows|
    ensures ReturnsUpTo(m, target, rebalance, n)[t] == Dot(HeldWeights(m, target, rebalance, t), AssetReturns(m, t))
    decreases n
  {
    if t < n - 1 {
      ReturnAt(m, target, rebalance, n - 1, t);
    }
  }

  /** `simulate_portfolio(prices, weights, rebalance, base)`, with the
      timestamps that `resample(rebalance).first().index` labels given as
      `rebalanceDates`. */
  method SimulatePortfolio(prices: PriceMatrix, weights: WeightMap, rebalanceDates: set<int>, base: real := 100.0)
    returns (out: Simulation)
    requires Simulable(prices) && WellFormed(weights)
    ensures IsEmpty(prices) ==> out == Simulation([], [], [])
    ensures !IsEmpty(prices) ==>
      && out.index == Timestamps(prices)
      && out.portfolioReturns == PortfolioReturns(prices, TargetWeights(prices.columns, weights), rebalanceDates)
      && out.portfolioEquity == EquityCurve(base, out.portfolioReturns)
    ensures !IsEmpty(prices) ==> out.portfolioReturns[0] == 0.0 && out.portfolioEquity[0] == base
  {
    if IsEmpty(prices) {
      return Simulation([], [], []);
    }
    var target := TargetWeights(prices.columns, weights);
    var n := |prices.rows|;
    var current := target;
    var portReturns: seq<real> := [];
    for t := 0 to n
      invariant |portReturns| == t && |current| == |target|
      invariant t > 0 ==> current == Drift(HeldWeights(prices, target, rebalanceDates, t - 1), AssetReturns(prices, t - 1))
      invariant t == 0 ==> current == target
      invariant portReturns == ReturnsUpTo(prices, target, rebalanceDates, t)
    {
      if prices.rows[t].timestamp in rebalanceDates {
        current := target;
      }
      var r := AssetReturns(prices, t);
      portReturns := portReturns + [Dot(current, r)];
      current := Drift(current, r);
    }
    out := Simulation(Timestamps(prices), portReturns, EquityCurve(base, portReturns));
    FirstRowEarnsNothing(prices, target, rebalanceDates, base);
  }

  /** Every asset return of the first row is 0, so the first portfolio
      return is 0 and the equity curve starts at the base. */
  lemma FirstRowEarnsNothing(m: PriceMatrix, target: seq<real>, rebalance: set<int>, base: real)
    requires Simulable(m) && |target| == |m.columns| && |m.rows| > 0
    ensures PortfolioReturns(m, target, rebalance)[0] == 0.0
    ensures EquityCurve(base, PortfolioReturns(m, target, rebalance))[0] == base
  {
    DotZero(target, AssetReturns(m, 0));
    ReturnAt(m, target, rebalance, |m.rows|, 0);
    EquityCurveStart(base, PortfolioReturns(m, target, rebalance));
  }

  /** Non-negative (or missing) weights give a target on the simplex: a
      column absent from the dict weighs 0, the others keep their weight. */
  lemma TargetOnSimplex(columns: seq<Key>, weights: WeightMap)
    requires DistinctKeys(columns) && WellFormed(weights) && |columns| > 0
    requires forall i :: 0 <= i < |weights.values| && weights.values[i].Some? ==> weights.values[i].value >= 0.0
    ensures OnSimplex(TargetWeights(columns, weights))
  {
    var r := Restrict(columns, weights);
    forall j | 0 <= j < |r.values| && r.values[j].Some?
      ensures r.values[j].value >= 0.0
    {
      if columns[j] in weights.keys {
        var i :| 0 <= i < |weights.keys| && weights.keys[i] == columns[j];
        assert r.values[j] == weights.values[i];
      }
    }
    NormalizedOnSimplex(r);
  }

  // ---------------------------------------------------------------------
  // Lemmas about the fold

  /** Simplex weights grown by returns above -1 have a positive total. */
  lemma GrowPositive(w: seq<real>, r: seq<real>)
    requires |w| == |r| && OnSimplex(w)
    requires forall j :: 0 <= j < |r| ==> 1.0 + r[j] > 0.0
    ensures Sum(Grow(w, r)) > 0.0
  {
    var g := seq(|r|, j requires 0 <= j < |r| => 1.0 + r[j]);
    var scaled := seq(|w|, i requires 0 <= i < |w| => w[i] * g[i]);
    forall i | 0 <= i < |w| ensures Grow(w, r)[i] == scaled[i] {}
    assert Grow(w, r) == scaled;
    SumPositiveAfterPositiveScaling(w, g);
  }

  /** Drifting simplex weights with returns above -1 stays on the simplex. */
  lemma DriftKeepsSimplex(w: seq<real>, r: seq<real>)
    requires |w| == |r| && OnSimplex(w)
    requires forall j :: 0 <= j < |r| ==> 1.0 + r[j] > 0.0
    ensures Sum(Grow(w, r)) > 0.0
    ensures OnSimplex(Drift(w, r))
  {
    GrowPositive(w, r);
    var d := Drift(w, r);
    var total := Sum(Grow(w, r));
    forall j | 0 <= j < |d| ensures d[j] >= 0.0 {
      SignOfShare(d[j], total, w[j], 1.0 + r[j]);
    }
  }

  lemma SignOfShare(d: real, total: real, x: real, y: real)
    requires total > 0.0 && x >= 0.0 && y > 0.0 && d * total == x * y
    ensures d >= 0.0
  {
    assert x * y >= 0.0;
  }

  /** With a target on the simplex, the weights held at every row stay on it:
      with positive prices the drifted total is always positive. */
  lemma {:induction false} HeldWeightsOnSimplex(m: PriceMatrix, target: seq<real>, rebalance: set<int>, t: nat)
    requires Simulable(m) && |target| == |m.columns| && t < |m.rows|
    requires OnSimplex(target)
    ensures OnSimplex(HeldWeights(m, target, rebalance, t))
    decreases t
  {
    if t > 0 && !RebalancesAt(m, rebalance, t) {
      HeldWeightsOnSimplex(m, target, rebalance, t - 1);
      DriftKeepsSimplex(HeldWeights(m, target, rebalance, t - 1), AssetReturns(m, t - 1));
    }
  }

  /** A rebalance discards the drift accumulated before it: two rebalance
      sets that both contain row s's timestamp and agree after it give the
      same weights from row s on, whatever happened earlier. */
  lemma {:induction false} RebalanceForgetsHistory(m: PriceMatrix, target: seq<real>,
                                                   rebalance1: set<int>, rebalance2: set<int>, s: nat, t: nat)
    requires Simulable(m) && |target| == |m.columns| && s <= t < |m.rows|
    requires RebalancesAt(m, rebalance1, s) && RebalancesAt(m, rebalance2, s)
    requires forall v :: s < v <= t ==> (RebalancesAt(m, rebalance1, v) <==> RebalancesAt(m, rebalance2, v))
    ensures HeldWeights(m, target, rebalance1, t) == HeldWeights(m, target, rebalance2, t)
    ensures HeldWeights(m, target, rebalance1, s) == target
    decreases t
  {
    if t > s && !RebalancesAt(m, rebalance1, t) {
      RebalanceForgetsHistory(m, target, rebalance1, rebalance2, s, t - 1);
    }
  }

  /** No row from lo to hi (both included) falls on a rebalance timestamp. */
  predicate NoRebalanceIn(m: PriceMatrix, rebalance: set<int>, lo: nat, hi: nat)
    requires hi < |m.rows|
    decreases hi
  {
    hi < lo || (!RebalancesAt(m, rebalance, hi) && (hi == 0 || NoRebalanceIn(m, rebalance, lo, hi - 1)))
  }

  /** NoRebalanceIn says exactly that no row of the range rebalances. */
  lemma {:induction false} NoRebalanceInMeans(m: PriceMatrix, rebalance: set<int>, lo: nat, hi: nat)
    requires hi < |m.rows|
    ensures NoRebalanceIn(m, rebalance, lo, hi) <==> forall v :: lo <= v <= hi ==> !RebalancesAt(m, rebalance, v)
    decreases hi
  {
    if hi >= lo && hi > 0 {
      NoRebalanceInMeans(m, rebalance, lo, hi - 1);
    }
  }

  lemma {:induction false} NoRebalanceInPrefix(m: PriceMatrix, rebalance: set<int>, lo: nat, hi: nat, top: nat)
    requires hi <= top < |m.rows|
    requires NoRebalanceIn(m, rebalance, lo, top)
    ensures NoRebalanceIn(m, rebalance, lo, hi)
    decreases top
  {
    if hi < top {
      NoRebalanceInPrefix(m, rebalance, lo, hi, top - 1);
    }
  }

  /** Price of each asset at row u relative to row a. */
  function Relative(m: PriceMatrix, a: nat, u: nat): (g: seq<real>)
    requires Simulable(m) && a < |m.rows| && u < |m.rows|
    ensures |g| == |m.columns| && AllPositive(g)
  {
    seq(|m.columns|, j requires 0 <= j < |m.columns| => m.rows[u].prices[j] / m.rows[a].prices[j])
  }

  /** What the target allocation bought at row a's prices is worth, asset by
      asset, at row u (per unit invested). */
  function Holdings(m: PriceMatrix, target: seq<real>, a: nat, u: nat): (h: seq<real>)
    requires Simulable(m) && |target| == |m.columns| && a < |m.rows| && u < |m.rows|
    ensures |h| == |target|
  {
    var g := Relative(m, a, u);
    seq(|target|, i requires 0 <= i < |target| => target[i] * g[i])
  }

  /** The total of those holdings: the buy-and-hold value at row u. */
  function Value(m: PriceMatrix, target: seq<real>, a: nat, u: nat): real
    requires Simulable(m) && |target| == |m.columns| && a < |m.rows| && u < |m.rows|
  {
    Sum(Holdings(m, target, a, u))
  }

  lemma ValuePositive(m: PriceMatrix, target: seq<real>, a: nat, u: nat)
    requires Simulable(m) && |target| == |m.columns| && a < |m.rows| && u < |m.rows|
    requires OnSimplex(target)
    ensures Value(m, target, a, u) > 0.0
  {
    SumPositiveAfterPositiveScaling(target, Relative(m, a, u));
  }

  lemma HoldingsAtAnchor(m: PriceMatrix, target: seq<real>, a: nat)
    requires Simulable(m) && |target| == |m.columns| && a < |m.rows|
    ensures Holdings(m, target, a, a) == target
  {
    var h := Holdings(m, target, a, a);
    forall j | 0 <= j < |target| ensures h[j] == target[j] {
      assert m.rows[a].prices[j] / m.rows[a].prices[j] == 1.0;
    }
  }

  /** One period of growth of a single holding. */
  lemma GrowOne(x: real, pa: real, prev: real, cur: real, growth: real, v: real)
    requires pa > 0.0 && prev > 0.0 && v != 0.0 && prev * growth == cur
    ensures (x * (prev / pa)) / v * growth == (x * (cur / pa)) / v
  {
    calc {
      (x * (prev / pa)) / v * growth;
      == (x / pa / v) * (prev * growth);
      == (x * (cur / pa)) / v;
    }
  }

  /** Weights proportional to the holdings grow into weights proportional to
      the next row's holdings. */
  lemma {:induction false} GrowHoldings(m: PriceMatrix, target: seq<real>, a: nat, u: nat)
    requires Simulable(m) && |target| == |m.columns| && a < u < |m.rows|
    requires Value(m, target, a, u - 1) != 0.0
    ensures Grow(Divide(Holdings(m, target, a, u - 1), Value(m, target, a, u - 1)), AssetReturns(m, u))
         == Divide(Holdings(m, target, a, u), Value(m, target, a, u - 1))
  {
    var v := Value(m, target, a, u - 1);
    var w := Divide(Holdings(m, target, a, u - 1), v);
    var r := AssetReturns(m, u);
    var lhs := Grow(w, r);
    var rhs := Divide(Holdings(m, target, a, u), v);
    forall j | 0 <= j < |target| ensures lhs[j] == rhs[j] {
      GrowOne(target[j], m.rows[a].prices[j], m.rows[u - 1].prices[j], m.rows[u].prices[j], 1.0 + r[j], v);
    }
  }

  /** Grown holdings shares: their total is the value's growth over the period. */
  lemma {:induction false} GrownShares(m: PriceMatrix, target: seq<real>, a: nat, u: nat)
    requires Simulable(m) && |target| == |m.columns| && a < u < |m.rows|
    requires OnSimplex(target)
    ensures Value(m, target, a, u - 1) > 0.0 && Value(m, target, a, u) > 0.0
    ensures var w := Divide(Holdings(m, target, a, u - 1), Value(m, target, a, u - 1));
      && Sum(w) == 1.0
      && Grow(w, AssetReturns(m, u)) == Divide(Holdings(m, target, a, u), Value(m, target, a, u - 1))
      && Sum(Grow(w, AssetReturns(m, u))) == Value(m, target, a, u) / Value(m, target, a, u - 1)
  {
    ValuePositive(m, target, a, u - 1);
    ValuePositive(m, target, a, u);
    var v0 := Value(m, target, a, u - 1);
    GrowHoldings(m, target, a, u);
    SumDivide(Holdings(m, target, a, u - 1), v0);
    SumDivide(Holdings(m, target, a, u), v0);
    DivideSelf(v0);
  }

  /** One step of the fold between rebalances: the portfolio earns the
      growth of the buy-and-hold value, and the drifted weights are again
      the holdings' shares. */
  lemma {:induction false} StepBetweenRebalances(m: PriceMatrix, target: seq<real>, a: nat, u: nat)
    requires Simulable(m) && |target| == |m.columns| && a < u < |m.rows|
    requires OnSimplex(target)
    ensures Value(m, target, a, u - 1) > 0.0 && Value(m, target, a, u) > 0.0
    ensures var w := Divide(Holdings(m, target, a, u - 1), Value(m, target, a, u - 1));
      && 1.0 + Dot(w, AssetReturns(m, u)) == Value(m, target, a, u) / Value(m, target, a, u - 1)
      && Drift(w, AssetReturns(m, u)) == Divide(Holdings(m, target, a, u), Value(m, target, a, u))
  {
    GrownShares(m, target, a, u);
    var v0 := Value(m, target, a, u - 1);
    var w := Divide(Holdings(m, target, a, u - 1), v0);
    var r := AssetReturns(m, u);
    SumGrow(w, r);
    DivideTwice(Holdings(m, target, a, u), v0);
  }


  /** Between rebalances the held weights are the shares of the target
      allocation bought at the last rebalance (row a+1 trades at row a's
      prices; a = 0 is the start of the run). */
  lemma {:induction false} HeldBetweenRebalances(m: PriceMatrix, target: seq<real>, rebalance: set<int>, a: nat, t: nat)
    requires Simulable(m) && |target| == |m.columns| && OnSimplex(target)
    requires a < t < |m.rows|
    requires a == 0 || RebalancesAt(m, rebalance, a + 1)
    requires NoRebalanceIn(m, rebalance, a + 2, t)
    ensures Value(m, target, a, t - 1) > 0.0
    ensures HeldWeights(m, target, rebalance, t) == Divide(Holdings(m, target, a, t - 1), Value(m, target, a, t - 1))
    decreases t
  {
    ValuePositive(m, target, a, t - 1);
    if t == a + 1 {
      HeldAfterAnchor(m, target, rebalance, a);
    } else {
      NoRebalanceInPrefix(m, rebalance, a + 2, t - 1, t);
      HeldBetweenRebalances(m, target, rebalance, a, t - 1);
      HeldAfterStep(m, target, rebalance, a, t);
    }
  }

  /** One drift step: shares held during row t-1 become the shares of row t. */
  lemma HeldAfterStep(m: PriceMatrix, target: seq<real>, rebalance: set<int>, a: nat, t: nat)
    requires Simulable(m) && |target| == |m.columns| && OnSimplex(target)
    requires a + 1 < t < |m.rows| && !RebalancesAt(m, rebalance, t)
    requires Value(m, target, a, t - 2) > 0.0
    requires HeldWeights(m, target, rebalance, t - 1) == Divide(Holdings(m, target, a, t - 2), Value(m, target, a, t - 2))
    ensures Value(m, target, a, t - 1) > 0.0
    ensures HeldWeights(m, target, rebalance, t) == Divide(Holdings(m, target, a, t - 1), Value(m, target, a, t - 1))
  {
    StepBetweenRebalances(m, target, a, t - 1);
  }

  /** Right after the anchor row the held weights are the target itself. */
  lemma HeldAfterAnchor(m: PriceMatrix, target: seq<real>, rebalance: set<int>, a: nat)
    requires Simulable(m) && |target| == |m.columns| && OnSimplex(target)
    requires a + 1 < |m.rows|
    requires a == 0 || RebalancesAt(m, rebalance, a + 1)
    ensures Value(m, target, a, a) > 0.0
    ensures HeldWeights(m, target, rebalance, a + 1) == Divide(Holdings(m, target, a, a), Value(m, target, a, a))
  {
    ValuePositive(m, target, a, a);
    HoldingsAtAnchor(m, target, a);
    var h := Divide(Holdings(m, target, a, a), Value(m, target, a, a));
    assert Value(m, target, a, a) == 1.0;
    assert h == target;
    if a == 0 && !RebalancesAt(m, rebalance, 1) {
      DotZero(target, AssetReturns(m, 0));
      assert Grow(target, AssetReturns(m, 0)) == target;
      assert Drift(target, AssetReturns(m, 0)) == target;
    }
  }

  /** Between rebalances each period's portfolio return is the growth of
      the buy-and-hold value of the target bought at the anchor row a. */
  lemma {:induction false} ReturnBetweenRebalances(m: PriceMatrix, target: seq<real>, rebalance: set<int>, a: nat, t: nat)
    requires Simulable(m) && |target| == |m.columns| && OnSimplex(target)
    requires a < t < |m.rows|
    requires a == 0 || RebalancesAt(m, rebalance, a + 1)
    requires NoRebalanceIn(m, rebalance, a + 2, t)
    ensures Value(m, target, a, t - 1) > 0.0
    ensures 1.0 + PortfolioReturns(m, target, rebalance)[t] == Value(m, target, a, t) / Value(m, target, a, t - 1)
  {
    HeldBetweenRebalances(m, target, rebalance, a, t);
    StepBetweenRebalances(m, target, a, t);
    ReturnAt(m, target, rebalance, |m.rows|, t);
  }

  /** The buy-and-hold value of the target bought at row a, at every row. */
  function ValueSeries(m: PriceMatrix, target: seq<real>, a: nat): (v: seq<real>)
    requires Simulable(m) && |target| == |m.columns| && a < |m.rows|
    ensures |v| == |m.rows|
  {
    seq(|m.rows|, u requires 0 <= u < |m.rows| => Value(m, target, a, u))
  }

  lemma {:induction false} ValueSeriesGrows(m: PriceMatrix, target: seq<real>, rebalance: set<int>, a: nat, t: nat)
    requires Simulable(m) && |target| == |m.columns| && OnSimplex(target)
    requires a <= t < |m.rows|
    requires a == 0 || (a + 1 < |m.rows| && RebalancesAt(m, rebalance, a + 1))
    requires NoRebalanceIn(m, rebalance, a + 2, t)
    ensures ValueSeries(m, target, a)[a] == 1.0
    ensures forall u :: a <= u < t ==> GrowsLike(PortfolioReturns(m, target, rebalance), ValueSeries(m, target, a), u)
  {
    HoldingsAtAnchor(m, target, a);
    forall u | a <= u < t
      ensures GrowsLike(PortfolioReturns(m, target, rebalance), ValueSeries(m, target, a), u)
    {
      ValueSeriesStep(m, target, rebalance, a, t, u);
    }
  }

  /** One step of `ValueSeriesGrows`: the period ending at row u + 1. */
  lemma ValueSeriesStep(m: PriceMatrix, target: seq<real>, rebalance: set<int>, a: nat, t: nat, u: nat)
    requires Simulable(m) && |target| == |m.columns| && OnSimplex(target)
    requires a <= u < t < |m.rows|
    requires a == 0 || (a + 1 < |m.rows| && RebalancesAt(m, rebalance, a + 1))
    requires NoRebalanceIn(m, rebalance, a + 2, t)
    ensures GrowsLike(PortfolioReturns(m, target, rebalance), ValueSeries(m, target, a), u)
  {
    NoRebalanceInPrefix(m, rebalance, a + 2, u + 1, t);
    ReturnBetweenRebalances(m, target, rebalance, a, u + 1);
    var values := ValueSeries(m, target, a);
    assert values[u] == Value(m, target, a, u) && values[u + 1] == Value(m, target, a, u + 1);
  }

  /** Between rebalances the portfolio is a buy-and-hold of the target
      allocation: its equity at row t is its equity at the anchor row a times
      the value, at row t, of the target bought at row a's prices. */
  lemma {:induction false} EquityBetweenRebalances(m: PriceMatrix, target: seq<real>, rebalance: set<int>,
                                                   base: real, equity: seq<real>, a: nat, t: nat)
    requires Simulable(m) && |target| == |m.columns| && OnSimplex(target)
    requires equity == EquityCurve(base, PortfolioReturns(m, target, rebalance))
    requires a <= t < |m.rows|
    requires a == 0 || (a + 1 < |m.rows| && RebalancesAt(m, rebalance, a + 1))
    requires NoRebalanceIn(m, rebalance, a + 2, t)
    ensures equity[t] == equity[a] * Value(m, target, a, t)
  {
    var rets := PortfolioReturns(m, target, rebalance);
    var values := ValueSeries(m, target, a);
    ValueSeriesGrows(m, target, rebalance, a, t);
    EquityTracksValue(base, rets, values, a, t);
    SameProduct(EquityCurve(base, rets)[a], equity[a], values[t], Value(m, target, a, t));
  }

  // ---------------------------------------------------------------------
  // Flat prices

  /** Every row carries the prices of the first row. */
  predicate FlatPrices(m: PriceMatrix)
  {
    forall t :: 0 <= t < |m.rows| ==> m.rows[t].prices == m.rows[0].prices
  }

  lemma UnchangedPrice(p: real, r: real)
    requires p > 0.0 && p * (1.0 + r) == p
    ensures r == 0.0
  {
    assert p * r == 0.0;
  }

  /** Prices that never move earn nothing: every portfolio return is 0. */
  lemma FlatPricesEarnNothing(m: PriceMatrix, target: seq<real>, rebalance: set<int>)
    requires Simulable(m) && |target| == |m.columns| && FlatPrices(m)
    ensures forall t :: 0 <= t < |m.rows| ==> PortfolioReturns(m, target, rebalance)[t] == 0.0
  {
    forall t | 0 <= t < |m.rows|
      ensures PortfolioReturns(m, target, rebalance)[t] == 0.0
    {
      var r := AssetReturns(m, t);
      forall j | 0 <= j < |r| ensures r[j] == 0.0 {
        if t > 0 {
          UnchangedPrice(m.rows[t - 1].prices[j], r[j]);
        }
      }
      DotZero(HeldWeights(m, target, rebalance, t), r);
      ReturnAt(m, target, rebalance, |m.rows|, t);
    }
  }

  /** With prices that never move, the equity curve stays at the base. */
  lemma FlatPricesKeepBase(m: PriceMatrix, target: seq<real>, rebalance: set<int>, base: real, t: nat)
    requires Simulable(m) && |target| == |m.columns| && FlatPrices(m) && t < |m.rows|
    ensures EquityCurve(base, PortfolioReturns(m, target, rebalance))[t] == base
  {
    var rets := PortfolioReturns(m, target, rebalance);
    FlatPricesEarnNothing(m, target, rebalance);
    EquityCurveAt(base, rets, t);
    CompoundOfZeros(rets[..t + 1]);
  }

  /** The metrics of a flat run: annualised return 0, volatility 0 (over at
      least two rows) and max drawdown 0. */
  lemma FlatPricesMetrics(m: PriceMatrix, target: seq<real>, rebalance: set<int>, base: real,
                          periodsPerYear: int, sqrt: real -> real, pow: (real, real) -> real)
    requires Simulable(m) && |target| == |m.columns| && FlatPrices(m) && |m.rows| > 0
    requires base > 0.0 && sqrt(0.0) == 0.0 && forall e :: pow(1.0, e) == 1.0
    ensures var rets := Metrics.Present(PortfolioReturns(m, target, rebalance));
      && Metrics.AnnualizedReturn(rets, periodsPerYear, pow) == Some(0.0)
      && (|m.rows| >= 2 ==> Metrics.AnnualizedVol(rets, periodsPerYear, sqrt) == Some(0.0))
    ensures var equity := Metrics.Present(EquityCurve(base, PortfolioReturns(m, target, rebalance)));
      Metrics.StartsPositive(equity) && Metrics.MaxDrawdown(equity) == Some(0.0)
  {
    var r := PortfolioReturns(m, target, rebalance);
    FlatPricesEarnNothing(m, target, rebalance);
    ZeroReturnsMetrics(r, periodsPerYear, sqrt, pow);
    var e := EquityCurve(base, r);
    forall t | 0 <= t < |e| ensures e[t] == base {
      FlatPricesKeepBase(m, target, rebalance, base, t);
    }
    ConstantEquityDrawdown(e, base);
  }

  lemma ZeroReturnsMetrics(r: seq<real>, periodsPerYear: int, sqrt: real -> real, pow: (real, real) -> real)
    requires |r| > 0 && forall t :: 0 <= t < |r| ==> r[t] == 0.0
    requires sqrt(0.0) == 0.0 && forall e :: pow(1.0, e) == 1.0
    ensures Metrics.AnnualizedReturn(Metrics.Present(r), periodsPerYear, pow) == Some(0.0)
    ensures |r| >= 2 ==> Metrics.AnnualizedVol(Metrics.Present(r), periodsPerYear, sqrt) == Some(0.0)
  {
    var rets := Metrics.Present(r);
    Metrics.DropNaOfPresent(r);
    Metrics.AnnualizedReturnOfFlat(rets, periodsPerYear, pow);
    if |r| >= 2 {
      assert Metrics.Constant(DropNa(rets));
      Metrics.VolOfConstant(rets, periodsPerYear, sqrt);
    }
  }

  lemma ConstantEquityDrawdown(e: seq<real>, base: real)
    requires |e| > 0 && base > 0.0 && forall t :: 0 <= t < |e| ==> e[t] == base
    ensures Metrics.StartsPositive(Metrics.Present(e)) && Metrics.MaxDrawdown(Metrics.Present(e)) == Some(0.0)
  {
    Metrics.DropNaOfPresent(e);
    assert Metrics.NonDecreasing(e);
    Metrics.ZeroDrawdownIffNonDecreasing(e);
  }
}
