/** Whole-series arithmetic that pandas provides to the dashboard's core:
    sums, dot products, element-wise scaling, compounding (`cumprod`),
    `fillna` and `dropna`. All arithmetic is exact (`real`). */
module SeqMath {
  import opened Wrappers

  /** Sum of a series (`Series.sum()`). */
  function Sum(s: seq<real>): real
  {
    if s == [] then 0.0 else s[0] + Sum(s[1..])
  }

  /** Dot product of two aligned series (`(a * b).sum()`). */
  function Dot(a: seq<real>, b: seq<real>): real
    requires |a| == |b|
  {
    if a == [] then 0.0 else a[0] * b[0] + Dot(a[1..], b[1..])
  }

  /** Element-wise division by a scalar (`s / c`). */
  function Divide(s: seq<real>, c: real): (r: seq<real>)
    requires c != 0.0
    ensures |r| == |s|
  {
    seq(|s|, i requires 0 <= i < |s| => s[i] / c)
  }

  /** Each weight multiplied by one plus its return (`w * (1.0 + r)`). */
  function Grow(w: seq<real>, r: seq<real>): (g: seq<real>)
    requires |w| == |r|
    ensures |g| == |w|
  {
    seq(|w|, i requires 0 <= i < |w| => w[i] * (1.0 + r[i]))
  }

  /** The product of `1 + r` over a return series (`(1 + r).prod()`). */
  function Compound(r: seq<real>): real
  {
    if r == [] then 1.0 else Compound(r[..|r| - 1]) * (1.0 + r[|r| - 1])
  }

  /** `base * (1 + r).cumprod()`: the value reached after each period. */
  function EquityCurve(base: real, r: seq<real>): (e: seq<real>)
    ensures |e| == |r|
    decreases |r|
  {
    if r == [] then [] else EquityCurve(base, r[..|r| - 1]) + [base * Compound(r)]
  }

  /** `fillna(0.0)`. */
  function FillNa(s: seq<Option<real>>): (r: seq<real>)
    ensures |r| == |s|
    ensures forall i :: 0 <= i < |s| ==> r[i] == (if s[i].Some? then s[i].value else 0.0)
  {
    seq(|s|, i requires 0 <= i < |s| => if s[i].Some? then s[i].value else 0.0)
  }

  /** `dropna()`: the present values, in order. */
  function DropNa(s: seq<Option<real>>): (r: seq<real>)
    ensures |r| <= |s|
    ensures |r| == 0 <==> forall i :: 0 <= i < |s| ==> s[i].None?
  {
    if s == [] then []
    else if s[0].Some? then [s[0].value] + DropNa(s[1..])
    else DropNa(s[1..])
  }

  /** True when every present value is strictly positive. */
  predicate PresentPositive(s: seq<Option<real>>)
  {
    forall i :: 0 <= i < |s| && s[i].Some? ==> s[i].value > 0.0
  }

  predicate AllPositive(s: seq<real>)
  {
    forall i :: 0 <= i < |s| ==> s[i] > 0.0
  }

  predicate AllNonNegative(s: seq<real>)
  {
    forall i :: 0 <= i < |s| ==> s[i] >= 0.0
  }

  /** A weight vector on the probability simplex. */
  predicate OnSimplex(w: seq<real>)
  {
    AllNonNegative(w) && Sum(w) == 1.0
  }

  // ---------------------------------------------------------------------
  // Lemmas

  /** `dropna` of a series whose present values are positive is all positive. */
  lemma {:induction false} DropNaPositive(s: seq<Option<real>>)
    requires PresentPositive(s)
    ensures AllPositive(DropNa(s))
  {
    if s != [] {
      DropNaPositive(s[1..]);
    }
  }

  /** On a series with no missing value, `dropna` changes nothing. */
  lemma {:induction false} DropNaOfComplete(s: seq<Option<real>>)
    requires forall i :: 0 <= i < |s| ==> s[i].Some?
    ensures |DropNa(s)| == |s|
    ensures forall i :: 0 <= i < |s| ==> DropNa(s)[i] == s[i].value
  {
    if s != [] {
      DropNaOfComplete(s[1..]);
    }
  }

  /** Dividing every element by `c` divides the sum by `c`. */
  lemma {:induction false} SumDivide(s: seq<real>, c: real)
    requires c != 0.0
    ensures Sum(Divide(s, c)) == Sum(s) / c
  {
    if s != [] {
      assert Divide(s, c)[1..] == Divide(s[1..], c);
      SumDivide(s[1..], c);
    }
  }

  /** Normalising a rescaled sequence gives the same shares as normalising
      the original. */
  lemma DivideTwice(s: seq<real>, c: real)
    requires c != 0.0 && Sum(s) != 0.0
    ensures Sum(Divide(s, c)) == Sum(s) / c
    ensures Divide(Divide(s, c), Sum(s) / c) == Divide(s, Sum(s))
  {
    SumDivide(s, c);
    var lhs := Divide(Divide(s, c), Sum(s) / c);
    forall i | 0 <= i < |s| ensures lhs[i] == s[i] / Sum(s) {
      RatioOfScaled(s[i], c, Sum(s));
    }
  }

  lemma RatioOfScaled(x: real, c: real, total: real)
    requires c != 0.0 && total != 0.0
    ensures (x / c) / (total / c) == x / total
  {
    calc {
      (x / c) / (total / c);
      == (x / c) * (c / total);
      == x / total;
    }
  }

  /** A constant sequence of length n sums to n times the constant. */
  lemma {:induction false} SumConstant(n: nat, c: real)
    ensures Sum(seq(n, _ => c)) == n as real * c
  {
    if n > 0 {
      var s := seq(n, _ => c);
      assert s[1..] == seq(n - 1, _ => c);
      SumConstant(n - 1, c);
      assert Sum(s) == s[0] + Sum(s[1..]);
      assert s[0] == c;
    }
  }

  /** Growing the weights adds their dot product with the returns to their sum. */
  lemma {:induction false} SumGrow(w: seq<real>, r: seq<real>)
    requires |w| == |r|
    ensures Sum(Grow(w, r)) == Sum(w) + Dot(w, r)
  {
    if w != [] {
      GrowTail(w, r);
      SumGrow(w[1..], r[1..]);
    }
  }

  /** Growing commutes with dropping the first element. */
  lemma GrowTail(w: seq<real>, r: seq<real>)
    requires |w| == |r| && w != []
    ensures Grow(w, r)[1..] == Grow(w[1..], r[1..])
  {
    forall i | 0 <= i < |w| - 1
      ensures Grow(w, r)[1..][i] == Grow(w[1..], r[1..])[i]
    {
      assert w[1..][i] == w[i + 1] && r[1..][i] == r[i + 1];
    }
  }

  /** Against an all-zero return row the dot product is zero. */
  lemma {:induction false} DotZero(w: seq<real>, r: seq<real>)
    requires |w| == |r|
    requires forall i :: 0 <= i < |r| ==> r[i] == 0.0
    ensures Dot(w, r) == 0.0
  {
    if w != [] {
      DotZero(w[1..], r[1..]);
    }
  }

  /** A sum of non-negative terms is non-negative. */
  lemma {:induction false} SumNonNegative(s: seq<real>)
    requires AllNonNegative(s)
    ensures Sum(s) >= 0.0
  {
    if s != [] {
      SumNonNegative(s[1..]);
    }
  }

  /** Scaling non-negative terms by positive factors keeps a positive sum positive. */
  lemma {:induction false} SumPositiveAfterPositiveScaling(w: seq<real>, g: seq<real>)
    requires |w| == |g| && AllNonNegative(w) && AllPositive(g)
    requires Sum(w) > 0.0
    ensures Sum(seq(|w|, i requires 0 <= i < |w| => w[i] * g[i])) > 0.0
  {
    var s := seq(|w|, i requires 0 <= i < |w| => w[i] * g[i]);
    var rest := seq(|w[1..]|, i requires 0 <= i < |w[1..]| => w[1..][i] * g[1..][i]);
    forall i | 0 <= i < |rest|
      ensures s[1..][i] == rest[i]
    {
    }
    assert s[1..] == rest;
    if w[0] > 0.0 {
      ProductPositive(w[0], g[0]);
      forall i | 0 <= i < |rest|
        ensures rest[i] >= 0.0
      {
        ProductNonNegative(w[1..][i], g[1..][i]);
      }
      SumNonNegative(rest);
    } else {
      SumPositiveAfterPositiveScaling(w[1..], g[1..]);
    }
  }

  lemma ProductNonNegative(x: real, y: real)
    requires x >= 0.0 && y > 0.0
    ensures x * y >= 0.0
  {
  }

  /** Compounding an all-zero return series gives 1. */
  lemma {:induction false} CompoundOfZeros(r: seq<real>)
    requires forall i :: 0 <= i < |r| ==> r[i] == 0.0
    ensures Compound(r) == 1.0
  {
    if r != [] {
      CompoundOfZeros(r[..|r| - 1]);
    }
  }

  /** Point t of the equity curve is the base compounded over the first
      t+1 returns. */
  lemma {:induction false} EquityCurveAt(base: real, r: seq<real>, t: nat)
    requires t < |r|
    ensures EquityCurve(base, r)[t] == base * Compound(r[..t + 1])
    decreases |r|
  {
    if t < |r| - 1 {
      EquityCurveAt(base, r[..|r| - 1], t);
      assert r[..|r| - 1][..t + 1] == r[..t + 1];
    } else {
      assert r[..t + 1] == r;
    }
  }

  /** The first point of the equity curve is the base grown by the first return. */
  lemma EquityCurveStart(base: real, r: seq<real>)
    requires |r| > 0
    ensures EquityCurve(base, r)[0] == base * (1.0 + r[0])
  {
    EquityCurveAt(base, r, 0);
    assert r[..1][..0] == [];
    assert r[..1][0] == r[0];
    assert Compound(r[..1]) == Compound([]) * (1.0 + r[0]);
  }

  /** With every `1 + r` positive, the equity curve of a positive base stays positive. */
  lemma {:induction false} EquityCurvePositive(base: real, r: seq<real>, t: nat)
    requires base > 0.0 && t < |r|
    requires forall u :: 0 <= u < |r| ==> 1.0 + r[u] > 0.0
    ensures EquityCurve(base, r)[t] > 0.0
    decreases t
  {
    if t == 0 {
      EquityCurveStart(base, r);
      ProductPositive(base, 1.0 + r[0]);
    } else {
      EquityCurvePositive(base, r, t - 1);
      EquityCurveSteps(base, r, t);
      ProductPositive(EquityCurve(base, r)[t - 1], 1.0 + r[t]);
    }
  }

  lemma ProductPositive(x: real, y: real)
    requires x > 0.0 && y > 0.0
    ensures x * y > 0.0
  {
  }

  lemma DivideSelf(x: real)
    requires x != 0.0
    ensures x / x == 1.0
  {
  }

  /** After the first point the equity curve grows by `1 + r[t]` per period. */
  lemma EquityCurveSteps(base: real, r: seq<real>, t: nat)
    requires 0 < t < |r|
    ensures EquityCurve(base, r)[t] == EquityCurve(base, r)[t - 1] * (1.0 + r[t])
  {
    EquityCurveAt(base, r, t);
    EquityCurveAt(base, r, t - 1);
    assert r[..t + 1][..t] == r[..t];
  }

  /** A period whose `1 + r` is g multiplies the equity by g. */
  lemma EquityCurveGrowsBy(base: real, r: seq<real>, t: nat, g: real)
    requires 0 < t < |r| && 1.0 + r[t] == g
    ensures EquityCurve(base, r)[t] == EquityCurve(base, r)[t - 1] * g
  {
    EquityCurveSteps(base, r, t);
  }

  /** Period u+1's `1 + r` is the ratio of consecutive values of v. */
  predicate GrowsLike(r: seq<real>, v: seq<real>, u: int)
  {
    0 <= u && u + 1 < |r| && u + 1 < |v| && v[u] != 0.0 && 1.0 + r[u + 1] == v[u + 1] / v[u]
  }

  /** If each period's `1 + r` is the ratio of consecutive values of a
      series that is 1 at row a, the equity curve from row a on is its
      value at a times that series. */
  lemma {:induction false} EquityTracksValue(base: real, r: seq<real>, v: seq<real>, a: nat, t: nat)
    requires a <= t < |r| && |v| == |r|
    requires v[a] == 1.0
    requires forall u :: a <= u < t ==> GrowsLike(r, v, u)
    ensures EquityCurve(base, r)[t] == EquityCurve(base, r)[a] * v[t]
    decreases t
  {
    if t > a {
      EquityTracksValue(base, r, v, a, t - 1);
      EquityCurveSteps(base, r, t);
      var e := EquityCurve(base, r);
      assert GrowsLike(r, v, t - 1);
      assert e[t] == e[t - 1] * (v[t] / v[t - 1]);
      Cancel(e[a], v[t - 1], v[t]);
    }
  }

  /** Equal factors give equal products. */
  lemma SameProduct(x1: real, x2: real, y1: real, y2: real)
    requires x1 == x2 && y1 == y2
    ensures x1 * y1 == x2 * y2
  {
  }

  lemma Cancel(x: real, v0: real, v1: real)
    requires v0 != 0.0
    ensures (x * v0) * (v1 / v0) == x * v1
  {
  }
}
