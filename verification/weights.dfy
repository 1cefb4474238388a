/** The weight normaliser of the portfolio engine (`normalize_weights`):
    a weight dictionary is mapped onto the probability simplex, or onto
    uniform weights when its total is not positive. */
module Weights {
  import opened Wrappers
  import opened SeqMath

  /** An asset key such as "BTC". */
  type Key = string

  /** A Python dict from asset key to weight, in insertion order;
      a `None` value is a NaN weight. */
  datatype WeightMap = WeightMap(keys: seq<Key>, values: seq<Option<real>>)

  /** A normalised weight dict: every key carries a number. */
  datatype Allocation = Allocation(keys: seq<Key>, values: seq<real>)

  predicate DistinctKeys(keys: seq<Key>)
  {
    forall i, j :: 0 <= i < j < |keys| ==> keys[i] != keys[j]
  }

  /** What every Python dict satisfies: one value per key, no key twice. */
  predicate WellFormed(w: WeightMap)
  {
    |w.keys| == |w.values| && DistinctKeys(w.keys)
  }

  /** The weights as numbers, NaN read as 0 (`fillna(0.0)`). */
  function Filled(w: WeightMap): (v: seq<real>)
    ensures |v| == |w.values|
  {
    FillNa(w.values)
  }

  /** `normalize_weights`: divide by the total when it is positive, otherwise
      give every key `1/N`; an empty dict raises ZeroDivisionError (1.0/0). */
  function NormalizeWeights(w: WeightMap): (r: Result<Allocation>)
    requires WellFormed(w)
    ensures r.Err? <==> |w.keys| == 0
    ensures r.Ok? ==> r.value.keys == w.keys && |r.value.values| == |w.keys|
    ensures r.Ok? ==> Sum(r.value.values) == 1.0
    ensures r.Ok? && Sum(Filled(w)) > 0.0 ==> r.value.values == Divide(Filled(w), Sum(Filled(w)))
    ensures r.Ok? && Sum(Filled(w)) <= 0.0 ==> r.value.values == Uniform(|w.keys|)
  {
    var v := Filled(w);
    var s := Sum(v);
    if s <= 0.0 then
      if |v| == 0 then Err(ZeroDivisionError)
      else
        UniformSum(|v|);
        Ok(Allocation(w.keys, Uniform(|v|)))
    else
      SumDivide(v, s);
      DivideSelf(s);
      Ok(Allocation(w.keys, Divide(v, s)))
  }

  /** `1/N` for each of N keys. */
  function Uniform(n: nat): (u: seq<real>)
    requires n > 0
    ensures |u| == n
  {
    seq(n, _ => 1.0 / n as real)
  }

  /** The uniform shares sum to 1. */
  lemma UniformSum(n: nat)
    requires n > 0
    ensures forall i :: 0 <= i < n ==> Uniform(n)[i] * n as real == 1.0
    ensures Sum(Uniform(n)) == 1.0
  {
    SumConstant(n, 1.0 / n as real);
  }

  /** `weights.get(key, 0.0)`: a missing key reads as weight 0. */
  function Lookup(w: WeightMap, k: Key): (r: Option<real>)
    requires WellFormed(w)
    ensures k !in w.keys ==> r == Some(0.0)
    ensures forall i :: 0 <= i < |w.keys| && w.keys[i] == k ==> r == w.values[i]
    decreases |w.keys|
  {
    if |w.keys| == 0 then Some(0.0)
    else if w.keys[0] == k then w.values[0]
    else Lookup(WeightMap(w.keys[1..], w.values[1..]), k)
  }

  /** The dict back as input: every weight present. */
  function AsWeightMap(a: Allocation): WeightMap
  {
    WeightMap(a.keys, seq(|a.values|, i requires 0 <= i < |a.values| => Some(a.values[i])))
  }

  // ---------------------------------------------------------------------
  // Lemmas

  /** With a positive total the relative sizes of any two weights are kept. */
  lemma NormalizePreservesRatios(w: WeightMap, i: nat, j: nat)
    requires WellFormed(w) && i < |w.keys| && j < |w.keys|
    requires Sum(Filled(w)) > 0.0
    ensures NormalizeWeights(w).Ok?
    ensures NormalizeWeights(w).value.values[i] * Filled(w)[j]
         == NormalizeWeights(w).value.values[j] * Filled(w)[i]
  {
    var v := Filled(w);
    var out := NormalizeWeights(w).value.values;
    CrossRatio(out[i], out[j], v[i], v[j], Sum(v));
  }

  lemma CrossRatio(p: real, q: real, a: real, b: real, s: real)
    requires s != 0.0 && p == a / s && q == b / s
    ensures p * b == q * a
  {
    assert p * s == a && q * s == b;
    assert p * b * s == q * a * s;
  }

  lemma QuotientNonNegative(x: real, c: real)
    requires x >= 0.0 && c > 0.0
    ensures x / c >= 0.0
  {
  }

  /** Non-negative (or missing) input weights give a point of the simplex;
      the uniform fallback is always one. */
  lemma NormalizedOnSimplex(w: WeightMap)
    requires WellFormed(w) && |w.keys| > 0
    requires Sum(Filled(w)) <= 0.0 || forall i :: 0 <= i < |w.values| && w.values[i].Some? ==> w.values[i].value >= 0.0
    ensures NormalizeWeights(w).Ok? && OnSimplex(NormalizeWeights(w).value.values)
  {
    var v := Filled(w);
    var out := NormalizeWeights(w).value.values;
    forall i | 0 <= i < |out| ensures out[i] >= 0.0 {
      if Sum(v) > 0.0 {
        QuotientNonNegative(v[i], Sum(v));
      } else {
        QuotientNonNegative(1.0, |w.keys| as real);
      }
    }
  }

  /** Normalising an already normalised dict changes nothing. */
  lemma NormalizeIdempotent(w: WeightMap)
    requires WellFormed(w) && |w.keys| > 0
    ensures NormalizeWeights(w).Ok?
    ensures NormalizeWeights(AsWeightMap(NormalizeWeights(w).value)) == NormalizeWeights(w)
  {
    var a := NormalizeWeights(w).value;
    var w2 := AsWeightMap(a);
    assert Filled(w2) == a.values;
    assert Sum(Filled(w2)) == 1.0;
    var b := NormalizeWeights(w2).value;
    assert b.values == Divide(a.values, 1.0);
    assert b.values == a.values;
  }
}
