/** The price-matrix builder of the portfolio engine (`build_prices_matrix`):
    the close series fetched for each asset are joined on timestamp, keeping
    only the timestamps at which every kept asset has a close. */
module Prices {
  import opened Wrappers
  import opened Weights

  /** One bar of a fetched frame, reduced to its Close (NaN is `None`). */
  datatype Quote = Quote(timestamp: int, close: Option<real>)

  /** What the data adapter returned for one asset; an empty sequence is the
      empty frame it returns when nothing could be fetched. */
  type PriceSeries = seq<Quote>

  /** One timestamp of the aligned matrix: a close for every column. */
  datatype Row = Row(timestamp: int, prices: seq<real>)

  /** Columns are asset keys, rows are ascending timestamps; no cell is missing. */
  datatype PriceMatrix = PriceMatrix(columns: seq<Key>, rows: seq<Row>)

  predicate UniqueTimestamps(s: PriceSeries)
  {
    forall i, j :: 0 <= i < j < |s| ==> s[i].timestamp != s[j].timestamp
  }

  predicate StrictlyIncreasing(s: seq<int>)
  {
    forall i, j :: 0 <= i < j < |s| ==> s[i] < s[j]
  }

  /** The series has a present close at timestamp t. */
  predicate HasClose(s: PriceSeries, t: int)
  {
    exists i :: 0 <= i < |s| && s[i].timestamp == t && s[i].close.Some?
  }

  /** Every series has a present close at timestamp t. */
  predicate InAll(data: seq<PriceSeries>, t: int)
  {
    forall j :: 0 <= j < |data| ==> HasClose(data[j], t)
  }

  /** The frame's index: the timestamp of each row, in row order. */
  function Timestamps(m: PriceMatrix): (ts: seq<int>)
    ensures |ts| == |m.rows|
  {
    seq(|m.rows|, i requires 0 <= i < |m.rows| => m.rows[i].timestamp)
  }

  /** Every row carries one price per column. */
  predicate Shaped(m: PriceMatrix)
  {
    forall i :: 0 <= i < |m.rows| ==> |m.rows[i].prices| == |m.columns|
  }

  /** The invariants of the DataFrame that `build_prices_matrix` returns. */
  predicate ValidMatrix(m: PriceMatrix)
  {
    Shaped(m) && StrictlyIncreasing(Timestamps(m)) && DistinctKeys(m.columns)
  }

  /** `prices.empty`: no row or no column. */
  predicate IsEmpty(m: PriceMatrix)
  {
    |m.rows| == 0 || |m.columns| == 0
  }

  /** The close of the series at timestamp t. */
  function CloseAt(s: PriceSeries, t: int): (r: real)
    requires UniqueTimestamps(s) && HasClose(s, t)
    ensures forall i :: 0 <= i < |s| && s[i].timestamp == t ==> s[i].close == Some(r)
  {
    if s[0].timestamp == t && s[0].close.Some? then s[0].close.value
    else
      assert HasClose(s[1..], t) by {
        var i :| 0 <= i < |s| && s[i].timestamp == t && s[i].close.Some?;
        assert i != 0;
        assert s[1..][i - 1] == s[i];
      }
      CloseAt(s[1..], t)
  }

  /** Insert x into a strictly increasing sequence, keeping it so (no duplicate). */
  function InsertSorted(x: int, s: seq<int>): (r: seq<int>)
    requires StrictlyIncreasing(s)
    ensures StrictlyIncreasing(r)
    ensures forall y :: y in r <==> y == x || y in s
  {
    if s == [] then [x]
    else if x < s[0] then [x] + s
    else if x == s[0] then s
    else
      var rest := InsertSorted(x, s[1..]);
      assert forall y :: y in s[1..] ==> s[0] < y by {
        forall y | y in s[1..] ensures s[0] < y {
          var k :| 0 <= k < |s[1..]| && s[1..][k] == y;
          assert s[k + 1] == y;
        }
      }
      PrependIncreasing(s[0], rest);
      [s[0]] + rest
  }

  lemma PrependIncreasing(a: int, s: seq<int>)
    requires StrictlyIncreasing(s) && forall y :: y in s ==> a < y
    ensures StrictlyIncreasing([a] + s)
  {
    forall i, j | 0 <= i < j < |[a] + s|
      ensures ([a] + s)[i] < ([a] + s)[j]
    {
      assert ([a] + s)[j] == s[j - 1];
      if i > 0 {
        assert ([a] + s)[i] == s[i - 1];
      } else {
        assert s[j - 1] in s;
      }
    }
  }

  /** `sort_index()` on a union of timestamps: ascending, each once. */
  function SortUnique(s: seq<int>): (r: seq<int>)
    ensures StrictlyIncreasing(r)
    ensures forall y :: y in r <==> y in s
  {
    if s == [] then [] else InsertSorted(s[0], SortUnique(s[1..]))
  }

  /** The timestamps of `first` that survive `dropna(how="any")` after the join. */
  function CommonTimes(first: PriceSeries, data: seq<PriceSeries>): (r: seq<int>)
    ensures forall t :: t in r <==> HasClose(first, t) && InAll(data, t)
  {
    if first == [] then []
    else
      var rest := CommonTimes(first[1..], data);
      assert forall t :: HasClose(first, t) <==>
        (first[0].timestamp == t && first[0].close.Some?) || HasClose(first[1..], t) by {
        forall t | HasClose(first, t)
          ensures (first[0].timestamp == t && first[0].close.Some?) || HasClose(first[1..], t)
        {
          var i :| 0 <= i < |first| && first[i].timestamp == t && first[i].close.Some?;
          if i > 0 { assert first[1..][i - 1] == first[i]; }
        }
        forall t | HasClose(first[1..], t) ensures HasClose(first, t) {
          var i :| 0 <= i < |first[1..]| && first[1..][i].timestamp == t && first[1..][i].close.Some?;
          assert first[i + 1] == first[1..][i];
        }
      }
      if first[0].close.Some? && InAll(data, first[0].timestamp) then [first[0].timestamp] + rest
      else rest
  }

  /** `pd.concat(series, axis=1).sort_index().dropna(how="any")`. */
  function Align(cols: seq<Key>, data: seq<PriceSeries>): (m: PriceMatrix)
    requires |cols| == |data| > 0
    requires forall j :: 0 <= j < |data| ==> UniqueTimestamps(data[j])
    ensures m.columns == cols && Shaped(m)
    ensures StrictlyIncreasing(Timestamps(m))
    ensures forall t :: t in Timestamps(m) <==> InAll(data, t)
    ensures forall i, j, k ::
      (0 <= i < |m.rows| && 0 <= j < |cols| && 0 <= k < |data[j]| && data[j][k].timestamp == m.rows[i].timestamp)
      ==> data[j][k].close == Some(m.rows[i].prices[j])
  {
    var ts := SortUnique(CommonTimes(data[0], data));
    assert forall i :: 0 <= i < |ts| ==> InAll(data, ts[i]) by {
      forall i | 0 <= i < |ts| ensures InAll(data, ts[i]) {
        assert ts[i] in ts;
      }
    }
    var m := PriceMatrix(cols, seq(|ts|, i requires 0 <= i < |ts| =>
      Row(ts[i], seq(|data|, j requires 0 <= j < |data| => CloseAt(data[j], ts[i])))));
    assert Timestamps(m) == ts;
    m
  }

  // ---------------------------------------------------------------------
  // The fetch loop

  /** The `price_series` dict after the loop: keys in insertion order, and the
      series stored under each (a repeated key keeps its first position and
      its last non-empty series). */
  datatype Collected = Collected(kept: seq<Key>, series: map<Key, PriceSeries>)

  function Collect(keys: seq<Key>, fetched: seq<PriceSeries>): (c: Collected)
    requires |keys| == |fetched|
    ensures DistinctKeys(c.kept)
    ensures forall k :: k in c.kept <==> k in c.series
    ensures forall k :: k in c.series ==> c.series[k] in fetched && |c.series[k]| > 0
    decreases |keys|
  {
    if keys == [] then Collected([], map[])
    else
      var n := |keys| - 1;
      var c := Collect(keys[..n], fetched[..n]);
      if |fetched[n]| == 0 then c
      else Collected(if keys[n] in c.series then c.kept else c.kept + [keys[n]],
                     c.series[keys[n] := fetched[n]])
  }

  /** Some fetch for key k returned data. */
  predicate Fetched(keys: seq<Key>, fetched: seq<PriceSeries>, k: Key)
    requires |keys| == |fetched|
  {
    exists i :: 0 <= i < |keys| && keys[i] == k && |fetched[i]| > 0
  }

  /** The kept keys are exactly the keys for which some fetch returned data. */
  lemma {:induction false} CollectKeepsFetched(keys: seq<Key>, fetched: seq<PriceSeries>, k: Key)
    requires |keys| == |fetched|
    ensures k in Collect(keys, fetched).kept <==> Fetched(keys, fetched, k)
    decreases |keys|
  {
    if keys != [] {
      var n := |keys| - 1;
      CollectKeepsFetched(keys[..n], fetched[..n], k);
      FetchedStep(keys, fetched, k);
    }
  }

  /** A fetch for k returned data either before the last key or at it. */
  lemma FetchedStep(keys: seq<Key>, fetched: seq<PriceSeries>, k: Key)
    requires |keys| == |fetched| > 0
    ensures var n := |keys| - 1;
      Fetched(keys, fetched, k) <==>
        Fetched(keys[..n], fetched[..n], k) || (keys[n] == k && |fetched[n]| > 0)
  {
    var n := |keys| - 1;
    if Fetched(keys[..n], fetched[..n], k) {
      var i :| 0 <= i < n && keys[..n][i] == k && |fetched[..n][i]| > 0;
      assert keys[i] == k && |fetched[i]| > 0;
    }
    if Fetched(keys, fetched, k) {
      var i :| 0 <= i < |keys| && keys[i] == k && |fetched[i]| > 0;
      if i < n {
        assert keys[..n][i] == k && |fetched[..n][i]| > 0;
      }
    }
  }

  /** The position of the last fetch for k that returned data, or -1. */
  function LastFetch(keys: seq<Key>, fetched: seq<PriceSeries>, k: Key): (i: int)
    requires |keys| == |fetched|
    ensures -1 <= i < |keys|
    ensures i >= 0 ==> keys[i] == k && |fetched[i]| > 0
    ensures forall i' :: i < i' < |keys| && keys[i'] == k ==> |fetched[i']| == 0
    decreases |keys|
  {
    if keys == [] then -1
    else
      var n := |keys| - 1;
      if keys[n] == k && |fetched[n]| > 0 then n
      else LastFetch(keys[..n], fetched[..n], k)
  }

  /** A key fetched more than once keeps the last non-empty series. */
  lemma {:induction false} CollectKeepsLast(keys: seq<Key>, fetched: seq<PriceSeries>, k: Key)
    requires |keys| == |fetched|
    requires k in Collect(keys, fetched).series
    ensures LastFetch(keys, fetched, k) >= 0
    ensures Collect(keys, fetched).series[k] == fetched[LastFetch(keys, fetched, k)]
    decreases |keys|
  {
    var n := |keys| - 1;
    if !(keys[n] == k && |fetched[n]| > 0) {
      var c0 := Collect(keys[..n], fetched[..n]);
      assert k in c0.series && Collect(keys, fetched).series[k] == c0.series[k];
      CollectKeepsLast(keys[..n], fetched[..n], k);
      var i := LastFetch(keys[..n], fetched[..n], k);
      assert fetched[i] == fetched[..n][i];
    }
  }

  /** The position of the first fetch for k that returned data, or -1. */
  function FirstFetch(keys: seq<Key>, fetched: seq<PriceSeries>, k: Key): (i: int)
    requires |keys| == |fetched|
    ensures -1 <= i < |keys|
    ensures i >= 0 ==> keys[i] == k && |fetched[i]| > 0
    ensures forall i' :: 0 <= i' < |keys| && (i < 0 || i' < i) && keys[i'] == k ==> |fetched[i']| == 0
    decreases |keys|
  {
    if keys == [] then -1
    else
      var n := |keys| - 1;
      var f := FirstFetch(keys[..n], fetched[..n], k);
      if f >= 0 then f
      else if keys[n] == k && |fetched[n]| > 0 then n
      else -1
  }

  /** Columns follow insertion order: of two kept keys, the one listed first
      is the one whose first non-empty fetch came first. */
  lemma {:induction false} CollectKeepsOrder(keys: seq<Key>, fetched: seq<PriceSeries>, i: nat, j: nat)
    requires |keys| == |fetched|
    requires i < j < |Collect(keys, fetched).kept|
    ensures var kept := Collect(keys, fetched).kept;
      0 <= FirstFetch(keys, fetched, kept[i]) < FirstFetch(keys, fetched, kept[j])
    decreases |keys|
  {
    var n := |keys| - 1;
    var c0 := Collect(keys[..n], fetched[..n]);
    var kept := Collect(keys, fetched).kept;
    assert kept[i] in c0.kept by {
      if |fetched[n]| > 0 && keys[n] !in c0.series {
        assert kept == c0.kept + [keys[n]];
      }
    }
    CollectKeepsFetched(keys[..n], fetched[..n], kept[i]);
    if j < |c0.kept| {
      CollectKeepsOrder(keys[..n], fetched[..n], i, j);
      assert kept[i] == c0.kept[i] && kept[j] == c0.kept[j];
      CollectKeepsFetched(keys[..n], fetched[..n], kept[j]);
    } else {
      assert kept[j] == keys[n] && keys[n] !in c0.kept;
      CollectKeepsFetched(keys[..n], fetched[..n], keys[n]);
    }
  }

  /** The dict-filling loop of `build_prices_matrix`. */
  method CollectSeries(symbolKeys: seq<Key>, fetched: seq<PriceSeries>)
    returns (kept: seq<Key>, series: map<Key, PriceSeries>)
    requires |fetched| == |symbolKeys|
    ensures Collected(kept, series) == Collect(symbolKeys, fetched)
  {
    kept, series := [], map[];
    for i := 0 to |symbolKeys|
      invariant Collected(kept, series) == Collect(symbolKeys[..i], fetched[..i])
    {
      assert symbolKeys[..i + 1][..i] == symbolKeys[..i];
      assert fetched[..i + 1][..i] == fetched[..i];
      var df := fetched[i];
      if |df| == 0 {
        continue;
      }
      var k := symbolKeys[i];
      if k !in series {
        kept := kept + [k];
      }
      series := series[k := df];
    }
    assert symbolKeys[..|symbolKeys|] == symbolKeys;
    assert fetched[..|fetched|] == fetched;
  }

  /** The series kept for each kept key, in column order. */
  function KeptSeries(c: Collected): (data: seq<PriceSeries>)
    requires forall k :: k in c.kept ==> k in c.series
    ensures |data| == |c.kept|
  {
    seq(|c.kept|, j requires 0 <= j < |c.kept| => c.series[c.kept[j]])
  }

  /** What `build_prices_matrix` returns for these fetch results: the empty
      frame when no fetch returned data, the aligned kept series otherwise. */
  function BuildSpec(keys: seq<Key>, fetched: seq<PriceSeries>): (m: PriceMatrix)
    requires |fetched| == |keys|
    requires forall i :: 0 <= i < |fetched| ==> UniqueTimestamps(fetched[i])
  {
    var c := Collect(keys, fetched);
    if |c.kept| == 0 then PriceMatrix([], [])
    else
      var data := KeptSeries(c);
      assert forall j :: 0 <= j < |data| ==> UniqueTimestamps(data[j]) by {
        forall j | 0 <= j < |data| ensures UniqueTimestamps(data[j]) {
          assert data[j] in fetched;
        }
      }
      Align(c.kept, data)
  }

  /** `build_prices_matrix`, with the adapter's answers for the keys, in order,
      as `fetched`. Empty answers are skipped; with none left the result is the
      empty frame; otherwise the kept series are joined on timestamp. */
  method BuildPricesMatrix(symbolKeys: seq<Key>, fetched: seq<PriceSeries>) returns (m: PriceMatrix)
    requires |fetched| == |symbolKeys|
    requires forall i :: 0 <= i < |fetched| ==> UniqueTimestamps(fetched[i])
    ensures m == BuildSpec(symbolKeys, fetched)
    ensures ValidMatrix(m)
    ensures forall k :: k in m.columns <==> Fetched(symbolKeys, fetched, k)
  {
    var kept, series := CollectSeries(symbolKeys, fetched);
    forall k ensures k in kept <==> Fetched(symbolKeys, fetched, k) {
      CollectKeepsFetched(symbolKeys, fetched, k);
    }
    if |kept| == 0 {
      m := PriceMatrix([], []);
      return;
    }
    m := Align(kept, KeptSeries(Collected(kept, series)));
  }
}
