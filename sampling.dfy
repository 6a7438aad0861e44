/** Python's `random.choices(population, weights=weights, k=1)[0]`. The value
    that `random()` returns is the parameter `draw` (a number in [0, 1)), so
    every selection of the scripts is a function of its draws. Arithmetic is
    exact: the model does not round like a float. */
module Sampling {
  import opened Wrappers
  import opened Dict

  /** Sum of the first `n` weights. */
  function Prefix(w: seq<real>, n: nat): real
    requires n <= |w|
  {
    if n == 0 then 0.0 else Prefix(w, n - 1) + w[n - 1]
  }

  /** Sum of a list of weights. */
  function Total(w: seq<real>): real {
    Prefix(w, |w|)
  }

  /** `list(itertools.accumulate(w))`: the running totals. */
  function Accumulate(w: seq<real>): (c: seq<real>)
    ensures |c| == |w|
    ensures forall i :: 0 <= i < |w| ==> c[i] == Prefix(w, i + 1)
  {
    seq(|w|, i requires 0 <= i < |w| => Prefix(w, i + 1))
  }

  /** `bisect.bisect_right(a, x, lo, hi)`, the binary search of the C library. */
  function BisectRight(a: seq<real>, x: real, lo: nat, hi: nat): (r: nat)
    requires lo <= hi <= |a|
    ensures lo <= r <= hi
    decreases hi - lo
  {
    if lo < hi then
      var mid := (lo + hi) / 2;
      if x < a[mid] then BisectRight(a, x, lo, mid) else BisectRight(a, x, mid + 1, hi)
    else lo
  }

  ghost predicate NonDecreasing(a: seq<real>, lo: int, hi: int) {
    forall i, j :: 0 <= lo <= i < j < hi <= |a| ==> a[i] <= a[j]
  }

  /** On a sorted range the search returns the first position whose value
      exceeds `x`. */
  lemma {:induction false} BisectRightSorted(a: seq<real>, x: real, lo: nat, hi: nat)
    requires lo <= hi <= |a| && NonDecreasing(a, lo, hi)
    ensures forall j :: lo <= j < BisectRight(a, x, lo, hi) ==> a[j] <= x
    ensures forall j :: BisectRight(a, x, lo, hi) <= j < hi ==> x < a[j]
    decreases hi - lo
  {
    if lo < hi {
      var mid := (lo + hi) / 2;
      if x < a[mid] {
        assert NonDecreasing(a, lo, mid);
        BisectRightSorted(a, x, lo, mid);
        var r := BisectRight(a, x, lo, mid);
        assert BisectRight(a, x, lo, hi) == r;
        forall j | mid <= j < hi
          ensures x < a[j]
        {
          assert a[mid] <= a[j];
        }
      } else {
        assert NonDecreasing(a, mid + 1, hi);
        BisectRightSorted(a, x, mid + 1, hi);
        var r := BisectRight(a, x, mid + 1, hi);
        assert BisectRight(a, x, lo, hi) == r;
        forall j | lo <= j <= mid
          ensures a[j] <= x
        {
          assert a[j] <= a[mid];
        }
      }
    }
  }

  /** On any list, the search stops at `lo` only after seeing `x < a[lo]`. */
  lemma {:induction false} BisectRightAtLow(a: seq<real>, x: real, lo: nat, hi: nat)
    requires lo < hi <= |a| && BisectRight(a, x, lo, hi) == lo
    ensures x < a[lo]
    decreases hi - lo
  {
    var mid := (lo + hi) / 2;
    if x < a[mid] && lo < mid {
      BisectRightAtLow(a, x, lo, mid);
    }
  }

  /** The position whose running-total interval holds the point `x`. */
  function PickAt(weights: seq<real>, x: real): (i: nat)
    requires |weights| > 0
    ensures i < |weights|
  {
    BisectRight(Accumulate(weights), x, 0, |weights| - 1)
  }

  /** The position `random.choices` picks once its argument checks have
      passed: the draw scaled to the total weight is looked up among the
      running totals. */
  function ChoiceIndex(weights: seq<real>, draw: real): (i: nat)
    requires |weights| > 0
    ensures i < |weights|
  {
    PickAt(weights, draw * Total(weights))
  }

  /** `random.choices(population, weights=weights)[0]`: ValueError when the
      lengths differ, IndexError for an empty population, ValueError when the
      weights do not add up to a positive total. */
  function Choose<T>(population: seq<T>, weights: seq<real>, draw: real): (r: Result<T>)
    ensures r.Ok? <==> |weights| == |population| > 0 && Total(weights) > 0.0
    ensures r.Ok? ==> r.value == population[ChoiceIndex(weights, draw)]
    ensures r.Err? ==> r.error == (if |weights| == |population| == 0 then IndexError else ValueError)
  {
    if |weights| != |population| then Err(ValueError)
    else if |population| == 0 then Err(IndexError)
    else
      var cum := Accumulate(weights);
      if cum[|cum| - 1] <= 0.0 then Err(ValueError)
      else Ok(population[ChoiceIndex(weights, draw)])
  }

  /** `random.choices(list(d.keys()), weights=list(d.values()))[0]`. */
  function ChooseKey<K>(d: Dict<K, real>, draw: real): (r: Result<K>)
    ensures r == Err(IndexError) <==> d == []
    ensures r.Ok? <==> d != [] && Total(Values(d)) > 0.0
    ensures r.Ok? ==> r.value == d[ChoiceIndex(Values(d), draw)].0
  {
    var k := Choose(Keys(d), Values(d), draw);
    if k.Ok? then Ok(d[ChoiceIndex(Values(d), draw)].0) else k
  }

  ghost predicate NonNegative(w: seq<real>) {
    forall i :: 0 <= i < |w| ==> w[i] >= 0.0
  }

  lemma {:induction false} PrefixMonotone(w: seq<real>, m: nat, n: nat)
    requires NonNegative(w) && m <= n <= |w|
    ensures Prefix(w, m) <= Prefix(w, n)
    decreases n - m
  {
    if m < n {
      PrefixMonotone(w, m, n - 1);
    }
  }

  lemma {:induction false} AccumulateNonDecreasing(w: seq<real>)
    requires NonNegative(w)
    ensures NonDecreasing(Accumulate(w), 0, |w|)
  {
    var c := Accumulate(w);
    forall i, j | 0 <= i < j < |w|
      ensures c[i] <= c[j]
    {
      PrefixMonotone(w, i + 1, j + 1);
    }
  }

  /** A draw in [0, 1) scales a positive total into [0, total). */
  lemma {:induction false} ScaledDraw(draw: real, total: real)
    requires 0.0 <= draw < 1.0 && total > 0.0
    ensures 0.0 <= draw * total < total
  {
  }

  lemma {:induction false} DrawBelowTotal(weights: seq<real>, draw: real)
    requires 0.0 <= draw < 1.0 && Total(weights) > 0.0
    ensures 0.0 <= draw * Total(weights) < Total(weights)
  {
    ScaledDraw(draw, Total(weights));
  }

  /** A point in [0, total) lands on an item of positive weight. */
  lemma {:induction false} PickAtPositiveWeight(weights: seq<real>, x: real)
    requires |weights| > 0 && NonNegative(weights)
    requires 0.0 <= x < Total(weights)
    ensures weights[PickAt(weights, x)] > 0.0
  {
    var n := |weights|;
    var c := Accumulate(weights);
    var i := PickAt(weights, x);
    AccumulateNonDecreasing(weights);
    BisectRightSorted(c, x, 0, n - 1);
    assert x < c[i] == Prefix(weights, i) + weights[i];
    if i > 0 {
      assert c[i - 1] == Prefix(weights, i) <= x;
    } else {
      assert Prefix(weights, 0) == 0.0;
    }
  }

  /** With non-negative weights and a draw in [0, 1), `random.choices` only
      ever picks an item whose weight is positive. */
  lemma {:induction false} PickHasPositiveWeight(weights: seq<real>, draw: real)
    requires |weights| > 0 && NonNegative(weights) && Total(weights) > 0.0
    requires 0.0 <= draw < 1.0
    ensures weights[ChoiceIndex(weights, draw)] > 0.0
  {
    DrawBelowTotal(weights, draw);
    PickAtPositiveWeight(weights, draw * Total(weights));
  }

  /** The first item is picked only when the scaled draw falls below its
      weight, whatever the other weights are. */
  lemma {:induction false} FirstPickedOnlyBelowItsWeight(weights: seq<real>, x: real)
    requires |weights| > 1 && PickAt(weights, x) == 0
    ensures x < weights[0]
  {
    var c := Accumulate(weights);
    BisectRightAtLow(c, x, 0, |weights| - 1);
    assert c[0] == Prefix(weights, 0) + weights[0];
  }

  lemma {:induction false} PrefixNonNegative(w: seq<real>, n: nat)
    requires NonNegative(w) && n <= |w|
    ensures Prefix(w, n) >= 0.0
  {
    if n > 0 {
      PrefixNonNegative(w, n - 1);
    }
  }

  /** Non-negative weights with one positive weight have a positive total. */
  lemma {:induction false} TotalPositive(w: seq<real>, i: nat)
    requires NonNegative(w) && i < |w| && w[i] > 0.0
    ensures Total(w) > 0.0
  {
    PrefixNonNegative(w, i);
    PrefixMonotone(w, i + 1, |w|);
  }

  /** With non-negative weights and a draw in [0, 1), the key drawn from a
      dict carries a positive weight. */
  lemma {:induction false} ChooseKeyPositive<K>(d: Dict<K, real>, draw: real)
    requires NonNegative(Values(d)) && 0.0 <= draw < 1.0
    requires ChooseKey(d, draw).Ok?
    ensures d[ChoiceIndex(Values(d), draw)].1 > 0.0
  {
    PickHasPositiveWeight(Values(d), draw);
  }
}
