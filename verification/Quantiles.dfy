/** Interpolated quantiles of a sorted list
    (src/envresearch/econometrics/_wave1_support.py lines 188-195;
    _wave1_evidence_models.py lines 53-69). */
module Quantiles {
  import opened Reals

  ghost predicate Sorted(values: seq<real>) {
    forall i, j | 0 <= i <= j < |values| :: values[i] <= values[j]
  }

  function Interpolate(low: real, high: real, fraction: real): real {
    low + fraction * (high - low)
  }

  /** _quantile at a position in [0, n - 1]. */
  function AtPosition(values: seq<real>, position: real): real
    requires 0.0 <= position <= (|values| - 1) as real
  {
    var lower, upper := position.Floor, Ceiling(position);
    if lower == upper then values[lower]
    else
      Interpolate(values[lower], values[upper], position - lower as real)
  }

  /** The position of a probability among n values. */
  function Rank(n: nat, probability: real): (position: real)
    requires n > 0 && 0.0 <= probability <= 1.0
    ensures 0.0 <= position <= (n - 1) as real
  {
    RankInside((n - 1) as real, probability);
    (n - 1) as real * probability
  }

  lemma RankInside(top: real, probability: real)
    requires 0.0 <= top && 0.0 <= probability <= 1.0
    ensures 0.0 <= top * probability <= top
  {
    NonnegativeProduct(top, probability);
    NonnegativeProduct(top, 1.0 - probability);
    assert top * (1.0 - probability) == top - top * probability;
  }

  lemma RankMonotone(n: nat, p: real, q: real)
    requires n > 0 && 0.0 <= p <= q <= 1.0
    ensures Rank(n, p) <= Rank(n, q)
  {
    var top := (n - 1) as real;
    NonnegativeProduct(top, q - p);
    assert top * (q - p) == top * q - top * p;
  }

  function Quantile(values: seq<real>, probability: real): real
    requires values != [] && 0.0 <= probability <= 1.0
  {
    AtPosition(values, Rank(|values|, probability))
  }

  lemma Between(low: real, high: real, fraction: real)
    requires low <= high && 0.0 <= fraction <= 1.0
    ensures low <= Interpolate(low, high, fraction) <= high
    ensures fraction == 0.0 ==> Interpolate(low, high, fraction) == low
  {
    var rise := high - low;
    NonnegativeProduct(fraction, rise);
    NonnegativeProduct(1.0 - fraction, rise);
    assert (1.0 - fraction) * rise == rise - fraction * rise;
  }

  /** Within one gap the value is the interpolation of its two ends. */
  lemma InGap(values: seq<real>, position: real, k: nat)
    requires Sorted(values) && 0.0 <= position <= (|values| - 1) as real && position.Floor == k
    ensures k < |values| && values[k] <= AtPosition(values, position)
    ensures k + 1 < |values| ==>
              && AtPosition(values, position) == Interpolate(values[k], values[k + 1], position - k as real)
              && AtPosition(values, position) <= values[k + 1]
    ensures k + 1 == |values| ==> AtPosition(values, position) == values[k]
  {
    hide Interpolate;
    if k + 1 < |values| {
      Between(values[k], values[k + 1], position - k as real);
    }
  }

  lemma FurtherIsMore(low: real, high: real, x: real, y: real)
    requires low <= high && x <= y
    ensures Interpolate(low, high, x) <= Interpolate(low, high, y)
  {
    var rise := high - low;
    NonnegativeProduct(y - x, rise);
    assert (y - x) * rise == y * rise - x * rise;
  }

  lemma PositionMonotone(values: seq<real>, x: real, y: real)
    requires Sorted(values) && 0.0 <= x <= y <= (|values| - 1) as real
    ensures AtPosition(values, x) <= AtPosition(values, y)
  {
    hide AtPosition, Interpolate;
    var j: nat, k: nat := x.Floor, y.Floor;
    InGap(values, x, j);
    InGap(values, y, k);
    assert j <= k;
    if j < k {
      assert values[j + 1] <= values[k];
    } else if k + 1 < |values| {
      FurtherIsMore(values[k], values[k + 1], x - k as real, y - k as real);
    }
  }

  /** Between two neighbouring ranks the quantile moves in a straight line from one value
      to the next, and at a whole rank it is that value. */
  lemma QuantileInterpolates(values: seq<real>, probability: real, k: nat, t: real)
    requires 0.0 <= probability <= 1.0 && k + 1 < |values| && 0.0 <= t <= 1.0
    requires probability * (|values| - 1) as real == k as real + t
    ensures Quantile(values, probability) == (1.0 - t) * values[k] + t * values[k + 1]
  {
    var position := Rank(|values|, probability);
    assert position == k as real + t;
    hide Rank;
    BetweenRanks(values, k, t);
  }

  lemma BetweenRanks(values: seq<real>, k: nat, t: real)
    requires k + 1 < |values| && 0.0 <= t <= 1.0
    ensures AtPosition(values, k as real + t) == (1.0 - t) * values[k] + t * values[k + 1]
  {
    var position := k as real + t;
    if t == 1.0 {
      assert position.Floor == k + 1 && Ceiling(position) == k + 1;
    } else if t == 0.0 {
      assert position.Floor == k && Ceiling(position) == k;
    } else {
      assert position.Floor == k && Ceiling(position) == k + 1;
      assert values[k] + t * (values[k + 1] - values[k]) == (1.0 - t) * values[k] + t * values[k + 1];
    }
  }

  /** A higher probability never gives a lower quantile. */
  lemma QuantileMonotone(values: seq<real>, p: real, q: real)
    requires values != [] && Sorted(values) && 0.0 <= p <= q <= 1.0
    ensures Quantile(values, p) <= Quantile(values, q)
  {
    hide AtPosition, Rank;
    RankMonotone(|values|, p, q);
    PositionMonotone(values, Rank(|values|, p), Rank(|values|, q));
  }

  lemma QuantileEnds(values: seq<real>)
    requires values != []
    ensures Quantile(values, 0.0) == values[0]
    ensures Quantile(values, 1.0) == values[|values| - 1]
  {
    var n := |values| - 1;
    assert n as real * 0.0 == 0.0 && n as real * 1.0 == n as real;
    assert Ceiling(0.0) == 0 && Ceiling(n as real) == n;
  }

  /** Every quantile lies between the minimum and the maximum. */
  lemma QuantileBetween(values: seq<real>, p: real)
    requires values != [] && Sorted(values) && 0.0 <= p <= 1.0
    ensures values[0] <= Quantile(values, p) <= values[|values| - 1]
  {
    hide Quantile;
    QuantileEnds(values);
    QuantileMonotone(values, 0.0, p);
    QuantileMonotone(values, p, 1.0);
  }

  /** MeasurementQuantiles.ordered. */
  predicate Ordered(q25: real, median: real, q75: real) {
    q25 <= median <= q75
  }

  /** The rebuilt quartiles always satisfy the ordering validator. */
  lemma QuartilesOrdered(values: seq<real>)
    requires values != [] && Sorted(values)
    ensures Ordered(Quantile(values, 0.25), Quantile(values, 0.5), Quantile(values, 0.75))
  {
    hide Quantile;
    QuantileMonotone(values, 0.25, 0.5);
    QuantileMonotone(values, 0.5, 0.75);
  }
}
