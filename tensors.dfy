/** The tensor arithmetic `merge_checkpoints` applies to one parameter: torch's
    elementwise add, subtract and scalar multiply on equal-shape tensors, and
    the two blend formulas built from them. A tensor is modelled flattened, as
    a sequence of exact reals. */
module Tensors {

  type Tensor = seq<real>

  /** Elementwise `a + b`. */
  function Add(a: Tensor, b: Tensor): (r: Tensor)
    requires |a| == |b|
    ensures |r| == |a|
    ensures forall i :: 0 <= i < |r| ==> r[i] == a[i] + b[i]
    decreases |a|
  {
    if a == [] then [] else [a[0] + b[0]] + Add(a[1..], b[1..])
  }

  /** Elementwise `a - b`. */
  function Sub(a: Tensor, b: Tensor): (r: Tensor)
    requires |a| == |b|
    ensures |r| == |a|
    ensures forall i :: 0 <= i < |r| ==> r[i] == a[i] - b[i]
    decreases |a|
  {
    if a == [] then [] else [a[0] - b[0]] + Sub(a[1..], b[1..])
  }

  /** Scalar times tensor, `c * a`. */
  function Scale(c: real, a: Tensor): (r: Tensor)
    ensures |r| == |a|
    ensures forall i :: 0 <= i < |r| ==> r[i] == c * a[i]
    decreases |a|
  {
    if a == [] then [] else [c * a[0]] + Scale(c, a[1..])
  }

  /** The `weight_sum` formula, `(1 - alpha) * A + alpha * B`. */
  function WeightedSum(a: Tensor, b: Tensor, alpha: real): (r: Tensor)
    requires |a| == |b|
    ensures |r| == |a|
  {
    Add(Scale(1.0 - alpha, a), Scale(alpha, b))
  }

  /** The `add_difference` formula, `A + multiplier * alpha * (B - A)`; the
      two scalars are multiplied first, as Python evaluates left to right. */
  function AddDifference(a: Tensor, b: Tensor, alpha: real, multiplier: real): (r: Tensor)
    requires |a| == |b|
    ensures |r| == |a|
  {
    Add(a, Scale(multiplier * alpha, Sub(b, a)))
  }

  /** The point reached from x by going the fraction k of the way to y. */
  function Step(x: real, y: real, k: real): real {
    x + k * (y - x)
  }

  /** Element i of a weighted sum moves from A's value toward B's by the
      fraction alpha of their distance. */
  lemma WeightedSumAt(a: Tensor, b: Tensor, alpha: real, i: nat)
    requires |a| == |b| && i < |a|
    ensures WeightedSum(a, b, alpha)[i] == Step(a[i], b[i], alpha)
  {
    assert WeightedSum(a, b, alpha)[i] == (1.0 - alpha) * a[i] + alpha * b[i];
    LerpIsStep(a[i], b[i], alpha);
  }

  /** Element i of `add_difference` moves from A's value toward B's by the
      fraction multiplier * alpha of their distance. */
  lemma AddDifferenceAt(a: Tensor, b: Tensor, alpha: real, multiplier: real, i: nat)
    requires |a| == |b| && i < |a|
    ensures AddDifference(a, b, alpha, multiplier)[i] == Step(a[i], b[i], multiplier * alpha)
  {
    var k, d := multiplier * alpha, Sub(b, a);
    MulEqual(k, d[i], b[i] - a[i]);
  }

  /** Ratio 0 reproduces model A exactly. */
  lemma WeightedSumAtZero(a: Tensor, b: Tensor)
    requires |a| == |b|
    ensures WeightedSum(a, b, 0.0) == a
  {
  }

  /** Ratio 1 reproduces model B exactly. */
  lemma WeightedSumAtOne(a: Tensor, b: Tensor)
    requires |a| == |b|
    ensures WeightedSum(a, b, 1.0) == b
  {
  }

  /** Blending A into B at ratio alpha is blending B into A at 1 - alpha. */
  lemma WeightedSumSwap(a: Tensor, b: Tensor, alpha: real)
    requires |a| == |b|
    ensures WeightedSum(a, b, alpha) == WeightedSum(b, a, 1.0 - alpha)
  {
  }

  /** For a ratio in [0, 1] every element lies between A's and B's values:
      a weighted sum never overshoots either model. */
  lemma WeightedSumBetween(a: Tensor, b: Tensor, alpha: real, i: nat)
    requires |a| == |b| && i < |a|
    requires 0.0 <= alpha <= 1.0
    ensures a[i] <= b[i] ==> a[i] <= WeightedSum(a, b, alpha)[i] <= b[i]
    ensures b[i] <= a[i] ==> b[i] <= WeightedSum(a, b, alpha)[i] <= a[i]
  {
    WeightedSumAt(a, b, alpha, i);
    if a[i] <= b[i] {
      StepUpBetween(a[i], b[i], alpha);
    }
    if b[i] <= a[i] {
      StepDownBetween(a[i], b[i], alpha);
    }
  }

  /** `add_difference` is the weighted sum at the combined ratio
      multiplier * alpha. */
  lemma AddDifferenceIsWeightedSum(a: Tensor, b: Tensor, alpha: real, multiplier: real)
    requires |a| == |b|
    ensures AddDifference(a, b, alpha, multiplier) == WeightedSum(a, b, multiplier * alpha)
  {
    var r := AddDifference(a, b, alpha, multiplier);
    var w := WeightedSum(a, b, multiplier * alpha);
    forall i | 0 <= i < |a| ensures r[i] == w[i] {
      AddDifferenceAt(a, b, alpha, multiplier, i);
      WeightedSumAt(a, b, multiplier * alpha, i);
    }
  }

  /** With multiplier 1 the two modes give the same tensor. */
  lemma AddDifferenceUnitMultiplier(a: Tensor, b: Tensor, alpha: real)
    requires |a| == |b|
    ensures AddDifference(a, b, alpha, 1.0) == WeightedSum(a, b, alpha)
  {
    var r := AddDifference(a, b, alpha, 1.0);
    var w := WeightedSum(a, b, alpha);
    assert 1.0 * alpha == alpha;
    forall i | 0 <= i < |a| ensures r[i] == w[i] {
      AddDifferenceAt(a, b, alpha, 1.0, i);
      WeightedSumAt(a, b, alpha, i);
    }
  }

  /** With combined ratio above 1, `add_difference` goes past B wherever B
      differs from A: the overshoot a weighted sum cannot produce. */
  lemma AddDifferenceOvershoots(a: Tensor, b: Tensor, alpha: real, multiplier: real, i: nat)
    requires |a| == |b| && i < |a|
    requires multiplier * alpha > 1.0
    ensures a[i] < b[i] ==> AddDifference(a, b, alpha, multiplier)[i] > b[i]
    ensures b[i] < a[i] ==> AddDifference(a, b, alpha, multiplier)[i] < b[i]
  {
    AddDifferenceAt(a, b, alpha, multiplier, i);
    if a[i] < b[i] {
      StepUpBeyond(a[i], b[i], multiplier * alpha);
    } else if b[i] < a[i] {
      StepDownBeyond(a[i], b[i], multiplier * alpha);
    }
  }

  // Scalar facts about one element, kept apart so that the solver meets the
  // products in a small context.

  lemma MulEqual(k: real, s: real, t: real)
    requires s == t
    ensures k * s == k * t
  {
  }

  lemma LerpIsStep(x: real, y: real, k: real)
    ensures (1.0 - k) * x + k * y == Step(x, y, k)
  {
  }

  lemma MulNegate(k: real, d: real)
    ensures k * -d == -(k * d)
  {
  }

  lemma ScaledBetween(c: real, d: real, p: real)
    requires 0.0 <= c <= 1.0 && 0.0 <= d && p == c * d
    ensures 0.0 <= p <= d
  {
    assert d - p == (1.0 - c) * d;
  }

  lemma ScaledBeyond(c: real, d: real, p: real)
    requires c > 1.0 && d > 0.0 && p == c * d
    ensures p > d
  {
    assert p - d == (c - 1.0) * d;
  }

  lemma StepUpBetween(x: real, y: real, k: real)
    requires 0.0 <= k <= 1.0 && x <= y
    ensures x <= Step(x, y, k) <= y
  {
    var d := y - x;
    ScaledBetween(k, d, k * d);
  }

  lemma StepDownBetween(x: real, y: real, k: real)
    requires 0.0 <= k <= 1.0 && y <= x
    ensures y <= Step(x, y, k) <= x
  {
    var d := x - y;
    ScaledBetween(k, d, k * d);
    MulNegate(k, d);
    assert y - x == -d;
  }

  lemma StepUpBeyond(x: real, y: real, k: real)
    requires k > 1.0 && x < y
    ensures Step(x, y, k) > y
  {
    var d := y - x;
    ScaledBeyond(k, d, k * d);
    assert x + d == y;
  }

  lemma StepDownBeyond(x: real, y: real, k: real)
    requires k > 1.0 && y < x
    ensures Step(x, y, k) < y
  {
    var d := x - y;
    ScaledBeyond(k, d, k * d);
    MulNegate(k, d);
    assert y - x == -d;
    assert x - d == y;
  }
}
