/** The classification metrics of the front end (frontend/src/assets/util/metrics.js): the area
    under the ROC curve, from cumulative true- and false-positive counts over the points ranked
    by descending probability, and the clamped log loss. Numbers follow `JsMath`: `None` is NaN
    or an infinity. `ln` is a parameter obeying `LogLaws`. */
module Metrics {
  import opened Common
  import opened Sorting
  import opened JsMath

  /** One `{ label, prob }` entry of the ranked data. */
  datatype Point = Point(truth: real, prob: real)

  /** `y_true.map((label, idx) => ({ label, prob: y_prob[idx] }))`. */
  function Pair(yTrue: seq<real>, yProb: seq<real>): (r: seq<Point>)
    requires |yTrue| <= |yProb|
    ensures |r| == |yTrue|
  {
    seq(|yTrue|, i requires 0 <= i < |yTrue| => Point(yTrue[i], yProb[i]))
  }

  /** The sort key of `(a, b) => b.prob - a.prob`: higher probabilities first. */
  function Descending(p: Point): real
  {
    -p.prob
  }

  /** The data in the order the loop visits it. */
  function Ranked(yTrue: seq<real>, yProb: seq<real>): seq<Point>
    requires |yTrue| <= |yProb|
  {
    SortBy(Pair(yTrue, yProb), Descending)
  }

  /** `point.label === 1`: counted by `tp`. */
  predicate IsPositive(p: Point)
  {
    p.truth == 1.0
  }

  /** The loop's `else` branch: every other label is counted by `fp`. */
  predicate IsNegative(p: Point)
  {
    p.truth != 1.0
  }

  predicate IsOne(y: real)
  {
    y == 1.0
  }

  predicate IsZero(y: real)
  {
    y == 0.0
  }

  /** `P`: the labels equal to 1. */
  function Positives(yTrue: seq<real>): nat
  {
    |Filter(yTrue, IsOne)|
  }

  /** `N`: the labels equal to 0. */
  function Negatives(yTrue: seq<real>): nat
  {
    |Filter(yTrue, IsZero)|
  }

  /** The running count of points satisfying p after each point: `tps` or `fps`. */
  function Cumulative(points: seq<Point>, p: Point -> bool): (r: seq<int>)
    ensures |r| == |points|
  {
    if points == [] then []
    else Cumulative(points[..|points| - 1], p) + [|Filter(points, p)|]
  }

  /** One more point extends the running counts by the count after it. */
  lemma CumulativeStep(points: seq<Point>, i: int, p: Point -> bool)
    requires 0 <= i < |points|
    ensures |Filter(points[..i + 1], p)| == |Filter(points[..i], p)| + (if p(points[i]) then 1 else 0)
    ensures Cumulative(points[..i + 1], p) == Cumulative(points[..i], p) + [|Filter(points[..i + 1], p)|]
  {
    assert points[..i + 1][..i] == points[..i];
    assert points[..i + 1][i] == points[i];
  }

  /** `tps.map(v => v / P)`. */
  function Rates(counts: seq<int>, total: int): (r: seq<Num>)
    ensures |r| == |counts|
  {
    seq(|counts|, i requires 0 <= i < |counts| => Div(Some(counts[i] as real), Some(total as real)))
  }

  /** The trapezoid between points i - 1 and i. */
  function Trapezoid(tpr: seq<Num>, fpr: seq<Num>, i: int): Num
    requires 1 <= i < |tpr| == |fpr|
  {
    Mul(Sub(fpr[i], fpr[i - 1]), Div(Add(tpr[i], tpr[i - 1]), Some(2.0)))
  }

  /** `auc` after the iterations 1 .. i - 1 of the second loop. */
  function AreaUpTo(tpr: seq<Num>, fpr: seq<Num>, i: int): Num
    requires |tpr| == |fpr| && 0 <= i && (i <= 1 || i <= |tpr|)
  {
    if i <= 1 then Some(0.0) else Add(AreaUpTo(tpr, fpr, i - 1), Trapezoid(tpr, fpr, i - 1))
  }

  /** What `computeRocAuc` returns. */
  function RocAuc(yTrue: seq<real>, yProb: seq<real>): Num
    requires |yTrue| <= |yProb|
  {
    var ranked := Ranked(yTrue, yProb);
    var tpr := Rates(Cumulative(ranked, IsPositive), Positives(yTrue));
    var fpr := Rates(Cumulative(ranked, IsNegative), Negatives(yTrue));
    AreaUpTo(tpr, fpr, |tpr|)
  }

  /** `computeRocAuc`: ranks a fresh copy of the data, so neither input array changes. */
  method ComputeRocAuc(yTrue: array<real>, yProb: array<real>) returns (auc: Num)
    requires yTrue.Length <= yProb.Length
    ensures auc == RocAuc(yTrue[..], yProb[..])
  {
    var data := Pair(yTrue[..], yProb[..]);
    data := SortBy(data, Descending);
    var tps, fps := RunningCounts(data);
    var P := |Filter(yTrue[..], IsOne)|;
    var N := |Filter(yTrue[..], IsZero)|;
    var tpr := Rates(tps, P);
    var fpr := Rates(fps, N);
    auc := TrapezoidSum(tpr, fpr);
  }

  /** The first loop of `computeRocAuc`: `tp` and `fp` count the positive and the other points
      seen so far, and `tps`/`fps` record them after each point. */
  method RunningCounts(data: seq<Point>) returns (tps: seq<int>, fps: seq<int>)
    ensures tps == Cumulative(data, IsPositive) && fps == Cumulative(data, IsNegative)
  {
    var tp, fp := 0, 0;
    tps, fps := [], [];
    for i := 0 to |data|
      invariant tp == |Filter(data[..i], IsPositive)| && fp == |Filter(data[..i], IsNegative)|
      invariant tps == Cumulative(data[..i], IsPositive) && fps == Cumulative(data[..i], IsNegative)
    {
      CumulativeStep(data, i, IsPositive);
      CumulativeStep(data, i, IsNegative);
      if data[i].truth == 1.0 {
        tp := tp + 1;
      } else {
        fp := fp + 1;
      }
      tps := tps + [tp];
      fps := fps + [fp];
    }
    assert data[..|data|] == data;
  }

  /** The second loop of `computeRocAuc`: the trapezoids between consecutive points, from the
      second point on. */
  method TrapezoidSum(tpr: seq<Num>, fpr: seq<Num>) returns (auc: Num)
    requires |tpr| == |fpr|
    ensures auc == AreaUpTo(tpr, fpr, |tpr|)
  {
    auc := Some(0.0);
    var i := 1;
    while i < |tpr|
      invariant 1 <= i && (i <= 1 || i <= |tpr|)
      invariant auc == AreaUpTo(tpr, fpr, i)
    {
      var width := Sub(fpr[i], fpr[i - 1]);
      var height := Div(Add(tpr[i], tpr[i - 1]), Some(2.0));
      auc := Add(auc, Mul(width, height));
      i := i + 1;
    }
  }


  // ---------------------------------------------------------------- the counts

  lemma {:induction false} CumulativeAt(points: seq<Point>, p: Point -> bool, k: int)
    requires 0 <= k < |points|
    ensures Cumulative(points, p)[k] == |Filter(points[..k + 1], p)|
  {
    var init := points[..|points| - 1];
    if k < |init| {
      CumulativeAt(init, p, k);
      assert init[..k + 1] == points[..k + 1];
    } else {
      assert points[..k + 1] == points;
    }
  }

  lemma {:induction false} PositivesAndNegatives(points: seq<Point>)
    ensures |Filter(points, IsPositive)| + |Filter(points, IsNegative)| == |points|
  {
    if points != [] {
      PositivesAndNegatives(points[..|points| - 1]);
    }
  }

  lemma CumulativeGrows(points: seq<Point>, p: Point -> bool, j: int, k: int)
    requires 0 <= j <= k < |points|
    ensures Cumulative(points, p)[j] <= Cumulative(points, p)[k] <= |Filter(points, p)|
  {
    CumulativeAt(points, p, j);
    CumulativeAt(points, p, k);
    FilterPrefixMonotone(points, p, j + 1, k + 1);
  }

  /** After the k-th ranked point, `tps[k] + fps[k]` is k + 1, both counts only grow, and
      neither exceeds its total over all points. */
  lemma RocCounts(points: seq<Point>, j: int, k: int)
    requires 0 <= j <= k < |points|
    ensures Cumulative(points, IsPositive)[k] + Cumulative(points, IsNegative)[k] == k + 1
    ensures Cumulative(points, IsPositive)[j] <= Cumulative(points, IsPositive)[k] <= |Filter(points, IsPositive)|
    ensures Cumulative(points, IsNegative)[j] <= Cumulative(points, IsNegative)[k] <= |Filter(points, IsNegative)|
  {
    assert Cumulative(points, IsPositive)[k] + Cumulative(points, IsNegative)[k] == k + 1 by {
      CumulativeAt(points, IsPositive, k);
      CumulativeAt(points, IsNegative, k);
      PositivesAndNegatives(points[..k + 1]);
    }
    CumulativeGrows(points, IsPositive, j, k);
    CumulativeGrows(points, IsNegative, j, k);
  }

  /** Counting over the paired data is counting over the labels. */
  lemma {:induction false} PairCount(yTrue: seq<real>, yProb: seq<real>, p: Point -> bool, q: real -> bool)
    requires |yTrue| <= |yProb|
    requires forall i :: 0 <= i < |yTrue| ==> p(Point(yTrue[i], yProb[i])) == q(yTrue[i])
    ensures |Filter(Pair(yTrue, yProb), p)| == |Filter(yTrue, q)|
  {
    if yTrue != [] {
      var n := |yTrue| - 1;
      assert Pair(yTrue, yProb)[..n] == Pair(yTrue[..n], yProb);
      PairCount(yTrue[..n], yProb, p, q);
    }
  }

  predicate Binary(yTrue: seq<real>)
  {
    forall i :: 0 <= i < |yTrue| ==> yTrue[i] == 0.0 || yTrue[i] == 1.0
  }

  /** The ranked points hold P positives, and n - P others, which are the N negatives exactly
      when every label is 0 or 1. */
  lemma RankedTotals(yTrue: seq<real>, yProb: seq<real>)
    requires |yTrue| <= |yProb|
    ensures |Filter(Ranked(yTrue, yProb), IsPositive)| == Positives(yTrue)
    ensures |Filter(Ranked(yTrue, yProb), IsNegative)| == |yTrue| - Positives(yTrue)
    ensures Binary(yTrue) ==> |Filter(Ranked(yTrue, yProb), IsNegative)| == Negatives(yTrue)
  {
    var pairs := Pair(yTrue, yProb);
    FilterSortBy(pairs, Descending, IsPositive);
    FilterSortBy(pairs, Descending, IsNegative);
    PairCount(yTrue, yProb, IsPositive, IsOne);
    PositivesAndNegatives(Ranked(yTrue, yProb));
    if Binary(yTrue) {
      PairCount(yTrue, yProb, IsNegative, IsZero);
    }
  }

  /** P + N never exceeds the number of labels, and reaches it exactly when every label is 0
      or 1; otherwise the loop counts more false positives than N. */
  lemma {:induction false} LabelPartition(yTrue: seq<real>)
    ensures Positives(yTrue) + Negatives(yTrue) <= |yTrue|
    ensures Positives(yTrue) + Negatives(yTrue) == |yTrue| <==> Binary(yTrue)
  {
    if yTrue != [] {
      var init := yTrue[..|yTrue| - 1];
      LabelPartition(init);
      if Binary(yTrue) {
        assert Binary(init) by {
          forall i | 0 <= i < |init| ensures init[i] == 0.0 || init[i] == 1.0 {
            assert init[i] == yTrue[i];
          }
        }
      } else if Binary(init) {
        assert !(yTrue[|yTrue| - 1] == 0.0 || yTrue[|yTrue| - 1] == 1.0);
      }
    }
  }

  // ---------------------------------------------------------------- the area

  /** Finite rates give a finite area. */
  lemma {:induction false} AreaFinite(tpr: seq<Num>, fpr: seq<Num>, i: int)
    requires |tpr| == |fpr| && 0 <= i && (i <= 1 || i <= |tpr|)
    requires forall k :: 0 <= k < |tpr| ==> tpr[k].Some? && fpr[k].Some?
    ensures AreaUpTo(tpr, fpr, i).Some?
  {
    if i > 1 {
      AreaFinite(tpr, fpr, i - 1);
    }
  }

  /** With true-positive rates in [0, 1] and non-decreasing false-positive rates, each
      trapezoid is at least 0 and at most its width, so the area lies between 0 and the
      growth of the false-positive rate. */
  /** Every rate is a number exactly when the total is not zero. */
  lemma RatesDefined(counts: seq<int>, total: int)
    ensures forall k :: 0 <= k < |counts| ==> (Rates(counts, total)[k].Some? <==> total != 0)
  {
  }

  /** A NaN at the last point spoils the whole area. */
  lemma AreaLastUndefined(tpr: seq<Num>, fpr: seq<Num>)
    requires 2 <= |tpr| == |fpr|
    requires tpr[|tpr| - 1].None? || fpr[|tpr| - 1].None?
    ensures AreaUpTo(tpr, fpr, |tpr|).None?
  {
    assert Trapezoid(tpr, fpr, |tpr| - 1).None?;
  }

  lemma {:induction false} AreaBounds(tpr: seq<Num>, fpr: seq<Num>, i: int)
    requires |tpr| == |fpr| && 1 <= i <= |tpr|
    requires forall k :: 0 <= k < |tpr| ==> tpr[k].Some? && fpr[k].Some? && 0.0 <= tpr[k].value <= 1.0
    requires forall j, k :: 0 <= j <= k < |fpr| ==> fpr[j].value <= fpr[k].value
    ensures AreaUpTo(tpr, fpr, i).Some?
    ensures 0.0 <= AreaUpTo(tpr, fpr, i).value <= fpr[i - 1].value - fpr[0].value
  {
    if i > 1 {
      AreaBounds(tpr, fpr, i - 1);
      TrapezoidBounds(tpr, fpr, i - 1);
      assert tpr[i - 1].Some? && fpr[i - 1].Some? && 0.0 <= tpr[i - 1].value <= 1.0;
      assert fpr[i - 2].value <= fpr[i - 1].value;
    }
  }

  /** A trapezoid between two finite points with heights in [0, 1] and a non-negative width
      is at least 0 and at most its width. */
  lemma TrapezoidBounds(tpr: seq<Num>, fpr: seq<Num>, k: int)
    requires 1 <= k < |tpr| == |fpr|
    requires tpr[k].Some? && tpr[k - 1].Some? && fpr[k].Some? && fpr[k - 1].Some?
    requires 0.0 <= tpr[k].value <= 1.0 && 0.0 <= tpr[k - 1].value <= 1.0
    requires fpr[k - 1].value <= fpr[k].value
    ensures Trapezoid(tpr, fpr, k).Some?
    ensures 0.0 <= Trapezoid(tpr, fpr, k).value <= fpr[k].value - fpr[k - 1].value
  {
    var width := Sub(fpr[k], fpr[k - 1]);
    var height := Div(Add(tpr[k], tpr[k - 1]), Some(2.0));
    assert width.Some? && width.value == fpr[k].value - fpr[k - 1].value;
    assert height.Some? && height.value == (tpr[k].value + tpr[k - 1].value) / 2.0;
    var trapezoid := Mul(width, height);
    assert trapezoid.Some? && trapezoid.value == width.value * height.value;
    NonNegativeProduct(width.value, height.value);
    NonNegativeProduct(width.value, 1.0 - height.value);
    assert width.value * height.value + width.value * (1.0 - height.value) == width.value;
  }

  /** The area is a number exactly when there are fewer than two points (the loop does not
      run) or both P and N are positive; otherwise a division by zero spoils it. */
  lemma RocAucFinite(yTrue: seq<real>, yProb: seq<real>)
    requires |yTrue| <= |yProb|
    ensures RocAuc(yTrue, yProb).Some? <==> |yTrue| < 2 || (Positives(yTrue) > 0 && Negatives(yTrue) > 0)
  {
    var ranked := Ranked(yTrue, yProb);
    var positives, negatives := Positives(yTrue), Negatives(yTrue);
    var tpr := Rates(Cumulative(ranked, IsPositive), positives);
    var fpr := Rates(Cumulative(ranked, IsNegative), negatives);
    assert RocAuc(yTrue, yProb) == AreaUpTo(tpr, fpr, |tpr|);
    RatesDefined(Cumulative(ranked, IsPositive), positives);
    RatesDefined(Cumulative(ranked, IsNegative), negatives);
    var n := |tpr|;
    assert n == |fpr| == |yTrue|;
    if positives > 0 && negatives > 0 {
      AreaFinite(tpr, fpr, n);
    } else if n >= 2 {
      AreaLastUndefined(tpr, fpr);
    }
  }


  /** A rate over a positive total is a number in [0, 1], it only grows along the ranking,
      and it reaches 1 at the last point. */
  lemma RateAt(points: seq<Point>, p: Point -> bool, j: int, k: int)
    requires 0 <= j <= k < |points| && |Filter(points, p)| > 0
    ensures var rates := Rates(Cumulative(points, p), |Filter(points, p)|);
      rates[j].Some? && rates[k].Some? &&
      0.0 <= rates[j].value <= rates[k].value <= 1.0 &&
      (k == |points| - 1 ==> rates[k].value == 1.0)
  {
    var total := |Filter(points, p)|;
    var c := Cumulative(points, p);
    CumulativeGrows(points, p, j, k);
    CumulativeAt(points, p, j);
    FractionBounds(c[j] as real, c[k] as real, total as real);
    if k == |points| - 1 {
      CumulativeAt(points, p, k);
      assert points[..k + 1] == points;
    }
  }

  lemma FractionBounds(a: real, b: real, t: real)
    requires 0.0 <= a <= b <= t && 0.0 < t
    ensures 0.0 <= a / t <= b / t <= 1.0
    ensures b == t ==> b / t == 1.0
  {
    var qa, qb := a / t, b / t;
    assert qa * t == a && qb * t == b;
    PositiveFactor(qa, t);
    assert (qb - qa) * t == b - a;
    PositiveFactor(qb - qa, t);
    assert (1.0 - qb) * t == t - b;
    PositiveFactor(1.0 - qb, t);
    if b == t {
      assert (qb - 1.0) * t == 0.0;
      ZeroFactor(qb - 1.0, t);
    }
  }

  /** With labels 0 and 1 only and both classes present, the last point of the curve is
      (1, 1) and the area lies in [0, 1]. */
  lemma RocAucBounds(yTrue: seq<real>, yProb: seq<real>)
    requires |yTrue| <= |yProb| && Binary(yTrue)
    requires Positives(yTrue) > 0 && Negatives(yTrue) > 0
    ensures var ranked := Ranked(yTrue, yProb);
      var tpr := Rates(Cumulative(ranked, IsPositive), Positives(yTrue));
      var fpr := Rates(Cumulative(ranked, IsNegative), Negatives(yTrue));
      tpr[|yTrue| - 1].Some? && tpr[|yTrue| - 1].value == 1.0 &&
      fpr[|yTrue| - 1].Some? && fpr[|yTrue| - 1].value == 1.0
    ensures RocAuc(yTrue, yProb).Some? && 0.0 <= RocAuc(yTrue, yProb).value <= 1.0
  {
    var ranked := Ranked(yTrue, yProb);
    var n := |yTrue|;
    RankedTotals(yTrue, yProb);
    assert n > 0 by {
      FilterMembers(yTrue, IsOne);
    }
    var tpr := Rates(Cumulative(ranked, IsPositive), Positives(yTrue));
    var fpr := Rates(Cumulative(ranked, IsNegative), Negatives(yTrue));
    forall k | 0 <= k < n
      ensures tpr[k].Some? && fpr[k].Some? && 0.0 <= tpr[k].value <= 1.0
    {
      RateAt(ranked, IsPositive, k, k);
      RateAt(ranked, IsNegative, k, k);
    }
    forall j, k | 0 <= j <= k < n ensures fpr[j].value <= fpr[k].value {
      RateAt(ranked, IsNegative, j, k);
    }
    AreaBounds(tpr, fpr, n);
    RateAt(ranked, IsNegative, 0, n - 1);
    RateAt(ranked, IsPositive, 0, n - 1);
  }

  // ---------------------------------------------------------------- log loss

  /** `1e-15`. */
  const Eps: real := 0.000000000000001

  /** `Math.min(Math.max(p, eps), 1 - eps)`. */
  function Clamp(p: real): (c: real)
    ensures Eps <= c <= 1.0 - Eps
    ensures Eps <= p <= 1.0 - Eps ==> c == p
    ensures p < Eps ==> c == Eps
    ensures p > 1.0 - Eps ==> c == 1.0 - Eps
  {
    var lower := if p > Eps then p else Eps;
    if lower < 1.0 - Eps then lower else 1.0 - Eps
  }

  /** The laws of the natural logarithm the bounds need: ln 1 = 0 and ln is strictly
      increasing on the positive reals. */
  ghost predicate LogLaws(ln: real -> real)
  {
    ln(1.0) == 0.0 && forall x: real, y: real :: 0.0 < x < y ==> ln(x) < ln(y)
  }

  /** The loss of one prediction, `-(y * log(p) + (1 - y) * log(1 - p))` on the clamped p. */
  function ItemLoss(y: real, prob: real, ln: real -> real): real
  {
    var p := Clamp(prob);
    -(y * ln(p) + (1.0 - y) * ln(1.0 - p))
  }

  function Losses(yTrue: seq<real>, yProb: seq<real>, ln: real -> real): (r: seq<real>)
    requires |yTrue| <= |yProb|
    ensures |r| == |yTrue|
  {
    seq(|yTrue|, i requires 0 <= i < |yTrue| => ItemLoss(yTrue[i], yProb[i], ln))
  }

  /** The mean loss; NaN (0 / 0) over no labels, and NaN when there are fewer probabilities
      than labels: the missing probability reads as `undefined`, `Math.max(undefined, eps)` is
      NaN, and NaN spreads through the sum. */
  function LogLoss(yTrue: seq<real>, yProb: seq<real>, ln: real -> real): Num
  {
    if yTrue == [] || |yProb| < |yTrue| then None else Some(Mean(Losses(yTrue, yProb, ln)))
  }

  /** `computeLogLoss`: accumulates `y * log(p) + (1 - y) * log(1 - p)` and returns its
      negated mean; past the end of `y_prob` the term is NaN and so is the sum. */
  method ComputeLogLoss(yTrue: array<real>, yProb: array<real>, ln: real -> real) returns (r: Num)
    ensures r == LogLoss(yTrue[..], yProb[..], ln)
  {
    var m := if yTrue.Length <= yProb.Length then yTrue.Length else yProb.Length;
    var losses := Losses(yTrue[..m], yProb[..], ln);
    var loss: Num := Some(0.0);
    for i := 0 to yTrue.Length
      invariant i <= m ==> loss == Some(-Sum(losses[..i]))
      invariant i > m ==> loss.None?
    {
      var y := yTrue[i];
      if i < yProb.Length {
        var p := Clamp(yProb[i]);
        assert yTrue[..m][i] == y && losses[i] == ItemLoss(y, yProb[i], ln);
        assert losses[..i + 1][..i] == losses[..i];
        assert Sum(losses[..i + 1]) == Sum(losses[..i]) + losses[i];
        assert ItemLoss(y, yProb[i], ln) == -(y * ln(p) + (1.0 - y) * ln(1.0 - p));
        loss := Add(loss, Some(y * ln(p) + (1.0 - y) * ln(1.0 - p)));
      } else {
        loss := None;
      }
    }
    if m == yTrue.Length {
      assert losses[..m] == losses && yTrue[..m] == yTrue[..];
    }
    r := Div(if loss.None? then None else Some(-loss.value), Some(yTrue.Length as real));
  }

  /** For a label in [0, 1], one loss lies between 0 and -ln(1e-15): the clamp keeps it
      finite. */
  lemma ItemLossBounds(y: real, prob: real, ln: real -> real)
    requires LogLaws(ln) && 0.0 <= y <= 1.0
    ensures 0.0 <= ItemLoss(y, prob, ln) <= -ln(Eps)
  {
    var p := Clamp(prob);
    var a, b, lo := ln(p), ln(1.0 - p), ln(Eps);
    assert lo <= a < 0.0 by {
      assert p < 1.0;
      if Eps < p {
        assert ln(Eps) < ln(p);
      }
    }
    assert lo <= b < 0.0 by {
      assert 1.0 - p < 1.0;
      if Eps < 1.0 - p {
        assert ln(Eps) < ln(1.0 - p);
      }
    }
    NonNegativeProduct(y, a - lo);
    NonNegativeProduct(1.0 - y, b - lo);
    NonNegativeProduct(y, -a);
    NonNegativeProduct(1.0 - y, -b);
    assert y * (a - lo) + (1.0 - y) * (b - lo) == y * a + (1.0 - y) * b - lo;
  }

  /** With labels in [0, 1], the log loss of a non-empty list with a probability per label
      lies between 0 and -ln(1e-15); it is NaN for an empty list or too few probabilities. */
  lemma LogLossBounds(yTrue: seq<real>, yProb: seq<real>, ln: real -> real)
    requires LogLaws(ln)
    requires forall i :: 0 <= i < |yTrue| ==> 0.0 <= yTrue[i] <= 1.0
    ensures LogLoss(yTrue, yProb, ln).None? <==> yTrue == [] || |yProb| < |yTrue|
    ensures LogLoss(yTrue, yProb, ln).Some? ==> 0.0 <= LogLoss(yTrue, yProb, ln).value <= -ln(Eps)
  {
    if yTrue != [] && |yTrue| <= |yProb| {
      var losses := Losses(yTrue, yProb, ln);
      forall i | 0 <= i < |losses| ensures 0.0 <= losses[i] <= -ln(Eps) {
        ItemLossBounds(yTrue[i], yProb[i], ln);
      }
      MeanBounds(losses, 0.0, -ln(Eps));
    }
  }

  /** A confident correct prediction (the label's side clamped to its extreme) costs
      -ln(1 - 1e-15) whatever the label, and a prediction of exactly one half costs -ln(1/2). */
  lemma ItemLossExtremes(y: real, prob: real, ln: real -> real)
    ensures y == 1.0 && prob >= 1.0 - Eps ==> ItemLoss(y, prob, ln) == -ln(1.0 - Eps)
    ensures y == 0.0 && prob <= Eps ==> ItemLoss(y, prob, ln) == -ln(1.0 - Eps)
    ensures prob == 0.5 ==> ItemLoss(y, prob, ln) == -ln(0.5)
  {
  }
}
