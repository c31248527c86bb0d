/** The scores the model-performance panel derives from a model's confusion matrix
    (frontend/src/components/ModelPerformance.jsx): accuracy, precision, recall and F1, the
    panel's own log loss, and the colour intensity of a matrix cell. Numbers follow `JsMath`:
    `None` is NaN or an infinity. */
module ModelPerformance {
  import opened Common
  import opened JsMath
  import Metrics

  /** The confusion-matrix columns `t_pos`, `t_neg`, `f_pos`, `f_neg` of a `model` row. */
  datatype ModelMetric = ModelMetric(tPos: nat, tNeg: nat, fPos: nat, fNeg: nat)

  function Total(m: ModelMetric): nat
  {
    m.tPos + m.tNeg + m.fNeg + m.fPos
  }

  function Accuracy(m: ModelMetric): Num
  {
    Div(Some((m.tPos + m.tNeg) as real), Some(Total(m) as real))
  }

  function Precision(m: ModelMetric): Num
  {
    Div(Some(m.tPos as real), Some((m.tPos + m.fPos) as real))
  }

  function Recall(m: ModelMetric): Num
  {
    Div(Some(m.tPos as real), Some((m.tPos + m.fNeg) as real))
  }

  /** `(2 * precision * recall) / (precision + recall)`. */
  function F1(precision: Num, recall: Num): Num
  {
    Div(Mul(Mul(Some(2.0), precision), recall), Add(precision, recall))
  }

  /** Accuracy is a number exactly when the matrix is not empty; it lies in [0, 1] and is 1
      exactly when there are no false positives and no false negatives. */
  lemma AccuracySpec(m: ModelMetric)
    ensures Accuracy(m).Some? <==> Total(m) > 0
    ensures Accuracy(m).Some? ==> 0.0 <= Accuracy(m).value <= 1.0
    ensures Accuracy(m).Some? ==> (Accuracy(m).value == 1.0 <==> m.fPos == 0 && m.fNeg == 0)
  {
    if Total(m) > 0 {
      Metrics.FractionBounds(0.0, (m.tPos + m.tNeg) as real, Total(m) as real);
      FractionOne((m.tPos + m.tNeg) as real, Total(m) as real);
    }
  }


  /** Precision is a number exactly when something was predicted positive; it lies in [0, 1]
      and is 1 exactly when there is a true positive and no false positive. */
  lemma PrecisionSpec(m: ModelMetric)
    ensures Precision(m).Some? <==> m.tPos + m.fPos > 0
    ensures Precision(m).Some? ==> 0.0 <= Precision(m).value <= 1.0
    ensures Precision(m).Some? ==> (Precision(m).value == 1.0 <==> m.fPos == 0)
  {
    if m.tPos + m.fPos > 0 {
      Metrics.FractionBounds(0.0, m.tPos as real, (m.tPos + m.fPos) as real);
      FractionOne(m.tPos as real, (m.tPos + m.fPos) as real);
    }
  }

  /** Recall is a number exactly when some match was actually positive; it lies in [0, 1] and
      is 1 exactly when there is a true positive and no false negative. */
  lemma RecallSpec(m: ModelMetric)
    ensures Recall(m).Some? <==> m.tPos + m.fNeg > 0
    ensures Recall(m).Some? ==> 0.0 <= Recall(m).value <= 1.0
    ensures Recall(m).Some? ==> (Recall(m).value == 1.0 <==> m.fNeg == 0)
  {
    if m.tPos + m.fNeg > 0 {
      Metrics.FractionBounds(0.0, m.tPos as real, (m.tPos + m.fNeg) as real);
      FractionOne(m.tPos as real, (m.tPos + m.fNeg) as real);
    }
  }

  /** F1 is a number exactly when there is a true positive, and then it equals
      2 tp / (2 tp + fp + fn). */
  lemma F1Closed(m: ModelMetric)
    ensures F1(Precision(m), Recall(m)).Some? <==> m.tPos > 0
    ensures m.tPos > 0 ==>
      F1(Precision(m), Recall(m)).value == (2 * m.tPos) as real / (2 * m.tPos + m.fPos + m.fNeg) as real
  {
    var a, b, c := m.tPos as real, (m.tPos + m.fPos) as real, (m.tPos + m.fNeg) as real;
    assert Precision(m) == Div(Some(a), Some(b)) && Recall(m) == Div(Some(a), Some(c));
    if m.tPos > 0 {
      var p, r := a / b, a / c;
      HarmonicOfFractions(a, b, c);
      F1OfNumbers(p, r);
      assert (2 * m.tPos) as real == 2.0 * a && (2 * m.tPos + m.fPos + m.fNeg) as real == b + c;
    } else if b > 0.0 && c > 0.0 {
      assert a / b == 0.0 && a / c == 0.0;
      F1OfNumbers(0.0, 0.0);
    }
  }


  /** With two numbers whose sum is not zero, F1 is 2pr/(p + r); otherwise it is NaN. */
  lemma F1OfNumbers(p: real, r: real)
    ensures F1(Some(p), Some(r)) == if p + r == 0.0 then None else Some(2.0 * p * r / (p + r))
  {
    var num := Mul(Mul(Some(2.0), Some(p)), Some(r));
    assert num == Some(2.0 * p * r);
    assert Add(Some(p), Some(r)) == Some(p + r);
    assert F1(Some(p), Some(r)) == Div(num, Some(p + r));
  }

  /** The harmonic mean of a/b and a/c is 2a/(b + c). */
  lemma HarmonicOfFractions(a: real, b: real, c: real)
    requires a > 0.0 && b > 0.0 && c > 0.0
    ensures a / b + a / c > 0.0
    ensures 2.0 * (a / b) * (a / c) / (a / b + a / c) == 2.0 * a / (b + c)
  {
    var p, r := a / b, a / c;
    assert p * b == a && r * c == a;
    assert p > 0.0 && r > 0.0;
    assert 2.0 * p * r * (b + c) == 2.0 * a * (p + r) by {
      assert 2.0 * p * r * (b + c) == 2.0 * r * (p * b) + 2.0 * p * (r * c);
    }
    CrossDivide(2.0 * p * r, p + r, 2.0 * a, b + c);
  }

  lemma CrossDivide(x: real, y: real, z: real, w: real)
    requires y != 0.0 && w != 0.0 && x * w == z * y
    ensures x / y == z / w
  {
    var q := x / y;
    assert q * y == x;
    assert q * w * y == z * y;
    assert (q * w - z) * y == 0.0;
  }

  /** F1 is the harmonic mean of precision and recall, so it lies between the two. */
  lemma F1Between(p: real, r: real)
    requires p > 0.0 && r > 0.0
    ensures F1(Some(p), Some(r)).Some?
    ensures var f := F1(Some(p), Some(r)).value;
      (if p <= r then p else r) <= f <= (if p <= r then r else p)
  {
    var f := F1(Some(p), Some(r));
    assert f.Some? && f.value == 2.0 * p * r / (p + r) by {
      assert Mul(Some(2.0), Some(p)).value == 2.0 * p;
      assert Add(Some(p), Some(r)).value == p + r;
    }
    if p <= r {
      HarmonicBetween(p, r);
    } else {
      HarmonicBetween(r, p);
      assert 2.0 * r * p == 2.0 * p * r && r + p == p + r;
    }
  }

  lemma HarmonicBetween(lo: real, hi: real)
    requires 0.0 < lo <= hi
    ensures lo <= 2.0 * lo * hi / (lo + hi) <= hi
  {
    var d := lo + hi;
    var f := 2.0 * lo * hi / d;
    assert f * d == 2.0 * lo * hi;
    assert (f - lo) * d == lo * (hi - lo);
    assert (hi - f) * d == hi * (hi - lo);
    NonNegativeProduct(lo, hi - lo);
    NonNegativeProduct(hi, hi - lo);
    PositiveFactor(f - lo, d);
    PositiveFactor(hi - f, d);
  }

  /** `calculateLogLoss`: accumulates each clamped loss and returns the mean (NaN past the end
      of `yPred`); it computes the same value as `computeLogLoss`. */
  method CalculateLogLoss(yTrue: array<real>, yPred: array<real>, ln: real -> real) returns (r: Num)
    ensures r == Metrics.LogLoss(yTrue[..], yPred[..], ln)
  {
    var m := if yTrue.Length <= yPred.Length then yTrue.Length else yPred.Length;
    var losses := Metrics.Losses(yTrue[..m], yPred[..], ln);
    var totalLoss: Num := Some(0.0);
    for i := 0 to yTrue.Length
      invariant i <= m ==> totalLoss == Some(Sum(losses[..i]))
      invariant i > m ==> totalLoss.None?
    {
      var y := yTrue[i];
      if i < yPred.Length {
        var p := yPred[i];
        p := Metrics.Clamp(p);
        var loss := -(y * ln(p) + (1.0 - y) * ln(1.0 - p));
        assert yTrue[..m][i] == y && losses[i] == Metrics.ItemLoss(y, yPred[i], ln);
        assert losses[..i + 1][..i] == losses[..i];
        assert Sum(losses[..i + 1]) == Sum(losses[..i]) + losses[i];
        assert Metrics.ItemLoss(y, yPred[i], ln) == loss;
        totalLoss := Add(totalLoss, Some(loss));
      } else {
        totalLoss := None;
      }
    }
    if m == yTrue.Length {
      assert losses[..m] == losses && yTrue[..m] == yTrue[..];
    }
    r := Div(totalLoss, Some(yTrue.Length as real));
  }

  /** `Math.round((value / maxVal) * 255)` with `maxVal` the matrix total. */
  function CellIntensity(m: ModelMetric, value: int): Option<int>
  {
    var ratio := Div(Some(value as real), Some(Total(m) as real));
    if ratio.None? then None else Some(Round(ratio.value * 255.0))
  }

  /** The cell's `rgb(intensity, 0, 255 - intensity)`. */
  function CellColor(m: ModelMetric, value: int): Option<(int, int, int)>
  {
    var intensity := CellIntensity(m, value);
    if intensity.None? then None else Some((intensity.value, 0, 255 - intensity.value))
  }

  /** A cell of a non-empty matrix gets red and blue channels in [0, 255] that add up to 255;
      an empty cell is pure blue, a cell holding the whole matrix pure red, and a larger cell
      is at least as red as a smaller one. */
  lemma CellColorSpec(m: ModelMetric, value: int, other: int)
    requires Total(m) > 0 && 0 <= value <= other <= Total(m)
    ensures CellColor(m, value).Some? && CellColor(m, other).Some?
    ensures var (red, green, blue) := CellColor(m, value).value;
      0 <= red <= 255 && green == 0 && 0 <= blue <= 255 && red + blue == 255
    ensures value == 0 ==> CellColor(m, value).value == (0, 0, 255)
    ensures value == Total(m) ==> CellColor(m, value).value == (255, 0, 0)
    ensures CellColor(m, value).value.0 <= CellColor(m, other).value.0
  {
    var t := Total(m) as real;
    Metrics.FractionBounds(value as real, other as real, t);
    var x, y := value as real / t * 255.0, other as real / t * 255.0;
    RoundMonotone(0.0, x);
    RoundMonotone(x, y);
    RoundMonotone(y, 255.0);
    RoundWhole(0);
    RoundWhole(255);
    if value == Total(m) {
      assert value as real / t == 1.0;
    }
  }
}
