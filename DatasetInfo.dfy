/** The feature-vector summary of the dataset panel (frontend/src/components/DatasetInfo.jsx):
    for every column of the feature vectors the mean, the population standard deviation and
    the median, and the colour intensity of a correlation-matrix cell. The vectors are the rows
    of one query result, so every row holds a value for each of the result's columns; `sqrt`
    is a parameter. */
module DatasetInfo {
  import opened Common
  import opened Sorting
  import opened JsMath

  /** The `{ mean, sd, median }` entry of one column. */
  datatype Distribution = Distribution(mean: real, sd: real, median: real)

  /** `featureVectors.map(d => d[key])` for the column at position j. */
  function Column(rows: seq<seq<real>>, j: nat): (values: seq<real>)
    requires forall r :: r in rows ==> j < |r|
    ensures |values| == |rows|
  {
    seq(|rows|, i requires 0 <= i < |rows| => rows[i][j])
  }

  /** The sum of the squared deviations from m, `reduce((sum, val) => sum + Math.pow(val - m, 2), 0)`. */
  function SquaredDeviations(values: seq<real>, m: real): real
  {
    if values == [] then 0.0
    else
      var x := values[|values| - 1];
      SquaredDeviations(values[..|values| - 1], m) + (x - m) * (x - m)
  }

  /** The population variance: the mean squared deviation from the mean. */
  function Variance(values: seq<real>): real
    requires values != []
  {
    SquaredDeviations(values, Mean(values)) / (|values| as real)
  }

  function Id(x: real): real
  {
    x
  }

  /** `[...values].sort((a, b) => a - b)`: an ascending copy. */
  function Ascending(values: seq<real>): seq<real>
  {
    SortBy(values, Id)
  }

  /** The middle value of the ascending copy, or the average of the two middle values when the
      count is even. */
  function Median(values: seq<real>): real
    requires values != []
  {
    var sorted := Ascending(values);
    var mid := |sorted| / 2;
    if |sorted| % 2 == 0 then (sorted[mid - 1] + sorted[mid]) / 2.0 else sorted[mid]
  }

  function DistributionOf(values: seq<real>, sqrt: real -> real): Distribution
    requires values != []
  {
    Distribution(Mean(values), sqrt(Variance(values)), Median(values))
  }

  /** The `stats` object after the first i columns of the loop. */
  function StatsUpTo(columns: seq<string>, rows: seq<seq<real>>, sqrt: real -> real, i: nat): map<string, Distribution>
    requires i <= |columns| && rows != []
    requires forall r :: r in rows ==> |r| == |columns|
  {
    if i == 0 then map[]
    else StatsUpTo(columns, rows, sqrt, i - 1)[columns[i - 1] := DistributionOf(Column(rows, i - 1), sqrt)]
  }

  /** The body of the loop for one column: the mean, the standard deviation from the mean
      squared deviation, and the median of the ascending copy. */
  method ColumnStats(values: seq<real>, sqrt: real -> real) returns (d: Distribution)
    requires values != []
    ensures d == DistributionOf(values, sqrt)
  {
    var mean := Sum(values) / (|values| as real);
    var variance := SquaredDeviations(values, mean) / (|values| as real);
    var sd := sqrt(variance);
    var sorted := Ascending(values);
    var mid := |sorted| / 2;
    var median := if |sorted| % 2 == 0 then (sorted[mid - 1] + sorted[mid]) / 2.0 else sorted[mid];
    d := Distribution(mean, sd, median);
  }

  /** `calculateFVDistribution`: with no vectors nothing is computed and the panel's state is
      left as it was (`None`); otherwise one distribution per column of the first row. */
  method CalculateFVDistribution(columns: seq<string>, rows: seq<seq<real>>, sqrt: real -> real)
    returns (stats: Option<map<string, Distribution>>)
    requires forall r :: r in rows ==> |r| == |columns|
    ensures rows == [] ==> stats.None?
    ensures rows != [] ==> stats == Some(StatsUpTo(columns, rows, sqrt, |columns|))
  {
    if |rows| == 0 {
      return None;
    }
    var acc: map<string, Distribution> := map[];
    for i := 0 to |columns|
      invariant acc == StatsUpTo(columns, rows, sqrt, i)
    {
      var d := ColumnStats(Column(rows, i), sqrt);
      assert StatsUpTo(columns, rows, sqrt, i + 1) == acc[columns[i] := d];
      acc := acc[columns[i] := d];
    }
    stats := Some(acc);
  }

  // ---------------------------------------------------------------- the stats object

  /** The object has exactly the first row's keys, and each key holds the distribution of its
      own column (of the last column of that name, so of its only one in a query result). */
  lemma {:induction false} StatsKeys(columns: seq<string>, rows: seq<seq<real>>, sqrt: real -> real, i: nat, j: nat)
    requires i <= |columns| && rows != []
    requires forall r :: r in rows ==> |r| == |columns|
    requires j < i && forall k :: j < k < i ==> columns[k] != columns[j]
    ensures forall key :: key in StatsUpTo(columns, rows, sqrt, i) <==> key in columns[..i]
    ensures StatsUpTo(columns, rows, sqrt, i)[columns[j]] == DistributionOf(Column(rows, j), sqrt)
  {
    if i - 1 > j {
      StatsKeys(columns, rows, sqrt, i - 1, j);
    } else {
      StatsDomain(columns, rows, sqrt, i - 1);
    }
    assert columns[..i] == columns[..i - 1] + [columns[i - 1]];
  }

  lemma {:induction false} StatsDomain(columns: seq<string>, rows: seq<seq<real>>, sqrt: real -> real, i: nat)
    requires i <= |columns| && rows != []
    requires forall r :: r in rows ==> |r| == |columns|
    ensures forall key :: key in StatsUpTo(columns, rows, sqrt, i) <==> key in columns[..i]
  {
    if i > 0 {
      StatsDomain(columns, rows, sqrt, i - 1);
      assert columns[..i] == columns[..i - 1] + [columns[i - 1]];
    }
  }

  // ---------------------------------------------------------------- variance

  lemma {:induction false} SquaredDeviationsShift(values: seq<real>, m: real)
    ensures SquaredDeviations(values, m) ==
      SquaredDeviations(values, 0.0) - 2.0 * m * Sum(values) + (|values| as real) * m * m
  {
    if values != [] {
      var n := |values| - 1;
      SquaredDeviationsShift(values[..n], m);
      var x := values[n];
      assert (x - m) * (x - m) == (x - 0.0) * (x - 0.0) - 2.0 * m * x + m * m;
      assert (|values| as real) * m * m == (n as real) * m * m + m * m;
      assert 2.0 * m * Sum(values) == 2.0 * m * Sum(values[..n]) + 2.0 * m * x;
    }
  }

  lemma {:induction false} SquaredDeviationsNonNegative(values: seq<real>, m: real)
    ensures SquaredDeviations(values, m) >= 0.0
  {
    if values != [] {
      SquaredDeviationsNonNegative(values[..|values| - 1], m);
      var x := values[|values| - 1];
      NonNegativeSquare(x - m);
    }
  }

  lemma NonNegativeSquare(x: real)
    ensures x * x >= 0.0
  {
  }

  /** The variance is never negative. */
  lemma VarianceNonNegative(values: seq<real>)
    requires values != []
    ensures Variance(values) >= 0.0
  {
    SquaredDeviationsNonNegative(values, Mean(values));
  }

  // ---------------------------------------------------------------- median

  lemma AscendingSpec(values: seq<real>)
    ensures |Ascending(values)| == |values|
    ensures multiset(Ascending(values)) == multiset(values)
    ensures forall i, j :: 0 <= i <= j < |values| ==> Ascending(values)[i] <= Ascending(values)[j]
  {
    SortBySorted(values, Id);
  }

  /** The median lies between any lower and upper bound of the values; with an odd count it
      is one of the values. */
  lemma MedianBounds(values: seq<real>, lo: real, hi: real)
    requires values != []
    requires forall i :: 0 <= i < |values| ==> lo <= values[i] <= hi
    ensures lo <= Median(values) <= hi
    ensures |values| % 2 == 1 ==> Median(values) in values
  {
    var sorted := Ascending(values);
    AscendingSpec(values);
    var mid := |sorted| / 2;
    forall k | 0 <= k < |sorted| ensures lo <= sorted[k] <= hi {
      assert sorted[k] in multiset(values);
    }
    assert sorted[mid] in multiset(values);
  }

  function AtMost(m: real): real -> bool
  {
    x => x <= m
  }

  function AtLeast(m: real): real -> bool
  {
    x => x >= m
  }

  /** When the first k elements satisfy p, at least k elements do. */
  lemma PrefixCount<T>(xs: seq<T>, p: T -> bool, k: int)
    requires 0 <= k <= |xs|
    requires forall i :: 0 <= i < k ==> p(xs[i])
    ensures |Filter(xs, p)| >= k
  {
    FilterAll(xs[..k], p);
    FilterPrefixMonotone(xs, p, k, k);
  }

  /** When the elements from position k on satisfy p, at least |xs| - k elements do. */
  lemma SuffixCount<T>(xs: seq<T>, p: T -> bool, k: int)
    requires 0 <= k <= |xs|
    requires forall i :: k <= i < |xs| ==> p(xs[i])
    ensures |Filter(xs, p)| >= |xs| - k
  {
    var upper := xs[k..];
    assert forall i :: 0 <= i < |upper| ==> p(upper[i]) by {
      forall i | 0 <= i < |upper| ensures p(upper[i]) {
        assert upper[i] == xs[k + i];
      }
    }
    FilterAll(upper, p);
    assert xs == xs[..k] + upper;
    FilterAppend(xs[..k], upper, p);
  }

  /** In the ascending copy, the first half (rounded up) lies at or below the median and the
      second half (from the middle on) at or above it. */
  lemma MedianPosition(values: seq<real>)
    requires values != []
    ensures var sorted := Ascending(values);
      var n := |values|;
      (forall i :: 0 <= i < (n + 1) / 2 ==> sorted[i] <= Median(values)) &&
      (forall i :: n / 2 <= i < n ==> sorted[i] >= Median(values))
  {
    AscendingSpec(values);
  }

  /** The median splits the values: at least half of them (rounded up) are at most the
      median, and at least as many are at least the median. */
  lemma MedianSplits(values: seq<real>)
    requires values != []
    ensures |Filter(values, AtMost(Median(values)))| >= (|values| + 1) / 2
    ensures |Filter(values, AtLeast(Median(values)))| >= (|values| + 1) / 2
  {
    var sorted := Ascending(values);
    var m := Median(values);
    var n := |values|;
    AscendingSpec(values);
    MedianPosition(values);
    FilterSortBy(values, Id, AtMost(m));
    FilterSortBy(values, Id, AtLeast(m));
    PrefixCount(sorted, AtMost(m), (n + 1) / 2);
    SuffixCount(sorted, AtLeast(m), n / 2);
  }

  // ---------------------------------------------------------------- the matrix cell

  /** `Math.abs(Math.round((value / maxVal) * 255))` with `maxVal` 1. */
  function CellIntensity(value: real): int
  {
    Abs(Round(value / 1.0 * 255.0))
  }

  /** The cell's `rgb(intensity, 0, 255 - intensity)`. */
  function CellColor(value: real): (int, int, int)
  {
    var intensity := CellIntensity(value);
    (intensity, 0, 255 - intensity)
  }

  /** A correlation in [-1, 1] gives red and blue channels in [0, 255] that add up to 255;
      no correlation is pure blue and a perfect one, either way, pure red. */
  lemma CellColorSpec(value: real)
    requires -1.0 <= value <= 1.0
    ensures var (red, green, blue) := CellColor(value);
      0 <= red <= 255 && green == 0 && 0 <= blue <= 255 && red + blue == 255
    ensures value == 0.0 ==> CellColor(value) == (0, 0, 255)
    ensures value == 1.0 || value == -1.0 ==> CellColor(value) == (255, 0, 0)
  {
    RoundMonotone(-255.0, value * 255.0);
    RoundMonotone(value * 255.0, 255.0);
    RoundWhole(-255);
    RoundWhole(255);
    RoundWhole(0);
  }
}
