/** The hyperparameter search of the neural-network model (`nn_cross_validate` and
    `nn_train_final_model` in nn_model.py): five nested loops enumerate the configurations
    of the grid, each is scored by the mean of its per-fold validation accuracies, and the
    best one is the first of the stable sort by descending accuracy. Training, the fold split
    and the network itself are outside the model: the per-fold accuracies of a configuration
    are a parameter. */
module NnModel {
  import opened Common
  import opened Sorting

  /** One configuration of the grid; the optimizer is kept by its name. */
  datatype Config = Config(
    dropout: real, learningRate: real, batchSize: nat, hiddenUnits: seq<nat>, optimizer: string)

  /** One entry of `all_configurations_results`: the configuration and its mean validation
      accuracy, `None` standing for NaN. */
  datatype ConfigResult = ConfigResult(params: Config, avgAccuracy: Option<real>)

  /** What `nn_cross_validate` does: raise while selecting the best configuration, or return
      its pair. */
  datatype CrossValidation = Raised | Returned(best: Option<ConfigResult>, results: seq<ConfigResult>)

  // ---------------------------------------------------------------- the grid

  const HiddenUnits: seq<seq<nat>> := [[64], [64, 128], [128], [256, 128], [256], [512, 256, 128]]
  const Optimizers: seq<string> := ["Adam", "SGD"]
  const Dropouts: seq<real> := [0.0, 0.2, 0.4]
  const LearningRates: seq<real> := [0.0005, 0.001, 0.005, 0.01, 0.1]
  const BatchSizes: seq<nat> := [64, 128, 256]

  /** `total_configurations`: the product of the five list lengths. */
  function TotalConfigurations(): (n: nat)
    ensures n == 540
  {
    |Dropouts| * |LearningRates| * |BatchSizes| * |HiddenUnits| * |Optimizers|
  }

  /** The position of a combination in the loop order: dropout outermost, then learning rate,
      batch size, hidden units, and the optimizer innermost. */
  function Index(i: int, j: int, b: int, h: int, o: int): int
  {
    180 * i + 36 * j + 12 * b + 2 * h + o
  }

  /** The configuration the loops build for a combination of list positions. */
  function Combination(i: int, j: int, b: int, h: int, o: int): Config
    requires 0 <= i < |Dropouts| && 0 <= j < |LearningRates| && 0 <= b < |BatchSizes|
    requires 0 <= h < |HiddenUnits| && 0 <= o < |Optimizers|
  {
    Config(Dropouts[i], LearningRates[j], BatchSizes[b], HiddenUnits[h], Optimizers[o])
  }

  /** The configuration visited at position k, read off the mixed-radix digits of k. */
  function ConfigAt(k: nat): Config
    requires k < 540
  {
    var k1 := k / 2;
    var k2 := k1 / 6;
    var k3 := k2 / 3;
    Combination(k3 / 5, k3 % 5, k2 % 3, k1 % 6, k % 2)
  }

  /** Reading the digits of a combination's position gives the combination back. */
  lemma ConfigAtIndex(i: int, j: int, b: int, h: int, o: int)
    requires 0 <= i < |Dropouts| && 0 <= j < |LearningRates| && 0 <= b < |BatchSizes|
    requires 0 <= h < |HiddenUnits| && 0 <= o < |Optimizers|
    ensures 0 <= Index(i, j, b, h, o) < 540
    ensures ConfigAt(Index(i, j, b, h, o)) == Combination(i, j, b, h, o)
  {
    var k3 := i * 5 + j;
    var k2 := k3 * 3 + b;
    var k1 := k2 * 6 + h;
    var k := k1 * 2 + o;
    assert k / 2 == k1 && k % 2 == o;
    assert k1 / 6 == k2 && k1 % 6 == h;
    assert k2 / 3 == k3 && k2 % 3 == b;
    assert k3 / 5 == i && k3 % 5 == j;
    assert Index(i, j, b, h, o) == k;
    assert ConfigAt(k) == Combination(k3 / 5, k3 % 5, k2 % 3, k1 % 6, k % 2);
  }

  /** Every position of the grid is the position of the combination its digits name. */
  lemma IndexOfDigits(k: nat)
    requires k < 540
    ensures var k1 := k / 2; var k2 := k1 / 6; var k3 := k2 / 3;
      k3 / 5 < 3 && Index(k3 / 5, k3 % 5, k2 % 3, k1 % 6, k % 2) == k
  {
    var k1 := k / 2;
    var k2 := k1 / 6;
    var k3 := k2 / 3;
    assert k3 / 5 * 5 + k3 % 5 == k3;
    assert k3 * 3 + k2 % 3 == k2;
    assert k2 * 6 + k1 % 6 == k1;
    assert k1 * 2 + k % 2 == k;
  }

  /** Different positions visit different configurations: each combination once. */
  lemma ConfigAtInjective(k1: nat, k2: nat)
    requires k1 < 540 && k2 < 540
    requires ConfigAt(k1) == ConfigAt(k2)
    ensures k1 == k2
  {
    IndexOfDigits(k1);
    IndexOfDigits(k2);
    var a1, a2 := k1 / 2, k2 / 2;
    var b1, b2 := a1 / 6, a2 / 6;
    var c1, c2 := b1 / 3, b2 / 3;
    assert ConfigAt(k1) == Combination(c1 / 5, c1 % 5, b1 % 3, a1 % 6, k1 % 2);
    assert ConfigAt(k2) == Combination(c2 / 5, c2 % 5, b2 % 3, a2 % 6, k2 % 2);
    CombinationInjective(c1 / 5, c1 % 5, b1 % 3, a1 % 6, k1 % 2, c2 / 5, c2 % 5, b2 % 3, a2 % 6, k2 % 2);
  }

  /** Different list positions give different configurations. */
  lemma CombinationInjective(i1: int, j1: int, b1: int, h1: int, o1: int,
                             i2: int, j2: int, b2: int, h2: int, o2: int)
    requires 0 <= i1 < |Dropouts| && 0 <= j1 < |LearningRates| && 0 <= b1 < |BatchSizes|
    requires 0 <= h1 < |HiddenUnits| && 0 <= o1 < |Optimizers|
    requires 0 <= i2 < |Dropouts| && 0 <= j2 < |LearningRates| && 0 <= b2 < |BatchSizes|
    requires 0 <= h2 < |HiddenUnits| && 0 <= o2 < |Optimizers|
    requires Combination(i1, j1, b1, h1, o1) == Combination(i2, j2, b2, h2, o2)
    ensures i1 == i2 && j1 == j2 && b1 == b2 && h1 == h2 && o1 == o2
  {
    assert Dropouts[i1] == Dropouts[i2];
    assert LearningRates[j1] == LearningRates[j2];
    assert BatchSizes[b1] == BatchSizes[b2];
    assert HiddenUnits[h1] == HiddenUnits[h2];
    HiddenUnitsDistinct(h1, h2);
    assert Optimizers[o1] == Optimizers[o2];
    assert Optimizers[0][0] != Optimizers[1][0];
  }

  lemma HiddenUnitsDistinct(h1: int, h2: int)
    requires 0 <= h1 < |HiddenUnits| && 0 <= h2 < |HiddenUnits|
    requires HiddenUnits[h1] == HiddenUnits[h2]
    ensures h1 == h2
  {
    var u1, u2 := HiddenUnits[h1], HiddenUnits[h2];
    assert |u1| == |u2| && u1[0] == u2[0] && u1[|u1| - 1] == u2[|u2| - 1];
  }

  // ---------------------------------------------------------------- scoring a configuration

  /** `(all_probs_np > 0.5).astype(int)`: class 1 strictly above one half. */
  function PredictedClass(p: real): (c: int)
    ensures c == 0 || c == 1
    ensures c == 1 <==> p > 0.5
  {
    if p > 0.5 then 1 else 0
  }

  /** How many predictions equal their labels. */
  function Correct(labels: seq<int>, probs: seq<real>): (n: nat)
    requires |labels| == |probs|
    ensures n <= |labels|
  {
    if labels == [] then 0
    else
      Correct(labels[..|labels| - 1], probs[..|probs| - 1]) +
        (if PredictedClass(probs[|probs| - 1]) == labels[|labels| - 1] then 1 else 0)
  }

  /** `accuracy_score` of a validation fold: the fraction of correct predictions, NaN
      (`None`) for an empty fold. */
  function FoldAccuracy(labels: seq<int>, probs: seq<real>): Option<real>
    requires |labels| == |probs|
  {
    if labels == [] then None else Some(Correct(labels, probs) as real / |labels| as real)
  }

  lemma {:induction false} CorrectAll(labels: seq<int>, probs: seq<real>)
    requires |labels| == |probs|
    ensures Correct(labels, probs) == |labels| <==>
      forall i :: 0 <= i < |labels| ==> PredictedClass(probs[i]) == labels[i]
  {
    if labels != [] {
      var n := |labels| - 1;
      CorrectAll(labels[..n], probs[..n]);
      assert forall i :: 0 <= i < n ==> labels[..n][i] == labels[i] && probs[..n][i] == probs[i];
    }
  }

  /** A fold's accuracy lies in [0, 1] and is 1 exactly when every prediction is right. */
  lemma FoldAccuracySpec(labels: seq<int>, probs: seq<real>)
    requires |labels| == |probs|
    ensures FoldAccuracy(labels, probs).None? <==> labels == []
    ensures FoldAccuracy(labels, probs).Some? ==>
      0.0 <= FoldAccuracy(labels, probs).value <= 1.0
    ensures FoldAccuracy(labels, probs) == Some(1.0) <==>
      labels != [] && forall i :: 0 <= i < |labels| ==> PredictedClass(probs[i]) == labels[i]
  {
    CorrectAll(labels, probs);
    if labels != [] {
      var c, n := Correct(labels, probs) as real, |labels| as real;
      QuotientBounds(c, n, 0.0, 1.0);
      FractionOne(c, n);
    }
  }

  /** The values of the entries that are not NaN, in order. */
  function Present(xs: seq<Option<real>>): (r: seq<real>)
    ensures |r| <= |xs|
  {
    if xs == [] then []
    else Present(xs[..|xs| - 1]) + (if xs[|xs| - 1].Some? then [xs[|xs| - 1].value] else [])
  }

  /** `np.nanmean`: the mean of the entries that are not NaN, NaN when there is none. */
  function NanMean(xs: seq<Option<real>>): Option<real>
  {
    if Present(xs) == [] then None else Some(Mean(Present(xs)))
  }

  lemma {:induction false} PresentMembers(xs: seq<Option<real>>)
    ensures Present(xs) == [] <==> forall i :: 0 <= i < |xs| ==> xs[i].None?
    ensures forall v :: v in Present(xs) <==> Some(v) in xs
  {
    if xs != [] {
      var init := xs[..|xs| - 1];
      PresentMembers(init);
      assert xs == init + [xs[|xs| - 1]];
    }
  }

  lemma {:induction false} PresentBounds(xs: seq<Option<real>>, lo: real, hi: real)
    requires forall i :: 0 <= i < |xs| && xs[i].Some? ==> lo <= xs[i].value <= hi
    ensures forall i :: 0 <= i < |Present(xs)| ==> lo <= Present(xs)[i] <= hi
  {
    if xs != [] {
      PresentBounds(xs[..|xs| - 1], lo, hi);
    }
  }

  /** The NaN-ignoring mean is NaN only when every entry is, and otherwise lies between any
      bounds of the entries that are not NaN. */
  lemma NanMeanSpec(xs: seq<Option<real>>, lo: real, hi: real)
    ensures NanMean(xs).None? <==> forall i :: 0 <= i < |xs| ==> xs[i].None?
    ensures NanMean(xs).Some? && (forall i :: 0 <= i < |xs| && xs[i].Some? ==> lo <= xs[i].value <= hi) ==>
      lo <= NanMean(xs).value <= hi
  {
    PresentMembers(xs);
    if NanMean(xs).Some? && forall i :: 0 <= i < |xs| && xs[i].Some? ==> lo <= xs[i].value <= hi {
      PresentBounds(xs, lo, hi);
      MeanBounds(Present(xs), lo, hi);
    }
  }

  /** The entry of one configuration: the NaN-ignoring mean of its fold accuracies. */
  function Evaluate(c: Config, foldAccuracies: Config -> seq<Option<real>>): ConfigResult
  {
    ConfigResult(c, NanMean(foldAccuracies(c)))
  }

  /** The entries of the first n positions of the grid, in loop order. */
  function GridPrefix(foldAccuracies: Config -> seq<Option<real>>, n: nat): (g: seq<ConfigResult>)
    requires n <= 540
    ensures |g| == n
  {
    if n == 0 then [] else GridPrefix(foldAccuracies, n - 1) + [Evaluate(ConfigAt(n - 1), foldAccuracies)]
  }

  /** The entries of the whole grid. */
  function Grid(foldAccuracies: Config -> seq<Option<real>>): (g: seq<ConfigResult>)
    ensures |g| == 540
  {
    GridPrefix(foldAccuracies, 540)
  }

  /** The five nested loops: `config_idx` counts the configurations and each one's entry is
      appended in loop order. The two innermost loops are EnumerateBatch. */
  method EnumerateConfigurations(foldAccuracies: Config -> seq<Option<real>>)
    returns (results: seq<ConfigResult>, configIdx: nat)
    ensures configIdx == |results| == TotalConfigurations()
    ensures results == Grid(foldAccuracies)
  {
    results := [];
    configIdx := 0;
    for i := 0 to |Dropouts|
      invariant configIdx == 180 * i && results == GridPrefix(foldAccuracies, configIdx)
    {
      for j := 0 to |LearningRates|
        invariant configIdx == 180 * i + 36 * j && results == GridPrefix(foldAccuracies, configIdx)
      {
        for b := 0 to |BatchSizes|
          invariant configIdx == 180 * i + 36 * j + 12 * b && results == GridPrefix(foldAccuracies, configIdx)
        {
          results, configIdx := EnumerateBatch(foldAccuracies, i, j, b, results, configIdx);
        }
      }
    }
  }

  /** The two innermost loops, over hidden units and optimizers, for one dropout, learning
      rate and batch size. */
  method EnumerateBatch(foldAccuracies: Config -> seq<Option<real>>, i: int, j: int, b: int,
                        results0: seq<ConfigResult>, configIdx0: nat)
    returns (results: seq<ConfigResult>, configIdx: nat)
    requires 0 <= i < |Dropouts| && 0 <= j < |LearningRates| && 0 <= b < |BatchSizes|
    requires configIdx0 == 180 * i + 36 * j + 12 * b && results0 == GridPrefix(foldAccuracies, configIdx0)
    ensures configIdx == configIdx0 + 12 && results == GridPrefix(foldAccuracies, configIdx)
  {
    results, configIdx := results0, configIdx0;
    for h := 0 to |HiddenUnits|
      invariant configIdx == configIdx0 + 2 * h && results == GridPrefix(foldAccuracies, configIdx)
    {
      for o := 0 to |Optimizers|
        invariant configIdx == configIdx0 + 2 * h + o && results == GridPrefix(foldAccuracies, configIdx)
      {
        var config := Config(Dropouts[i], LearningRates[j], BatchSizes[b], HiddenUnits[h], Optimizers[o]);
        GridPrefixStep(foldAccuracies, i, j, b, h, o);
        assert Index(i, j, b, h, o) == configIdx;
        configIdx := configIdx + 1;
        results := results + [Evaluate(config, foldAccuracies)];
      }
    }
  }

  /** The entry appended at a combination's position scores that combination. */
  lemma GridPrefixStep(foldAccuracies: Config -> seq<Option<real>>, i: int, j: int, b: int, h: int, o: int)
    requires 0 <= i < |Dropouts| && 0 <= j < |LearningRates| && 0 <= b < |BatchSizes|
    requires 0 <= h < |HiddenUnits| && 0 <= o < |Optimizers|
    ensures 0 <= Index(i, j, b, h, o) < 540
    ensures GridPrefix(foldAccuracies, Index(i, j, b, h, o) + 1)
         == GridPrefix(foldAccuracies, Index(i, j, b, h, o))
            + [Evaluate(Config(Dropouts[i], LearningRates[j], BatchSizes[b], HiddenUnits[h], Optimizers[o]),
                        foldAccuracies)]
  {
    ConfigAtIndex(i, j, b, h, o);
  }

  lemma {:induction false} GridPrefixAt(foldAccuracies: Config -> seq<Option<real>>, n: nat, k: nat)
    requires k < n <= 540
    ensures GridPrefix(foldAccuracies, n)[k] == Evaluate(ConfigAt(k), foldAccuracies)
  {
    if k < n - 1 {
      GridPrefixAt(foldAccuracies, n - 1, k);
    }
  }

  /** Entry k of the grid scores the configuration at position k, and every combination of the
      five lists is scored at its position. */
  lemma GridSpec(foldAccuracies: Config -> seq<Option<real>>, i: int, j: int, b: int, h: int, o: int)
    requires 0 <= i < |Dropouts| && 0 <= j < |LearningRates| && 0 <= b < |BatchSizes|
    requires 0 <= h < |HiddenUnits| && 0 <= o < |Optimizers|
    ensures |Grid(foldAccuracies)| == 540
    ensures forall k :: 0 <= k < 540 ==> Grid(foldAccuracies)[k] == Evaluate(ConfigAt(k), foldAccuracies)
    ensures Grid(foldAccuracies)[Index(i, j, b, h, o)] ==
      ConfigResult(Combination(i, j, b, h, o), NanMean(foldAccuracies(Combination(i, j, b, h, o))))
  {
    forall k | 0 <= k < 540 ensures Grid(foldAccuracies)[k] == Evaluate(ConfigAt(k), foldAccuracies) {
      GridPrefixAt(foldAccuracies, 540, k);
    }
    ConfigAtIndex(i, j, b, h, o);
  }

  // ---------------------------------------------------------------- choosing the best

  predicate IsValid(r: ConfigResult)
  {
    r.avgAccuracy.Some?
  }

  /** The sort key `-avg_val_accuracy`; only valid entries are sorted. */
  function Descending(r: ConfigResult): real
  {
    if r.avgAccuracy.Some? then -r.avgAccuracy.value else 0.0
  }

  /** `valid_results`, sorted by descending accuracy and its head taken; `None` when no entry
      is valid and indexing the empty list raises. */
  function BestConfig(results: seq<ConfigResult>): Option<ConfigResult>
  {
    var valid := Filter(results, IsValid);
    if valid == [] then None else Some(SortBy(valid, Descending)[0])
  }

  /** The best configuration is a valid entry whose accuracy no valid entry exceeds, and every
      valid entry before it is strictly worse; there is none exactly when no entry is valid. */
  lemma BestConfigSpec(results: seq<ConfigResult>)
    ensures BestConfig(results).None? <==> forall k :: 0 <= k < |results| ==> !IsValid(results[k])
    ensures BestConfig(results).Some? ==>
      var best := BestConfig(results).value;
      best in results && IsValid(best) &&
      (forall k :: 0 <= k < |results| && IsValid(results[k]) ==>
        results[k].avgAccuracy.value <= best.avgAccuracy.value) &&
      exists b :: 0 <= b < |results| && results[b] == best &&
        forall k :: 0 <= k < b && IsValid(results[k]) ==> results[k].avgAccuracy.value < best.avgAccuracy.value
  {
    var valid := Filter(results, IsValid);
    FilterMembers(results, IsValid);
    if valid == [] {
      forall k | 0 <= k < |results| ensures !IsValid(results[k]) {
        assert results[k] in results;
      }
    } else {
      SortByFirst(valid, Descending);
      var m := FirstMinIndex(valid, Descending);
      assert BestConfig(results) == Some(valid[m]);
      BestAmongValid(results, m);
    }
  }

  /** The valid entry at position m, when no valid entry has a smaller key and every earlier
      one a larger key, is a best entry of the input and comes after only worse valid ones. */
  lemma BestAmongValid(results: seq<ConfigResult>, m: nat)
    requires m < |Filter(results, IsValid)|
    requires var valid := Filter(results, IsValid);
      forall i :: 0 <= i < |valid| ==> Descending(valid[m]) <= Descending(valid[i])
    requires var valid := Filter(results, IsValid);
      forall i :: 0 <= i < m ==> Descending(valid[m]) < Descending(valid[i])
    ensures var best := Filter(results, IsValid)[m];
      best in results && IsValid(best) &&
      (forall k :: 0 <= k < |results| && IsValid(results[k]) ==>
        results[k].avgAccuracy.value <= best.avgAccuracy.value) &&
      exists b :: 0 <= b < |results| && results[b] == best &&
        forall k :: 0 <= k < b && IsValid(results[k]) ==> results[k].avgAccuracy.value < best.avgAccuracy.value
  {
    var valid := Filter(results, IsValid);
    var best := valid[m];
    FilterMembers(results, IsValid);
    assert best in valid;
    forall k | 0 <= k < |results| && IsValid(results[k])
      ensures results[k].avgAccuracy.value <= best.avgAccuracy.value
    {
      assert results[k] in valid;
      var i :| 0 <= i < |valid| && valid[i] == results[k];
      assert Descending(best) <= Descending(valid[i]);
    }
    var b := FilterFirstPosition(results, IsValid, Descending, m);
    assert results[b] == best;
  }

  /** The earliest valid entry with the smallest key sits at a position of the input before
      which every valid entry has a larger key. */
  lemma {:induction false} FilterFirstPosition(
    xs: seq<ConfigResult>, p: ConfigResult -> bool, key: ConfigResult -> real, m: nat)
    returns (b: nat)
    requires m < |Filter(xs, p)|
    requires forall i :: 0 <= i < m ==> key(Filter(xs, p)[m]) < key(Filter(xs, p)[i])
    ensures b < |xs| && xs[b] == Filter(xs, p)[m]
    ensures forall k :: 0 <= k < b && p(xs[k]) ==> key(xs[b]) < key(xs[k])
  {
    var init := xs[..|xs| - 1];
    var last := xs[|xs| - 1];
    var f := Filter(init, p);
    assert Filter(xs, p) == f + (if p(last) then [last] else []);
    if m < |f| {
      assert forall i :: 0 <= i <= m ==> Filter(xs, p)[i] == f[i];
      b := FilterFirstPosition(init, p, key, m);
      assert forall k :: 0 <= k < b ==> xs[k] == init[k];
    } else {
      b := |xs| - 1;
      forall k | 0 <= k < b && p(xs[k]) ensures key(xs[b]) < key(xs[k]) {
        assert xs[k] == init[k];
        FilterMembers(init, p);
        assert xs[k] in f;
        var i :| 0 <= i < |f| && f[i] == xs[k];
        assert Filter(xs, p)[i] == f[i];
      }
    }
  }

  // ---------------------------------------------------------------- the whole search

  /** `nn_cross_validate` as written: enumerate and score the grid, select the best
      configuration (which raises when no entry is valid), then overwrite it with `None` and
      return that with every entry. */
  method NnCrossValidate(foldAccuracies: Config -> seq<Option<real>>) returns (r: CrossValidation)
    ensures r.Raised? <==> forall k :: 0 <= k < 540 ==> Grid(foldAccuracies)[k].avgAccuracy.None?
    ensures r.Returned? ==> r.best.None? && r.results == Grid(foldAccuracies)
  {
    var results, configIdx := EnumerateConfigurations(foldAccuracies);
    BestConfigSpec(results);
    var best := BestConfig(results);
    if best.None? {
      return Raised;
    }
    best := None;
    r := Returned(best, results);
  }

  /** `nn_cross_validate` returning the configuration it selected, which is what its caller
      hands to the final training. */
  method NnCrossValidateIntended(foldAccuracies: Config -> seq<Option<real>>) returns (r: CrossValidation)
    ensures r.Raised? <==> forall k :: 0 <= k < 540 ==> Grid(foldAccuracies)[k].avgAccuracy.None?
    ensures r.Returned? ==>
      r.best == BestConfig(Grid(foldAccuracies)) && r.best.Some? && r.results == Grid(foldAccuracies)
  {
    var results, configIdx := EnumerateConfigurations(foldAccuracies);
    BestConfigSpec(results);
    var best := BestConfig(results);
    if best.None? {
      return Raised;
    }
    r := Returned(best, results);
  }

  /** What `nn_train_final_model` reads before training: the selected configuration, the
      batch size it trains with and its epoch count. */
  datatype FinalSetup = FinalSetup(params: Config, batchSize: int, epochs: nat)

  const FinalEpochs: nat := 40

  /** `nn_train_final_model(X, y, best_params)` up to the training loop: `best_params['params']`
      raises on `None`; otherwise the configuration's batch size is clamped to the dataset. */
  function FinalTrainingSetup(best: Option<ConfigResult>, n: nat): (r: Result<FinalSetup>)
    ensures r.Ok? <==> best.Some?
    ensures r.Ok? ==>
      r.value.params == best.value.params && r.value.epochs == FinalEpochs &&
      1 <= r.value.batchSize && (n >= 1 ==> r.value.batchSize <= n)
  {
    if best.None? then Fail("'NoneType' object is not subscriptable")
    else Ok(FinalSetup(best.value.params, EffectiveBatchSize(best.value.params.batchSize, n), FinalEpochs))
  }

  /** As written, the final training always receives `None` from the search and raises. */
  lemma SearchResultReachesNoTraining(r: CrossValidation, n: nat)
    requires r.Returned? && r.best.None?
    ensures FinalTrainingSetup(r.best, n).Fail?
  {
  }

  /** With the selected configuration returned, the final training runs on the best
      configuration of the grid whenever the search does not raise. */
  lemma SearchResultTrainsBest(results: seq<ConfigResult>, r: CrossValidation, n: nat)
    requires r.Returned? && r.best == BestConfig(results) && r.best.Some?
    ensures FinalTrainingSetup(r.best, n).Ok?
    ensures FinalTrainingSetup(r.best, n).value.params == r.best.value.params
    ensures IsValid(r.best.value)
    ensures forall k :: 0 <= k < |results| && IsValid(results[k]) ==>
      results[k].avgAccuracy.value <= r.best.value.avgAccuracy.value
  {
    BestConfigSpec(results);
  }

  /** `max(1, min(batch_size, len(dataset)))`: the requested size, capped by the dataset and
      never below one. */
  function EffectiveBatchSize(batchSize: int, n: nat): (e: int)
    ensures e >= 1
    ensures 1 <= batchSize <= n ==> e == batchSize
    ensures 1 <= n < batchSize ==> e == n
    ensures n == 0 || batchSize < 1 ==> e == 1
  {
    if batchSize <= n then (if batchSize < 1 then 1 else batchSize)
    else if n < 1 then 1 else n
  }

  /** The batch size of the retraining loop, `min(best_batch_size, len(dataset))`, which has no
      floor: an empty fold gives zero, which `DataLoader` refuses. */
  function FinalBatchSize(batchSize: nat, n: nat): (e: nat)
    ensures e <= batchSize && e <= n
    ensures e == batchSize || e == n
  {
    if batchSize <= n then batchSize else n
  }

  /** The two sizes agree on every non-empty fold. */
  lemma FinalBatchSizeAgrees(batchSize: nat, n: nat)
    requires batchSize >= 1 && n >= 1
    ensures FinalBatchSize(batchSize, n) == EffectiveBatchSize(batchSize, n)
  {
  }
}
