/** The layer list of the multi-layer perceptron (`MLP.__init__` in models/mlp.py): one
    Linear and one ReLU per hidden width, a Dropout after each ReLU when the rate is
    positive, and a final Linear to the output size, each Linear reading the width the
    previous one produced. The layers are their shapes; weights and `forward` are left to the
    network library. */
module Mlp {

  datatype Layer = Linear(inFeatures: int, outFeatures: int) | ReLU | Dropout(rate: real)

  /** The layers one hidden width appends. */
  function Block(inFeatures: int, width: int, dropout: real): seq<Layer>
  {
    [Linear(inFeatures, width), ReLU] + (if dropout > 0.0 then [Dropout(dropout)] else [])
  }

  /** `in_features` after the given widths: the last width, or the input size when there is
      none. */
  function LastWidth(inputSize: int, widths: seq<int>): int
  {
    if widths == [] then inputSize else widths[|widths| - 1]
  }

  /** The layers the loop appends for the given widths. */
  function HiddenLayers(inputSize: int, widths: seq<int>, dropout: real): seq<Layer>
  {
    if widths == [] then []
    else
      var init := widths[..|widths| - 1];
      HiddenLayers(inputSize, init, dropout) + Block(LastWidth(inputSize, init), widths[|widths| - 1], dropout)
  }

  /** The whole list handed to `nn.Sequential`. */
  function Layers(inputSize: int, widths: seq<int>, outputSize: int, dropout: real): seq<Layer>
  {
    HiddenLayers(inputSize, widths, dropout) + [Linear(LastWidth(inputSize, widths), outputSize)]
  }

  /** The loop of `__init__`: append the block of each width and move `in_features` on, then
      append the output layer. */
  method BuildLayers(inputSize: int, hiddenUnits: seq<int>, outputSize: int, dropout: real)
    returns (layers: seq<Layer>)
    ensures layers == Layers(inputSize, hiddenUnits, outputSize, dropout)
  {
    layers := [];
    var inFeatures := inputSize;
    for i := 0 to |hiddenUnits|
      invariant inFeatures == LastWidth(inputSize, hiddenUnits[..i])
      invariant layers == HiddenLayers(inputSize, hiddenUnits[..i], dropout)
    {
      var h := hiddenUnits[i];
      assert hiddenUnits[..i + 1][..i] == hiddenUnits[..i];
      layers := layers + [Linear(inFeatures, h)];
      layers := layers + [ReLU];
      if dropout > 0.0 {
        layers := layers + [Dropout(dropout)];
      }
      inFeatures := h;
    }
    assert hiddenUnits[..|hiddenUnits|] == hiddenUnits;
    layers := layers + [Linear(inFeatures, outputSize)];
  }

  /** The module object: its `model` is the sequential stack of the layers. */
  class MLP {
    var model: seq<Layer>

    constructor(inputSize: int, hiddenUnits: seq<int>, outputSize: int, dropout: real)
      ensures model == Layers(inputSize, hiddenUnits, outputSize, dropout)
    {
      var layers := BuildLayers(inputSize, hiddenUnits, outputSize, dropout);
      model := layers;
    }
  }

  // ---------------------------------------------------------------- properties

  lemma {:induction false} HiddenLayersCount(inputSize: int, widths: seq<int>, dropout: real)
    ensures |HiddenLayers(inputSize, widths, dropout)| == |widths| * (if dropout > 0.0 then 3 else 2)
  {
    if widths != [] {
      HiddenLayersCount(inputSize, widths[..|widths| - 1], dropout);
    }
  }

  /** Each width adds three layers with dropout and two without, and the output layer one. */
  lemma LayerCount(inputSize: int, widths: seq<int>, outputSize: int, dropout: real)
    ensures |Layers(inputSize, widths, outputSize, dropout)| == |widths| * (if dropout > 0.0 then 3 else 2) + 1
  {
    HiddenLayersCount(inputSize, widths, dropout);
  }

  /** The shapes of the Linear layers, in order. */
  function Linears(layers: seq<Layer>): seq<(int, int)>
  {
    if layers == [] then []
    else
      var last := layers[|layers| - 1];
      Linears(layers[..|layers| - 1]) + (if last.Linear? then [(last.inFeatures, last.outFeatures)] else [])
  }

  lemma {:induction false} LinearsAppend(xs: seq<Layer>, ys: seq<Layer>)
    ensures Linears(xs + ys) == Linears(xs) + Linears(ys)
    decreases |ys|
  {
    if ys == [] {
      assert xs + ys == xs;
    } else {
      var init := ys[..|ys| - 1];
      assert (xs + ys)[..|xs + ys| - 1] == xs + init;
      LinearsAppend(xs, init);
    }
  }

  lemma LinearsSingle(l: Layer)
    ensures Linears([l]) == if l.Linear? then [(l.inFeatures, l.outFeatures)] else []
  {
    assert [l][..0] == [];
  }

  lemma BlockLinears(inFeatures: int, width: int, dropout: real)
    ensures Linears(Block(inFeatures, width, dropout)) == [(inFeatures, width)]
  {
    var extra: seq<Layer> := if dropout > 0.0 then [Dropout(dropout)] else [];
    LinearsAppend([Linear(inFeatures, width)], [ReLU]);
    LinearsAppend([Linear(inFeatures, width), ReLU], extra);
    LinearsSingle(Linear(inFeatures, width));
    LinearsSingle(ReLU);
    if dropout > 0.0 {
      LinearsSingle(Dropout(dropout));
    }
    assert [Linear(inFeatures, width)] + [ReLU] == [Linear(inFeatures, width), ReLU];
  }

  lemma {:induction false} HiddenLinears(inputSize: int, widths: seq<int>, dropout: real)
    ensures |Linears(HiddenLayers(inputSize, widths, dropout))| == |widths|
    ensures forall k :: 0 <= k < |widths| ==>
      Linears(HiddenLayers(inputSize, widths, dropout))[k] == (if k == 0 then inputSize else widths[k - 1], widths[k])
  {
    if widths != [] {
      var n := |widths| - 1;
      var init := widths[..n];
      HiddenLinears(inputSize, init, dropout);
      LinearsAppend(HiddenLayers(inputSize, init, dropout), Block(LastWidth(inputSize, init), widths[n], dropout));
      BlockLinears(LastWidth(inputSize, init), widths[n], dropout);
      var lin := Linears(HiddenLayers(inputSize, widths, dropout));
      var before := Linears(HiddenLayers(inputSize, init, dropout));
      assert lin == before + [(LastWidth(inputSize, init), widths[n])];
      forall k | 0 <= k < |widths|
        ensures lin[k] == (if k == 0 then inputSize else widths[k - 1], widths[k])
      {
        if k < n {
          assert lin[k] == before[k];
          assert before[k] == (if k == 0 then inputSize else init[k - 1], init[k]);
          assert init[k] == widths[k];
          if k > 0 {
            assert init[k - 1] == widths[k - 1];
          }
        } else {
          assert lin[k] == (LastWidth(inputSize, init), widths[n]);
          if k > 0 {
            assert init[k - 1] == widths[k - 1];
          }
        }
      }
    }
  }

  lemma HiddenLinearAt(inputSize: int, widths: seq<int>, dropout: real, k: int)
    requires 0 <= k < |widths|
    ensures |Linears(HiddenLayers(inputSize, widths, dropout))| == |widths|
    ensures Linears(HiddenLayers(inputSize, widths, dropout))[k] == (if k == 0 then inputSize else widths[k - 1], widths[k])
  {
    HiddenLinears(inputSize, widths, dropout);
  }

  /** The Linear layers chain: the first reads the input size, each later one reads the width
      the one before produced, the hidden ones produce the widths in order and the last one
      produces the output size. */
  lemma LinearChain(inputSize: int, widths: seq<int>, outputSize: int, dropout: real)
    ensures var lin := Linears(Layers(inputSize, widths, outputSize, dropout));
      |lin| == |widths| + 1 &&
      lin[0].0 == inputSize &&
      (forall k :: 0 <= k < |widths| ==> lin[k].1 == widths[k]) &&
      (forall k :: 1 <= k < |lin| ==> lin[k].0 == lin[k - 1].1) &&
      lin[|widths|].1 == outputSize
  {
    var hidden := HiddenLayers(inputSize, widths, dropout);
    var last := Linear(LastWidth(inputSize, widths), outputSize);
    HiddenLinears(inputSize, widths, dropout);
    LinearsAppend(hidden, [last]);
    LinearsSingle(last);
    var lin := Linears(Layers(inputSize, widths, outputSize, dropout));
    var before := Linears(hidden);
    assert lin == before + [(LastWidth(inputSize, widths), outputSize)];
    forall k | 0 <= k < |widths| ensures lin[k] == before[k] && lin[k].1 == widths[k] {
      HiddenLinearAt(inputSize, widths, dropout, k);
    }
    if widths != [] {
      HiddenLinearAt(inputSize, widths, dropout, 0);
    }
    forall k | 1 <= k < |lin| ensures lin[k].0 == lin[k - 1].1 {
      if k < |widths| {
        HiddenLinearAt(inputSize, widths, dropout, k);
      }
    }
  }

  lemma {:induction false} HiddenDropouts(inputSize: int, widths: seq<int>, dropout: real, l: Layer)
    ensures l in HiddenLayers(inputSize, widths, dropout) && l.Dropout? <==>
      widths != [] && dropout > 0.0 && l == Dropout(dropout)
  {
    if widths != [] {
      var init := widths[..|widths| - 1];
      HiddenDropouts(inputSize, init, dropout, l);
    }
  }

  /** A Dropout layer appears exactly when the rate is positive and there is a hidden width,
      and it uses the given rate. */
  lemma DropoutPresence(inputSize: int, widths: seq<int>, outputSize: int, dropout: real, l: Layer)
    ensures l in Layers(inputSize, widths, outputSize, dropout) && l.Dropout? <==>
      widths != [] && dropout > 0.0 && l == Dropout(dropout)
  {
    HiddenDropouts(inputSize, widths, dropout, l);
  }
}
