/** The multi-layer decoder (`DecoderGRU.forward`): at every timestep the
    layers are updated bottom-up, layer 0 reading the input row and layer l
    reading layer l-1's state just computed, each layer carrying its own state
    from the previous timestep; the top layer's new state is the output row. */
module Decoder {
  import opened Base
  import Cell

  /** A stack of cells: `cell(l, input, global, hidden)` is layer l's update. */
  type CellFn = (nat, Vec, Vec, Vec) -> Vec

  /** Reference definition of one timestep, written as the feed between
      layers: the new states of layers l.. when `inp` is layer l's input. */
  function StackFrom(cell: CellFn, inp: Vec, g: Vec, hs: seq<Vec>, l: nat): (r: seq<Vec>)
    requires l <= |hs|
    ensures |r| == |hs| - l
    decreases |hs| - l
  {
    if l == |hs| then []
    else
      var h := cell(l, inp, g, hs[l]);
      [h] + StackFrom(cell, h, g, hs, l + 1)
  }

  /** The layer states after one timestep on input row `x`. */
  function Step(cell: CellFn, x: Vec, g: Vec, hs: seq<Vec>): (r: seq<Vec>)
    ensures |r| == |hs|
  {
    StackFrom(cell, x, g, hs, 0)
  }

  lemma {:induction false} StackFromAt(cell: CellFn, inp: Vec, g: Vec, hs: seq<Vec>, l: nat, k: nat)
    requires l <= k < |hs|
    ensures StackFrom(cell, inp, g, hs, l)[k - l]
      == cell(k, if k == l then inp else StackFrom(cell, inp, g, hs, l)[k - l - 1], g, hs[k])
    decreases k - l
  {
    if k > l {
      var h := cell(l, inp, g, hs[l]);
      assert StackFrom(cell, inp, g, hs, l) == [h] + StackFrom(cell, h, g, hs, l + 1);
      StackFromAt(cell, h, g, hs, l + 1, k);
    }
  }

  /** Within a timestep, layer 0 consumes the input row and layer k > 0
      consumes layer k-1's state just updated; every layer starts from its own
      previous state. */
  lemma LayerFeed(cell: CellFn, x: Vec, g: Vec, hs: seq<Vec>, k: nat)
    requires k < |hs|
    ensures Step(cell, x, g, hs)[k] == cell(k, if k == 0 then x else Step(cell, x, g, hs)[k - 1], g, hs[k])
  {
    StackFromAt(cell, x, g, hs, 0, k);
  }

  /** The layer states after the first `t` input rows. */
  function HiddenAt(cell: CellFn, xs: seq<Vec>, g: Vec, hs: seq<Vec>, t: nat): (r: seq<Vec>)
    requires t <= |xs|
    ensures |r| == |hs|
  {
    if t == 0 then hs else Step(cell, xs[t - 1], g, HiddenAt(cell, xs, g, hs, t - 1))
  }

  function Top(hs: seq<Vec>): Vec
    requires |hs| >= 1
  {
    hs[|hs| - 1]
  }

  /** One output row per input row: the top layer's state after that row. */
  function Unroll(cell: CellFn, xs: seq<Vec>, g: Vec, hs: seq<Vec>): (outs: seq<Vec>)
    requires |hs| >= 1
    ensures |outs| == |xs|
    ensures forall t :: 0 <= t < |xs| ==> outs[t] == Top(HiddenAt(cell, xs, g, hs, t + 1))
  {
    seq(|xs|, t requires 0 <= t < |xs| => Top(HiddenAt(cell, xs, g, hs, t + 1)))
  }

  /** `h0`: zeros per layer when `hx` is None, else the first `numLayers`
      layers of `hx`; None for the IndexError of a too-short `hx`. */
  function InitialHidden(numLayers: nat, hiddenSize: nat, hx: Option<seq<Vec>>): (r: Option<seq<Vec>>)
    ensures r.Some? <==> hx.None? || |hx.value| >= numLayers
    ensures r.Some? ==> |r.value| == numLayers
    ensures hx.None? ==> forall l :: 0 <= l < numLayers ==> r.value[l] == Zeros(hiddenSize)
    ensures hx.Some? && r.Some? ==> forall l :: 0 <= l < numLayers ==> r.value[l] == hx.value[l]
  {
    if hx.None? then Some(seq(numLayers, _ => Zeros(hiddenSize)))
    else if |hx.value| >= numLayers then Some(hx.value[..numLayers])
    else None
  }

  /** What `DecoderGRU.forward` returns, None where it raises: with no
      layers `hidden_l` is never bound, and with no timesteps `torch.cat`
      receives an empty list. */
  function DecodeSpec(cell: CellFn, numLayers: nat, hiddenSize: nat, xs: seq<Vec>, g: Vec, hx: Option<seq<Vec>>)
    : (r: Option<seq<Vec>>)
    ensures r.Some? <==> InitialHidden(numLayers, hiddenSize, hx).Some? && numLayers >= 1 && |xs| >= 1
    ensures r.Some? ==> |r.value| == |xs|
  {
    var h0 := InitialHidden(numLayers, hiddenSize, hx);
    if h0.None? || numLayers == 0 || |xs| == 0 then None
    else Some(Unroll(cell, xs, g, h0.value))
  }

  /** The inner loop's state after updating layers 0..k-1 at one timestep. */
  lemma StepPrefix(cell: CellFn, x: Vec, g: Vec, hs: seq<Vec>, cur: seq<Vec>, k: nat)
    requires k < |hs| && |cur| == |hs|
    requires cur == Step(cell, x, g, hs)[..k] + hs[k..]
    ensures cur[k := cell(k, if k == 0 then x else cur[k - 1], g, cur[k])]
      == Step(cell, x, g, hs)[..k + 1] + hs[k + 1..]
  {
    LayerFeed(cell, x, g, hs, k);
    assert cur[k] == hs[k];
    var lhs := cur[k := cell(k, if k == 0 then x else cur[k - 1], g, cur[k])];
    var rhs := Step(cell, x, g, hs)[..k + 1] + hs[k + 1..];
    assert forall j :: 0 <= j < |hs| ==> lhs[j] == rhs[j];
  }

  /** The inner loop of `DecoderGRU.forward`: layers 0.. updated in place at
      one timestep; returns the last state written (`hidden_l`), None when
      there are no layers. */
  method StepLayers(cell: CellFn, hidden: array<Vec>, x: Vec, g: Vec) returns (last: Option<Vec>)
    modifies hidden
    ensures hidden[..] == Step(cell, x, g, old(hidden[..]))
    ensures last == if hidden.Length == 0 then None else Some(hidden[hidden.Length - 1])
  {
    ghost var before := hidden[..];
    last := None;
    for layer := 0 to hidden.Length
      invariant hidden[..] == Step(cell, x, g, before)[..layer] + before[layer..]
      invariant last == if layer == 0 then None else Some(hidden[layer - 1])
    {
      StepPrefix(cell, x, g, before, hidden[..], layer);
      var inp := if layer == 0 then x else hidden[layer - 1];
      var h := cell(layer, inp, g, hidden[layer]);
      hidden[layer] := h;
      last := Some(h);
    }
    assert Step(cell, x, g, before)[..hidden.Length] + before[hidden.Length..] == Step(cell, x, g, before);
  }

  /** `DecoderGRU.forward`: the per-layer states live in an array updated in
      place, layer by layer within each timestep; the outputs are appended. */
  method Decode(cell: CellFn, numLayers: nat, hiddenSize: nat, xs: seq<Vec>, g: Vec, hx: Option<seq<Vec>>)
    returns (r: Option<seq<Vec>>)
    ensures r == DecodeSpec(cell, numLayers, hiddenSize, xs, g, hx)
  {
    if hx.Some? && |hx.value| < numLayers {
      return None;
    }
    var hidden := new Vec[numLayers];
    for layer := 0 to numLayers
      invariant forall j :: 0 <= j < layer ==> hidden[j] == (if hx.None? then Zeros(hiddenSize) else hx.value[j])
    {
      hidden[layer] := if hx.None? then Zeros(hiddenSize) else hx.value[layer];
    }
    ghost var h0 := hidden[..];
    if hx.None? {
      assert h0 == seq(numLayers, _ => Zeros(hiddenSize));
    } else {
      assert h0 == hx.value[..numLayers];
    }
    var outs: seq<Vec> := [];
    var top: Option<Vec> := None;
    for t := 0 to |xs|
      invariant t > 0 ==> numLayers >= 1
      invariant numLayers == 0 ==> top.None?
      invariant |outs| == t
      invariant numLayers >= 1 ==> hidden[..] == HiddenAt(cell, xs, g, h0, t)
      invariant numLayers >= 1 ==> outs == Unroll(cell, xs[..t], g, h0)
    {
      ghost var before := hidden[..];
      var last := StepLayers(cell, hidden, xs[t], g);
      if last.Some? {
        top := last;
      }
      if top.None? {
        return None;
      }
      TimestepDone(cell, xs, g, h0, t, before, hidden[..], outs);
      outs := outs + [top.value];
    }
    if |outs| == 0 {
      return None;
    }
    assert xs[..|xs|] == xs;
    r := Some(outs);
  }

  /** After the inner loop: the array holds the states after row t, and the
      output list grows by the top layer's state. */
  lemma TimestepDone(cell: CellFn, xs: seq<Vec>, g: Vec, h0: seq<Vec>, t: nat,
                     before: seq<Vec>, after: seq<Vec>, outs: seq<Vec>)
    requires |h0| >= 1 && t < |xs|
    requires before == HiddenAt(cell, xs, g, h0, t) && outs == Unroll(cell, xs[..t], g, h0)
    requires after == Step(cell, xs[t], g, before)
    ensures after == HiddenAt(cell, xs, g, h0, t + 1)
    ensures outs + [after[|h0| - 1]] == Unroll(cell, xs[..t + 1], g, h0)
  {
    UnrollExtend(cell, xs, g, h0, t);
  }

  lemma UnrollExtend(cell: CellFn, xs: seq<Vec>, g: Vec, hs: seq<Vec>, t: nat)
    requires |hs| >= 1 && t < |xs|
    ensures Unroll(cell, xs[..t + 1], g, hs) == Unroll(cell, xs[..t], g, hs) + [Top(HiddenAt(cell, xs, g, hs, t + 1))]
  {
    forall u | 0 <= u <= t + 1
      ensures HiddenAt(cell, xs[..t + 1], g, hs, u) == HiddenAt(cell, xs, g, hs, u)
      && (u <= t ==> HiddenAt(cell, xs[..t], g, hs, u) == HiddenAt(cell, xs, g, hs, u))
    {
      HiddenPrefix(cell, xs, g, hs, t + 1, u);
      HiddenPrefix(cell, xs, g, hs, t, u);
    }
  }

  /** The states after `u` rows depend only on those rows. */
  lemma {:induction false} HiddenPrefix(cell: CellFn, xs: seq<Vec>, g: Vec, hs: seq<Vec>, n: nat, u: nat)
    requires n <= |xs|
    ensures u <= n ==> HiddenAt(cell, xs[..n], g, hs, u) == HiddenAt(cell, xs, g, hs, u)
  {
    if 0 < u <= n {
      HiddenPrefix(cell, xs, g, hs, n, u - 1);
    }
  }

  /** The states after `t + 1` rows of `xs` are those after `t` rows of
      `xs[1..]`, started from the states after `xs[0]`. */
  lemma {:induction false} HiddenShift(cell: CellFn, xs: seq<Vec>, g: Vec, hs: seq<Vec>, t: nat)
    requires t < |xs|
    ensures HiddenAt(cell, xs, g, hs, t + 1) == HiddenAt(cell, xs[1..], g, Step(cell, xs[0], g, hs), t)
  {
    if t > 0 {
      HiddenShift(cell, xs, g, hs, t - 1);
    }
  }

  /** A left scan of a one-layer cell over the input rows. */
  function Scan(cell: CellFn, xs: seq<Vec>, g: Vec, h: Vec): seq<Vec>
  {
    if xs == [] then []
    else
      var h' := cell(0, xs[0], g, h);
      [h'] + Scan(cell, xs[1..], g, h')
  }

  /** With one layer the decoder is the left scan of layer 0's cell. */
  lemma {:induction false} SingleLayerIsScan(cell: CellFn, xs: seq<Vec>, g: Vec, h: Vec)
    ensures Unroll(cell, xs, g, [h]) == Scan(cell, xs, g, h)
  {
    if xs != [] {
      var h' := cell(0, xs[0], g, h);
      assert Step(cell, xs[0], g, [h]) == [h'];
      SingleLayerIsScan(cell, xs[1..], g, h');
      var lhs := Unroll(cell, xs, g, [h]);
      var rhs := [h'] + Unroll(cell, xs[1..], g, [h']);
      forall t | 0 <= t < |xs|
        ensures lhs[t] == rhs[t]
      {
        HiddenShift(cell, xs, g, [h], t);
        if t > 0 {
          HiddenShift(cell, xs, g, [h], t - 1);
        }
      }
      assert lhs == rhs;
    }
  }

  /** `rnn_cell_list` as a `CellFn`: layer l runs cell l with its previous
      state; a layer index or width the stack was not built for leaves the
      state as it is (that case never arises in a well-shaped stack). */
  ghost function StackedCells(ps: seq<Cell.CellParams>, act: Cell.Activations): CellFn
  {
    (l: nat, x: Vec, g: Vec, h: Vec) =>
      if l < |ps| && Cell.Shaped(ps[l]) && |x| == ps[l].inputSize && |g| == ps[l].globalSize
         && |h| == ps[l].hiddenSize
      then Cell.Forward(ps[l], act, x, g, Some(h))
      else h
  }

  /** The stack `DecoderGRU.__init__` builds: layer 0 reads `input_size`,
      the others `hidden_size`, all share `hidden_size` and the global size. */
  ghost predicate WellShaped(ps: seq<Cell.CellParams>, inputSize: nat, hiddenSize: nat, globalSize: nat)
  {
    && |ps| >= 1
    && ps[0].inputSize == inputSize
    && (forall l :: 1 <= l < |ps| ==> ps[l].inputSize == hiddenSize)
    && (forall l :: 0 <= l < |ps| ==> ps[l].hiddenSize == hiddenSize && ps[l].globalSize == globalSize && Cell.Shaped(ps[l]))
  }

  predicate AllWidth(hs: seq<Vec>, w: nat)
  {
    forall j :: 0 <= j < |hs| ==> |hs[j]| == w
  }

  lemma StackedCellWidth(ps: seq<Cell.CellParams>, act: Cell.Activations, inputSize: nat, hiddenSize: nat,
                         l: nat, x: Vec, g: Vec, h: Vec)
    requires WellShaped(ps, inputSize, hiddenSize, |g|)
    requires l < |ps| && |x| == (if l == 0 then inputSize else hiddenSize) && |h| == hiddenSize
    ensures StackedCells(ps, act)(l, x, g, h) == Cell.Forward(ps[l], act, x, g, Some(h))
    ensures |StackedCells(ps, act)(l, x, g, h)| == hiddenSize
  {
  }

  lemma {:induction false} StackWidths(ps: seq<Cell.CellParams>, act: Cell.Activations, inputSize: nat,
                                       hiddenSize: nat, inp: Vec, g: Vec, hs: seq<Vec>, l: nat)
    requires WellShaped(ps, inputSize, hiddenSize, |g|) && |hs| == |ps| && AllWidth(hs, hiddenSize)
    requires l < |hs| && |inp| == (if l == 0 then inputSize else hiddenSize)
    ensures AllWidth(StackFrom(StackedCells(ps, act), inp, g, hs, l), hiddenSize)
    decreases |hs| - l
  {
    var cell := StackedCells(ps, act);
    var h := cell(l, inp, g, hs[l]);
    StackedCellWidth(ps, act, inputSize, hiddenSize, l, inp, g, hs[l]);
    var rest := StackFrom(cell, h, g, hs, l + 1);
    assert StackFrom(cell, inp, g, hs, l) == [h] + rest;
    if l + 1 < |hs| {
      StackWidths(ps, act, inputSize, hiddenSize, h, g, hs, l + 1);
    }
    assert AllWidth([h] + rest, hiddenSize) by {
      forall j | 0 <= j < |rest| + 1
        ensures |([h] + rest)[j]| == hiddenSize
      {
        if j > 0 {
          assert ([h] + rest)[j] == rest[j - 1];
        }
      }
    }
  }

  /** In a well-shaped stack started from zeros every layer state keeps the
      hidden width. */
  lemma {:induction false} StackedStates(ps: seq<Cell.CellParams>, act: Cell.Activations, inputSize: nat,
                                         hiddenSize: nat, xs: seq<Vec>, g: Vec, t: nat)
    requires WellShaped(ps, inputSize, hiddenSize, |g|)
    requires forall u :: 0 <= u < |xs| ==> |xs[u]| == inputSize
    requires t <= |xs|
    ensures AllWidth(HiddenAt(StackedCells(ps, act), xs, g, seq(|ps|, _ => Zeros(hiddenSize)), t), hiddenSize)
  {
    if t > 0 {
      StackedStates(ps, act, inputSize, hiddenSize, xs, g, t - 1);
      var hs0 := seq(|ps|, _ => Zeros(hiddenSize));
      StackWidths(ps, act, inputSize, hiddenSize, xs[t - 1], g, HiddenAt(StackedCells(ps, act), xs, g, hs0, t - 1), 0);
    }
  }

  /** A well-shaped GRU stack started from zeros (`hx` None) decodes a
      non-empty input into one row of the hidden width per input row. */
  lemma StackedDecode(ps: seq<Cell.CellParams>, act: Cell.Activations, inputSize: nat, hiddenSize: nat,
                      xs: seq<Vec>, g: Vec)
    requires WellShaped(ps, inputSize, hiddenSize, |g|)
    requires |xs| >= 1 && forall u :: 0 <= u < |xs| ==> |xs[u]| == inputSize
    ensures var r := DecodeSpec(StackedCells(ps, act), |ps|, hiddenSize, xs, g, None);
      r.Some? && |r.value| == |xs| && AllWidth(r.value, hiddenSize)
  {
    var r := DecodeSpec(StackedCells(ps, act), |ps|, hiddenSize, xs, g, None);
    var hs0 := seq(|ps|, _ => Zeros(hiddenSize));
    assert InitialHidden(|ps|, hiddenSize, None) == Some(hs0);
    forall t | 0 <= t < |xs|
      ensures |r.value[t]| == hiddenSize
    {
      StackedStates(ps, act, inputSize, hiddenSize, xs, g, t + 1);
    }
  }
}
