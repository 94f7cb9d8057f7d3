/** The alignment bookkeeping of `SeqGen.forward` and the block slicing of
    `EmbeddingPredictor.forward`. A batch is a sequence of per-sequence
    tensors; the learned layers (`processor`, encoder, norms, dropout,
    `out_proj`, the classification heads) are uninterpreted functions. */
module Forward {
  import opened Base
  import Layout
  import Decoder

  /** `time_steps.diff(1)` followed by a trailing 0: the delta channel. */
  function DeltaChannel(ts: seq<real>): (c: seq<real>)
    requires |ts| >= 1
    ensures |c| == |ts| && c[|ts| - 1] == 0.0
    ensures forall t :: 0 <= t < |ts| - 1 ==> c[t] == ts[t + 1] - ts[t]
  {
    seq(|ts| - 1, t requires 0 <= t < |ts| - 1 => ts[t + 1] - ts[t]) + [0.0]
  }

  /** One sequence's rows with the delta channel appended as a last column. */
  function AppendDelta(x: seq<Vec>, ts: seq<real>): (y: seq<Vec>)
    requires |x| == |ts| >= 1
    ensures |y| == |x|
    ensures forall t :: 0 <= t < |x| ==> |y[t]| == |x[t]| + 1 && y[t][..|x[t]|] == x[t]
    ensures forall t :: 0 <= t < |x| - 1 ==> y[t][|x[t]|] == ts[t + 1] - ts[t]
    ensures y[|x| - 1][|x[|x| - 1]|] == 0.0
  {
    var c := DeltaChannel(ts);
    var y := seq(|x|, t requires 0 <= t < |x| => x[t] + [c[t]]);
    assert forall t :: 0 <= t < |x| ==> y[t][..|x[t]|] == x[t];
    y
  }

  /** Every sequence of the batch has at least one timestep and as many
      time steps as feature rows. */
  predicate Aligned(x: seq<seq<Vec>>, ts: seq<seq<real>>)
  {
    |x| == |ts| && forall b :: 0 <= b < |x| ==> |x[b]| == |ts[b]| >= 1
  }

  function WithDeltas(useDeltas: bool, x: seq<seq<Vec>>, ts: seq<seq<real>>): (y: seq<seq<Vec>>)
    requires Aligned(x, ts)
    ensures |y| == |x| && forall b :: 0 <= b < |x| ==> |y[b]| == |x[b]|
  {
    if useDeltas then seq(|x|, b requires 0 <= b < |x| => AppendDelta(x[b], ts[b])) else x
  }

  /** The decoder's input row t carries `ts[t+1] - ts[t]` in its last column:
      the same quantity the loss uses as the delta target of prediction row t. */
  lemma DeltaInputIsNextGap(x: seq<seq<Vec>>, ts: seq<seq<real>>, b: nat, t: nat)
    requires Aligned(x, ts) && b < |x| && t + 1 < |x[b]|
    ensures var row := WithDeltas(true, x, ts)[b][t];
      |row| >= 1 && row[|row| - 1] == ts[b][t + 1] - ts[b][t]
  {
  }

  /** `all_hid[:, seq_lens - 1, :].diagonal().T`: for each sequence b the
      encoder row at index `seq_lens[b] - 1`, read with Python's negative
      indexing; None for the IndexError of an index outside [-T, T). */
  function GatherLast(allHid: seq<seq<Vec>>, seqLens: seq<int>): (r: Option<seq<Vec>>)
    requires |allHid| == |seqLens|
    ensures r.Some? <==> forall b :: 0 <= b < |seqLens| ==> PyIndex(|allHid[b]|, seqLens[b] - 1).Some?
    ensures r.Some? ==> |r.value| == |seqLens|
  {
    if forall b :: 0 <= b < |seqLens| ==> PyIndex(|allHid[b]|, seqLens[b] - 1).Some? then
      Some(seq(|seqLens|, b requires 0 <= b < |seqLens| => allHid[b][PyIndex(|allHid[b]|, seqLens[b] - 1).value]))
    else None
  }

  /** With every length in [1, T] the gather succeeds and takes the row of
      the last real timestep of each sequence; a length of 0 wraps around to
      the last (padded) row. */
  lemma GatherLastRow(allHid: seq<seq<Vec>>, seqLens: seq<int>)
    requires |allHid| == |seqLens|
    requires forall b :: 0 <= b < |seqLens| ==> 0 <= seqLens[b] <= |allHid[b]| && |allHid[b]| >= 1
    ensures var r := GatherLast(allHid, seqLens);
      && r.Some?
      && (forall b :: 0 <= b < |seqLens| && seqLens[b] >= 1 ==> r.value[b] == allHid[b][seqLens[b] - 1])
      && (forall b :: 0 <= b < |seqLens| && seqLens[b] == 0 ==> r.value[b] == allHid[b][|allHid[b]| - 1])
  {
  }

  /** The uninterpreted parts of the GRU-encoder, GRU-decoder model. */
  datatype Parts = Parts(
    useDeltas: bool,
    encoder: seq<seq<Vec>> -> seq<seq<Vec>>,   // `pre_encoder_norm` then the encoder's per-step states
    latentHead: seq<Vec> -> seq<Vec>,         // `post_encoder_norm` then `global_hid_dropout`
    cell: Decoder.CellFn, numLayers: nat, decoderHidden: nat,
    outProj: Vec -> Vec)

  datatype Output = Output(x: seq<seq<Vec>>, pred: seq<seq<Vec>>, latent: seq<Vec>)

  function MapRows(f: Vec -> Vec, rows: seq<Vec>): (r: seq<Vec>)
    ensures |r| == |rows| && forall t :: 0 <= t < |rows| ==> r[t] == f(rows[t])
  {
    seq(|rows|, t requires 0 <= t < |rows| => f(rows[t]))
  }

  /** `SeqGen.forward` for a recurrent encoder and the GRU decoder, as far as
      its shapes go; None where the source raises. */
  function ForwardSpec(m: Parts, x: seq<seq<Vec>>, ts: seq<seq<real>>, seqLens: seq<int>): (r: Option<Output>)
    requires Aligned(x, ts) && |seqLens| == |x|
    ensures r.Some? ==> |r.value.pred| == |x| && |r.value.latent| == |x|
    ensures r.Some? ==> forall b :: 0 <= b < |x| ==> |r.value.pred[b]| == |x[b]| - 1
  {
    var xd := WithDeltas(m.useDeltas, x, ts);
    var allHid := m.encoder(xd);
    if |allHid| != |x| then None
    else
      var last := GatherLast(allHid, seqLens);
      if last.None? then None
      else
        var latent := m.latentHead(last.value);
        if |latent| != |x| || m.numLayers == 0 then None
        else
          var pred := seq(|x|, b requires 0 <= b < |x| =>
            DropLast(MapRows(m.outProj, Decoder.DecodeSpec(m.cell, m.numLayers, m.decoderHidden, xd[b], latent[b], None).value)));
          Some(Output(xd, pred, latent))
  }

  /** Prediction row t of sequence b is `out_proj` of the decoder's top state
      after input rows 0..t only, so it faces the target at timestep t + 1;
      the last decoder row is dropped and the latent is the gathered row. */
  lemma PredictionAlignment(m: Parts, x: seq<seq<Vec>>, ts: seq<seq<real>>, seqLens: seq<int>, b: nat, t: nat)
    requires Aligned(x, ts) && |seqLens| == |x|
    requires ForwardSpec(m, x, ts, seqLens).Some?
    requires b < |x| && t + 1 < |x[b]|
    ensures var out := ForwardSpec(m, x, ts, seqLens).value;
      var h0 := seq(m.numLayers, _ => Zeros(m.decoderHidden));
      && m.numLayers >= 1
      && out.pred[b][t] == m.outProj(Decoder.Unroll(m.cell, out.x[b][..t + 1], out.latent[b], h0)[t])
      && out.latent == m.latentHead(GatherLast(m.encoder(out.x), seqLens).value)
  {
    var out := ForwardSpec(m, x, ts, seqLens).value;
    var h0 := seq(m.numLayers, _ => Zeros(m.decoderHidden));
    var xs := out.x[b];
    assert Decoder.InitialHidden(m.numLayers, m.decoderHidden, None) == Some(h0);
    Decoder.HiddenPrefix(m.cell, xs, out.latent[b], h0, t + 1, t + 1);
  }

  /** Categorical block `i` of a prediction row: columns [i*d, (i+1)*d). */
  function Block(row: Vec, i: nat, d: nat): (v: Vec)
    requires (i + 1) * d <= |row|
    ensures |v| == d && forall j :: 0 <= j < d ==> v[j] == row[i * d + j]
  {
    row[i * d..(i + 1) * d]
  }

  predicate RowsWider(xr: seq<seq<Vec>>, w: nat)
  {
    forall b, t :: 0 <= b < |xr| && 0 <= t < |xr[b]| ==> |xr[b][t]| >= w
  }

  /** One head's logits over the whole batch. */
  function HeadLogits(head: Vec -> Vec, xr: seq<seq<Vec>>, i: nat, d: nat): (r: seq<seq<Vec>>)
    requires RowsWider(xr, (i + 1) * d)
    ensures |r| == |xr| && forall b :: 0 <= b < |xr| ==> |r[b]| == |xr[b]|
  {
    seq(|xr|, b requires 0 <= b < |xr| =>
      seq(|xr[b]|, t requires 0 <= t < |xr[b]| => head(Block(xr[b][t], i, d))))
  }

  lemma BlockFits(n: nat, d: nat, i: nat)
    requires i < n
    ensures (i + 1) * d <= n * d
  {
    Layout.BlockRange(Layout.Config(d, n, 0, false), i);
  }

  /** The dictionary `EmbeddingPredictor.forward` returns: for each
      categorical name in order, its head applied to its block. */
  function EmbedSpec(names: seq<string>, heads: string -> (Vec -> Vec), d: nat, xr: seq<seq<Vec>>)
    : (dist: Dict<seq<seq<Vec>>>)
    requires RowsWider(xr, |names| * d)
    ensures |dist| == |names| && Keys(dist) == names
  {
    seq(|names|, i requires 0 <= i < |names| =>
      BlockFits(|names|, d, i);
      (names[i], HeadLogits(heads(names[i]), xr, i, d)))
  }

  /** Looking a categorical name up in the forward dictionary gives its own
      head's logits on its own block, at every sequence and timestep. */
  lemma EmbedLookup(names: seq<string>, heads: string -> (Vec -> Vec), d: nat, xr: seq<seq<Vec>>, i: nat)
    requires Distinct(names) && RowsWider(xr, |names| * d) && i < |names|
    ensures (i + 1) * d <= |names| * d
    ensures var r := Get(EmbedSpec(names, heads, d, xr), names[i]);
      && r.Some? && |r.value| == |xr|
      && forall b, t :: 0 <= b < |xr| && 0 <= t < |xr[b]| ==>
           t < |r.value[b]| && r.value[b][t] == heads(names[i])(xr[b][t][i * d..(i + 1) * d])
  {
    BlockFits(|names|, d, i);
    var spec := EmbedSpec(names, heads, d, xr);
    var logits := HeadLogits(heads(names[i]), xr, i, d);
    assert spec[i] == (names[i], logits);
    GetFound(spec, i);
    forall b, t | 0 <= b < |xr| && 0 <= t < |xr[b]|
      ensures logits[b][t] == heads(names[i])(xr[b][t][i * d..(i + 1) * d])
    {
      assert logits[b][t] == heads(names[i])(Block(xr[b][t], i, d));
    }
  }

  /** `EmbeddingPredictor.forward`: the dictionary filled name by name. */
  method EmbeddingForward(names: seq<string>, heads: string -> (Vec -> Vec), d: nat, xr: seq<seq<Vec>>)
    returns (dist: Dict<seq<seq<Vec>>>)
    requires Distinct(names) && RowsWider(xr, |names| * d)
    ensures dist == EmbedSpec(names, heads, d, xr)
  {
    ghost var spec := EmbedSpec(names, heads, d, xr);
    dist := [];
    for i := 0 to |names|
      invariant dist == spec[..i]
    {
      BlockFits(|names|, d, i);
      assert names[i] !in Keys(dist);
      PutNew(dist, names[i], HeadLogits(heads(names[i]), xr, i, d));
      dist := Put(dist, names[i], HeadLogits(heads(names[i]), xr, i, d));
    }
    assert spec[..|names|] == spec;
  }
}
