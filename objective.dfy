/** The training objective: `BaseMixin.loss` walks the payload once, adding
    one numeric loss per numeric key read from a countdown-chosen column,
    computes the delta loss, asks `EmbeddingPredictor.loss` for one
    cross-entropy per categorical feature, and returns an insertion-ordered
    dictionary of the parts and their weighted total. */
module Objective {
  import opened Base
  import opened Scalar
  import opened Layout
  import opened Loss

  /** The exceptions the loss can raise. */
  datatype LossError =
    | ColumnOutOfRange(key: string)  // `pred[:, :, -num_val_feature]` outside the row
    | MissingFeature(name: string)   // `padded_batch.payload[name]` has no such key
    | NoCategoricalLosses            // `torch.cat` of an empty list

  datatype Result<T> = Ok(value: T) | Err(error: LossError)

  /** The configuration the loss reads: the layout, the categorical feature
      names (`processor.emb_names`) and the three weights. */
  datatype LossConfig = LossConfig(layout: Config, embNames: seq<string>, mseWeight: real, ceWeight: real, deltaWeight: real)

  /** One feature of the padded batch: (B, T) values. */
  type Batch = seq<seq<real>>

  /** A (B, T - 1, width) prediction. */
  type Rows = seq<seq<Vec>>

  // ----- EmbeddingPredictor.loss -----

  /** The logits of every categorical feature found in the payload are one
      timestep shorter than its ids. */
  predicate LabelsFit(dist: Dict<Rows>, payload: Dict<Batch>)
  {
    forall i :: 0 <= i < |dist| && Get(payload, dist[i].0).Some? ==> Shifted(Get(payload, dist[i].0).value, dist[i].1)
  }

  /** The loss dictionary after the first `n` entries of `dist`. */
  function CeLossesUpTo(dist: Dict<Rows>, payload: Dict<Batch>, nll: (Vec, int) -> real, n: nat): Result<Dict<Num>>
    requires n <= |dist| && LabelsFit(dist, payload)
  {
    if n == 0 then Ok([])
    else match CeLossesUpTo(dist, payload, nll, n - 1)
      case Err(e) => Err(e)
      case Ok(acc) =>
        var name := dist[n - 1].0;
        match Get(payload, name)
        case None => Err(MissingFeature(name))
        case Some(values) => Ok(Put(acc, name, CategoricalLoss(dist[n - 1].1, values, nll)))
  }

  lemma {:induction false} CeErrorSticks(dist: Dict<Rows>, payload: Dict<Batch>, nll: (Vec, int) -> real, n: nat, m: nat)
    requires n <= m <= |dist| && LabelsFit(dist, payload)
    requires CeLossesUpTo(dist, payload, nll, n).Err?
    ensures CeLossesUpTo(dist, payload, nll, m) == CeLossesUpTo(dist, payload, nll, n)
    decreases m - n
  {
    if m > n {
      CeErrorSticks(dist, payload, nll, n, m - 1);
    }
  }

  /** The losses succeed exactly when every feature of `dist` is in the
      payload, and then hold one entry per feature, in order, each the
      cross-entropy of that feature's logits against its own ids. */
  lemma {:induction false} CeLossesPerFeature(dist: Dict<Rows>, payload: Dict<Batch>, nll: (Vec, int) -> real, n: nat)
    requires n <= |dist| && LabelsFit(dist, payload) && DistinctKeys(dist)
    ensures CeLossesUpTo(dist, payload, nll, n).Ok? <==> forall i :: 0 <= i < n ==> Get(payload, dist[i].0).Some?
    ensures CeLossesUpTo(dist, payload, nll, n).Ok? ==>
      var ce := CeLossesUpTo(dist, payload, nll, n).value;
      && |ce| == n
      && forall i :: 0 <= i < n ==> ce[i] == (dist[i].0, CategoricalLoss(dist[i].1, Get(payload, dist[i].0).value, nll))
  {
    if n > 0 {
      CeLossesPerFeature(dist, payload, nll, n - 1);
      var prev := CeLossesUpTo(dist, payload, nll, n - 1);
      var name := dist[n - 1].0;
      if prev.Ok? && Get(payload, name).Some? {
        CeStep(dist, payload, nll, n);
      }
    }
  }

  lemma CeStep(dist: Dict<Rows>, payload: Dict<Batch>, nll: (Vec, int) -> real, n: nat)
    requires 0 < n <= |dist| && LabelsFit(dist, payload) && DistinctKeys(dist)
    requires CeLossesUpTo(dist, payload, nll, n - 1).Ok? && Get(payload, dist[n - 1].0).Some?
    requires var acc := CeLossesUpTo(dist, payload, nll, n - 1).value;
      |acc| == n - 1 && forall i :: 0 <= i < n - 1 ==> acc[i].0 == dist[i].0
    ensures var acc := CeLossesUpTo(dist, payload, nll, n - 1).value;
      CeLossesUpTo(dist, payload, nll, n) ==
        Ok(acc + [(dist[n - 1].0, CategoricalLoss(dist[n - 1].1, Get(payload, dist[n - 1].0).value, nll))])
  {
    var acc, name := CeLossesUpTo(dist, payload, nll, n - 1).value, dist[n - 1].0;
    assert name !in Keys(acc) by {
      forall i | 0 <= i < |acc|
        ensures Keys(acc)[i] != name
      {
        assert acc[i].0 == dist[i].0;
      }
    }
    PutNew(acc, name, CategoricalLoss(dist[n - 1].1, Get(payload, name).value, nll));
  }

  /** `EmbeddingPredictor.loss`: one cross-entropy per entry of `dist`,
      looked up by name in the payload. */
  method EmbeddingLoss(dist: Dict<Rows>, payload: Dict<Batch>, nll: (Vec, int) -> real) returns (r: Result<Dict<Num>>)
    requires LabelsFit(dist, payload)
    ensures r == CeLossesUpTo(dist, payload, nll, |dist|)
  {
    var losses: Dict<Num> := [];
    for i := 0 to |dist|
      invariant CeLossesUpTo(dist, payload, nll, i) == Ok(losses)
    {
      var name := dist[i].0;
      var values := Get(payload, name);
      if values.None? {
        CeErrorSticks(dist, payload, nll, i + 1, |dist|);
        return Err(MissingFeature(name));
      }
      losses := Put(losses, name, CategoricalLoss(dist[i].1, values.value, nll));
    }
    return Ok(losses);
  }

  // ----- the numeric loop of BaseMixin.loss -----

  /** The loss of one numeric feature as a function of its values and the
      column it reads: `NumericLoss` against the numeric prediction, for
      the shapes the loss is called with. */
  type FeatureLoss = (Batch, nat) -> Num

  function ColumnLoss(numeric: Rows, w: nat): (f: FeatureLoss)
    ensures forall values: Batch, col: nat :: Shifted(values, numeric) && RowsOfWidth(numeric, w) && col < w ==>
      f(values, col) == NumericLoss(values, numeric, col)
  {
    (values: Batch, col: nat) =>
      if Shifted(values, numeric) && RowsOfWidth(numeric, w) && col < w then NumericLoss(values, numeric, col) else NaN
  }

  /** `(total_mse_loss, num_val_feature)` after the first `n` payload
      entries; every key that is not a categorical name counts as numeric. */
  function MseUpTo(conf: LossConfig, payload: Dict<Batch>, loss: FeatureLoss, n: nat): Result<(Num, int)>
    requires n <= |payload|
  {
    if n == 0 then Ok((Fin(0.0), conf.layout.numNumeric as int))
    else match MseUpTo(conf, payload, loss, n - 1)
      case Err(e) => Err(e)
      case Ok((total, countdown)) =>
        var key := payload[n - 1].0;
        if key in conf.embNames then Ok((total, countdown))
        else match NumericColumn(StrippedWidth(conf.layout), countdown)
          case None => Err(ColumnOutOfRange(key))
          case Some(col) => Ok((Add(total, loss(payload[n - 1].1, col)), countdown - 1))
  }

  lemma {:induction false} MseErrorSticks(conf: LossConfig, payload: Dict<Batch>, loss: FeatureLoss, n: nat, m: nat)
    requires n <= m <= |payload|
    requires MseUpTo(conf, payload, loss, n).Err?
    ensures MseUpTo(conf, payload, loss, m) == MseUpTo(conf, payload, loss, n)
    decreases m - n
  {
    if m > n {
      MseErrorSticks(conf, payload, loss, n, m - 1);
    }
  }

  /** The positions, in payload order, of the keys among the first `n`
      that the loss treats as numeric. */
  function NumericKeys(names: seq<string>, payload: Dict<Batch>, n: nat): (ix: seq<nat>)
    requires n <= |payload|
    ensures forall j :: 0 <= j < |ix| ==> ix[j] < n && payload[ix[j]].0 !in names
  {
    if n == 0 then [] else NumericKeys(names, payload, n - 1) + (if payload[n - 1].0 in names then [] else [n - 1])
  }

  /** The numeric keys are listed in payload order, each once. */
  lemma {:induction false} NumericKeysOrdered(names: seq<string>, payload: Dict<Batch>, n: nat)
    requires n <= |payload|
    ensures var ix := NumericKeys(names, payload, n);
      forall j, j' :: 0 <= j < j' < |ix| ==> ix[j] < ix[j']
  {
    if n > 0 {
      NumericKeysOrdered(names, payload, n - 1);
      NumericKeysStep(names, payload, n);
    }
  }

  /** Every key among the first `n` that is not a categorical name is a
      numeric key. */
  lemma {:induction false} NumericKeysComplete(names: seq<string>, payload: Dict<Batch>, n: nat)
    requires n <= |payload|
    ensures forall i :: 0 <= i < n && payload[i].0 !in names ==> i in NumericKeys(names, payload, n)
  {
    if n > 0 {
      NumericKeysComplete(names, payload, n - 1);
      NumericKeysStep(names, payload, n);
      var ix, ix' := NumericKeys(names, payload, n - 1), NumericKeys(names, payload, n);
      var tail := if payload[n - 1].0 in names then [] else [n - 1];
      assert ix' == ix + tail;
      forall i | 0 <= i < n && payload[i].0 !in names
        ensures i in ix'
      {
        if i < n - 1 {
          var j :| 0 <= j < |ix| && ix[j] == i;
          assert ix'[j] == i;
        } else {
          assert ix'[|ix|] == i;
        }
      }
    }
  }

  /** The losses of the keys at positions `ix`, the j-th read from column
      `categorical_len + j`. */
  function NumericTerms(conf: LossConfig, payload: Dict<Batch>, loss: FeatureLoss, ix: seq<nat>): (r: seq<Num>)
    requires forall j :: 0 <= j < |ix| ==> ix[j] < |payload|
    ensures |r| == |ix|
    ensures forall j :: 0 <= j < |ix| ==> r[j] == loss(payload[ix[j]].1, CategoricalLen(conf.layout) + j)
  {
    seq(|ix|, j requires 0 <= j < |ix| => loss(payload[ix[j]].1, CategoricalLen(conf.layout) + j))
  }

  lemma NumericTermsAppend(conf: LossConfig, payload: Dict<Batch>, loss: FeatureLoss, ix: seq<nat>, k: nat)
    requires k < |payload| && forall j :: 0 <= j < |ix| ==> ix[j] < |payload|
    ensures NumericTerms(conf, payload, loss, ix + [k]) ==
      NumericTerms(conf, payload, loss, ix) + [loss(payload[k].1, CategoricalLen(conf.layout) + |ix|)]
  {
  }

  /** One numeric key: the loss of column `width - countdown` is added and
      the countdown falls by one. */
  lemma MseNumericKey(conf: LossConfig, payload: Dict<Batch>, loss: FeatureLoss, n: nat, total: Num, countdown: int)
    requires 0 < n <= |payload| && payload[n - 1].0 !in conf.embNames
    requires MseUpTo(conf, payload, loss, n - 1) == Ok((total, countdown))
    requires 1 <= countdown <= conf.layout.numNumeric
    ensures MseUpTo(conf, payload, loss, n) ==
      Ok((Add(total, loss(payload[n - 1].1, StrippedWidth(conf.layout) - countdown)), countdown - 1))
  {
  }

  /** A categorical key leaves the total and the countdown alone. */
  lemma MseCategoricalKey(conf: LossConfig, payload: Dict<Batch>, loss: FeatureLoss, n: nat)
    requires 0 < n <= |payload| && payload[n - 1].0 in conf.embNames
    ensures MseUpTo(conf, payload, loss, n) == MseUpTo(conf, payload, loss, n - 1)
  {
  }

  lemma NumericKeysStep(names: seq<string>, payload: Dict<Batch>, n: nat)
    requires 0 < n <= |payload|
    ensures NumericKeys(names, payload, n) ==
      NumericKeys(names, payload, n - 1) + if payload[n - 1].0 in names then [] else [n - 1]
  {
  }

  /** While there are at most N numeric keys, the j-th of them reads column
      `categorical_len + j` of the numeric prediction, the loop never fails,
      the total is the sum of their losses and the countdown has fallen by
      their number. */
  lemma {:induction false} MseAccumulates(conf: LossConfig, payload: Dict<Batch>, loss: FeatureLoss, n: nat)
    requires n <= |payload|
    requires |NumericKeys(conf.embNames, payload, n)| <= conf.layout.numNumeric
    ensures var ix := NumericKeys(conf.embNames, payload, n);
      MseUpTo(conf, payload, loss, n) == Ok((NumSum(NumericTerms(conf, payload, loss, ix)), conf.layout.numNumeric - |ix|))
  {
    if n > 0 {
      var ix := NumericKeys(conf.embNames, payload, n - 1);
      var m := |ix|;
      NumericKeysStep(conf.embNames, payload, n);
      MseAccumulates(conf, payload, loss, n - 1);
      var terms := NumericTerms(conf, payload, loss, ix);
      if payload[n - 1].0 !in conf.embNames {
        var x := loss(payload[n - 1].1, CategoricalLen(conf.layout) + m);
        var ix' := ix + [n - 1];
        assert NumericKeys(conf.embNames, payload, n) == ix';
        assert MseUpTo(conf, payload, loss, n) == Ok((Add(NumSum(terms), x), conf.layout.numNumeric - m - 1)) by {
          MseNumericKey(conf, payload, loss, n, NumSum(terms), conf.layout.numNumeric - m);
          assert StrippedWidth(conf.layout) - (conf.layout.numNumeric - m) == CategoricalLen(conf.layout) + m;
        }
        assert NumSum(NumericTerms(conf, payload, loss, ix')) == Add(NumSum(terms), x) by {
          NumSumAppend(terms, x);
          NumericTermsAppend(conf, payload, loss, ix, n - 1);
        }
      } else {
        assert NumericKeys(conf.embNames, payload, n) == ix;
        MseCategoricalKey(conf, payload, loss, n);
      }
    } else {
      assert NumericKeys(conf.embNames, payload, 0) == [];
      assert NumericTerms(conf, payload, loss, []) == [];
      assert MseUpTo(conf, payload, loss, 0) == Ok((Fin(0.0), conf.layout.numNumeric as int));
    }
  }

  /** A numeric key beyond the N-th is not an error: it finds the countdown
      at 0, and `pred[..., -0]` is column 0, the first categorical column. */
  lemma ExtraKeyReadsColumnZero(conf: LossConfig, payload: Dict<Batch>, loss: FeatureLoss, n: nat)
    requires n < |payload|
    requires |NumericKeys(conf.embNames, payload, n)| == conf.layout.numNumeric
    requires payload[n].0 !in conf.embNames && StrippedWidth(conf.layout) > 0
    ensures MseUpTo(conf, payload, loss, n).Ok? && MseUpTo(conf, payload, loss, n + 1).Ok?
    ensures MseUpTo(conf, payload, loss, n + 1).value ==
      (Add(MseUpTo(conf, payload, loss, n).value.0, loss(payload[n].1, 0)), -1)
  {
    MseAccumulates(conf, payload, loss, n);
  }

  // ----- the loss dictionary -----

  /** The keys `BaseMixin.loss` writes itself. */
  const Reserved: seq<string> := ["total_mse_loss", "total_CE_loss", "delta_loss", "total_loss"]

  /** The dictionary `BaseMixin.loss` starts from: the three totals. */
  function Totals(mse: Num, totalCe: Num, delta: Num): (d: Dict<Num>)
    ensures Keys(d) == ["total_mse_loss", "total_CE_loss", "delta_loss"] && DistinctKeys(d)
    ensures d[0].1 == mse && d[1].1 == totalCe && d[2].1 == delta
  {
    [("total_mse_loss", mse), ("total_CE_loss", totalCe), ("delta_loss", delta)]
  }

  /** `losses_dict`: the three totals, updated with the per-feature
      cross-entropies, then `total_loss` written last. */
  function Breakdown(conf: LossConfig, mse: Num, delta: Num, ce: Dict<Num>): Dict<Num>
  {
    var totalCe := NumSum(DictValues(ce));
    var base := Totals(mse, totalCe, Scale(conf.deltaWeight, delta));
    var d := Update(base, ce);
    assert Get(base, "total_mse_loss").Some?;
    UpdateKeepsKey(base, ce, "total_mse_loss");
    Put(d, "total_loss", Add(Add(Scale(conf.mseWeight, Get(d, "total_mse_loss").value), Scale(conf.ceWeight, totalCe)), Scale(conf.deltaWeight, delta)))
  }

  /** With per-feature names that are distinct and none of the reserved
      keys, the dictionary lists the three totals, the features in order and
      `total_loss`; `total_CE_loss` is the sum of the features' losses; and
      `total_loss` is the weighted sum of the dictionary's own entries. */
  lemma BreakdownContents(conf: LossConfig, mse: Num, delta: Num, ce: Dict<Num>)
    requires DistinctKeys(ce)
    requires forall i :: 0 <= i < |ce| ==> ce[i].0 !in Reserved
    ensures var r := Breakdown(conf, mse, delta, ce);
      && Keys(r) == ["total_mse_loss", "total_CE_loss", "delta_loss"] + Keys(ce) + ["total_loss"]
      && Get(r, "total_mse_loss") == Some(mse)
      && Get(r, "total_CE_loss") == Some(NumSum(DictValues(ce)))
      && Get(r, "delta_loss") == Some(Scale(conf.deltaWeight, delta))
      && (forall i :: 0 <= i < |ce| ==> Get(r, ce[i].0) == Some(ce[i].1))
      && Get(r, "total_loss") == Some(Add(Add(
           Scale(conf.mseWeight, Get(r, "total_mse_loss").value),
           Scale(conf.ceWeight, Get(r, "total_CE_loss").value)),
           Get(r, "delta_loss").value))
  {
    var totalCe := NumSum(DictValues(ce));
    var base := Totals(mse, totalCe, Scale(conf.deltaWeight, delta));
    var tl := Add(Add(Scale(conf.mseWeight, mse), Scale(conf.ceWeight, totalCe)), Scale(conf.deltaWeight, delta));
    var r := base + ce + [("total_loss", tl)];
    BreakdownLayout(conf, mse, delta, ce);
    ThreePartGets(base, ce, "total_loss", tl);
    assert base[0].0 == "total_mse_loss" && base[1].0 == "total_CE_loss" && base[2].0 == "delta_loss" by {
      assert Keys(base)[0] == base[0].0 && Keys(base)[1] == base[1].0 && Keys(base)[2] == base[2].0;
    }
  }

  /** With fresh feature names the dictionary is the three totals, then the
      features, then `total_loss`, with distinct keys. */
  lemma BreakdownLayout(conf: LossConfig, mse: Num, delta: Num, ce: Dict<Num>)
    requires DistinctKeys(ce)
    requires forall i :: 0 <= i < |ce| ==> ce[i].0 !in Reserved
    ensures var totalCe := NumSum(DictValues(ce));
      var r := Totals(mse, totalCe, Scale(conf.deltaWeight, delta)) + ce
        + [("total_loss", Add(Add(Scale(conf.mseWeight, mse), Scale(conf.ceWeight, totalCe)), Scale(conf.deltaWeight, delta)))];
      && Breakdown(conf, mse, delta, ce) == r
      && DistinctKeys(r)
      && Keys(r) == ["total_mse_loss", "total_CE_loss", "delta_loss"] + Keys(ce) + ["total_loss"]
  {
    var totalCe := NumSum(DictValues(ce));
    var base := Totals(mse, totalCe, Scale(conf.deltaWeight, delta));
    var tl := Add(Add(Scale(conf.mseWeight, mse), Scale(conf.ceWeight, totalCe)), Scale(conf.deltaWeight, delta));
    FreshNames(base, ce);
    UpdateThenPut(base, ce, "total_loss", tl);
    FreshUpdateKeepsMse(mse, totalCe, Scale(conf.deltaWeight, delta), ce);
    BreakdownUnfold(conf, mse, delta, ce);
  }

  /** `total_loss` reads the MSE total that the update left in place. */
  lemma BreakdownUnfold(conf: LossConfig, mse: Num, delta: Num, ce: Dict<Num>)
    requires var base := Totals(mse, NumSum(DictValues(ce)), Scale(conf.deltaWeight, delta));
      Get(Update(base, ce), "total_mse_loss") == Some(mse)
    ensures var totalCe := NumSum(DictValues(ce));
      Breakdown(conf, mse, delta, ce) == Put(Update(Totals(mse, totalCe, Scale(conf.deltaWeight, delta)), ce), "total_loss",
        Add(Add(Scale(conf.mseWeight, mse), Scale(conf.ceWeight, totalCe)), Scale(conf.deltaWeight, delta)))
  {
  }

  /** Fresh feature names leave the MSE total where the totals put it. */
  lemma FreshUpdateKeepsMse(mse: Num, totalCe: Num, delta: Num, ce: Dict<Num>)
    requires DistinctKeys(ce)
    requires forall i :: 0 <= i < |ce| ==> ce[i].0 !in Reserved
    ensures Get(Update(Totals(mse, totalCe, delta), ce), "total_mse_loss") == Some(mse)
  {
    var base := Totals(mse, totalCe, delta);
    FreshNames(base, ce);
    UpdateFresh(base, ce);
    DistinctAppend(base, ce);
    PrefixGets(base, ce);
    assert base[0].0 == "total_mse_loss" by {
      assert Keys(base)[0] == base[0].0;
    }
  }

  /** Feature names outside the reserved keys are fresh for the totals. */
  lemma FreshNames(base: Dict<Num>, ce: Dict<Num>)
    requires Keys(base) == ["total_mse_loss", "total_CE_loss", "delta_loss"]
    requires forall i :: 0 <= i < |ce| ==> ce[i].0 !in Reserved
    ensures forall i :: 0 <= i < |ce| ==> ce[i].0 !in Keys(base) && ce[i].0 != "total_loss"
    ensures "total_loss" !in Keys(base)
  {
    forall i | 0 <= i < |ce|
      ensures ce[i].0 !in Keys(base) && ce[i].0 != "total_loss"
    {
      assert ce[i].0 !in Reserved;
    }
  }

  /** A categorical feature named like a reserved key overwrites that entry,
      and the total then reads the feature's loss instead of the MSE. */
  lemma ReservedNameOverwrites(conf: LossConfig, mse: Num, delta: Num, v: Num)
    ensures var r := Breakdown(conf, mse, delta, [("total_mse_loss", v)]);
      && Get(r, "total_mse_loss") == Some(v)
      && Get(r, "total_loss") == Some(Add(Add(Scale(conf.mseWeight, v), Scale(conf.ceWeight, v)), Scale(conf.deltaWeight, delta)))
  {
    var ce := [("total_mse_loss", v)];
    assert DictValues(ce) == [v];
    assert [v][1..] == [];
    assert NumSum([v]) == v;
    var base := [("total_mse_loss", mse), ("total_CE_loss", v), ("delta_loss", Scale(conf.deltaWeight, delta))];
    assert Update(base, ce) == Put(base, "total_mse_loss", v);
    assert Put(base, "total_mse_loss", v) == base[0 := ("total_mse_loss", v)];
    var d := base[0 := ("total_mse_loss", v)];
    var tl := Add(Add(Scale(conf.mseWeight, v), Scale(conf.ceWeight, v)), Scale(conf.deltaWeight, delta));
    PutGet(d, "total_loss", tl, "total_mse_loss");
    PutGet(d, "total_loss", tl, "total_loss");
  }

  // ----- BaseMixin.loss -----

  /** The prediction without its delta column, when there is one. */
  function NumericPart(c: Config, pred: Rows): (r: Rows)
    requires RowsOfWidth(pred, InputDim(c))
    ensures |r| == |pred| && forall b :: 0 <= b < |pred| ==> |r[b]| == |pred[b]|
    ensures RowsOfWidth(r, StrippedWidth(c))
    ensures forall b, t, k :: 0 <= b < |pred| && 0 <= t < |pred[b]| && 0 <= k < StrippedWidth(c) ==> r[b][t][k] == pred[b][t][k]
  {
    if c.useDeltas then
      seq(|pred|, b requires 0 <= b < |pred| =>
        seq(|pred[b]|, t requires 0 <= t < |pred[b]| => pred[b][t][..StrippedWidth(c)]))
    else pred
  }

  /** `pred[:, :, -1]`: the predicted deltas. */
  function DeltaPrediction(c: Config, pred: Rows): (pd: seq<seq<real>>)
    requires c.useDeltas && RowsOfWidth(pred, InputDim(c))
    ensures |pd| == |pred| && forall b :: 0 <= b < |pred| ==> |pd[b]| == |pred[b]|
    ensures forall b, t :: 0 <= b < |pred| && 0 <= t < |pred[b]| ==> pd[b][t] == pred[b][t][Position(c, Delta)]
  {
    seq(|pred|, b requires 0 <= b < |pred| => ColumnOf(pred[b], InputDim(c) - 1))
  }

  /** The shapes `BaseMixin.loss` is called with: a (B, T - 1, input_dim)
      prediction, (B, T) time steps and payload features, and logits one
      step shorter than the ids of their feature. */
  predicate LossInputs(conf: LossConfig, payload: Dict<Batch>, ts: Batch, pred: Rows, dist: Dict<Rows>)
  {
    && RowsOfWidth(pred, InputDim(conf.layout))
    && (forall i :: 0 <= i < |payload| ==> Shifted(payload[i].1, pred))
    && Shifted(ts, pred)
    && LabelsFit(dist, payload)
  }

  /** The delta term of the loss: the delta loss, or 0 without deltas. */
  function DeltaTerm(conf: LossConfig, ts: Batch, pred: Rows): Num
    requires RowsOfWidth(pred, InputDim(conf.layout)) && Shifted(ts, pred)
  {
    if conf.layout.useDeltas then DeltaLoss(ts, DeltaPrediction(conf.layout, pred)) else Fin(0.0)
  }

  /** What `BaseMixin.loss` returns or raises. */
  function LossSpec(conf: LossConfig, payload: Dict<Batch>, ts: Batch, pred: Rows, dist: Dict<Rows>, nll: (Vec, int) -> real): Result<Dict<Num>>
    requires LossInputs(conf, payload, ts, pred, dist)
  {
    var numeric := NumericPart(conf.layout, pred);
    var mse := MseUpTo(conf, payload, ColumnLoss(numeric, StrippedWidth(conf.layout)), |payload|);
    var ce := CeLossesUpTo(dist, payload, nll, |dist|);
    if mse.Err? then Err(mse.error)
    else if ce.Err? then Err(ce.error)
    else if ce.value == [] then Err(NoCategoricalLosses)
    else
      Ok(Breakdown(conf, mse.value.0, DeltaTerm(conf, ts, pred), ce.value))
  }

  /** `BaseMixin.loss`. */
  method ComputeLoss(conf: LossConfig, payload: Dict<Batch>, ts: Batch, pred: Rows, dist: Dict<Rows>, nll: (Vec, int) -> real)
    returns (r: Result<Dict<Num>>)
    requires LossInputs(conf, payload, ts, pred, dist)
    ensures r == LossSpec(conf, payload, ts, pred, dist, nll)
  {
    var numeric := NumericPart(conf.layout, pred);
    var total := Fin(0.0);
    var countdown: int := conf.layout.numNumeric;
    for i := 0 to |payload|
      invariant MseUpTo(conf, payload, ColumnLoss(numeric, StrippedWidth(conf.layout)), i) == Ok((total, countdown))
    {
      var key := payload[i].0;
      if key !in conf.embNames {
        var col := NumericColumn(StrippedWidth(conf.layout), countdown);
        if col.None? {
          MseErrorSticks(conf, payload, ColumnLoss(numeric, StrippedWidth(conf.layout)), i + 1, |payload|);
          return Err(ColumnOutOfRange(key));
        }
        total := Add(total, NumericLoss(payload[i].1, numeric, col.value));
        countdown := countdown - 1;
      }
    }
    var delta := Fin(0.0);
    if conf.layout.useDeltas {
      delta := DeltaLoss(ts, DeltaPrediction(conf.layout, pred));
    }
    var ce := EmbeddingLoss(dist, payload, nll);
    if ce.Err? {
      return Err(ce.error);
    }
    if ce.value == [] {
      return Err(NoCategoricalLosses);
    }
    var totalCe := NumSum(DictValues(ce.value));
    var losses := [("total_mse_loss", total), ("total_CE_loss", totalCe), ("delta_loss", Scale(conf.deltaWeight, delta))];
    UpdateKeepsKey(losses, ce.value, "total_mse_loss");
    losses := Update(losses, ce.value);
    var totalLoss := Add(Add(Scale(conf.mseWeight, Get(losses, "total_mse_loss").value), Scale(conf.ceWeight, totalCe)), Scale(conf.deltaWeight, delta));
    losses := Put(losses, "total_loss", totalLoss);
    return Ok(losses);
  }

  /** The per-feature cross-entropies, in `dist` order. */
  function FeatureLosses(dist: Dict<Rows>, payload: Dict<Batch>, nll: (Vec, int) -> real): seq<Num>
    requires LabelsFit(dist, payload) && forall i :: 0 <= i < |dist| ==> Get(payload, dist[i].0).Some?
  {
    seq(|dist|, i requires 0 <= i < |dist| => CategoricalLoss(dist[i].1, Get(payload, dist[i].0).value, nll))
  }

  /** The facts about the categorical feature names the whole objective
      asks for. */
  predicate GoodNames(conf: LossConfig, payload: Dict<Batch>, dist: Dict<Rows>)
  {
    && Keys(dist) == conf.embNames && conf.embNames != [] && Distinct(conf.embNames)
    && (forall i :: 0 <= i < |conf.embNames| ==> conf.embNames[i] !in Reserved)
    && (forall i :: 0 <= i < |dist| ==> Get(payload, dist[i].0).Some?)
  }

  /** With good names the cross-entropies succeed with one fresh entry per
      feature. */
  lemma CeForBreakdown(conf: LossConfig, payload: Dict<Batch>, dist: Dict<Rows>, nll: (Vec, int) -> real)
    requires LabelsFit(dist, payload) && GoodNames(conf, payload, dist)
    ensures CeLossesUpTo(dist, payload, nll, |dist|).Ok?
    ensures var ce := CeLossesUpTo(dist, payload, nll, |dist|).value;
      && |ce| == |dist| && ce != [] && DistinctKeys(ce)
      && (forall i :: 0 <= i < |ce| ==> ce[i].0 !in Reserved)
      && (forall i :: 0 <= i < |dist| ==> ce[i] == (dist[i].0, CategoricalLoss(dist[i].1, Get(payload, dist[i].0).value, nll)))
  {
    DistinctKeysOf(dist);
    CeLossesPerFeature(dist, payload, nll, |dist|);
    var ce := CeLossesUpTo(dist, payload, nll, |dist|).value;
    forall i | 0 <= i < |ce|
      ensures ce[i].0 !in Reserved
    {
      assert ce[i].0 == Keys(dist)[i];
    }
  }

  /** The cross-entropy entries carry the feature names and the per-feature
      losses, in `dist` order. */
  lemma CeValues(conf: LossConfig, payload: Dict<Batch>, dist: Dict<Rows>, nll: (Vec, int) -> real)
    requires LabelsFit(dist, payload) && GoodNames(conf, payload, dist)
    ensures CeLossesUpTo(dist, payload, nll, |dist|).Ok?
    ensures var ce := CeLossesUpTo(dist, payload, nll, |dist|).value;
      Keys(ce) == conf.embNames && DictValues(ce) == FeatureLosses(dist, payload, nll)
  {
    CeForBreakdown(conf, payload, dist, nll);
    var ce := CeLossesUpTo(dist, payload, nll, |dist|).value;
    var ks, vs := Keys(ce), DictValues(ce);
    assert ks == Keys(dist) by {
      forall i | 0 <= i < |ce|
        ensures ks[i] == Keys(dist)[i]
      {
        assert ce[i].0 == dist[i].0;
      }
    }
    assert vs == FeatureLosses(dist, payload, nll) by {
      forall i | 0 <= i < |ce|
        ensures vs[i] == FeatureLosses(dist, payload, nll)[i]
      {
        assert ce[i].1 == CategoricalLoss(dist[i].1, Get(payload, dist[i].0).value, nll);
      }
    }
  }

  /** With good names and at most N numeric keys the loss succeeds with the
      dictionary built from the numeric total, the delta term and the
      per-feature cross-entropies. */
  lemma LossSucceeds(conf: LossConfig, payload: Dict<Batch>, ts: Batch, pred: Rows, dist: Dict<Rows>, nll: (Vec, int) -> real)
    requires LossInputs(conf, payload, ts, pred, dist) && GoodNames(conf, payload, dist)
    requires |NumericKeys(conf.embNames, payload, |payload|)| <= conf.layout.numNumeric
    ensures CeLossesUpTo(dist, payload, nll, |dist|).Ok?
    ensures var loss := ColumnLoss(NumericPart(conf.layout, pred), StrippedWidth(conf.layout));
      LossSpec(conf, payload, ts, pred, dist, nll) == Ok(Breakdown(conf,
        NumSum(NumericTerms(conf, payload, loss, NumericKeys(conf.embNames, payload, |payload|))),
        DeltaTerm(conf, ts, pred), CeLossesUpTo(dist, payload, nll, |dist|).value))
  {
    var loss := ColumnLoss(NumericPart(conf.layout, pred), StrippedWidth(conf.layout));
    MseAccumulates(conf, payload, loss, |payload|);
    CeForBreakdown(conf, payload, dist, nll);
  }

  /** The whole objective. For categorical names that are distinct, avoid
      the reserved keys and are all in the payload, and at most N numeric
      keys, the loss succeeds; its dictionary lists the totals, every
      categorical feature and `total_loss`; `total_mse_loss` is the sum of
      the numeric losses, key j read from column `categorical_len + j`;
      each feature's entry is its own cross-entropy; `total_CE_loss` is the
      sum of those; `delta_loss` is the weighted delta loss, or 0 without
      deltas; and `total_loss` is the weighted sum of the entries. */
  lemma LossBreakdown(conf: LossConfig, payload: Dict<Batch>, ts: Batch, pred: Rows, dist: Dict<Rows>, nll: (Vec, int) -> real)
    requires LossInputs(conf, payload, ts, pred, dist) && GoodNames(conf, payload, dist)
    requires |NumericKeys(conf.embNames, payload, |payload|)| <= conf.layout.numNumeric
    ensures var r := LossSpec(conf, payload, ts, pred, dist, nll);
      var ix := NumericKeys(conf.embNames, payload, |payload|);
      var loss := ColumnLoss(NumericPart(conf.layout, pred), StrippedWidth(conf.layout));
      && r.Ok?
      && Keys(r.value) == ["total_mse_loss", "total_CE_loss", "delta_loss"] + conf.embNames + ["total_loss"]
      && Get(r.value, "total_mse_loss") == Some(NumSum(NumericTerms(conf, payload, loss, ix)))
      && (forall i :: 0 <= i < |dist| ==>
           Get(r.value, dist[i].0) == Some(CategoricalLoss(dist[i].1, Get(payload, dist[i].0).value, nll)))
      && Get(r.value, "total_CE_loss") == Some(NumSum(FeatureLosses(dist, payload, nll)))
      && Get(r.value, "delta_loss") == Some(Scale(conf.deltaWeight, DeltaTerm(conf, ts, pred)))
      && Get(r.value, "total_loss") == Some(Add(Add(
           Scale(conf.mseWeight, Get(r.value, "total_mse_loss").value),
           Scale(conf.ceWeight, Get(r.value, "total_CE_loss").value)),
           Get(r.value, "delta_loss").value))
  {
    var loss := ColumnLoss(NumericPart(conf.layout, pred), StrippedWidth(conf.layout));
    var mse := NumSum(NumericTerms(conf, payload, loss, NumericKeys(conf.embNames, payload, |payload|)));
    LossSucceeds(conf, payload, ts, pred, dist, nll);
    CeForBreakdown(conf, payload, dist, nll);
    CeValues(conf, payload, dist, nll);
    var ce := CeLossesUpTo(dist, payload, nll, |dist|).value;
    BreakdownContents(conf, mse, DeltaTerm(conf, ts, pred), ce);
    var r := Breakdown(conf, mse, DeltaTerm(conf, ts, pred), ce);
    forall i | 0 <= i < |dist|
      ensures Get(r, dist[i].0) == Some(CategoricalLoss(dist[i].1, Get(payload, dist[i].0).value, nll))
    {
      assert ce[i].0 == dist[i].0;
    }
  }

  /** Without categorical features `torch.cat` has nothing to join and the
      loss fails. */
  lemma NoCategoricalFeaturesFails(conf: LossConfig, payload: Dict<Batch>, ts: Batch, pred: Rows, nll: (Vec, int) -> real)
    requires LossInputs(conf, payload, ts, pred, [])
    ensures LossSpec(conf, payload, ts, pred, [], nll).Err?
  {
  }

  /** A categorical feature with no payload entry makes the loss fail. */
  lemma MissingFeatureFails(conf: LossConfig, payload: Dict<Batch>, ts: Batch, pred: Rows, dist: Dict<Rows>, nll: (Vec, int) -> real, k: nat)
    requires LossInputs(conf, payload, ts, pred, dist) && DistinctKeys(dist)
    requires k < |dist| && Get(payload, dist[k].0).None?
    ensures LossSpec(conf, payload, ts, pred, dist, nll).Err?
  {
    CeLossesPerFeature(dist, payload, nll, |dist|);
  }
}
