/** The three kinds of loss term `BaseMixin.loss` and `EmbeddingPredictor.loss`
    compute: the masked mean squared error of one numeric feature, the fused
    masked mean squared error of the time deltas, and the cross-entropy of
    one categorical feature with label 0 ignored. All are vectorised in the
    source, so they are functions here. Every mean is a sum over kept
    positions divided by their number, NaN when nothing is kept. */
module Loss {
  import opened Base
  import opened Scalar

  function Sq(x: real): real
  {
    x * x
  }

  /** `(x != skip).sum()`: how many entries differ from `skip`. */
  function Count<T(==)>(s: seq<T>, skip: T): nat
  {
    if s == [] then 0 else (if s[0] != skip then 1 else 0) + Count(s[1..], skip)
  }

  lemma {:induction false} CountNone<T>(s: seq<T>, skip: T)
    requires forall t :: 0 <= t < |s| ==> s[t] == skip
    ensures Count(s, skip) == 0
  {
    if s != [] {
      CountNone(s[1..], skip);
    }
  }

  lemma {:induction false} CountAll<T>(s: seq<T>, skip: T)
    requires forall t :: 0 <= t < |s| ==> s[t] != skip
    ensures Count(s, skip) == |s|
  {
    if s != [] {
      CountAll(s[1..], skip);
    }
  }

  lemma {:induction false} CountSome<T>(s: seq<T>, skip: T, t: nat)
    requires t < |s| && s[t] != skip
    ensures Count(s, skip) > 0
  {
    if t > 0 {
      CountSome(s[1..], skip, t - 1);
    }
  }

  /** `values` holds one more timestep per sequence than the prediction
      `pred`, which starts at the second timestep. */
  predicate Shifted<T>(values: seq<seq<real>>, pred: seq<seq<T>>)
  {
    |values| == |pred| && forall b :: 0 <= b < |pred| ==> |values[b]| == |pred[b]| + 1
  }

  /** Every prediction row has `w` columns. */
  predicate RowsOfWidth(pred: seq<seq<Vec>>, w: nat)
  {
    forall b, t :: 0 <= b < |pred| && 0 <= t < |pred[b]| ==> |pred[b][t]| == w
  }

  /** `pred[b, :, col]`: one column of a sequence of prediction rows. */
  function ColumnOf(rows: seq<Vec>, col: nat): (c: seq<real>)
    requires forall t :: 0 <= t < |rows| ==> col < |rows[t]|
    ensures |c| == |rows| && forall t :: 0 <= t < |rows| ==> c[t] == rows[t][col]
  {
    seq(|rows|, t requires 0 <= t < |rows| => rows[t][col])
  }

  // ----- numeric features -----

  /** The squared errors, with the positions whose target is 0 zeroed out. */
  function MaskedSquares(gt: seq<real>, pr: seq<real>): (m: seq<real>)
    requires |gt| == |pr|
    ensures |m| == |gt|
    ensures forall t :: 0 <= t < |gt| ==> m[t] == if gt[t] != 0.0 then Sq(gt[t] - pr[t]) else 0.0
  {
    seq(|gt|, t requires 0 <= t < |gt| => if gt[t] != 0.0 then Sq(gt[t] - pr[t]) else 0.0)
  }

  /** `masked_mse.sum(dim=1) / (mask != 0).sum(dim=1)` for one sequence. */
  function SequenceMse(gt: seq<real>, pr: seq<real>): Num
    requires |gt| == |pr|
  {
    MeanOver(Fin(RSum(MaskedSquares(gt, pr))), Count(gt, 0.0))
  }

  /** The loss of one numeric feature: targets `values[b][1..]` against
      column `col` of the prediction, one masked mean per sequence, then
      the mean of those over the batch. */
  function NumericLoss(values: seq<seq<real>>, pred: seq<seq<Vec>>, col: nat): Num
    requires Shifted(values, pred)
    requires forall b, t :: 0 <= b < |pred| && 0 <= t < |pred[b]| ==> col < |pred[b][t]|
  {
    MeanOver(NumSum(seq(|pred|, b requires 0 <= b < |pred| =>
      SequenceMse(values[b][1..], ColumnOf(pred[b], col)))), |pred|)
  }

  /** One sequence's masked mean is defined exactly when some target is not
      the padding value 0, and is then nonnegative. */
  lemma SequenceMseRange(gt: seq<real>, pr: seq<real>)
    requires |gt| == |pr|
    ensures SequenceMse(gt, pr).Fin? <==> exists t :: 0 <= t < |gt| && gt[t] != 0.0
    ensures SequenceMse(gt, pr).Fin? ==> SequenceMse(gt, pr).v >= 0.0
  {
    if t :| 0 <= t < |gt| && gt[t] != 0.0 {
      CountSome(gt, 0.0, t);
    } else {
      CountNone(gt, 0.0);
    }
    var m := MaskedSquares(gt, pr);
    forall t | 0 <= t < |m|
      ensures m[t] >= 0.0
    {
      SqNonneg(gt[t] - pr[t]);
    }
    RSumNonneg(m);
  }

  lemma SqNonneg(x: real)
    ensures Sq(x) >= 0.0
  {
    if x < 0.0 {
      assert Sq(x) == (-x) * (-x);
    }
  }

  /** A numeric feature's loss, when defined, is nonnegative. */
  lemma NumericLossNonneg(values: seq<seq<real>>, pred: seq<seq<Vec>>, col: nat)
    requires Shifted(values, pred)
    requires forall b, t :: 0 <= b < |pred| && 0 <= t < |pred[b]| ==> col < |pred[b][t]|
    ensures NumericLoss(values, pred, col).Fin? ==> NumericLoss(values, pred, col).v >= 0.0
  {
    var perSeq := seq(|pred|, b requires 0 <= b < |pred| => SequenceMse(values[b][1..], ColumnOf(pred[b], col)));
    NumSumFinite(perSeq);
    if AllFinite(perSeq) {
      var vs := Values(perSeq);
      forall b | 0 <= b < |vs|
        ensures vs[b] >= 0.0
      {
        SequenceMseRange(values[b][1..], ColumnOf(pred[b], col));
      }
      RSumNonneg(vs);
    }
    assert NumericLoss(values, pred, col) == MeanOver(NumSum(perSeq), |pred|);
  }

  /** The unmasked squared errors of one sequence. */
  function Squares(gt: seq<real>, pr: seq<real>): (m: seq<real>)
    requires |gt| == |pr|
    ensures |m| == |gt| && forall t :: 0 <= t < |gt| ==> m[t] == Sq(gt[t] - pr[t])
  {
    seq(|gt|, t requires 0 <= t < |gt| => Sq(gt[t] - pr[t]))
  }

  lemma UnpaddedSequence(gt: seq<real>, pr: seq<real>)
    requires |gt| == |pr| && |gt| > 0
    requires forall t :: 0 <= t < |gt| ==> gt[t] != 0.0
    ensures SequenceMse(gt, pr) == Fin(RSum(Squares(gt, pr)) / |gt| as real)
  {
    assert MaskedSquares(gt, pr) == Squares(gt, pr);
    CountAll(gt, 0.0);
  }

  lemma DivideTwice(x: real, n: nat, b: nat)
    requires n > 0 && b > 0
    ensures x / n as real / b as real == x / (b * n) as real
  {
  }

  /** Without padding, the numeric loss is the plain mean squared error over
      all B * n positions: with equal-length sequences the per-sequence
      means average to the overall mean. */
  lemma NumericLossUnpadded(values: seq<seq<real>>, pred: seq<seq<Vec>>, col: nat, n: nat)
    requires Shifted(values, pred)
    requires forall b, t :: 0 <= b < |pred| && 0 <= t < |pred[b]| ==> col < |pred[b][t]|
    requires |pred| > 0 && n > 0 && forall b :: 0 <= b < |pred| ==> |pred[b]| == n
    requires forall b, t :: 0 <= b < |pred| && 1 <= t <= n ==> values[b][t] != 0.0
    ensures NumericLoss(values, pred, col) == Fin(RSum(seq(|pred|, b requires 0 <= b < |pred| =>
      RSum(Squares(values[b][1..], ColumnOf(pred[b], col))))) / (|pred| * n) as real)
  {
    var bs := |pred|;
    var perSeq := seq(bs, b requires 0 <= b < bs => SequenceMse(values[b][1..], ColumnOf(pred[b], col)));
    var sums := seq(bs, b requires 0 <= b < bs => RSum(Squares(values[b][1..], ColumnOf(pred[b], col))));
    forall b | 0 <= b < bs
      ensures perSeq[b] == Fin(sums[b] / n as real)
    {
      var gt := values[b][1..];
      assert forall t :: 0 <= t < |gt| ==> gt[t] == values[b][t + 1];
      UnpaddedSequence(gt, ColumnOf(pred[b], col));
    }
    NumSumFinite(perSeq);
    RSumDivide(sums, Values(perSeq), n as real);
    var total := RSum(sums);
    assert NumSum(perSeq) == Fin(total / n as real);
    DivideTwice(total, n, bs);
    assert NumericLoss(values, pred, col) == MeanOver(NumSum(perSeq), bs);
  }

  /** A sequence whose targets are all 0 (fully padded) has a 0/0 masked
      mean, and that NaN reaches the feature's loss: such a sequence is not
      excluded from the batch mean. */
  lemma NumericLossPaddedSequence(values: seq<seq<real>>, pred: seq<seq<Vec>>, col: nat, b: nat)
    requires Shifted(values, pred)
    requires forall b, t :: 0 <= b < |pred| && 0 <= t < |pred[b]| ==> col < |pred[b][t]|
    requires b < |pred| && forall t :: 1 <= t < |values[b]| ==> values[b][t] == 0.0
    ensures NumericLoss(values, pred, col) == NaN
  {
    var perSeq := seq(|pred|, b requires 0 <= b < |pred| => SequenceMse(values[b][1..], ColumnOf(pred[b], col)));
    CountNone(values[b][1..], 0.0);
    assert perSeq[b] == NaN;
    NumSumFinite(perSeq);
  }

  /** Predictions at positions whose target is 0 do not affect the loss. */
  lemma NumericLossIgnoresPadding(values: seq<seq<real>>, pred: seq<seq<Vec>>, pred': seq<seq<Vec>>, col: nat)
    requires Shifted(values, pred) && Shifted(values, pred')
    requires forall b, t :: 0 <= b < |pred| && 0 <= t < |pred[b]| ==> col < |pred[b][t]|
    requires forall b, t :: 0 <= b < |pred'| && 0 <= t < |pred'[b]| ==> col < |pred'[b][t]|
    requires forall b, t :: 0 <= b < |pred| && 0 <= t < |pred[b]| && values[b][t + 1] != 0.0 ==>
      pred[b][t][col] == pred'[b][t][col]
    ensures NumericLoss(values, pred, col) == NumericLoss(values, pred', col)
  {
    forall b | 0 <= b < |pred|
      ensures SequenceMse(values[b][1..], ColumnOf(pred[b], col)) == SequenceMse(values[b][1..], ColumnOf(pred'[b], col))
    {
      var gt := values[b][1..];
      assert MaskedSquares(gt, ColumnOf(pred[b], col)) == MaskedSquares(gt, ColumnOf(pred'[b], col));
    }
    assert seq(|pred|, b requires 0 <= b < |pred| => SequenceMse(values[b][1..], ColumnOf(pred[b], col)))
        == seq(|pred'|, b requires 0 <= b < |pred'| => SequenceMse(values[b][1..], ColumnOf(pred'[b], col)));
  }

  // ----- time deltas -----

  /** One sequence's delta errors: prediction `t` against the gap
      `ts[t+1] - ts[t]`, kept when `ts[t+1]` is not the padding value -1. */
  function DeltaSquares(ts: seq<real>, pd: seq<real>): (m: seq<real>)
    requires |ts| == |pd| + 1
    ensures |m| == |pd|
    ensures forall t :: 0 <= t < |pd| ==> m[t] == if ts[t + 1] != -1.0 then Sq((ts[t + 1] - ts[t]) - pd[t]) else 0.0
  {
    seq(|pd|, t requires 0 <= t < |pd| => if ts[t + 1] != -1.0 then Sq((ts[t + 1] - ts[t]) - pd[t]) else 0.0)
  }

  /** The delta loss as intended: one mean over every kept position of the
      batch (not a mean of per-sequence means). */
  function DeltaLoss(ts: seq<seq<real>>, pd: seq<seq<real>>): Num
    requires Shifted(ts, pd)
  {
    MeanOver(
      Fin(RSum(seq(|pd|, b requires 0 <= b < |pd| => RSum(DeltaSquares(ts[b], pd[b]))))),
      NSum(seq(|pd|, b requires 0 <= b < |pd| => Count(ts[b][1..], -1.0))))
  }

  /** The fused delta loss is defined exactly when some position is kept,
      and is then nonnegative. */
  lemma DeltaLossNonneg(ts: seq<seq<real>>, pd: seq<seq<real>>)
    requires Shifted(ts, pd)
    ensures DeltaLoss(ts, pd).Fin? <==> NSum(seq(|pd|, b requires 0 <= b < |pd| => Count(ts[b][1..], -1.0))) > 0
    ensures DeltaLoss(ts, pd).Fin? ==> DeltaLoss(ts, pd).v >= 0.0
  {
    var sums := seq(|pd|, b requires 0 <= b < |pd| => RSum(DeltaSquares(ts[b], pd[b])));
    forall b | 0 <= b < |pd|
      ensures sums[b] >= 0.0
    {
      var m := DeltaSquares(ts[b], pd[b]);
      forall t | 0 <= t < |m|
        ensures m[t] >= 0.0
      {
        SqNonneg((ts[b][t + 1] - ts[b][t]) - pd[b][t]);
      }
      RSumNonneg(m);
    }
    RSumNonneg(sums);
  }

  /** Prediction `t` of one sequence equals the gap it is compared with,
      wherever that gap is kept. */
  predicate PredictsGaps(ts: seq<real>, pd: seq<real>)
    requires |ts| == |pd| + 1
  {
    forall t :: 0 <= t < |pd| ==> ts[t + 1] == -1.0 || pd[t] == ts[t + 1] - ts[t]
  }

  lemma ExactSequence(ts: seq<real>, pd: seq<real>)
    requires |ts| == |pd| + 1 && PredictsGaps(ts, pd)
    ensures RSum(DeltaSquares(ts, pd)) == 0.0
  {
    var m := DeltaSquares(ts, pd);
    forall t | 0 <= t < |m|
      ensures m[t] == 0.0
    {
      if ts[t + 1] != -1.0 {
        assert (ts[t + 1] - ts[t]) - pd[t] == 0.0;
      }
    }
    RSumZeros(m);
  }

  /** Predicting every kept gap exactly gives a delta loss of 0, as long as
      some position is kept. */
  lemma DeltaLossExact(ts: seq<seq<real>>, pd: seq<seq<real>>, b0: nat, t0: nat)
    requires Shifted(ts, pd)
    requires forall b :: 0 <= b < |pd| ==> PredictsGaps(ts[b], pd[b])
    requires b0 < |pd| && t0 < |pd[b0]| && ts[b0][t0 + 1] != -1.0
    ensures DeltaLoss(ts, pd) == Fin(0.0)
  {
    var sums := seq(|pd|, b requires 0 <= b < |pd| => RSum(DeltaSquares(ts[b], pd[b])));
    var counts := seq(|pd|, b requires 0 <= b < |pd| => Count(ts[b][1..], -1.0));
    forall b | 0 <= b < |pd|
      ensures sums[b] == 0.0
    {
      ExactSequence(ts[b], pd[b]);
    }
    RSumZeros(sums);
    var later := ts[b0][1..];
    assert later[t0] == ts[b0][t0 + 1];
    CountSome(later, -1.0, t0);
    assert counts[b0] > 0;
    NSumPositive(counts, b0);
    assert DeltaLoss(ts, pd) == MeanOver(Fin(RSum(sums)), NSum(counts));
    assert 0.0 / NSum(counts) as real == 0.0;
  }

  /** A batch with no kept position (every later timestep is -1) has a 0/0
      delta loss. */
  lemma DeltaLossAllPadded(ts: seq<seq<real>>, pd: seq<seq<real>>)
    requires Shifted(ts, pd)
    requires forall b, t :: 0 <= b < |ts| && 1 <= t < |ts[b]| ==> ts[b][t] == -1.0
    ensures DeltaLoss(ts, pd) == NaN
  {
    var counts := seq(|pd|, b requires 0 <= b < |pd| => Count(ts[b][1..], -1.0));
    forall b | 0 <= b < |pd|
      ensures counts[b] == 0
    {
      CountNone(ts[b][1..], -1.0);
    }
    NSumZero(counts);
  }

  /** The delta loss as written. `pred[:, :, -1].squeeze(-1)` also drops the
      time axis when it has length 1; for a batch of at least two sequences
      `MSELoss` then broadcasts the (B, 1) targets against the (B,)
      predictions into a (B, B) table, whose row `i` compares sequence `i`'s
      gap with every sequence's prediction and is kept by sequence `i`'s
      mask. */
  function DeltaLossAsWritten(ts: seq<seq<real>>, pd: seq<seq<real>>): Num
    requires Shifted(ts, pd)
  {
    if |pd| >= 2 && forall b :: 0 <= b < |pd| ==> |pd[b]| == 1 then
      var bs := |pd|;
      MeanOver(
        Fin(RSum(seq(bs, i requires 0 <= i < bs =>
          if ts[i][1] != -1.0 then RSum(BroadcastRow(ts[i][1] - ts[i][0], pd)) else 0.0))),
        NSum(seq(bs, i requires 0 <= i < bs => Count(ts[i][1..], -1.0))))
    else
      DeltaLoss(ts, pd)
  }

  /** One row of the broadcast table: a single gap against the one
      prediction of every sequence. */
  function BroadcastRow(gap: real, pd: seq<seq<real>>): (r: seq<real>)
    requires forall j :: 0 <= j < |pd| ==> |pd[j]| == 1
    ensures |r| == |pd| && forall j :: 0 <= j < |pd| ==> r[j] == Sq(gap - pd[j][0])
  {
    seq(|pd|, j requires 0 <= j < |pd| => Sq(gap - pd[j][0]))
  }

  lemma RSumPair(x: real, y: real)
    ensures RSum([x, y]) == x + y
  {
    assert [y][1..] == [];
    assert RSum([y]) == y;
    assert [x, y][1..] == [y];
    assert RSum([x, y]) == x + RSum([y]);
  }

  lemma CounterexampleRows(ts: seq<seq<real>>, pd: seq<seq<real>>)
    requires ts == [[0.0, 1.0], [0.0, 2.0]] && pd == [[1.0], [2.0]]
    ensures RSum(seq(2, i requires 0 <= i < 2 =>
      if ts[i][1] != -1.0 then RSum(BroadcastRow(ts[i][1] - ts[i][0], pd)) else 0.0)) == 2.0
  {
    var row0, row1 := BroadcastRow(1.0, pd), BroadcastRow(2.0, pd);
    assert row0[0] == Sq(0.0) && row0[1] == Sq(-1.0);
    assert row1[0] == Sq(1.0) && row1[1] == Sq(0.0);
    assert row0 == [0.0, 1.0] && row1 == [1.0, 0.0];
    RSumPair(0.0, 1.0);
    RSumPair(1.0, 0.0);
    var rows := seq(2, i requires 0 <= i < 2 =>
      if ts[i][1] != -1.0 then RSum(BroadcastRow(ts[i][1] - ts[i][0], pd)) else 0.0);
    assert rows[0] == 1.0 && rows[1] == 1.0;
    assert rows == [1.0, 1.0];
    RSumPair(1.0, 1.0);
  }

  lemma CounterexampleCounts(ts: seq<seq<real>>)
    requires ts == [[0.0, 1.0], [0.0, 2.0]]
    ensures NSum(seq(2, i requires 0 <= i < 2 => Count(ts[i][1..], -1.0))) == 2
  {
    var counts := seq(2, i requires 0 <= i < 2 => Count(ts[i][1..], -1.0));
    assert ts[0][1..] == [1.0] && ts[1][1..] == [2.0];
    assert [1.0][1..] == [] && [2.0][1..] == [];
    assert counts[0] == 1 && counts[1] == 1;
    assert counts == [1, 1];
    assert [1, 1][1..] == [1] && [1][1..] == [];
  }

  lemma CounterexampleIntended(ts: seq<seq<real>>, pd: seq<seq<real>>)
    requires ts == [[0.0, 1.0], [0.0, 2.0]] && pd == [[1.0], [2.0]]
    ensures DeltaLoss(ts, pd) == Fin(0.0)
  {
    assert PredictsGaps(ts[0], pd[0]) && PredictsGaps(ts[1], pd[1]);
    DeltaLossExact(ts, pd, 0, 0);
  }

  lemma CounterexampleAsWritten(ts: seq<seq<real>>, pd: seq<seq<real>>)
    requires ts == [[0.0, 1.0], [0.0, 2.0]] && pd == [[1.0], [2.0]]
    ensures DeltaLossAsWritten(ts, pd) == Fin(1.0)
  {
    CounterexampleRows(ts, pd);
    CounterexampleCounts(ts);
    assert |pd| >= 2 && forall b :: 0 <= b < |pd| ==> |pd[b]| == 1;
    assert DeltaLossAsWritten(ts, pd) == MeanOver(Fin(2.0), 2);
  }

  /** Two sequences of two timesteps, gaps 1 and 2, both predicted exactly:
      the intended loss is 0, the loss as written is 1 (the cross terms
      (1 - 2)^2 and (2 - 1)^2 over two kept positions). */
  lemma DeltaSqueezeCounterexample()
    ensures DeltaLoss([[0.0, 1.0], [0.0, 2.0]], [[1.0], [2.0]]) == Fin(0.0)
    ensures DeltaLossAsWritten([[0.0, 1.0], [0.0, 2.0]], [[1.0], [2.0]]) == Fin(1.0)
  {
    CounterexampleIntended([[0.0, 1.0], [0.0, 2.0]], [[1.0], [2.0]]);
    CounterexampleAsWritten([[0.0, 1.0], [0.0, 2.0]], [[1.0], [2.0]]);
  }

  // ----- categorical features -----

  /** `.long()` on a stored id: truncation toward zero. */
  function Trunc(x: real): (r: int)
    ensures 0.0 <= x ==> 0 <= r && r as real <= x < r as real + 1.0
    ensures x < 0.0 ==> r <= 0 && r as real - 1.0 < x <= r as real
  {
    if x >= 0.0 then x.Floor else -((-x).Floor)
  }

  /** `payload[name].long()[:, 1:]` for one sequence. */
  function ShiftedLabels(v: seq<real>): (l: seq<int>)
    requires |v| >= 1
    ensures |l| == |v| - 1 && forall t :: 0 <= t < |l| ==> l[t] == Trunc(v[t + 1])
  {
    seq(|v| - 1, t requires 0 <= t < |v| - 1 => Trunc(v[t + 1]))
  }

  /** The per-position cross-entropies, 0 where the label is ignored.
      `nll(logits, c)` stands for `-log_softmax(logits)[c]`. */
  function CeTerms(logits: seq<Vec>, labels: seq<int>, nll: (Vec, int) -> real): (m: seq<real>)
    requires |logits| == |labels|
    ensures |m| == |labels|
    ensures forall t :: 0 <= t < |labels| ==> m[t] == if labels[t] != 0 then nll(logits[t], labels[t]) else 0.0
  {
    seq(|labels|, t requires 0 <= t < |labels| => if labels[t] != 0 then nll(logits[t], labels[t]) else 0.0)
  }

  /** `CrossEntropyLoss(reduction="mean", ignore_index=0)` of one feature:
      the logits of prediction step `t` against the id at step `t + 1`,
      averaged over every non-ignored position of the batch. */
  function CategoricalLoss(dist: seq<seq<Vec>>, values: seq<seq<real>>, nll: (Vec, int) -> real): Num
    requires Shifted(values, dist)
  {
    MeanOver(
      Fin(RSum(seq(|dist|, b requires 0 <= b < |dist| => RSum(CeTerms(dist[b], ShiftedLabels(values[b]), nll))))),
      NSum(seq(|dist|, b requires 0 <= b < |dist| => Count(ShiftedLabels(values[b]), 0))))
  }

  /** Logits at ignored positions do not affect the loss. */
  lemma CategoricalIgnoresPadding(dist: seq<seq<Vec>>, dist': seq<seq<Vec>>, values: seq<seq<real>>, nll: (Vec, int) -> real)
    requires Shifted(values, dist) && Shifted(values, dist')
    requires forall b, t :: 0 <= b < |dist| && 0 <= t < |dist[b]| && Trunc(values[b][t + 1]) != 0 ==> dist[b][t] == dist'[b][t]
    ensures CategoricalLoss(dist, values, nll) == CategoricalLoss(dist', values, nll)
  {
    forall b | 0 <= b < |dist|
      ensures CeTerms(dist[b], ShiftedLabels(values[b]), nll) == CeTerms(dist'[b], ShiftedLabels(values[b]), nll)
    {
    }
    assert seq(|dist|, b requires 0 <= b < |dist| => RSum(CeTerms(dist[b], ShiftedLabels(values[b]), nll)))
        == seq(|dist'|, b requires 0 <= b < |dist'| => RSum(CeTerms(dist'[b], ShiftedLabels(values[b]), nll)));
  }

  /** A feature whose later ids are all 0 has a 0/0 loss. */
  lemma CategoricalAllIgnored(dist: seq<seq<Vec>>, values: seq<seq<real>>, nll: (Vec, int) -> real)
    requires Shifted(values, dist)
    requires forall b, t :: 0 <= b < |values| && 1 <= t < |values[b]| ==> Trunc(values[b][t]) == 0
    ensures CategoricalLoss(dist, values, nll) == NaN
  {
    var counts := seq(|dist|, b requires 0 <= b < |dist| => Count(ShiftedLabels(values[b]), 0));
    forall b | 0 <= b < |dist|
      ensures counts[b] == 0
    {
      CountNone(ShiftedLabels(values[b]), 0);
    }
    NSumZero(counts);
  }

  /** With nonnegative per-position cross-entropies the loss, when defined,
      is nonnegative. */
  lemma CategoricalNonnegative(dist: seq<seq<Vec>>, values: seq<seq<real>>, nll: (Vec, int) -> real)
    requires Shifted(values, dist)
    requires forall v, c :: nll(v, c) >= 0.0
    ensures CategoricalLoss(dist, values, nll).Fin? ==> CategoricalLoss(dist, values, nll).v >= 0.0
  {
    var sums := seq(|dist|, b requires 0 <= b < |dist| => RSum(CeTerms(dist[b], ShiftedLabels(values[b]), nll)));
    forall b | 0 <= b < |dist|
      ensures sums[b] >= 0.0
    {
      RSumNonneg(CeTerms(dist[b], ShiftedLabels(values[b]), nll));
    }
    RSumNonneg(sums);
  }
}
