# MLEM generative sequence model, modelled in Dafny

This project models the core of `src/models/gen_models.py` in the MLEM
repository. That file defines a sequence autoencoder for event sequences. A
batch of padded sequences carries categorical and numeric features and time
steps. An encoder reduces each sequence to a latent row. A custom multi-layer
GRU decoder, conditioned on that latent, reconstructs the sequence one step
ahead. The objective combines three terms:

- a masked mean squared error per numeric feature;
- a masked mean squared error on the time deltas;
- a cross-entropy per categorical feature that ignores label 0.

What is modelled, by module:

- `Base`: shared Python semantics. Python's negative indexing is `PyIndex`. An insertion-ordered `dict` is a sequence of entries with `Get`, `Put` and `Update`. The module carries the laws those operations obey.
- `Scalar`: loss values as `Fin(real)` or `NaN`. A mean over zero kept positions is `NaN`, as `0/0` is in floating point. `NaN` propagates through sums and scaling.
- `Layout`: the `input_dim` arithmetic and the column layout of a prediction row:
  - one block of `features_emb_dim` columns per categorical feature;
  - then one column per numeric feature;
  - then, optionally, the delta column.

  It also covers the countdown index `pred[..., -num_val_feature]` the numeric loss reads.
- `Cell`: `GRUCell.forward`. The three `nn.Linear` maps and the activations are uninterpreted functions; the cell's own bookkeeping is exact.
- `Decoder`: `DecoderGRU.forward` as an imperative method over an array of layer states. It is proved equal to a functional unrolling, and the unrolling is proved to be a left scan when there is one layer.
- `Forward`: the alignment part of `SeqGen.forward` (the delta channel, the gather of the last real timestep, dropping the last decoder row). It also covers the block slicing of `EmbeddingPredictor.forward`, as a method proved against its specification.
- `Loss`: the three loss terms as functions, with their properties.
- `Objective`:
  - the loops of `EmbeddingPredictor.loss` and `BaseMixin.loss` as methods proved against specification functions;
  - the loss dictionary;
  - the theorem describing the whole dictionary.

## Model

| member | source | states |
|---|---|---|
| Base.PyIndex | src/models/gen_models.py:142 | Defines Python indexing: index `i` on a dimension of size `n` is defined exactly for `-n <= i < n`, a negative index counting from the end. |
| Base.DropLast | src/models/gen_models.py:228 | `[:-1]` keeps every element but the last, in place, and an empty sequence stays empty. |
| Base.Get | src/models/gen_models.py:180-182 | Defines `d[k]`: the value of the first entry with key `k`, or None for the KeyError. Base.GetFound and Base.GetMissing give its laws. |
| Base.Put | src/models/gen_models.py:185 | Defines `d[k] = v`: an existing key is overwritten in its position, a new key goes last. Base.PutGet, Base.PutNew and Base.PutExisting give its laws. |
| Base.Update | src/models/gen_models.py:178 | Defines `d.update(e)`: the entries of `e` written in order. Base.UpdateKeepsKey and Base.UpdateFresh give its laws. |
| Base.DictValues | src/models/gen_models.py:170 | `[value for _, value in d.items()]`: one value per entry, in the dictionary's order. |
| Base.PutGet | src/models/gen_models.py:185 | After `d[k] = v`, key `k` reads `v` and every other key reads what it read before. |
| Base.PutExisting | src/models/gen_models.py:178 | Writing an existing key overwrites it in place and keeps the dictionary's order. |
| Base.UpdateFresh | src/models/gen_models.py:178 | `d.update(e)` with distinct keys not in `d` appends `e`'s entries in order. |
| Base.UpdateThenPut | src/models/gen_models.py:178-185 | An update with fresh keys, then a write of a fresh key, lays out the old entries, the new ones, then that key, with distinct keys. |
| Scalar.MeanOver | src/models/gen_models.py:148-161 | A sum divided by a count is defined exactly when the sum is defined and the count is positive, and is then their quotient; a zero count gives NaN, as `0/0` does. |
| Scalar.Add | src/models/gen_models.py:150-152 | A sum of two loss values is defined exactly when both are, and is then their real sum; NaN absorbs the sum. |
| Scalar.Scale | src/models/gen_models.py:176-184 | A weight times a loss value is defined exactly when the value is, and is then the real product. |
| Scalar.NumSum | src/models/gen_models.py:169-171 | Defines `torch.sum` over scalar tensors and a chain of `+=`: the terms added from the right, starting from 0. Scalar.NumSumFinite states its value. |
| Scalar.NumSumFinite | src/models/gen_models.py:169-171 | A sum of loss values is NaN exactly when one of its terms is, and is otherwise the real sum of the terms. |
| Layout.InputDim | src/models/gen_models.py:29-35 | `input_dim` is `categorical_len` plus the number of numeric features plus one for the delta column when deltas are used. |
| Layout.CategoricalLen | src/models/gen_models.py:251 | Defines `categorical_len = num_embeds * features_emb_dim`, the width of the categorical region; Layout.InputDim and Layout.BlockRange state its place in the row. |
| Layout.StrippedWidth | src/models/gen_models.py:131-134 | After `pred[:, :, :-1]` a row holds the categorical and numeric columns only. |
| Layout.OwnerOfPosition | src/models/gen_models.py:29-35 | Every categorical, numeric or delta column has a position inside the row, and that position belongs to it alone. |
| Layout.PositionOfOwner | src/models/gen_models.py:29-35 | The positions `[0, input_dim)` are exactly those owned by some column, so the blocks, the numeric columns and the delta column partition the row. |
| Layout.BlockRange | src/models/gen_models.py:249-251 | Block `i` ends inside `categorical_len`, and its column `i*d + j` is owned by offset `j` of categorical feature `i`. |
| Layout.CountdownColumn | src/models/gen_models.py:138-153 | On the stripped row, `pred[..., -(N - k)]` is the position of numeric column `k`. That the k-th numeric key holds countdown `N - k` is Objective.MseAccumulates. |
| Layout.NumericColumn | src/models/gen_models.py:142 | Defines `pred[..., -num_val_feature]`: Python's negative index on the stripped width, None where it would raise. Layout.CountdownColumn and Objective.ExtraKeyReadsColumnZero state where it lands. |
| Layout.DeltaIsLast | src/models/gen_models.py:132 | With deltas on, `pred[..., -1]` is the delta column. |
| Layout.PhysionetLayout | configs/data_configs/physionet.py:29-75 | For 3 categorical and 38 numeric features with `features_emb_dim` 8 and deltas on: `input_dim` 63, the numeric keys read columns 24..61, column 62 is the delta, and column 63 is outside the row. |
| Cell.StartState | src/models/gen_models.py:317-318 | Defines the starting state: a missing `hx` is the zero vector of the hidden width, and a given `hx` is used as is. |
| Cell.Shaped | src/models/gen_models.py:298-300 | Defines the output widths the three `nn.Linear` layers are built with: `x2h` and `h2h` give `3*hidden_size`, `mix_global` gives `hidden_size` from `hidden_size + global_hidden_size`. |
| Cell.ComputeGates | src/models/gen_models.py:320-329 | The hidden state is first mixed with the global latent, `gelu(mix_global([global, hx]))`. Reset and update are the sigmoids of the first and second chunks of `x2h(input) + h2h(mixed)`. The candidate is the tanh of the third `x2h` chunk plus the reset-gated third `h2h` chunk. All three have the hidden width. |
| Cell.Blend | src/models/gen_models.py:331 | `hy = u*h + (1-u)*n` has the hidden width and lies componentwise between the mixed state and the candidate when `u` is in [0, 1]. It equals the mixed state where `u` is 1 and the candidate where `u` is 0. |
| Cell.ConvexScalar | src/models/gen_models.py:331 | A convex combination of two reals lies between them. |
| Cell.Forward | src/models/gen_models.py:309-333 | The new state has the hidden width, lies between the mixed state and the candidate wherever the update gate is in [0, 1], and equals the mixed state where the gate is 1. |
| Cell.OutputRange | src/models/gen_models.py:327-331 | With sigmoid in (0, 1) and tanh in (-1, 1), each component of the new state lies between `min(h_mix, -1)` and `max(h_mix, 1)`. |
| Cell.MissingStateIsZero | src/models/gen_models.py:317-318 | Calling the cell with no state equals calling it with the zero state. |
| Decoder.LayerFeed | src/models/gen_models.py:386-397 | Within a timestep, layer 0 reads the input row and layer `k > 0` reads layer `k-1`'s state from the same timestep. Each layer updates its own previous state. |
| Decoder.StackFrom | src/models/gen_models.py:386-397 | Defines the feed between layers at one timestep, from layer `l` up: one new state per remaining layer. Decoder.LayerFeed states the feed. |
| Decoder.Step | src/models/gen_models.py:386-397 | Defines one timestep of the whole stack: one new state per layer. |
| Decoder.HiddenAt | src/models/gen_models.py:385-399 | The layer states after `t` rows keep one state per layer. |
| Decoder.Unroll | src/models/gen_models.py:385-401 | Output row `t` is the top layer's state after input rows `0..t`, one output per input row. |
| Decoder.InitialHidden | src/models/gen_models.py:369-383 | `h0` exists exactly when `hx` is None or has at least `num_layers` layers. Then it has one state per layer: the zero vector of the hidden width for every layer when `hx` is None, otherwise layer `l` of `hx`. |
| Decoder.DecodeSpec | src/models/gen_models.py:364-401 | The forward pass succeeds exactly when `h0` exists, there is at least one layer and at least one timestep. It then yields one row per input row. |
| Decoder.StepLayers | src/models/gen_models.py:386-397 | The inner loop updates the layer array in place to the reference timestep `Step` and returns the last state written. |
| Decoder.Decode | src/models/gen_models.py:364-401 | The whole loop nest over the array of layer states returns exactly `DecodeSpec`, including every failure. |
| Decoder.HiddenPrefix | src/models/gen_models.py:385-399 | The states after `u` rows depend only on those rows, so the decoder is causal. |
| Decoder.SingleLayerIsScan | src/models/gen_models.py:385-401 | With one layer the decoder output is the left scan of the cell over the input rows. |
| Decoder.StackedDecode | src/models/gen_models.py:348-362 | For the stack `__init__` builds, started from zeros, every output row has the decoder's hidden width. |
| Decoder.WellShaped | src/models/gen_models.py:348-362 | Defines the stack `__init__` builds: at least one cell, layer 0 reading `input_size`, every other layer reading `hidden_size`, all with `hidden_size` and the global size. |
| Decoder.StackedCells | src/models/gen_models.py:388-394 | Defines `rnn_cell_list[layer](input, global_hidden, hidden[layer])` as a function of the layer index. Decoder.StackedCellWidth states that on a well-shaped stack it is cell `l`'s forward step with a hidden-width result. |
| Decoder.StackedCellWidth | src/models/gen_models.py:388-394 | On the stack `__init__` builds, layer `l` runs cell `l`'s forward step with its previous state, and the result has the hidden width. |
| Forward.DeltaChannel | src/models/gen_models.py:196-200 | Defines the delta channel: `ts[t+1] - ts[t]` at every step but the last, and 0 at the last. |
| Forward.WithDeltas | src/models/gen_models.py:196-201 | Defines the decoder input: with deltas on, every row carries its delta channel last, with the batch's shape kept; with deltas off, `x` unchanged. Forward.AppendDelta and Forward.DeltaInputIsNextGap give its content. |
| Forward.AppendDelta | src/models/gen_models.py:201 | The delta channel is appended as one last column and leaves the other columns unchanged. |
| Forward.DeltaInputIsNextGap | src/models/gen_models.py:196-201 | Decoder input row `t` carries `ts[t+1] - ts[t]` in its last column. This is the same gap the delta loss compares prediction row `t` with. |
| Forward.GatherLast | src/models/gen_models.py:205-206 | `all_hid[:, seq_lens - 1, :].diagonal().T` succeeds exactly when every index is in range, and gives one row per sequence. |
| Forward.GatherLastRow | src/models/gen_models.py:205-206 | With lengths in `[1, T]`, the latent reads each sequence's last real timestep. A length of 0 wraps to the last padded row. |
| Forward.ForwardSpec | src/models/gen_models.py:194-238 | The prediction has one sequence per input sequence and one row fewer than its input (`[:, :-1, :]`), plus one latent per sequence. |
| Forward.PredictionAlignment | src/models/gen_models.py:214-228 | Prediction row `t` is `out_proj` of the decoder's top state after input rows `0..t` only. The latent is the gathered encoder row after the latent head. |
| Forward.Block | src/models/gen_models.py:267-272 | Defines the view into `(num_embeds, features_emb_dim)`: block `i` is columns `i*d .. (i+1)*d - 1`. |
| Forward.EmbedSpec | src/models/gen_models.py:264-280 | The dictionary has one entry per categorical name, in order. |
| Forward.HeadLogits | src/models/gen_models.py:276-277 | Defines one head's logits: the head applied to block `i` of every row, with the batch's shape kept. |
| Forward.EmbedLookup | src/models/gen_models.py:274-280 | Looking up name `i` gives its own head applied to its own block, at every sequence and timestep. |
| Forward.EmbeddingForward | src/models/gen_models.py:264-280 | The loop that fills the dictionary name by name returns exactly `EmbedSpec`. |
| Loss.ColumnOf | src/models/gen_models.py:142 | Defines `pred[b, :, col]`: column `col` of every row of sequence `b`. |
| Loss.MaskedSquares | src/models/gen_models.py:144-149 | Defines the masked squared errors: kept where the target is nonzero, zeroed where it is 0. |
| Loss.SequenceMse | src/models/gen_models.py:141-151 | Defines one sequence's masked mean: the kept squared errors summed and divided by the number of nonzero targets. |
| Loss.SequenceMseRange | src/models/gen_models.py:148-151 | One sequence's masked mean is defined exactly when some target is nonzero, and is then nonnegative. |
| Loss.Count | src/models/gen_models.py:148-161 | Defines `(x != skip).sum()`: the numeric mask's denominator, the delta mask's denominator and, with skip 0, the number of labels `ignore_index=0` keeps. Loss.CountNone, Loss.CountAll and Loss.CountSome state its value. |
| Loss.NumericLoss | src/models/gen_models.py:141-152 | Defines one numeric feature's loss: the mean over the batch of the per-sequence masked means. |
| Loss.NumericLossNonneg | src/models/gen_models.py:141-152 | A numeric feature's loss, when defined, is nonnegative. |
| Loss.NumericLossUnpadded | src/models/gen_models.py:141-152 | Without padding, with equal lengths, the numeric loss is the plain mean squared error over all B·n positions. |
| Loss.NumericLossPaddedSequence | src/models/gen_models.py:148-152 | A sequence whose targets are all 0 makes its masked mean 0/0, and the feature's loss is NaN. |
| Loss.NumericLossIgnoresPadding | src/models/gen_models.py:148-152 | Predictions at positions whose target is 0 do not change the numeric loss. |
| Loss.DeltaSquares | src/models/gen_models.py:157-160 | Defines one sequence's delta errors: error `t` compares prediction `t` with the gap `ts[t+1] - ts[t]`, and is kept where `ts[t+1]` is not -1. |
| Loss.DeltaLoss | src/models/gen_models.py:156-161 | Defines the intended delta loss: the kept squared gap errors of the whole batch summed and divided by the number of kept positions. |
| Loss.DeltaLossNonneg | src/models/gen_models.py:156-161 | The delta loss is defined exactly when some position is kept, and is then nonnegative. |
| Loss.DeltaLossExact | src/models/gen_models.py:156-161 | Predicting every kept gap exactly gives a delta loss of 0 whenever some position is kept. This is the intended fused mean over all kept positions. |
| Loss.DeltaLossAllPadded | src/models/gen_models.py:159-161 | With no kept position the delta loss is 0/0, NaN. |
| Loss.DeltaLossAsWritten | src/models/gen_models.py:132-161 | Defines the delta loss as the code computes it: with two or more sequences of one prediction step, the (B, B) broadcast table's kept rows over the kept count; otherwise the intended fused mean. |
| Loss.BroadcastRow | src/models/gen_models.py:132-158 | A row of the broadcast table compares one gap with every sequence's single prediction. |
| Loss.DeltaSqueezeCounterexample | src/models/gen_models.py:132-161 | On two sequences of two timesteps predicted exactly, the intended delta loss is 0 but the loss as written is 1. |
| Loss.Trunc | src/models/gen_models.py:285 | `.long()` truncates toward zero: a nonnegative id goes to the greatest integer not above it, a negative one to the least integer not below it. |
| Loss.ShiftedLabels | src/models/gen_models.py:285 | Defines the shifted labels: the ids from the second timestep on, each through `Loss.Trunc`. |
| Loss.CeTerms | src/models/gen_models.py:247 | Defines the per-position terms: the negative log-likelihood of the label, or 0 where the label is the ignored class 0. |
| Loss.CategoricalLoss | src/models/gen_models.py:285-286 | Defines one feature's cross-entropy: the terms at non-ignored labels summed over the batch and divided by their number. |
| Loss.CategoricalIgnoresPadding | src/models/gen_models.py:285-286 | Logits at positions whose label is 0 do not change the cross-entropy. |
| Loss.CategoricalAllIgnored | src/models/gen_models.py:285-286 | A feature whose later ids are all 0 has a 0/0 cross-entropy, NaN. |
| Loss.CategoricalNonnegative | src/models/gen_models.py:286 | With nonnegative per-position terms, a defined cross-entropy is nonnegative. |
| Objective.CeLossesPerFeature | src/models/gen_models.py:282-288 | The cross-entropies succeed exactly when every feature of the distribution is in the payload. They then hold one entry per feature, in order, each that feature's loss against its own ids. |
| Objective.CeLossesUpTo | src/models/gen_models.py:282-288 | Defines the cross-entropy dictionary after the first `n` features, with the KeyError of a missing feature. |
| Objective.EmbeddingLoss | src/models/gen_models.py:282-288 | The loop returns exactly the specification's dictionary, or the KeyError of the first missing feature. |
| Objective.ColumnLoss | src/models/gen_models.py:141-152 | On well-shaped inputs, the loss of one feature read at a column is its numeric loss. |
| Objective.NumericKeys | src/models/gen_models.py:139-140 | Every listed position is a payload key that is not a categorical name. |
| Objective.NumericKeysOrdered | src/models/gen_models.py:139 | The numeric keys are visited in payload order, each once. |
| Objective.NumericKeysComplete | src/models/gen_models.py:139-140 | Every payload key that is not a categorical name is visited. |
| Objective.NumericTerms | src/models/gen_models.py:141-152 | Defines the numeric terms: the j-th numeric key's loss read from column `categorical_len + j`. Objective.MseAccumulates proves the loop sums them. |
| Objective.MseNumericKey | src/models/gen_models.py:140-153 | A numeric key adds the loss of column `width - countdown` and lowers the countdown by one. |
| Objective.MseCategoricalKey | src/models/gen_models.py:140 | A categorical key leaves the total and the countdown alone. |
| Objective.MseUpTo | src/models/gen_models.py:137-153 | Defines `(total_mse_loss, num_val_feature)` after the first `n` payload keys, with the error of an out-of-range column. |
| Objective.MseAccumulates | src/models/gen_models.py:137-153 | With at most N numeric keys the loop never fails. `total_mse_loss` is the sum of their losses, the j-th read from column `categorical_len + j`, and the countdown has fallen by their number. |
| Objective.ExtraKeyReadsColumnZero | src/models/gen_models.py:138-153 | A numeric key beyond the N-th is no error: it reads `pred[..., -0]`, column 0, and the countdown goes to -1. |
| Objective.Totals | src/models/gen_models.py:173-177 | The starting dictionary lists the three totals under their reserved keys, distinct and in order. |
| Objective.Breakdown | src/models/gen_models.py:173-185 | Defines `losses_dict`: the totals, updated with the cross-entropies, then `total_loss` written from the dictionary's MSE entry and the totals. Objective.BreakdownLayout and Objective.BreakdownContents state its content. |
| Objective.BreakdownLayout | src/models/gen_models.py:173-185 | With distinct feature names outside the reserved keys, the dictionary is the three totals, the features in order, then `total_loss`, with distinct keys. |
| Objective.BreakdownContents | src/models/gen_models.py:169-185 | Each reserved key and feature reads its own value. `total_CE_loss` is the sum of the features' losses. `total_loss` is `mse_weight*total_mse + CE_weight*total_CE + delta_loss`, read from the dictionary's own entries. |
| Objective.ReservedNameOverwrites | src/models/gen_models.py:176-185 | A feature named `total_mse_loss` overwrites that entry, and `total_loss` then counts the feature's loss in place of the MSE. |
| Objective.NumericPart | src/models/gen_models.py:133 | Stripping the delta column keeps every other column of every row. |
| Objective.DeltaTerm | src/models/gen_models.py:155-163 | Defines the delta term: the delta loss when deltas are used, 0 otherwise. |
| Objective.DeltaPrediction | src/models/gen_models.py:132 | The predicted delta of row `t` is the row's delta column. |
| Objective.LossSpec | src/models/gen_models.py:125-187 | Defines what `BaseMixin.loss` returns: the numeric loop's error, the cross-entropy loop's error, the error of an empty `torch.cat`, or the breakdown. |
| Objective.ComputeLoss | src/models/gen_models.py:125-187 | The whole loss method returns exactly `LossSpec`, each error included: the numeric loop with its countdown, the delta term, the cross-entropy loop and the dictionary writes. |
| Objective.CeForBreakdown | src/models/gen_models.py:166-171 | With the categorical names present, distinct and outside the reserved keys, the cross-entropies succeed with one fresh entry per feature. |
| Objective.CeValues | src/models/gen_models.py:169-171 | The entries' keys are the categorical names and their values the per-feature losses, in order. |
| Objective.LossSucceeds | src/models/gen_models.py:125-187 | Under those conditions and at most N numeric keys the loss succeeds, with the dictionary built from the numeric total, the delta term and the cross-entropies. |
| Objective.LossBreakdown | src/models/gen_models.py:125-187 | The dictionary lists the totals, every feature and `total_loss`. `total_mse_loss` sums the numeric losses. Each feature's entry is its cross-entropy and `total_CE_loss` their sum. `delta_loss` is the weighted delta loss, or 0 with deltas off. `total_loss` is the weighted sum of the entries. |
| Objective.NoCategoricalFeaturesFails | src/models/gen_models.py:169-171 | With no categorical features `torch.cat` receives an empty list and the loss fails. |
| Objective.MissingFeatureFails | src/models/gen_models.py:285 | A categorical feature missing from the payload makes the loss fail. |

## Left out

- The learned layers are uninterpreted functions: `nn.Linear`, the GRU/LSTM encoder, the norms and the classification heads. Their numerics and parameter initialisation (`reset_parameters`) are not modelled.
- Floating point is modelled by reals. Only the one floating-point outcome the loss depends on, the NaN of `0/0`, is modelled explicitly.
- Dropout (`global_hid_dropout`) is folded into the latent head, and randomness is not modelled.
- The label-smoothed `ce_fn` is built but never called, so it is not modelled. `gt_embedding` is computed but unused, and so is the `ground_truth` argument.
- The Transformer encoder and decoder branches of `__init__` and `forward` are not modelled (`TR`, the positional mask and `encoder_proj`). Neither is the LSTM encoder's separate numerics: it is the same uninterpreted encoder.
- `FeatureProcessor` (the `processor` producing `x` and `time_steps`) is not part of this model. Its outputs are inputs here, and `processor.emb_names` is taken to be the configuration's categorical names in order.
- Tensor broadcasting is modelled only where shapes actually diverge, in the squeezed delta prediction. Everywhere else, shapes are preconditions matching how the model calls the loss.
- Loss.CeTerms: `nll(logits, c)` is an uninterpreted stand-in for `-log_softmax(logits)[c]`. Labels outside the vocabulary, which raise in PyTorch, are not modelled.
- Objective.ColumnLoss: for shapes that never occur it returns NaN instead of raising. They are excluded by the preconditions of `Objective.ComputeLoss`.
- Objective.LossSpec, Objective.ComputeLoss, Objective.DeltaTerm, Objective.LossSucceeds, Objective.LossBreakdown: the delta term is the corrected `Loss.DeltaLoss`, so the whole-loss theorems describe the objective the code evidently intends. For two or more sequences with one prediction step each, they do not match the program's squeeze-broadcast value. That value is kept separately in `Loss.DeltaLossAsWritten` (see Findings).
- Decoder.StackedCells: a layer index or width the stack was not built for leaves the state unchanged, where `nn.Linear` would raise. That case never arises for a well-shaped stack (`Decoder.StackedDecode`), and the raise is not modelled.
- Forward.ForwardSpec: requires at least one timestep per sequence (`Forward.Aligned`). With zero timesteps the program raises, in the delta-channel concatenation or in the recurrent encoder, and that raise is not modelled.
- Forward.ForwardSpec: only the recurrent-encoder, GRU-decoder path is modelled. `use_deltas` toggles the delta channel, and the cell is the abstract `CellFn` of the decoder.
- Storage, training scripts, data loading and the configurations are not part of this model; one configuration serves as a witness in `Layout.PhysionetLayout`.

Notes on behaviour that differs from a natural reading:

- A sequence whose numeric targets are all 0 is not excluded from the batch mean. Its masked mean is 0/0 and the feature's loss becomes NaN (`Loss.NumericLossPaddedSequence`).
- The countdown `num_val_feature` does advance once per numeric key. A key beyond the N-th silently reads column 0 (`Objective.ExtraKeyReadsColumnZero`).
- A categorical feature named like a reserved key overwrites that entry (`Objective.ReservedNameOverwrites`).

## Findings

| source | as written | input that shows it | evidently intended | confidence | as-written member | corrected member |
|---|---|---|---|---|---|---|
| src/models/gen_models.py:132 | `pred[:, :, -1].squeeze(-1)` also removes the time axis when it has length 1. For two or more sequences, `MSELoss` then broadcasts the (B, 1) gaps against the (B,) predictions into a (B, B) table of cross terms. | time steps `[[0, 1], [0, 2]]` with predicted deltas `[[1], [2]]`: both gaps are predicted exactly, yet the loss as written is 1 | one squared error per kept (sequence, position) pair, averaged over the kept positions: 0 here | not executed | Loss.DeltaLossAsWritten, Loss.DeltaSqueezeCounterexample | Loss.DeltaLoss, Loss.DeltaLossExact |
