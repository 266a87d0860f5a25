# behavenet losses and VAEGAN loss bookkeeping, in Dafny

This project models two pieces of behavenet's pure numerical logic over exact
real numbers.

**The loss primitives of `behavenet/fitting/losses.py`:**
- the masked mean squared error;
- the Gaussian log-likelihood and its affine conversion back to an mse;
- the closed-form KL divergence to a standard normal;
- the two unsummed Gaussian log-density helpers;
- the minibatch-weighted-sampling decomposition of the KL term into:
  - the index-code mutual information;
  - the total correlation;
  - the dimension-wise KL;
- the subspace-overlap penalty.

**The bookkeeping of `behavenet/models/vaegan.py`:**
- the constructor's rejection of linear models;
- the per-epoch KL weight (beta) schedule;
- the model-type check of `build_model`;
- `loss`, which:
  - splits a batch into `ceil(B / chunk_size)` chunks;
  - scores each chunk with `gaussian_ll` and `kl_div_to_std_normal`;
  - combines the two as `-ll + beta * kl`;
  - reports averages weighted by chunk size.

**Data.** Data are matrices (`seq<seq<real>>`): one row per frame, with the
non-frame axes flattened. A mask is `Option<Matrix>`.

**Elementary functions.** `exp`, `log` and `logsumexp` are never interpreted.
They are fields of `Elementary.Ops`, passed as a parameter. The only facts used
about them are hypotheses named in contracts:
- `ExpZero`: `exp(0) == 1`;
- `ExpPositive`: `exp > 0`;
- `LogSumExpSingleton`: the log-sum-exp of a single value is that value.

`log(2 pi)` is `Ln2Pi`, with pi written as the float64 literal
3.141592653589793.

**The network.** It is a caller-supplied function `Network` from (position in
the batch, frame) to (reconstruction, mean, log variance). The position lets
the sampling noise of `reparameterize` differ from frame to frame.

**Modules:**
- `Results` (results.dfy): `Option` and `Result`.
- `Elementary` (elementary.dfy): the elementary-function parameter.
- `RealArrays` (real_arrays.dfy): sums, means, matrices and the reduction lemmas.
- `Losses` (losses.dfy): losses.py.
- `Vaegan` (vaegan.dfy): vaegan.py.

## Model

A few helpers are sub-expressions of the members listed below and have no row
of their own:
- `Losses.LogQz`, `Losses.LogQzDiag`, `Losses.LogQzProduct` and `Losses.LogPzProduct` are the `log_qz`, `log_qz_`, `log_qz_product` and `log_pz_product` tensors of losses.py.
- `Vaegan.ChunkLl`, `Vaegan.ChunkKl` and `Vaegan.CombineLoss` are the `loss_ll`, `loss_kl` and `loss` lines of the chunk loop.

| member | source | states |
|---|---|---|
| Losses.Mse | behavenet/fitting/losses.py:35-58 | the mse is the mean of the masked squared error over every entry, masked-out ones included; it is non-negative for any non-negative mask, and without a mask it is 0 exactly when prediction equals target |
| Losses.MseAllOnesMask | behavenet/fitting/losses.py:55-58 | an all-ones mask gives the same mse as no mask |
| Losses.MseIgnoresMaskedEntry | behavenet/fitting/losses.py:44-58 | a prediction entry whose mask entry is 0 does not contribute: changing it leaves the mse unchanged |
| Losses.MseZeroIffAgreeUnmasked | behavenet/fitting/losses.py:44-58 | with a 0/1 mask the mse is 0 exactly when prediction and target agree wherever the mask is 1 |
| Losses.SqErrFacts | behavenet/fitting/losses.py:55-58 | the total masked squared error is non-negative for a non-negative mask, and without a mask it is 0 exactly when prediction equals target |
| Losses.GaussianLl | behavenet/fitting/losses.py:61-95 | for frames with at least one entry, the mean per-frame log-likelihood equals the affine image of the batch mse: `-(0.5 log 2pi + 0.5 log std^2) n_dims - 0.5/std^2 * n_dims * mse`; for frames with no entries (`n_dims = 0`) it is 0 |
| Losses.GaussianLlIgnoresMaskedEntry | behavenet/fitting/losses.py:70-95 | a prediction entry whose mask entry is 0 does not contribute: changing it leaves the log-likelihood unchanged |
| Losses.GaussianLlNoDims | behavenet/fitting/losses.py:83-95 | with `n_dims = 0` every frame's log-likelihood, and so their mean, is 0 |
| Losses.GaussianLlIsMeanAffine | behavenet/fitting/losses.py:83-95 | averaging the per-frame log-likelihoods commutes with the affine map from row-summed squared error |
| Losses.GaussianLlOfMseInjective | behavenet/fitting/losses.py:92-93 | for a non-zero std and at least one dimension, two mse values with the same log-likelihood are equal |
| Losses.Precision | behavenet/fitting/losses.py:92 | the factor `0.5 / std^2` is positive for every non-zero std |
| Losses.GaussianLlToMse | behavenet/fitting/losses.py:98-126 | the conversion is affine in the log-likelihood, and it inverts the log-likelihood of an mse scaled by `mse_std^2` |
| Losses.GaussianLlToMseSlope | behavenet/fitting/losses.py:123-125 | the factor `gaussian_std^2 / 0.5 / n_dims / mse_std^2` is never negative, and positive exactly when `gaussian_std != 0` |
| Losses.GaussianLlToMseDecreasing | behavenet/fitting/losses.py:121-126 | for a non-zero Gaussian std the conversion is strictly decreasing: a larger log-likelihood gives a smaller mse |
| Losses.GaussianLlRoundTrip | behavenet/fitting/losses.py:83-95 | converting `gaussian_ll(p, t, m, std)` back with the same std and `n_dims = prod(shape[1:])` gives `mse(p, t, m)` |
| Losses.PerfectReconstructionMse | behavenet/fitting/losses.py:121-126 | a perfect reconstruction converts back to an mse of 0 |
| Losses.KlDivToStdNormal | behavenet/fitting/losses.py:129-146 | the KL averaged over frames is 0 when every mean and log variance is 0 and `exp(0) == 1` |
| Losses.KlZeroAtStdNormal | behavenet/fitting/losses.py:145-146 | each frame's closed-form KL, and so their mean, vanishes at the standard normal |
| Losses.GaussianLogDensityUnsummedStdNormal | behavenet/fitting/losses.py:364-371 | the standard-normal log-density is at most `-0.5 log 2pi`, reached exactly at 0 |
| Losses.GaussianLogDensityUnsummed | behavenet/fitting/losses.py:353-361 | the log-density peaks at the mean at `-0.5 (logvar + log 2pi)`, reaches the peak only there when exp is positive, and with log variance 0 equals the standard-normal density of `z - mu` |
| Losses.DensityFacts | behavenet/fitting/losses.py:357-361 | the scaled squared deviation `exp(-logvar) (z - mu)^2` is 0 at the mean, non-negative and 0 only at the mean when exp is positive, and the plain squared deviation at log variance 0 |
| Losses.SingleFrameCollapse | behavenet/fitting/losses.py:176-186 | with one frame, both log-sum-exp reductions of the density tensor collapse onto its diagonal |
| Losses.SingleFrameTerms | behavenet/fitting/losses.py:343-348 | with one frame, the index-code and total-correlation terms vanish and the dimension-wise term is the frame's log-ratio of posterior to prior |
| Losses.IndexCodeMi | behavenet/fitting/losses.py:149-188 | the mean of diagonal minus joint log-density is 0 for a single frame |
| Losses.TotalCorrelation | behavenet/fitting/losses.py:191-240 | the mean of joint minus product-of-marginals log-density is 0 for a single frame |
| Losses.DimensionWiseKl | behavenet/fitting/losses.py:243-280 | for a single frame, the mean of product-of-marginals minus prior log-density is the frame's own log-ratio |
| Losses.DecomposedKl | behavenet/fitting/losses.py:283-350 | the three terms equal the standalone estimators on the same inputs, and they sum to the mean of diagonal log-density minus prior log-density, for any log-sum-exp |
| Losses.LogQzDiagAtMean | behavenet/fitting/losses.py:353-361 | a sample at its own posterior mean has diagonal log-density `-0.5 (sum of log variances + n_dims log 2pi)` |
| Losses.OverlapResidualFacts | behavenet/fitting/losses.py:390-393 | the total of `(C C^T - I)^2` is non-negative and is 0 exactly when the rows of C are orthonormal |
| Losses.SubspaceOverlap | behavenet/fitting/losses.py:374-393 | the overlap of the stacked rows of A and B is non-negative and is 0 exactly when those rows are orthonormal |
| RealArrays.MeanTelescope | behavenet/fitting/losses.py:345-347 | three consecutive mean differences add up to the mean of the outer difference |
| Vaegan.Linspace | behavenet/models/vaegan.py:76 | the ramp has n entries, starts at 0, ends at the stop value when n >= 2, and has equal steps |
| Vaegan.LinspaceEntry | behavenet/models/vaegan.py:76 | entry k of an n-point ramp from 0 to stop, n >= 2, is `k * stop / (n - 1)` |
| Vaegan.Filled | behavenet/models/vaegan.py:77-79 | `np.ones(n)` scaled by a value has n entries all equal to that value, and is a negative-dimension error for n < 0 |
| Vaegan.BetaSchedule | behavenet/models/vaegan.py:72-79 | with annealing, the schedule has `anneal + max_n_epochs + 1` entries: the ramp, then ones; otherwise `max_n_epochs + 1` copies of beta; it fails exactly when `max_n_epochs + 1 < 0`, with numpy's negative-dimension error |
| Vaegan.AnnealedRamp | behavenet/models/vaegan.py:75-76 | for at least two annealing epochs, entry k of the ramp is `k * beta / (anneal - 1)` |
| Vaegan.New | behavenet/models/vaegan.py:66-79 | a linear model type fails before anything else; otherwise a `max_n_epochs` below -1 gives the negative-dimension error, and else the hyperparameters become variational, the epoch counter is 0 and the schedule is as above |
| Vaegan.FreshBetaWithoutAnnealing | behavenet/models/vaegan.py:78-79 | without annealing, a freshly built model's weight at its current epoch is `vae.beta` |
| Vaegan.FreshBetaWithAnnealing | behavenet/models/vaegan.py:74-76 | with annealing, a freshly built model's weight at its current epoch is 0 |
| Vaegan.BuildModel | behavenet/models/vaegan.py:81-90 | the hidden layer size is always set to the latent count, and the model type is rejected exactly when it is not `conv` |
| Vaegan.BetaAt | behavenet/models/vaegan.py:152 | the lookup succeeds exactly for Python-valid indices (negative ones count from the end) and returns that entry |
| Vaegan.NumChunks | behavenet/models/vaegan.py:154-155 | for a positive chunk size the chunk count is the ceiling of `B / chunk_size`: that many chunks cover B and one fewer do not; for a negative size it is not positive |
| Vaegan.CeilDivision | behavenet/models/vaegan.py:155 | `(B + c - 1) / c` is the least count of size-c blocks that covers B |
| Vaegan.ChunkBounds | behavenet/models/vaegan.py:162-164 | each chunk is a non-empty range inside the batch of at most chunk_size frames that starts where the earlier chunks stop; all but the last are full and the last ends at B |
| Vaegan.ChunkMembership | behavenet/models/vaegan.py:162-166 | every frame lies in the chunk numbered `frame / chunk_size` and in no other |
| Vaegan.AllChunksCover | behavenet/models/vaegan.py:155-164 | together the chunks cover the whole batch |
| Vaegan.ChunkSizesSum | behavenet/models/vaegan.py:162-164 | the chunk sizes add up to the frames covered, and over all chunks to B |
| Vaegan.SingleChunk | behavenet/models/vaegan.py:155-164 | a chunk size of at least B gives exactly one chunk, the whole batch |
| Vaegan.ChunkShapes | behavenet/models/vaegan.py:166-168 | a slice of well-shaped inputs, with its mask slice and the network's outputs, is a valid input to `gaussian_ll` and `kl_div_to_std_normal` |
| Vaegan.FrameLlInChunk | behavenet/models/vaegan.py:166-171 | frame i of a chunk starting at `beg` has the log-likelihood of frame `beg + i` of the batch |
| Vaegan.FrameKlInChunk | behavenet/models/vaegan.py:166-174 | frame i of a chunk starting at `beg` has the KL term of frame `beg + i` of the batch |
| Vaegan.SliceFrames | behavenet/models/vaegan.py:166-174 | a frame's log-likelihood and KL terms do not depend on the chunk it is scored in |
| Vaegan.ChunkLlWeighted | behavenet/models/vaegan.py:171-184 | a chunk's log-likelihood times its size is the sum of its frames' log-likelihoods |
| Vaegan.ChunkKlWeighted | behavenet/models/vaegan.py:174-185 | a chunk's KL times its size is the sum of its frames' KL terms |
| Vaegan.MeanWeighted | behavenet/models/vaegan.py:183-185 | a mean weighted by the number of its terms is their sum |
| Vaegan.CombineStep | behavenet/models/vaegan.py:177-185 | adding a chunk keeps the loss sum equal to `-ll_sum + beta * kl_sum` |
| Vaegan.ToMseStep | behavenet/models/vaegan.py:186-187 | adding a chunk keeps the mse sum the affine conversion of the log-likelihood sum over the frames covered |
| Vaegan.AccumulatedInitially | behavenet/models/vaegan.py:157-160 | the zero accumulators are the sums over no frames |
| Vaegan.ChunkStep | behavenet/models/vaegan.py:163-187 | one pass of the loop turns sums over the frames before a chunk into sums over the frames up to its end |
| Vaegan.AccumulateChunks | behavenet/models/vaegan.py:154-187 | with a positive chunk size the four sums cover every frame; with a negative one they stay 0 |
| Vaegan.PerFrameTotals | behavenet/models/vaegan.py:189-192 | dividing by B commutes with the loss combination and with the mse conversion |
| Vaegan.ChunkLlRoundTrip | behavenet/models/vaegan.py:171-187 | converting a chunk's log-likelihood back gives the chunk's mse |
| Vaegan.WholeBatchReport | behavenet/models/vaegan.py:183-196 | the log-likelihood and KL are means over all frames, the loss is `-ll + beta * kl`, and the mse is both the conversion of the reported log-likelihood and the reconstruction's mse |
| Vaegan.AccumulatedReport | behavenet/models/vaegan.py:189-196 | sums covering every frame, divided by B, give the whole-batch report |
| Vaegan.Loss | behavenet/models/vaegan.py:121-198 | an IndexError exactly when the epoch is outside the schedule; a ZeroDivisionError for chunk size 0 or an empty batch; for every positive chunk size the whole-batch report with this epoch's beta; for a negative chunk size an all-zero report |

## Left out

- I/O, autograd (`loss.backward()`), `.item()` and the `accumulate_grad` parameter: they do not change the returned numbers.
- The `dataset` parameter of `loss` is passed to `forward` (behavenet/models/vaegan.py:168), which uses it to pick session-specific encoder and decoder layers. It therefore changes `x_hat`, `mu` and `logvar`. It has no parameter of its own here: the caller-supplied `Network` is the network for that dataset.
- Floating-point rounding, and the stabilising shift inside `torch.logsumexp`: all arithmetic is exact and `exp`/`log`/`logsumexp` are uninterpreted.
- The encoder, the decoder, `reparameterize` and the layers that `build_model` constructs: the network is a caller-supplied per-frame function. `forward` with `use_mean=False` is that function, with the frame's batch position standing in for the random draw.
- `GaussianNegLogProb`: it wraps torch's `MultivariateNormal`, whose code is not part of this model.
- The `VAE`/`BaseModel` superclass initialiser and the hparams dictionary plumbing are not part of this model. Whether the constructor calls `build_model` is not visible, so `New` and `BuildModel` are separate.
- Tensor broadcasting and arbitrary rank: data are 2-D, with the non-frame axes flattened, and the density tensor is a function of (j, i, l).
- Losses.GaussianLl: the standard deviation must be non-zero (`requires std != 0`), so the model drops an error path. At std 0 `np.log(0)` only warns, but `0.5 / (std ** 2)` divides a Python number (the default `std=1` is an int) by 0 and raises ZeroDivisionError.
- Losses.Mse, Losses.GaussianLl, Losses.KlDivToStdNormal, Losses.IndexCodeMi, Losses.TotalCorrelation, Losses.DimensionWiseKl, Losses.DecomposedKl, Losses.SubspaceOverlap: batches with no frames are excluded by `requires` (`LatentShape` demands `|z| > 0`, and `SubspaceOverlap` demands `|a| + |b| > 0`, that is d > 0). `torch.mean` of an empty tensor is NaN, not an error, and NaN is not modelled.
- Losses.Mse: frames with no entries are excluded by `requires` too, for the same reason (the mean over zero entries is NaN). `Losses.GaussianLl` admits them and returns 0, as the source does.
- Losses.GaussianLlToMse: `requires n_dims > 0 && mse_std != 0`, so three source behaviours are not modelled. At `mse_std == 0`, `1.0 / (mse_std ** 2)` raises ZeroDivisionError. At `n_dims == 0`, `llc /= n_dims` gives inf or NaN. At `gaussian_std == 0`, the source gives NaN: `log(0)` is -inf, and it is then multiplied by `-0.0`. The model instead returns the affine value with an uninterpreted `log(0)`, and no contract claims that value matches the source.
- Vaegan.Loss: frames must have at least one entry, and the network must return one reconstruction entry per input entry and means and log variances of one length. Shape errors raised inside torch are not modelled.
- Vaegan.Loss: the model is an immutable value, so "loss changes neither the epoch counter nor the schedule" holds by construction and has no contract of its own.

## Notes on the source

- After the annealing ramp, the schedule continues with ones (`np.ones`), not with `vae.beta`. The model follows the code: `Vaegan.BetaSchedule` states the tail is 1.0.
- The docstring of `subspace_overlap` describes a Frobenius norm of `A B^T`. The code computes the mean of `(C C^T - I)^2` over the stacked rows `C`, and the model follows the code.
- The docstring of `gaussian_ll_to_mse` warns that values are wrong when the log-likelihood was computed with masks. The `n_dims` of `gaussian_ll` counts masked-out entries, and the mean of `mse` divides by every entry, masked or not. So the round trip in `Losses.GaussianLlRoundTrip` holds with masks too.
- A negative `chunk_size` makes `ceil(B / chunk_size)` non-positive, so the loop does not run. `loss` then reports all four values as 0 with no error. That report breaks the relation "loss_mse is the conversion of loss_ll", because the conversion of 0 is not 0.
