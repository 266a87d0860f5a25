/** The bookkeeping of `behavenet/models/vaegan.py`: the constructor's rejection
    of linear models and its KL-weight (beta) schedule, the model-type check of
    `build_model`, and `loss`, which splits a batch into chunks, combines each
    chunk's Gaussian log-likelihood and KL term, and reports size-weighted
    averages. The network is a per-frame function supplied by the caller. */
module Vaegan {
  import opened Results
  import opened RealArrays
  import opened Elementary
  import opened Losses

  // ---------------------------------------------------------------------------
  // Configuration, construction and the beta schedule
  // ---------------------------------------------------------------------------

  /** The hyperparameters the constructor and `build_model` read or write.
      `annealEpochs` is `None` when the key 'vae.beta_anneal_epochs' is absent. */
  datatype HParams = HParams(
    modelType: string,
    beta: real,
    annealEpochs: Option<int>,
    maxNEpochs: int,
    nAeLatents: int,
    variational: bool,
    hiddenLayerSize: Option<int>)

  datatype ConfigError =
    | NotImplemented                    // `raise NotImplementedError` for linear models
    | InvalidModelType(modelType: string) // `ValueError` from `build_model`
    | NegativeDimensions                // numpy's `ValueError` for a negative array length

  /** The state the loss reads: hyperparameters, the per-epoch beta values and the
      epoch counter the training script advances. */
  datatype Model = Model(hparams: HParams, betaVals: seq<real>, currEpoch: int)

  /** `np.linspace(0, stop, n)` for `n >= 1`. */
  function Linspace(stop: real, n: nat): (r: seq<real>)
    requires n >= 1
    ensures |r| == n && r[0] == 0.0
    ensures r[n - 1] == stop || n == 1
    ensures forall k :: 0 <= k < n - 1 ==> r[k + 1] - r[k] == r[1] - r[0]
  {
    if n == 1 then [0.0]
    else
      var step := stop / ((n - 1) as real);
      var r := seq(n, k requires 0 <= k < n => (k as real) * step);
      assert r[n - 1] == ((n - 1) as real) * step;
      r
  }

  /** `np.ones(n)` times `value`; a negative length is numpy's ValueError. */
  function Filled(value: real, n: int): (r: Result<seq<real>, ConfigError>)
    ensures r.Ok? <==> n >= 0
    ensures n < 0 ==> r == Err(NegativeDimensions)
    ensures r.Ok? ==> |r.value| == n && forall k :: 0 <= k < n ==> r.value[k] == value
  {
    if n < 0 then Err(NegativeDimensions) else Ok(seq(n, k requires 0 <= k < n => value))
  }

  /** The schedule the constructor stores in `beta_vals`: with annealing, a linear
      ramp from 0 to beta over the annealing epochs followed by max_n_epochs + 1
      ones; otherwise beta for each of the max_n_epochs + 1 epochs. */
  function BetaSchedule(beta: real, annealEpochs: int, maxNEpochs: int): (r: Result<seq<real>, ConfigError>)
    ensures r.Ok? <==> maxNEpochs + 1 >= 0
    ensures maxNEpochs + 1 < 0 ==> r == Err(NegativeDimensions)
    ensures r.Ok? && annealEpochs > 0 ==>
      && |r.value| == annealEpochs + maxNEpochs + 1
      && r.value[..annealEpochs] == Linspace(beta, annealEpochs)
      && forall k :: annealEpochs <= k < |r.value| ==> r.value[k] == 1.0
    ensures r.Ok? && annealEpochs <= 0 ==>
      && |r.value| == maxNEpochs + 1
      && forall k :: 0 <= k < |r.value| ==> r.value[k] == beta
  {
    if annealEpochs > 0 then
      match Filled(1.0, maxNEpochs + 1)
      case Err(e) => Err(e)
      case Ok(ones) =>
        var r := Linspace(beta, annealEpochs) + ones;
        assert r[..annealEpochs] == Linspace(beta, annealEpochs);
        Ok(r)
    else
      Filled(beta, maxNEpochs + 1)
  }

  /** The ramp reaches beta exactly on the last annealing epoch, and every entry
      of the ramp is `k * beta / (annealEpochs - 1)`. */
  lemma AnnealedRamp(beta: real, annealEpochs: int, maxNEpochs: int, k: nat)
    requires annealEpochs >= 2 && maxNEpochs >= -1 && k < annealEpochs
    ensures BetaSchedule(beta, annealEpochs, maxNEpochs).value[k]
         == (k as real) * beta / ((annealEpochs - 1) as real)
  {
    var r := BetaSchedule(beta, annealEpochs, maxNEpochs).value;
    assert r[k] == r[..annealEpochs][k];
    LinspaceEntry(beta, annealEpochs, k);
  }

  /** Entry k of a ramp of n >= 2 points from 0 to stop is `k * stop / (n - 1)`. */
  lemma LinspaceEntry(stop: real, n: nat, k: nat)
    requires n >= 2 && k < n
    ensures Linspace(stop, n)[k] == (k as real) * stop / ((n - 1) as real)
  {
    var step := stop / ((n - 1) as real);
    DivideScaled(k as real, stop, (n - 1) as real);
    assert Linspace(stop, n) == seq(n, i requires 0 <= i < n => (i as real) * step);
  }

  lemma DivideScaled(k: real, b: real, n: real)
    requires n > 0.0
    ensures k * (b / n) == k * b / n
  {
  }

  /** `VAEGAN.__init__`: linear models are rejected before anything else happens;
      otherwise the hyperparameters are marked variational, the epoch counter
      starts at 0 and the beta schedule is built from 'vae.beta',
      'vae.beta_anneal_epochs' (default 0) and 'max_n_epochs'. */
  function New(h: HParams): (r: Result<Model, ConfigError>)
    ensures h.modelType == "linear" ==> r == Err(NotImplemented)
    ensures r.Ok? <==> h.modelType != "linear" && h.maxNEpochs >= -1
    ensures h.modelType != "linear" && h.maxNEpochs < -1 ==> r == Err(NegativeDimensions)
    ensures r.Ok? ==>
      && r.value.currEpoch == 0
      && r.value.hparams == h.(variational := true)
      && Ok(r.value.betaVals) == BetaSchedule(h.beta, h.annealEpochs.GetOr(0), h.maxNEpochs)
  {
    if h.modelType == "linear" then Err(NotImplemented)
    else
      var h' := h.(variational := true);
      match BetaSchedule(h'.beta, h'.annealEpochs.GetOr(0), h'.maxNEpochs)
      case Err(e) => Err(e)
      case Ok(betaVals) => Ok(Model(h', betaVals, 0))
  }

  /** `build_model`: 'hidden_layer_size' is set to 'n_ae_latents' first, so the
      update survives the ValueError raised for any model type but 'conv'. */
  function BuildModel(model: Model): (r: (Model, Option<ConfigError>))
    ensures r.1.None? <==> model.hparams.modelType == "conv"
    ensures r.1.Some? ==> r.1.value == InvalidModelType(model.hparams.modelType)
    ensures r.0 == model.(hparams := model.hparams.(hiddenLayerSize := Some(model.hparams.nAeLatents)))
  {
    var model' := model.(hparams := model.hparams.(hiddenLayerSize := Some(model.hparams.nAeLatents)));
    if model.hparams.modelType == "conv" then (model', None)
    else (model', Some(InvalidModelType(model.hparams.modelType)))
  }

  /** `beta_vals[curr_epoch]` with Python's indexing: negative epochs count from
      the end, and anything outside the list is an IndexError (`None`). */
  function BetaAt(betaVals: seq<real>, epoch: int): (r: Option<real>)
    ensures r.Some? <==> -|betaVals| <= epoch < |betaVals|
    ensures 0 <= epoch < |betaVals| ==> r == Some(betaVals[epoch])
    ensures -|betaVals| <= epoch < 0 ==> r == Some(betaVals[|betaVals| + epoch])
  {
    if 0 <= epoch < |betaVals| then Some(betaVals[epoch])
    else if -|betaVals| <= epoch < 0 then Some(betaVals[|betaVals| + epoch])
    else None
  }

  /** A freshly built model reports 'vae.beta' as its weight whenever annealing is off. */
  lemma FreshBetaWithoutAnnealing(h: HParams)
    requires New(h).Ok? && h.annealEpochs.GetOr(0) <= 0 && h.maxNEpochs >= 0
    ensures BetaAt(New(h).value.betaVals, New(h).value.currEpoch) == Some(h.beta)
  {
    var b := New(h).value.betaVals;
    assert |b| == h.maxNEpochs + 1 && b[0] == h.beta;
  }

  /** A freshly built model with annealing starts at weight 0. */
  lemma FreshBetaWithAnnealing(h: HParams)
    requires New(h).Ok? && h.annealEpochs.GetOr(0) > 0
    ensures BetaAt(New(h).value.betaVals, New(h).value.currEpoch) == Some(0.0)
  {
    var b := New(h).value.betaVals;
    var a := h.annealEpochs.GetOr(0);
    assert b[0] == b[..a][0];
  }

  // ---------------------------------------------------------------------------
  // Chunking the batch
  // ---------------------------------------------------------------------------

  /** `int(np.ceil(batch_size / chunk_size))`, for a chunk size that is not zero. */
  function NumChunks(batchSize: nat, chunkSize: int): (r: int)
    requires chunkSize != 0
    ensures chunkSize > 0 ==> r >= 0 && CeilFacts(batchSize, chunkSize, r)
    ensures chunkSize < 0 ==> r <= 0
  {
    if chunkSize > 0 then
      var r := (batchSize + chunkSize - 1) / chunkSize;
      CeilDivision(batchSize, chunkSize, r);
      r
    else
      -(batchSize / -chunkSize)
  }

  /** `n` is the ceiling of `b / c`: `n` chunks of size `c` cover `b`, `n - 1` do not. */
  predicate CeilFacts(b: nat, c: int, n: int)
  {
    n * c >= b && (n - 1) * c < b
  }

  lemma CeilDivision(b: nat, c: int, n: int)
    requires c > 0 && n == (b + c - 1) / c
    ensures n >= 0 && CeilFacts(b, c, n)
  {
    var rem := (b + c - 1) % c;
    assert b + c - 1 == n * c + rem;
    assert (n - 1) * c == n * c - c;
  }

  /** `chunk * chunk_size`. */
  function ChunkBegin(chunk: int, chunkSize: int): int
  {
    chunk * chunkSize
  }

  /** `np.min([(chunk + 1) * chunk_size, batch_size])`. */
  function ChunkEnd(batchSize: nat, chunk: int, chunkSize: int): int
  {
    Min((chunk + 1) * chunkSize, batchSize)
  }

  /** Frames handled by the first `chunks` chunks. */
  function Covered(batchSize: nat, chunkSize: int, chunks: nat): (r: nat)
    ensures r <= batchSize
  {
    if chunkSize <= 0 then 0
    else
      ProductNonnegative(chunks, chunkSize);
      Min(chunks * chunkSize, batchSize)
  }

  lemma ProductNonnegative(a: nat, b: int)
    requires b > 0
    ensures a * b >= 0
  {
  }

  /** Chunk `k` is a non-empty range of at most `chunkSize` frames that starts
      where the previous chunks stop and ends where the next one starts; only
      the last chunk may be shorter, and it ends at the batch size. */
  lemma ChunkBounds(batchSize: nat, chunkSize: int, k: nat)
    requires chunkSize > 0 && k < NumChunks(batchSize, chunkSize)
    ensures 0 <= ChunkBegin(k, chunkSize) < ChunkEnd(batchSize, k, chunkSize) <= batchSize
    ensures ChunkEnd(batchSize, k, chunkSize) - ChunkBegin(k, chunkSize) <= chunkSize
    ensures ChunkBegin(k, chunkSize) == Covered(batchSize, chunkSize, k)
    ensures ChunkEnd(batchSize, k, chunkSize) == Covered(batchSize, chunkSize, k + 1)
    ensures k < NumChunks(batchSize, chunkSize) - 1 ==>
      ChunkEnd(batchSize, k, chunkSize) - ChunkBegin(k, chunkSize) == chunkSize
    ensures k == NumChunks(batchSize, chunkSize) - 1 ==> ChunkEnd(batchSize, k, chunkSize) == batchSize
  {
    var n := NumChunks(batchSize, chunkSize);
    MonotoneProduct(k, n - 1, chunkSize);
    assert ChunkBegin(k, chunkSize) < batchSize;
    assert (k + 1) * chunkSize == k * chunkSize + chunkSize;
    if k < n - 1 {
      MonotoneProduct(k + 1, n - 1, chunkSize);
    }
  }

  lemma MonotoneProduct(a: int, b: int, c: int)
    requires 0 <= a <= b && c > 0
    ensures 0 <= a * c <= b * c
  {
    assert b * c - a * c == (b - a) * c;
  }

  /** All chunks together cover the whole batch. */
  lemma AllChunksCover(batchSize: nat, chunkSize: int)
    requires chunkSize > 0
    ensures Covered(batchSize, chunkSize, NumChunks(batchSize, chunkSize)) == batchSize
  {
  }

  /** Every frame lies in exactly one chunk, the one numbered `frame / chunkSize`;
      so the chunks are pairwise disjoint. */
  lemma ChunkMembership(batchSize: nat, chunkSize: int, frame: nat, k: nat)
    requires chunkSize > 0 && frame < batchSize && k < NumChunks(batchSize, chunkSize)
    ensures frame / chunkSize < NumChunks(batchSize, chunkSize)
    ensures ChunkBegin(k, chunkSize) <= frame < ChunkEnd(batchSize, k, chunkSize) <==> k == frame / chunkSize
  {
    var n := NumChunks(batchSize, chunkSize);
    var q := frame / chunkSize;
    QuotientBounds(frame, chunkSize);
    if q >= n {
      MonotoneProduct(n, q, chunkSize);
    }
    ChunkBounds(batchSize, chunkSize, k);
    if ChunkBegin(k, chunkSize) <= frame < ChunkEnd(batchSize, k, chunkSize) {
      QuotientUnique(frame, chunkSize, k);
    }
  }

  /** `a / c` is the block of size `c` that holds `a`. */
  lemma QuotientBounds(a: nat, c: int)
    requires c > 0
    ensures (a / c) * c <= a < (a / c) * c + c
  {
  }

  /** Only one block of size `c` holds `a`. */
  lemma QuotientUnique(a: nat, c: int, k: int)
    requires c > 0 && k * c <= a < k * c + c
    ensures a / c == k
  {
    var q := a / c;
    QuotientBounds(a, c);
    if q < k {
      MonotoneProduct(q + 1, k, c);
    } else if q > k {
      MonotoneProduct(k + 1, q, c);
    }
  }

  /** Sum of the sizes of the first `chunks` chunks. */
  function SizesUpTo(batchSize: nat, chunkSize: int, chunks: nat): int
  {
    if chunks == 0 then 0
    else SizesUpTo(batchSize, chunkSize, chunks - 1)
         + (ChunkEnd(batchSize, chunks - 1, chunkSize) - ChunkBegin(chunks - 1, chunkSize))
  }

  /** The chunk sizes add up to the frames covered, and over all chunks to the batch size. */
  lemma {:induction false} ChunkSizesSum(batchSize: nat, chunkSize: int, chunks: nat)
    requires chunkSize > 0 && chunks <= NumChunks(batchSize, chunkSize)
    ensures SizesUpTo(batchSize, chunkSize, chunks) == Covered(batchSize, chunkSize, chunks)
    ensures chunks == NumChunks(batchSize, chunkSize) ==> SizesUpTo(batchSize, chunkSize, chunks) == batchSize
  {
    if chunks > 0 {
      ChunkSizesSum(batchSize, chunkSize, chunks - 1);
      ChunkBounds(batchSize, chunkSize, chunks - 1);
    }
    AllChunksCover(batchSize, chunkSize);
  }

  /** When the chunk size is at least the batch size there is one chunk: the batch. */
  lemma SingleChunk(batchSize: nat, chunkSize: int)
    requires 0 < batchSize <= chunkSize
    ensures NumChunks(batchSize, chunkSize) == 1
    ensures ChunkBegin(0, chunkSize) == 0 && ChunkEnd(batchSize, 0, chunkSize) == batchSize
  {
    var n := NumChunks(batchSize, chunkSize);
    if n >= 2 {
      MonotoneProduct(1, n - 1, chunkSize);
    }
  }

  // ---------------------------------------------------------------------------
  // The network, abstracted frame by frame
  // ---------------------------------------------------------------------------

  /** What `forward` yields for one frame: reconstruction, posterior mean, log variance. */
  datatype Encoded = Encoded(xHat: seq<real>, mu: seq<real>, logvar: seq<real>)

  /** The network applied to frame `j` of the batch; the position lets the
      sampling noise of `reparameterize` differ from frame to frame. */
  type Network = (nat, seq<real>) -> Encoded

  /** `forward` on frames that start at batch position `offset`. */
  function Forward(net: Network, x: Matrix, offset: nat): (r: seq<Encoded>)
    ensures |r| == |x|
  {
    seq(|x|, i requires 0 <= i < |x| => net(offset + i, x[i]))
  }

  function XHats(e: seq<Encoded>): (r: Matrix)
    ensures |r| == |e|
  {
    seq(|e|, i requires 0 <= i < |e| => e[i].xHat)
  }

  function Mus(e: seq<Encoded>): (r: Matrix)
    ensures |r| == |e|
  {
    seq(|e|, i requires 0 <= i < |e| => e[i].mu)
  }

  function LogVars(e: seq<Encoded>): (r: Matrix)
    ensures |r| == |e|
  {
    seq(|e|, i requires 0 <= i < |e| => e[i].logvar)
  }

  /** The inputs `loss` works on: a non-empty-framed 2-D batch, a mask of the same
      shape if any, and a network that keeps each frame's shape and gives mean and
      log variance one length. */
  predicate Inputs(net: Network, x: Matrix, m: Option<Matrix>)
  {
    && Rect(x) && (|x| > 0 ==> Width(x) > 0)
    && (m.Some? ==> SameShape(x, m.value))
    && forall j :: 0 <= j < |x| ==>
         |net(j, x[j]).xHat| == |x[j]| && |net(j, x[j]).mu| == |net(j, x[j]).logvar|
  }

  /** `m[idx_beg:idx_end] if m is not None else None`. */
  function SliceMask(m: Option<Matrix>, beg: nat, end: nat): Option<Matrix>
    requires beg <= end && (m.Some? ==> end <= |m.value|)
  {
    if m.None? then None else Some(m.value[beg..end])
  }

  /** The network's outputs on frames `beg` to `end` of the batch. */
  function Chunk(net: Network, x: Matrix, beg: nat, end: nat): seq<Encoded>
    requires beg <= end <= |x|
  {
    Forward(net, x[beg..end], beg)
  }

  /** A chunk of well-shaped inputs is itself a valid input to both loss terms. */
  lemma ChunkShapes(net: Network, x: Matrix, m: Option<Matrix>, beg: nat, end: nat)
    requires Inputs(net, x, m) && beg < end <= |x|
    ensures Compatible(x[beg..end], XHats(Chunk(net, x, beg, end)), SliceMask(m, beg, end))
    ensures SameShape(Mus(Chunk(net, x, beg, end)), LogVars(Chunk(net, x, beg, end)))
    ensures Width(x[beg..end]) == Width(x)
  {
    var xs := x[beg..end];
    var e := Chunk(net, x, beg, end);
    forall i | 0 <= i < |xs|
      ensures |XHats(e)[i]| == |xs[i]| && |Mus(e)[i]| == |LogVars(e)[i]|
    {
      assert xs[i] == x[beg + i];
    }
  }

  /** The chunk that spans the whole batch is the batch. */
  lemma WholeChunk(net: Network, x: Matrix, m: Option<Matrix>)
    requires m.Some? ==> |m.value| == |x|
    ensures x[0..|x|] == x && SliceMask(m, 0, |x|) == m
    ensures Chunk(net, x, 0, |x|) == Forward(net, x, 0)
  {
    assert x[0..|x|] == x;
    if m.Some? {
      assert m.value[0..|x|] == m.value;
    }
  }

  /** Per-frame log-likelihoods of a chunk, as `gaussian_ll` averages them. */
  function ChunkFrameLls(ops: Ops, net: Network, x: Matrix, m: Option<Matrix>, beg: nat, end: nat): (r: seq<real>)
    requires Inputs(net, x, m) && beg < end <= |x|
    ensures |r| == end - beg
  {
    ChunkShapes(net, x, m, beg, end);
    FrameLls(ops, x[beg..end], XHats(Chunk(net, x, beg, end)), SliceMask(m, beg, end), 1.0)
  }

  /** Per-frame KL terms of a chunk, as `kl_div_to_std_normal` averages them. */
  function ChunkFrameKls(ops: Ops, net: Network, x: Matrix, m: Option<Matrix>, beg: nat, end: nat): (r: seq<real>)
    requires Inputs(net, x, m) && beg < end <= |x|
    ensures |r| == end - beg
  {
    ChunkShapes(net, x, m, beg, end);
    FrameKls(ops, Mus(Chunk(net, x, beg, end)), LogVars(Chunk(net, x, beg, end)))
  }

  /** `gaussian_ll(x_in, x_hat, m_in)` on a chunk. */
  function ChunkLl(ops: Ops, net: Network, x: Matrix, m: Option<Matrix>, beg: nat, end: nat): real
    requires Inputs(net, x, m) && beg < end <= |x|
  {
    ChunkShapes(net, x, m, beg, end);
    GaussianLl(ops, x[beg..end], XHats(Chunk(net, x, beg, end)), SliceMask(m, beg, end), 1.0)
  }

  /** `kl_div_to_std_normal(mu, logvar)` on a chunk. */
  function ChunkKl(ops: Ops, net: Network, x: Matrix, m: Option<Matrix>, beg: nat, end: nat): real
    requires Inputs(net, x, m) && beg < end <= |x|
  {
    ChunkShapes(net, x, m, beg, end);
    KlDivToStdNormal(ops, Mus(Chunk(net, x, beg, end)), LogVars(Chunk(net, x, beg, end)))
  }

  /** The masked mse between a chunk and its reconstruction. */
  function ChunkMse(net: Network, x: Matrix, m: Option<Matrix>, beg: nat, end: nat): real
    requires Inputs(net, x, m) && beg < end <= |x|
  {
    ChunkShapes(net, x, m, beg, end);
    Mse(x[beg..end], XHats(Chunk(net, x, beg, end)), SliceMask(m, beg, end))
  }

  /** Slicing the batch commutes with the per-frame log-likelihoods and KL terms:
      a frame's terms do not depend on which chunk it is evaluated in. */
  lemma SliceFrames(ops: Ops, net: Network, x: Matrix, m: Option<Matrix>, beg: nat, end: nat)
    requires Inputs(net, x, m) && beg < end <= |x|
    ensures ChunkFrameLls(ops, net, x, m, beg, end) == ChunkFrameLls(ops, net, x, m, 0, |x|)[beg..end]
    ensures ChunkFrameKls(ops, net, x, m, beg, end) == ChunkFrameKls(ops, net, x, m, 0, |x|)[beg..end]
  {
    var ls, l := ChunkFrameLls(ops, net, x, m, beg, end), ChunkFrameLls(ops, net, x, m, 0, |x|);
    var ks, k := ChunkFrameKls(ops, net, x, m, beg, end), ChunkFrameKls(ops, net, x, m, 0, |x|);
    forall i | 0 <= i < end - beg
      ensures ls[i] == l[beg + i]
    {
      FrameLlInChunk(ops, net, x, m, beg, end, i);
    }
    forall i | 0 <= i < end - beg
      ensures ks[i] == k[beg + i]
    {
      FrameKlInChunk(ops, net, x, m, beg, end, i);
    }
  }

  /** Frame `i` of a chunk has the log-likelihood of frame `beg + i` of the batch. */
  lemma FrameLlInChunk(ops: Ops, net: Network, x: Matrix, m: Option<Matrix>, beg: nat, end: nat, i: nat)
    requires Inputs(net, x, m) && beg < end <= |x| && i < end - beg
    ensures ChunkFrameLls(ops, net, x, m, beg, end)[i] == ChunkFrameLls(ops, net, x, m, 0, |x|)[beg + i]
  {
    WholeChunk(net, x, m);
    assert x[beg..end][i] == x[beg + i];
    assert Chunk(net, x, beg, end)[i] == Chunk(net, x, 0, |x|)[beg + i];
    assert MaskRow(SliceMask(m, beg, end), i) == MaskRow(m, beg + i);
  }

  /** Frame `i` of a chunk has the KL term of frame `beg + i` of the batch. */
  lemma FrameKlInChunk(ops: Ops, net: Network, x: Matrix, m: Option<Matrix>, beg: nat, end: nat, i: nat)
    requires Inputs(net, x, m) && beg < end <= |x| && i < end - beg
    ensures ChunkFrameKls(ops, net, x, m, beg, end)[i] == ChunkFrameKls(ops, net, x, m, 0, |x|)[beg + i]
  {
    WholeChunk(net, x, m);
    assert Chunk(net, x, beg, end)[i] == Chunk(net, x, 0, |x|)[beg + i];
  }

  // ---------------------------------------------------------------------------
  // Per-chunk values and their size weighting
  // ---------------------------------------------------------------------------

  /** `loss = -loss_ll + beta * loss_kl`. */
  function CombineLoss(ll: real, kl: real, beta: real): real
  {
    -ll + beta * kl
  }

  /** `value * (idx_end - idx_beg)`. */
  function Weighted(value: real, beg: int, end: int): real
  {
    value * ((end - beg) as real)
  }

  /** `total / batch_size`. */
  function PerFrame(total: real, batchSize: nat): real
    requires batchSize > 0
  {
    total / (batchSize as real)
  }

  /** The size-weighted sum of mse conversions of chunks whose log-likelihoods
      add up (size-weighted) to `llSum` over `count` frames. */
  function ToMseSum(ops: Ops, nDims: nat, llSum: real, count: int): real
    requires nDims > 0
  {
    Affine(GaussianLlToMseOffset(ops, nDims, 1.0, 1.0) * (count as real), GaussianLlToMseSlope(nDims, 1.0, 1.0), llSum)
  }

  /** A mean weighted by the number of terms is the sum. */
  lemma MeanWeighted(s: seq<real>, beg: int, end: int)
    requires |s| > 0 && |s| == end - beg
    ensures Weighted(Mean(s), beg, end) == Sum(s)
  {
  }

  /** A chunk's log-likelihood, weighted by its size, is the sum of its frames'
      log-likelihoods within the whole batch. */
  lemma ChunkLlWeighted(ops: Ops, net: Network, x: Matrix, m: Option<Matrix>, beg: nat, end: nat)
    requires Inputs(net, x, m) && beg < end <= |x|
    ensures Weighted(ChunkLl(ops, net, x, m, beg, end), beg, end)
         == Sum(ChunkFrameLls(ops, net, x, m, 0, |x|)[..end]) - Sum(ChunkFrameLls(ops, net, x, m, 0, |x|)[..beg])
  {
    var all := ChunkFrameLls(ops, net, x, m, 0, |x|);
    SliceFrames(ops, net, x, m, beg, end);
    MeanWeighted(all[beg..end], beg, end);
    SumSlices(all, beg, end);
  }

  /** A chunk's KL term, weighted by its size, is the sum of its frames' KL terms
      within the whole batch. */
  lemma ChunkKlWeighted(ops: Ops, net: Network, x: Matrix, m: Option<Matrix>, beg: nat, end: nat)
    requires Inputs(net, x, m) && beg < end <= |x|
    ensures Weighted(ChunkKl(ops, net, x, m, beg, end), beg, end)
         == Sum(ChunkFrameKls(ops, net, x, m, 0, |x|)[..end]) - Sum(ChunkFrameKls(ops, net, x, m, 0, |x|)[..beg])
  {
    var all := ChunkFrameKls(ops, net, x, m, 0, |x|);
    SliceFrames(ops, net, x, m, beg, end);
    MeanWeighted(all[beg..end], beg, end);
    SumSlices(all, beg, end);
  }

  /** The four accumulators of `loss`: size-weighted sums of the chunks' loss,
      log-likelihood, KL and mse terms. */
  datatype Sums = Sums(loss: real, ll: real, kl: real, mse: real)

  /** The accumulators after the chunks that cover the first `covered` frames:
      the log-likelihood and KL sums are the sums of those frames' terms, the
      loss sum is their combination, and the mse sum is the affine image of the
      log-likelihood sum. */
  predicate Accumulated(ops: Ops, net: Network, x: Matrix, m: Option<Matrix>, beta: real, covered: nat, s: Sums)
    requires Inputs(net, x, m) && 0 < |x| && covered <= |x|
  {
    && s.ll == Sum(ChunkFrameLls(ops, net, x, m, 0, |x|)[..covered])
    && s.kl == Sum(ChunkFrameKls(ops, net, x, m, 0, |x|)[..covered])
    && s.loss == CombineLoss(s.ll, s.kl, beta)
    && s.mse == ToMseSum(ops, Width(x), s.ll, covered)
  }

  /** Adding a chunk to the accumulators keeps the loss sum the combination of
      the log-likelihood and KL sums. */
  lemma CombineStep(s: Sums, s': Sums, ll: real, kl: real, beta: real, beg: int, end: int)
    requires s.loss == CombineLoss(s.ll, s.kl, beta)
    requires s'.loss == s.loss + Weighted(CombineLoss(ll, kl, beta), beg, end)
    requires s'.ll == s.ll + Weighted(ll, beg, end) && s'.kl == s.kl + Weighted(kl, beg, end)
    ensures s'.loss == CombineLoss(s'.ll, s'.kl, beta)
  {
    var w := (end - beg) as real;
    assert (-ll + beta * kl) * w == -(ll * w) + beta * (kl * w);
  }

  /** Adding a chunk's converted mse keeps the mse sum the affine image of the
      log-likelihood sum, now over the frames up to the chunk's end. */
  lemma ToMseStep(ops: Ops, nDims: nat, s: Sums, s': Sums, ll: real, beg: int, end: int)
    requires nDims > 0 && s.mse == ToMseSum(ops, nDims, s.ll, beg)
    requires s'.ll == s.ll + Weighted(ll, beg, end)
    requires s'.mse == s.mse + Weighted(GaussianLlToMse(ops, ll, nDims, 1.0, 1.0), beg, end)
    ensures s'.mse == ToMseSum(ops, nDims, s'.ll, end)
  {
    var o, k := GaussianLlToMseOffset(ops, nDims, 1.0, 1.0), GaussianLlToMseSlope(nDims, 1.0, 1.0);
    var w := (end - beg) as real;
    assert (o - k * ll) * w == o * w - k * (ll * w);
    assert o * (beg as real) + o * w == o * (end as real);
  }

  /** Before any chunk, the zero accumulators are the sums over no frames. */
  lemma AccumulatedInitially(ops: Ops, net: Network, x: Matrix, m: Option<Matrix>, beta: real)
    requires Inputs(net, x, m) && 0 < |x|
    ensures Accumulated(ops, net, x, m, beta, 0, Sums(0.0, 0.0, 0.0, 0.0))
  {
    assert ChunkFrameLls(ops, net, x, m, 0, |x|)[..0] == [];
    assert ChunkFrameKls(ops, net, x, m, 0, |x|)[..0] == [];
  }

  /** Per frame, the running totals give the whole-batch terms. */
  lemma PerFrameTotals(ops: Ops, nDims: nat, llSum: real, klSum: real, beta: real, n: nat)
    requires nDims > 0 && n > 0
    ensures PerFrame(CombineLoss(llSum, klSum, beta), n)
         == CombineLoss(PerFrame(llSum, n), PerFrame(klSum, n), beta)
    ensures PerFrame(ToMseSum(ops, nDims, llSum, n), n)
         == GaussianLlToMse(ops, PerFrame(llSum, n), nDims, 1.0, 1.0)
  {
    var k := n as real;
    var o, s := GaussianLlToMseOffset(ops, nDims, 1.0, 1.0), GaussianLlToMseSlope(nDims, 1.0, 1.0);
    DivideCombination(llSum, klSum, -1.0, beta, k);
    DivideCombination(k, llSum, o, -s, k);
    assert k / k == 1.0;
  }

  /** Dividing a linear combination divides each of its terms. */
  lemma DivideCombination(a: real, b: real, p: real, q: real, k: real)
    requires k > 0.0
    ensures (p * a + q * b) / k == p * (a / k) + q * (b / k)
  {
    var u, v := a / k, b / k;
    assert a == u * k && b == v * k;
    assert p * a + q * b == (p * u + q * v) * k;
  }

  // ---------------------------------------------------------------------------
  // The loss
  // ---------------------------------------------------------------------------

  /** The numbers `loss` returns, as a record. */
  datatype LossReport = LossReport(loss: real, lossLl: real, lossKl: real, lossMse: real, beta: real)

  datatype LossError =
    | IndexError         // `beta_vals[curr_epoch]` is out of range
    | ZeroDivisionError  // a chunk size of 0, or an empty batch

  /** Converting a chunk's log-likelihood back gives the chunk's mse, and the
      log-likelihood is the one that mse corresponds to. */
  lemma ChunkLlRoundTrip(ops: Ops, net: Network, x: Matrix, m: Option<Matrix>, beg: nat, end: nat)
    requires Inputs(net, x, m) && beg < end <= |x|
    ensures GaussianLlToMse(ops, ChunkLl(ops, net, x, m, beg, end), Width(x), 1.0, 1.0) == ChunkMse(net, x, m, beg, end)
    ensures ChunkLl(ops, net, x, m, beg, end) == GaussianLlOfMse(ops, ChunkMse(net, x, m, beg, end), Width(x), 1.0)
  {
    ChunkShapes(net, x, m, beg, end);
    GaussianLlRoundTrip(ops, x[beg..end], XHats(Chunk(net, x, beg, end)), SliceMask(m, beg, end), 1.0);
  }

  /** The loss terms of the whole batch taken as a single chunk: the
      log-likelihood and KL terms are means over all frames, the loss combines
      them with the one beta, and the mse entry is both the conversion of the
      log-likelihood and the mse of the reconstruction. */
  function WholeBatchReport(ops: Ops, net: Network, x: Matrix, m: Option<Matrix>, beta: real): (r: LossReport)
    requires Inputs(net, x, m) && |x| > 0
    ensures r.loss == CombineLoss(r.lossLl, r.lossKl, beta) && r.beta == beta
    ensures r.lossLl == Mean(ChunkFrameLls(ops, net, x, m, 0, |x|))
    ensures r.lossKl == Mean(ChunkFrameKls(ops, net, x, m, 0, |x|))
    ensures r.lossMse == GaussianLlToMse(ops, r.lossLl, Width(x), 1.0, 1.0)
    ensures r.lossMse == ChunkMse(net, x, m, 0, |x|)
    ensures r.lossLl == GaussianLlOfMse(ops, r.lossMse, Width(x), 1.0)
  {
    var ll := ChunkLl(ops, net, x, m, 0, |x|);
    var kl := ChunkKl(ops, net, x, m, 0, |x|);
    ChunkLlRoundTrip(ops, net, x, m, 0, |x|);
    LossReport(CombineLoss(ll, kl, beta), ll, kl, GaussianLlToMse(ops, ll, Width(x), 1.0, 1.0), beta)
  }

  /** Once the accumulators cover every frame, dividing by the batch size gives
      the whole batch's loss terms. */
  lemma AccumulatedReport(ops: Ops, net: Network, x: Matrix, m: Option<Matrix>, beta: real, s: Sums)
    requires Inputs(net, x, m) && 0 < |x|
    requires Accumulated(ops, net, x, m, beta, |x|, s)
    ensures LossReport(PerFrame(s.loss, |x|), PerFrame(s.ll, |x|), PerFrame(s.kl, |x|), PerFrame(s.mse, |x|), beta)
         == WholeBatchReport(ops, net, x, m, beta)
  {
    var lls, kls := ChunkFrameLls(ops, net, x, m, 0, |x|), ChunkFrameKls(ops, net, x, m, 0, |x|);
    assert lls[..|x|] == lls && kls[..|x|] == kls;
    PerFrameTotals(ops, Width(x), s.ll, s.kl, beta, |x|);
  }

  /** One pass of the chunk loop of `loss`: slice chunk `chunk` of the batch
      and of the mask, run the network, score the chunk with `gaussian_ll` and
      `kl_div_to_std_normal`, combine the two, and add each term weighted by
      the chunk size. Sums that covered the frames before the chunk then cover
      the frames up to its end. */
  method ChunkStep(ops: Ops, net: Network, x: Matrix, m: Option<Matrix>, beta: real, chunkSize: int, chunk: nat, s: Sums)
    returns (s': Sums)
    requires Inputs(net, x, m) && 0 < |x| && chunkSize > 0 && chunk < NumChunks(|x|, chunkSize)
    requires Accumulated(ops, net, x, m, beta, Covered(|x|, chunkSize, chunk), s)
    ensures Accumulated(ops, net, x, m, beta, Covered(|x|, chunkSize, chunk + 1), s')
  {
    var idxBeg := ChunkBegin(chunk, chunkSize);
    var idxEnd := ChunkEnd(|x|, chunk, chunkSize);
    assert 0 <= idxBeg < idxEnd && idxBeg == Covered(|x|, chunkSize, chunk) && idxEnd == Covered(|x|, chunkSize, chunk + 1) by {
      ChunkBounds(|x|, chunkSize, chunk);
    }
    var lossLl := ChunkLl(ops, net, x, m, idxBeg, idxEnd);
    var lossKl := ChunkKl(ops, net, x, m, idxBeg, idxEnd);
    var loss := CombineLoss(lossLl, lossKl, beta);
    s' := Sums(s.loss + Weighted(loss, idxBeg, idxEnd),
               s.ll + Weighted(lossLl, idxBeg, idxEnd),
               s.kl + Weighted(lossKl, idxBeg, idxEnd),
               s.mse + Weighted(GaussianLlToMse(ops, lossLl, Width(x), 1.0, 1.0), idxBeg, idxEnd));
    assert s'.ll == Sum(ChunkFrameLls(ops, net, x, m, 0, |x|)[..idxEnd]) by {
      ChunkLlWeighted(ops, net, x, m, idxBeg, idxEnd);
    }
    assert s'.kl == Sum(ChunkFrameKls(ops, net, x, m, 0, |x|)[..idxEnd]) by {
      ChunkKlWeighted(ops, net, x, m, idxBeg, idxEnd);
    }
    CombineStep(s, s', lossLl, lossKl, beta, idxBeg, idxEnd);
    ToMseStep(ops, Width(x), s, s', lossLl, idxBeg, idxEnd);
  }

  /** The chunk loop of `loss`. With a positive chunk size the sums cover every
      frame; with a negative one there are no chunks and the sums stay zero. */
  method AccumulateChunks(ops: Ops, net: Network, x: Matrix, m: Option<Matrix>, beta: real, chunkSize: int)
    returns (s: Sums)
    requires Inputs(net, x, m) && chunkSize != 0
    ensures chunkSize > 0 && |x| > 0 ==> Accumulated(ops, net, x, m, beta, |x|, s)
    ensures chunkSize < 0 ==> s == Sums(0.0, 0.0, 0.0, 0.0)
  {
    s := Sums(0.0, 0.0, 0.0, 0.0);
    if chunkSize > 0 && |x| > 0 {
      var nChunks := NumChunks(|x|, chunkSize);
      AccumulatedInitially(ops, net, x, m, beta);
      var chunk := 0;
      while chunk < nChunks
        invariant 0 <= chunk <= nChunks
        invariant Accumulated(ops, net, x, m, beta, Covered(|x|, chunkSize, chunk), s)
      {
        s := ChunkStep(ops, net, x, m, beta, chunkSize, chunk, s);
        chunk := chunk + 1;
      }
      AllChunksCover(|x|, chunkSize);
    }
    // otherwise `range(n_chunks)` is empty and nothing is added
  }

  /** `VAEGAN.loss`: looks up this epoch's beta, runs the chunk loop and
      divides the four sums by the batch size. For every positive chunk size
      the report is the whole batch's loss; a negative chunk size means no
      chunks and an all-zero report. The model is a value and comes back
      unchanged: neither the epoch nor the schedule moves. */
  method Loss(ops: Ops, model: Model, net: Network, x: Matrix, m: Option<Matrix>, chunkSize: int)
    returns (r: Result<LossReport, LossError>)
    requires Inputs(net, x, m)
    ensures BetaAt(model.betaVals, model.currEpoch).None? <==> r == Err(IndexError)
    ensures BetaAt(model.betaVals, model.currEpoch).Some? && (chunkSize == 0 || |x| == 0) ==>
      r == Err(ZeroDivisionError)
    ensures BetaAt(model.betaVals, model.currEpoch).Some? && chunkSize < 0 && |x| > 0 ==>
      r == Ok(LossReport(0.0, 0.0, 0.0, 0.0, BetaAt(model.betaVals, model.currEpoch).value))
    ensures BetaAt(model.betaVals, model.currEpoch).Some? && chunkSize > 0 && |x| > 0 ==>
      r == Ok(WholeBatchReport(ops, net, x, m, BetaAt(model.betaVals, model.currEpoch).value))
  {
    var betaOpt := BetaAt(model.betaVals, model.currEpoch);
    if betaOpt.None? {
      return Err(IndexError);
    }
    var beta := betaOpt.value;
    if chunkSize == 0 {
      return Err(ZeroDivisionError);
    }
    var sums := AccumulateChunks(ops, net, x, m, beta, chunkSize);
    var batchSize := |x|;
    if batchSize == 0 {
      return Err(ZeroDivisionError);
    }
    r := Ok(LossReport(PerFrame(sums.loss, batchSize), PerFrame(sums.ll, batchSize),
                       PerFrame(sums.kl, batchSize), PerFrame(sums.mse, batchSize), beta));
    if chunkSize > 0 {
      AccumulatedReport(ops, net, x, m, beta, sums);
    }
  }
}
