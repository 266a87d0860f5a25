/** The loss primitives and the decomposed-KL estimator of `behavenet/fitting/losses.py`.
    Tensors are fixed at two axes: a batch is n_frames rows, each row the flattened
    non-frame axes. The estimator's 3-index density tensor is a function of (j, i, l). */
module Losses {
  import opened Results
  import opened RealArrays
  import opened Elementary

  // ---------------------------------------------------------------------------
  // Masked squared error and mse
  // ---------------------------------------------------------------------------

  /** Prediction, target and optional mask are 2-D arrays of one shape with at least one frame. */
  predicate Batch(p: Matrix, t: Matrix, m: Option<Matrix>)
  {
    |p| > 0 && Rect(p) && SameShape(p, t) && (m.Some? ==> SameShape(p, m.value))
  }

  /** A `Batch` whose frames have at least one entry, so that a mean over entries
      exists. Written out rather than through `Batch`, which keeps the proofs
      about `Mse` small. */
  predicate Compatible(p: Matrix, t: Matrix, m: Option<Matrix>)
  {
    |p| > 0 && Width(p) > 0 && Rect(p) && SameShape(p, t) && (m.Some? ==> SameShape(p, m.value))
  }

  /** Shapes agree row by row (no emptiness demanded). */
  predicate Aligned(p: Matrix, t: Matrix, m: Option<Matrix>)
  {
    SameShape(p, t) && (m.Some? ==> SameShape(p, m.value))
  }

  predicate NonnegativeMask(m: Option<Matrix>)
  {
    m.Some? ==> forall j, k :: 0 <= j < |m.value| && 0 <= k < |m.value[j]| ==> m.value[j][k] >= 0.0
  }

  predicate AllOnes(w: Matrix)
  {
    forall j, k :: 0 <= j < |w| && 0 <= k < |w[j]| ==> w[j][k] == 1.0
  }

  function MaskRow(m: Option<Matrix>, j: nat): Option<seq<real>>
    requires m.Some? ==> j < |m.value|
  {
    if m.None? then None else Some(m.value[j])
  }

  /** `(p - t) ** 2`, times the mask row when there is one. */
  function SqErrRow(p: seq<real>, t: seq<real>, m: Option<seq<real>>): (r: seq<real>)
    requires |p| == |t| && (m.Some? ==> |m.value| == |p|)
    ensures |r| == |p|
  {
    match m
    case None => seq(|p|, k requires 0 <= k < |p| => (p[k] - t[k]) * (p[k] - t[k]))
    case Some(w) => seq(|p|, k requires 0 <= k < |p| => (p[k] - t[k]) * (p[k] - t[k]) * w[k])
  }

  function SqErr(p: Matrix, t: Matrix, m: Option<Matrix>): (r: Matrix)
    requires Aligned(p, t, m)
    ensures |r| == |p|
  {
    seq(|p|, j requires 0 <= j < |p| => SqErrRow(p[j], t[j], MaskRow(m, j)))
  }

  lemma SqErrFacts(p: Matrix, t: Matrix, m: Option<Matrix>)
    requires Aligned(p, t, m)
    ensures NonnegativeMask(m) ==> Total(SqErr(p, t, m)) >= 0.0
    ensures m.None? ==> (Total(SqErr(p, t, m)) == 0.0 <==> p == t)
  {
    var e := SqErr(p, t, m);
    if NonnegativeMask(m) {
      forall j, k | 0 <= j < |e| && 0 <= k < |e[j]|
        ensures e[j][k] >= 0.0
      {
        SqErrEntryFacts(p, t, m, j, k);
      }
      TotalNonnegative(e);
    }
    if m.None? {
      forall j, k | 0 <= j < |e| && 0 <= k < |e[j]|
        ensures e[j][k] >= 0.0
        ensures e[j][k] == 0.0 <==> p[j][k] == t[j][k]
      {
        SqErrEntryFacts(p, t, m, j, k);
      }
      TotalZeroIff(e);
      if Total(e) == 0.0 {
        forall j | 0 <= j < |p|
          ensures p[j] == t[j]
        {
          assert forall k :: 0 <= k < |p[j]| ==> e[j][k] == 0.0;
        }
      }
    }
  }

  lemma SqErrEntryFacts(p: Matrix, t: Matrix, m: Option<Matrix>, j: nat, k: nat)
    requires Aligned(p, t, m) && j < |p| && k < |p[j]|
    ensures NonnegativeMask(m) ==> SqErr(p, t, m)[j][k] >= 0.0
    ensures m.None? ==> (SqErr(p, t, m)[j][k] == 0.0 <==> p[j][k] == t[j][k])
  {
    var d := p[j][k] - t[j][k];
    var sq := d * d;
    SquareFacts(d, sq);
    match m
    case None =>
      assert SqErr(p, t, m)[j][k] == sq;
    case Some(w) =>
      if w[j][k] > 0.0 {
        ProductPositive(w[j][k], 1.0, w[j][k]);
        if sq > 0.0 {
          ProductPositive(sq, w[j][k], SqErr(p, t, m)[j][k]);
        }
      }
  }

  /** `mse(y_pred, y_true, masks)`: the mean over every entry of the (masked)
      squared difference; masked-out entries still count in the denominator. */
  function Mse(p: Matrix, t: Matrix, m: Option<Matrix>): (r: real)
    requires Compatible(p, t, m)
    ensures NonnegativeMask(m) ==> r >= 0.0
    ensures m.None? ==> (r == 0.0 <==> p == t)
  {
    SqErrFacts(p, t, m);
    EntryMeanSign(SqErr(p, t, m), Width(p));
    EntryMean(SqErr(p, t, m), Width(p))
  }

  /** A mask of ones changes nothing. */
  lemma MseAllOnesMask(p: Matrix, t: Matrix, w: Matrix)
    requires Compatible(p, t, Some(w)) && AllOnes(w)
    ensures Mse(p, t, Some(w)) == Mse(p, t, None)
  {
    forall j | 0 <= j < |p|
      ensures SqErr(p, t, Some(w))[j] == SqErr(p, t, None)[j]
    {
      forall k | 0 <= k < |p[j]|
        ensures SqErrRow(p[j], t[j], Some(w[j]))[k] == SqErrRow(p[j], t[j], None)[k]
      {
        assert w[j][k] == 1.0;
      }
      assert SqErrRow(p[j], t[j], Some(w[j])) == SqErrRow(p[j], t[j], None);
    }
    assert SqErr(p, t, Some(w)) == SqErr(p, t, None);
  }

  /** A prediction entry whose mask entry is 0 does not contribute: changing it
      leaves every squared-error entry, and so the mse, as it was. */
  lemma MseIgnoresMaskedEntry(p: Matrix, t: Matrix, w: Matrix, j: nat, k: nat, v: real)
    requires Compatible(p, t, Some(w)) && j < |p| && k < |p[j]| && w[j][k] == 0.0
    ensures Compatible(p[j := p[j][k := v]], t, Some(w))
    ensures Mse(p[j := p[j][k := v]], t, Some(w)) == Mse(p, t, Some(w))
  {
    var p' := p[j := p[j][k := v]];
    assert Width(p') == Width(p) by {
      if j == 0 {
        assert |p'[0]| == |p[0]|;
      }
    }
    SqErrIgnoresMaskedEntry(p, t, w, j, k, v);
    MseCongruence(p', p, t, Some(w));
  }

  /** The mse depends on the prediction only through the squared error and the shape. */
  lemma MseCongruence(p: Matrix, q: Matrix, t: Matrix, m: Option<Matrix>)
    requires Compatible(p, t, m) && Compatible(q, t, m)
    requires SqErr(p, t, m) == SqErr(q, t, m) && |p| == |q| && Width(p) == Width(q)
    ensures Mse(p, t, m) == Mse(q, t, m)
  {
  }

  lemma SqErrIgnoresMaskedEntry(p: Matrix, t: Matrix, w: Matrix, j: nat, k: nat, v: real)
    requires Aligned(p, t, Some(w)) && j < |p| && k < |p[j]| && w[j][k] == 0.0
    ensures SqErr(p[j := p[j][k := v]], t, Some(w)) == SqErr(p, t, Some(w))
  {
    var p' := p[j := p[j][k := v]];
    var r, r' := SqErrRow(p[j], t[j], Some(w[j])), SqErrRow(p'[j], t[j], Some(w[j]));
    forall l | 0 <= l < |r|
      ensures r'[l] == r[l]
    {
      if l == k {
        assert r[l] == (p[j][k] - t[j][k]) * (p[j][k] - t[j][k]) * 0.0;
      }
    }
    assert r' == r;
    forall i | 0 <= i < |p|
      ensures SqErr(p', t, Some(w))[i] == SqErr(p, t, Some(w))[i]
    {
      if i == j {
        assert SqErr(p', t, Some(w))[i] == r';
      }
    }
  }

  /** Every mask entry is 0 or 1. */
  predicate BinaryMask(w: Matrix)
  {
    forall j, k :: 0 <= j < |w| && 0 <= k < |w[j]| ==> w[j][k] == 0.0 || w[j][k] == 1.0
  }

  /** With a 0/1 mask the mse is 0 exactly when prediction and target agree
      wherever the mask is 1. */
  lemma MseZeroIffAgreeUnmasked(p: Matrix, t: Matrix, w: Matrix)
    requires Compatible(p, t, Some(w)) && BinaryMask(w)
    ensures Mse(p, t, Some(w)) == 0.0 <==>
      forall j, k :: 0 <= j < |p| && 0 <= k < |p[j]| && w[j][k] == 1.0 ==> p[j][k] == t[j][k]
  {
    var e := SqErr(p, t, Some(w));
    EntryMeanSign(e, Width(p));
    assert Total(e) == 0.0 <==>
        forall j, k :: 0 <= j < |p| && 0 <= k < |p[j]| && w[j][k] == 1.0 ==> p[j][k] == t[j][k] by {
      forall j, k | 0 <= j < |e| && 0 <= k < |e[j]|
        ensures e[j][k] >= 0.0
        ensures e[j][k] == 0.0 <==> (w[j][k] == 1.0 ==> p[j][k] == t[j][k])
      {
        var d := p[j][k] - t[j][k];
        SquareFacts(d, d * d);
        assert e[j][k] == d * d * w[j][k];
      }
      TotalZeroIff(e);
    }
  }

  // ---------------------------------------------------------------------------
  // Gaussian log-likelihood and its conversion back to mse
  // ---------------------------------------------------------------------------

  /** Normalising constant per dimension: 0.5 * log(2 pi) + 0.5 * log(std ** 2). */
  function LogNormaliser(ops: Ops, std: real): real
  {
    0.5 * Ln2Pi(ops) + 0.5 * ops.log(std * std)
  }

  /** The weight 1 / (2 std ** 2) that a squared error carries in the log-likelihood. */
  function Precision(std: real): (r: real)
    requires std != 0.0
    ensures r > 0.0
  {
    var sq := std * std;
    SquareFacts(std, sq);
    0.5 / sq
  }

  /** The log-likelihood of a perfect reconstruction of `nDims` dimensions. */
  function PeakLl(ops: Ops, nDims: nat, std: real): real
  {
    -LogNormaliser(ops, std) * (nDims as real)
  }

  /** The Gaussian log-likelihood of `nDims` dimensions whose mean squared error is `mse`. */
  function GaussianLlOfMse(ops: Ops, mse: real, nDims: nat, std: real): real
    requires std != 0.0
  {
    Affine(PeakLl(ops, nDims, std), Precision(std), (nDims as real) * mse)
  }

  /** Distinct mean squared errors have distinct log-likelihoods. */
  lemma GaussianLlOfMseInjective(ops: Ops, a: real, b: real, nDims: nat, std: real)
    requires std != 0.0 && nDims > 0
    requires GaussianLlOfMse(ops, a, nDims, std) == GaussianLlOfMse(ops, b, nDims, std)
    ensures a == b
  {
    var k := Precision(std) * (nDims as real);
    ProductPositive(Precision(std), nDims as real, k);
    assert k * a == k * b;
  }

  /** One frame's log-likelihood: the constant for every dimension, minus the
      scaled squared error summed over the frame. */
  function FrameLl(ops: Ops, p: seq<real>, t: seq<real>, m: Option<seq<real>>, std: real, nDims: nat): real
    requires |p| == |t| && (m.Some? ==> |m.value| == |p|) && std != 0.0
  {
    Affine(PeakLl(ops, nDims, std), Precision(std), Sum(SqErrRow(p, t, m)))
  }

  function FrameLls(ops: Ops, p: Matrix, t: Matrix, m: Option<Matrix>, std: real): (r: seq<real>)
    requires Aligned(p, t, m) && std != 0.0
    ensures |r| == |p|
  {
    seq(|p|, j requires 0 <= j < |p| => FrameLl(ops, p[j], t[j], MaskRow(m, j), std, Width(p)))
  }

  /** `gaussian_ll(y_pred, y_mean, masks, std)`: per-frame log-likelihood with
      n_dims = prod(shape[1:]), averaged over frames. It is the log-likelihood
      that the (masked) mse corresponds to, so masked entries still count in the
      normalising constant; frames without entries have log-likelihood 0. */
  function GaussianLl(ops: Ops, p: Matrix, t: Matrix, m: Option<Matrix>, std: real): (r: real)
    requires Batch(p, t, m) && std != 0.0
    ensures Width(p) > 0 ==> r == GaussianLlOfMse(ops, Mse(p, t, m), Width(p), std)
    ensures Width(p) == 0 ==> r == 0.0
  {
    if Width(p) > 0 then
      GaussianLlIsMeanAffine(ops, p, t, m, std);
      Mean(FrameLls(ops, p, t, m, std))
    else
      GaussianLlNoDims(ops, p, t, m, std);
      Mean(FrameLls(ops, p, t, m, std))
  }

  /** A prediction entry whose mask entry is 0 does not change the log-likelihood. */
  lemma GaussianLlIgnoresMaskedEntry(ops: Ops, p: Matrix, t: Matrix, w: Matrix, std: real, j: nat, k: nat, v: real)
    requires Batch(p, t, Some(w)) && std != 0.0 && j < |p| && k < |p[j]| && w[j][k] == 0.0
    ensures Batch(p[j := p[j][k := v]], t, Some(w))
    ensures GaussianLl(ops, p[j := p[j][k := v]], t, Some(w), std) == GaussianLl(ops, p, t, Some(w), std)
  {
    MseIgnoresMaskedEntry(p, t, w, j, k, v);
  }

  /** With n_dims = 0 every frame's log-likelihood is 0, and so is their mean. */
  lemma GaussianLlNoDims(ops: Ops, p: Matrix, t: Matrix, m: Option<Matrix>, std: real)
    requires Batch(p, t, m) && std != 0.0 && Width(p) == 0
    ensures Mean(FrameLls(ops, p, t, m, std)) == 0.0
  {
    var lls := FrameLls(ops, p, t, m, std);
    forall j | 0 <= j < |p|
      ensures lls[j] == 0.0
    {
      assert SqErrRow(p[j], t[j], MaskRow(m, j)) == [];
    }
    SumZeros(lls);
  }

  lemma GaussianLlIsMeanAffine(ops: Ops, p: Matrix, t: Matrix, m: Option<Matrix>, std: real)
    requires Compatible(p, t, m) && std != 0.0
    ensures Mean(FrameLls(ops, p, t, m, std)) == GaussianLlOfMse(ops, Mse(p, t, m), Width(p), std)
  {
    var lls := FrameLls(ops, p, t, m, std);
    var rows := RowSums(SqErr(p, t, m));
    var a, b := PeakLl(ops, Width(p), std), Precision(std);
    assert Mean(lls) == Affine(a, b, Mean(rows)) by {
      forall k | 0 <= k < |rows|
        ensures lls[k] == Affine(a, b, rows[k])
      {
        assert SqErr(p, t, m)[k] == SqErrRow(p[k], t[k], MaskRow(m, k));
      }
      MeanAffine(rows, lls, a, b);
    }
    AffineOfMeanRowSum(ops, p, t, m, std, Mean(lls));
  }

  /** The affine image of the mean row sum is the log-likelihood of the mse. */
  lemma AffineOfMeanRowSum(ops: Ops, p: Matrix, t: Matrix, m: Option<Matrix>, std: real, y: real)
    requires Compatible(p, t, m) && std != 0.0
    requires y == Affine(PeakLl(ops, Width(p), std), Precision(std), Mean(RowSums(SqErr(p, t, m))))
    ensures y == GaussianLlOfMse(ops, Mse(p, t, m), Width(p), std)
  {
    MeanRowSum(p, t, m);
  }

  /** Per frame, the squared error sums on average to the mse times the frame width. */
  lemma MeanRowSum(p: Matrix, t: Matrix, m: Option<Matrix>)
    requires Compatible(p, t, m)
    ensures Mean(RowSums(SqErr(p, t, m))) == (Width(p) as real) * Mse(p, t, m)
  {
  }

  /** The factor `gaussian_ll_to_mse` scales a log-likelihood by, with its sign
      turned positive: positive for a non-zero Gaussian std, so the conversion
      is decreasing. */
  function GaussianLlToMseSlope(nDims: nat, gaussianStd: real, mseStd: real): (r: real)
    requires nDims > 0 && mseStd != 0.0
    ensures r > 0.0 <==> gaussianStd != 0.0
    ensures r >= 0.0
  {
    var g2, m2 := gaussianStd * gaussianStd, mseStd * mseStd;
    SquareFacts(gaussianStd, g2);
    SquareFacts(mseStd, m2);
    var r := (g2 / 0.5) / (nDims as real) * (1.0 / m2);
    SlopeSign(g2 / 0.5 / (nDims as real), 1.0 / m2, r);
    r
  }

  /** A product with a positive right factor has the sign of its left factor. */
  lemma SlopeSign(a: real, b: real, r: real)
    requires a >= 0.0 && b > 0.0 && r == a * b
    ensures r >= 0.0 && (r > 0.0 <==> a > 0.0)
  {
    if a > 0.0 {
      ProductPositive(a, b, r);
    }
  }

  /** What `gaussian_ll_to_mse` maps a log-likelihood of 0 to. */
  function GaussianLlToMseOffset(ops: Ops, nDims: nat, gaussianStd: real, mseStd: real): real
    requires nDims > 0 && mseStd != 0.0
  {
    -(LogNormaliser(ops, gaussianStd) * (nDims as real)) * GaussianLlToMseSlope(nDims, gaussianStd, mseStd)
  }

  /** `gaussian_ll_to_mse`: add back the constant, undo the variance scaling,
      turn the sum over dimensions into a mean and rescale by the mse variance.
      It is an affine, decreasing map, and it inverts `GaussianLlOfMse` when
      `mseStd` is 1. */
  function GaussianLlToMse(ops: Ops, ll: real, nDims: nat, gaussianStd: real, mseStd: real): (r: real)
    requires nDims > 0 && mseStd != 0.0
    ensures gaussianStd != 0.0 ==>
      GaussianLlOfMse(ops, r * (mseStd * mseStd), nDims, gaussianStd) == ll
    ensures r == Affine(GaussianLlToMseOffset(ops, nDims, gaussianStd, mseStd), GaussianLlToMseSlope(nDims, gaussianStd, mseStd), ll)
  {
    var llc := ll + LogNormaliser(ops, gaussianStd) * (nDims as real);
    var llc := llc * (-(gaussianStd * gaussianStd) / 0.5);
    var llc := llc / (nDims as real);
    var llc := llc * (1.0 / (mseStd * mseStd));
    ToMseFacts(ops, ll, nDims, gaussianStd, mseStd, llc);
    llc
  }

  lemma ToMseFacts(ops: Ops, ll: real, nDims: nat, g: real, ms: real, r: real)
    requires nDims > 0 && ms != 0.0
    requires r == ((ll + LogNormaliser(ops, g) * (nDims as real)) * (-(g * g) / 0.5) / (nDims as real)) * (1.0 / (ms * ms))
    ensures g != 0.0 ==> GaussianLlOfMse(ops, r * (ms * ms), nDims, g) == ll
    ensures r == Affine(GaussianLlToMseOffset(ops, nDims, g, ms), GaussianLlToMseSlope(nDims, g, ms), ll)
  {
    var n := nDims as real;
    var c := LogNormaliser(ops, g);
    var u := ll + c * n;
    UndoScale(u * (-(g * g) / 0.5) / n, ms * ms, r);
    if g != 0.0 {
      var k := Precision(g);
      assert k * n * (u * (-(g * g) / 0.5) / n) == -u;
    }
  }

  lemma UndoScale(a: real, q: real, r: real)
    requires q != 0.0 && r == a * (1.0 / q)
    ensures r * q == a
  {
    assert (1.0 / q) * q == 1.0;
  }

  /** A larger log-likelihood converts to a smaller mse. */
  lemma GaussianLlToMseDecreasing(ops: Ops, a: real, b: real, nDims: nat, gaussianStd: real, mseStd: real)
    requires nDims > 0 && mseStd != 0.0 && gaussianStd != 0.0 && a < b
    ensures GaussianLlToMse(ops, b, nDims, gaussianStd, mseStd) < GaussianLlToMse(ops, a, nDims, gaussianStd, mseStd)
  {
    var k := GaussianLlToMseSlope(nDims, gaussianStd, mseStd);
    ProductPositive(k, b - a, k * (b - a));
    assert k * b - k * a == k * (b - a);
  }

  /** Round trip: converting the log-likelihood of a batch back gives its mse. */
  lemma GaussianLlRoundTrip(ops: Ops, p: Matrix, t: Matrix, m: Option<Matrix>, std: real)
    requires Compatible(p, t, m) && std != 0.0
    ensures GaussianLlToMse(ops, GaussianLl(ops, p, t, m, std), Width(p), std, 1.0) == Mse(p, t, m)
  {
    var ll := GaussianLl(ops, p, t, m, std);
    var r := GaussianLlToMse(ops, ll, Width(p), std, 1.0);
    assert GaussianLlOfMse(ops, r * (1.0 * 1.0), Width(p), std) == ll;
    GaussianLlOfMseInjective(ops, r, Mse(p, t, m), Width(p), std);
  }

  /** A perfect reconstruction converts to an mse of zero. */
  lemma PerfectReconstructionMse(ops: Ops, p: Matrix, std: real)
    requires Compatible(p, p, None) && std != 0.0
    ensures GaussianLlToMse(ops, GaussianLl(ops, p, p, None, std), Width(p), std, 1.0) == 0.0
  {
    GaussianLlRoundTrip(ops, p, p, None, std);
  }

  // ---------------------------------------------------------------------------
  // KL divergence to the standard normal
  // ---------------------------------------------------------------------------

  predicate IsZero(x: Matrix)
  {
    forall j, k :: 0 <= j < |x| && 0 <= k < |x[j]| ==> x[j][k] == 0.0
  }

  function FrameKlTerms(ops: Ops, mu: seq<real>, logvar: seq<real>): (r: seq<real>)
    requires |mu| == |logvar|
    ensures |r| == |mu|
  {
    seq(|mu|, d requires 0 <= d < |mu| => ops.exp(logvar[d]) - logvar[d] + mu[d] * mu[d] - 1.0)
  }

  /** One frame's closed-form KL, summed over latent dimensions. */
  function FrameKl(ops: Ops, mu: seq<real>, logvar: seq<real>): real
    requires |mu| == |logvar|
  {
    0.5 * Sum(FrameKlTerms(ops, mu, logvar))
  }

  function FrameKls(ops: Ops, mu: Matrix, logvar: Matrix): (r: seq<real>)
    requires SameShape(mu, logvar)
    ensures |r| == |mu|
  {
    seq(|mu|, j requires 0 <= j < |mu| => FrameKl(ops, mu[j], logvar[j]))
  }

  lemma SumZeros(s: seq<real>)
    requires forall k :: 0 <= k < |s| ==> s[k] == 0.0
    ensures Sum(s) == 0.0
  {
    SumZeroIff(s);
  }

  /** `kl_div_to_std_normal(mu, logvar)`: the per-frame KL averaged over frames.
      A posterior that already is the standard normal has no divergence. */
  function KlDivToStdNormal(ops: Ops, mu: Matrix, logvar: Matrix): (r: real)
    requires |mu| > 0 && SameShape(mu, logvar)
    ensures ExpZero(ops) && IsZero(mu) && IsZero(logvar) ==> r == 0.0
  {
    KlZeroAtStdNormal(ops, mu, logvar);
    Mean(FrameKls(ops, mu, logvar))
  }

  lemma KlZeroAtStdNormal(ops: Ops, mu: Matrix, logvar: Matrix)
    requires |mu| > 0 && SameShape(mu, logvar)
    ensures ExpZero(ops) && IsZero(mu) && IsZero(logvar) ==> Mean(FrameKls(ops, mu, logvar)) == 0.0
  {
    var kls := FrameKls(ops, mu, logvar);
    if ExpZero(ops) && IsZero(mu) && IsZero(logvar) {
      forall j | 0 <= j < |mu|
        ensures kls[j] == 0.0
      {
        SumZeros(FrameKlTerms(ops, mu[j], logvar[j]));
      }
      SumZeros(kls);
    }
  }

  // ---------------------------------------------------------------------------
  // Unsummed Gaussian log-densities
  // ---------------------------------------------------------------------------

  /** `_gaussian_log_density_unsummed_std_normal`, one entry: largest at the mode 0. */
  function GaussianLogDensityUnsummedStdNormal(ops: Ops, z: real): (r: real)
    ensures r <= -0.5 * Ln2Pi(ops)
    ensures r == -0.5 * Ln2Pi(ops) <==> z == 0.0
  {
    var diffSq := z * z;
    SquareFacts(z, diffSq);
    -0.5 * (diffSq + Ln2Pi(ops))
  }

  /** `_gaussian_log_density_unsummed`, one entry of a diagonal Gaussian with log
      variance `logvar`: its peak -0.5 * (logvar + log(2 pi)) is reached at the
      mean and, when exp is positive, only there; with log variance 0 it is the
      standard-normal density of `z - mu`. */
  function GaussianLogDensityUnsummed(ops: Ops, z: real, mu: real, logvar: real): (r: real)
    ensures z == mu ==> r == -0.5 * (logvar + Ln2Pi(ops))
    ensures ExpPositive(ops) ==> r <= -0.5 * (logvar + Ln2Pi(ops))
    ensures ExpPositive(ops) && r == -0.5 * (logvar + Ln2Pi(ops)) ==> z == mu
    ensures ExpZero(ops) && logvar == 0.0 ==> r == GaussianLogDensityUnsummedStdNormal(ops, z - mu)
  {
    var diffSq := (z - mu) * (z - mu);
    var invVar := ops.exp(-logvar);
    var scaled := invVar * diffSq;
    DensityFacts(ops, z, mu, logvar, diffSq, scaled);
    -0.5 * (scaled + logvar + Ln2Pi(ops))
  }

  lemma DensityFacts(ops: Ops, z: real, mu: real, logvar: real, diffSq: real, scaled: real)
    requires diffSq == (z - mu) * (z - mu) && scaled == ops.exp(-logvar) * diffSq
    ensures z == mu ==> scaled == 0.0
    ensures ExpPositive(ops) ==> scaled >= 0.0 && (scaled == 0.0 ==> z == mu)
    ensures ExpZero(ops) && logvar == 0.0 ==> scaled == diffSq
  {
    SquareFacts(z - mu, diffSq);
    if ExpPositive(ops) {
      ScaleFacts(ops.exp(-logvar), diffSq, scaled);
    }
    if ExpZero(ops) && logvar == 0.0 {
      assert -logvar == 0.0;
    }
  }

  // ---------------------------------------------------------------------------
  // Decomposed KL (minibatch-weighted sampling estimator)
  // ---------------------------------------------------------------------------

  /** Samples, means and log variances: n_frames > 0 rows of one latent width. */
  predicate LatentShape(z: Matrix, mu: Matrix, logvar: Matrix)
  {
    |z| > 0 && Rect(z) && SameShape(z, mu) && SameShape(z, logvar)
  }

  /** `log_qz_prob[j, i, l]`: log-density of sample j's dimension l under frame i's posterior. */
  function LogQzProb(ops: Ops, z: Matrix, mu: Matrix, logvar: Matrix, j: nat, i: nat, l: nat): real
    requires LatentShape(z, mu, logvar) && j < |z| && i < |z| && l < Width(z)
  {
    GaussianLogDensityUnsummed(ops, z[j][l], mu[i][l], logvar[i][l])
  }

  /** `log_qz_prob[j, i, :]`. */
  function DensityTerms(ops: Ops, z: Matrix, mu: Matrix, logvar: Matrix, j: nat, i: nat): (r: seq<real>)
    requires LatentShape(z, mu, logvar) && j < |z| && i < |z|
    ensures |r| == Width(z)
  {
    seq(Width(z), l requires 0 <= l < Width(z) => LogQzProb(ops, z, mu, logvar, j, i, l))
  }

  /** `log_qz_prob[j, :, l]`. */
  function DensityColumn(ops: Ops, z: Matrix, mu: Matrix, logvar: Matrix, j: nat, l: nat): (r: seq<real>)
    requires LatentShape(z, mu, logvar) && j < |z| && l < Width(z)
    ensures |r| == |z|
  {
    seq(|z|, i requires 0 <= i < |z| => LogQzProb(ops, z, mu, logvar, j, i, l))
  }

  /** `log_qz_prob` summed over its latent axis: log q(z_j | x_i) for a factorised q. */
  function JointLogDensity(ops: Ops, z: Matrix, mu: Matrix, logvar: Matrix, j: nat, i: nat): real
    requires LatentShape(z, mu, logvar) && j < |z| && i < |z|
  {
    Sum(DensityTerms(ops, z, mu, logvar, j, i))
  }

  /** Row j of `torch.sum(log_qz_prob, dim=2)`. */
  function JointRow(ops: Ops, z: Matrix, mu: Matrix, logvar: Matrix, j: nat): (r: seq<real>)
    requires LatentShape(z, mu, logvar) && j < |z|
    ensures |r| == |z|
  {
    seq(|z|, i requires 0 <= i < |z| => JointLogDensity(ops, z, mu, logvar, j, i))
  }

  /** Row j of `torch.logsumexp(log_qz_prob, dim=1)`. */
  function MarginalTerms(ops: Ops, z: Matrix, mu: Matrix, logvar: Matrix, j: nat): (r: seq<real>)
    requires LatentShape(z, mu, logvar) && j < |z|
    ensures |r| == Width(z)
  {
    seq(Width(z), l requires 0 <= l < Width(z) => ops.logSumExp(DensityColumn(ops, z, mu, logvar, j, l)))
  }

  /** `log_qz`: log-sum-exp over frames i of the joint log-density. */
  function LogQz(ops: Ops, z: Matrix, mu: Matrix, logvar: Matrix): (r: seq<real>)
    requires LatentShape(z, mu, logvar)
    ensures |r| == |z|
  {
    seq(|z|, j requires 0 <= j < |z| => ops.logSumExp(JointRow(ops, z, mu, logvar, j)))
  }

  /** `log_qz_`: the diagonal, each sample under its own posterior. */
  function LogQzDiag(ops: Ops, z: Matrix, mu: Matrix, logvar: Matrix): (r: seq<real>)
    requires LatentShape(z, mu, logvar)
    ensures |r| == |z|
  {
    seq(|z|, j requires 0 <= j < |z| => JointLogDensity(ops, z, mu, logvar, j, j))
  }

  /** `log_qz_product`: log-sum-exp over frames per dimension, then summed over dimensions. */
  function LogQzProduct(ops: Ops, z: Matrix, mu: Matrix, logvar: Matrix): (r: seq<real>)
    requires LatentShape(z, mu, logvar)
    ensures |r| == |z|
  {
    seq(|z|, j requires 0 <= j < |z| => Sum(MarginalTerms(ops, z, mu, logvar, j)))
  }

  /** `_gaussian_log_density_unsummed_std_normal(z)[j, :]`. */
  function PriorTerms(ops: Ops, z: Matrix, j: nat): (r: seq<real>)
    requires Rect(z) && j < |z|
    ensures |r| == Width(z)
  {
    seq(Width(z), l requires 0 <= l < Width(z) => GaussianLogDensityUnsummedStdNormal(ops, z[j][l]))
  }

  /** `log_pz_product`: the standard-normal log-density of each sample. */
  function LogPzProduct(ops: Ops, z: Matrix): (r: seq<real>)
    requires Rect(z)
    ensures |r| == |z|
  {
    seq(|z|, j requires 0 <= j < |z| => Sum(PriorTerms(ops, z, j)))
  }

  /** With one frame the batch marginal is that frame's posterior: every
      log-sum-exp collapses onto the diagonal. */
  lemma SingleFrameCollapse(ops: Ops, z: Matrix, mu: Matrix, logvar: Matrix)
    requires LatentShape(z, mu, logvar) && |z| == 1 && LogSumExpSingleton(ops)
    ensures LogQz(ops, z, mu, logvar) == LogQzDiag(ops, z, mu, logvar)
    ensures LogQzProduct(ops, z, mu, logvar) == LogQzDiag(ops, z, mu, logvar)
  {
    assert JointRow(ops, z, mu, logvar, 0) == [JointLogDensity(ops, z, mu, logvar, 0, 0)];
    forall l | 0 <= l < Width(z)
      ensures MarginalTerms(ops, z, mu, logvar, 0)[l] == DensityTerms(ops, z, mu, logvar, 0, 0)[l]
    {
      assert DensityColumn(ops, z, mu, logvar, 0, l) == [LogQzProb(ops, z, mu, logvar, 0, 0, l)];
    }
    assert MarginalTerms(ops, z, mu, logvar, 0) == DensityTerms(ops, z, mu, logvar, 0, 0);
  }

  /** The three single-frame facts: no index-code information, no total
      correlation, and all of the log-ratio is dimension-wise. */
  lemma SingleFrameTerms(ops: Ops, z: Matrix, mu: Matrix, logvar: Matrix)
    requires LatentShape(z, mu, logvar)
    ensures |z| == 1 && LogSumExpSingleton(ops) ==>
      && Mean(Minus(LogQzDiag(ops, z, mu, logvar), LogQz(ops, z, mu, logvar))) == 0.0
      && Mean(Minus(LogQz(ops, z, mu, logvar), LogQzProduct(ops, z, mu, logvar))) == 0.0
      && Mean(Minus(LogQzProduct(ops, z, mu, logvar), LogPzProduct(ops, z)))
         == JointLogDensity(ops, z, mu, logvar, 0, 0) - LogPzProduct(ops, z)[0]
  {
    if |z| == 1 && LogSumExpSingleton(ops) {
      SingleFrameCollapse(ops, z, mu, logvar);
      SumZeros(Minus(LogQzDiag(ops, z, mu, logvar), LogQz(ops, z, mu, logvar)));
      SumZeros(Minus(LogQz(ops, z, mu, logvar), LogQzProduct(ops, z, mu, logvar)));
      var d := Minus(LogQzProduct(ops, z, mu, logvar), LogPzProduct(ops, z));
      assert d[..0] == [];
      assert Sum(d) == d[0];
    }
  }

  /** `index_code_mi`: mean of `log_qz_ - log_qz`; zero for a single frame. */
  function IndexCodeMi(ops: Ops, z: Matrix, mu: Matrix, logvar: Matrix): (r: real)
    requires LatentShape(z, mu, logvar)
    ensures |z| == 1 && LogSumExpSingleton(ops) ==> r == 0.0
  {
    SingleFrameTerms(ops, z, mu, logvar);
    Mean(Minus(LogQzDiag(ops, z, mu, logvar), LogQz(ops, z, mu, logvar)))
  }

  /** `total_correlation`: mean of `log_qz - log_qz_product`; zero for a single frame. */
  function TotalCorrelation(ops: Ops, z: Matrix, mu: Matrix, logvar: Matrix): (r: real)
    requires LatentShape(z, mu, logvar)
    ensures |z| == 1 && LogSumExpSingleton(ops) ==> r == 0.0
  {
    SingleFrameTerms(ops, z, mu, logvar);
    Mean(Minus(LogQz(ops, z, mu, logvar), LogQzProduct(ops, z, mu, logvar)))
  }

  /** `dimension_wise_kl_to_std_normal`: mean of `log_qz_product - log_pz_product`;
      for a single frame it is that frame's whole log-ratio log q(z|x) - log p(z). */
  function DimensionWiseKl(ops: Ops, z: Matrix, mu: Matrix, logvar: Matrix): (r: real)
    requires LatentShape(z, mu, logvar)
    ensures |z| == 1 && LogSumExpSingleton(ops) ==>
      r == JointLogDensity(ops, z, mu, logvar, 0, 0) - LogPzProduct(ops, z)[0]
  {
    SingleFrameTerms(ops, z, mu, logvar);
    Mean(Minus(LogQzProduct(ops, z, mu, logvar), LogPzProduct(ops, z)))
  }

  /** `decomposed_kl`: all three terms from one shared density tensor. They are the
      standalone estimators' values, and they telescope into the mean log-ratio
      between each sample's own posterior and the prior. */
  function DecomposedKl(ops: Ops, z: Matrix, mu: Matrix, logvar: Matrix): (r: (real, real, real))
    requires LatentShape(z, mu, logvar)
    ensures r.0 == IndexCodeMi(ops, z, mu, logvar)
    ensures r.1 == TotalCorrelation(ops, z, mu, logvar)
    ensures r.2 == DimensionWiseKl(ops, z, mu, logvar)
    ensures r.0 + r.1 + r.2 == Mean(Minus(LogQzDiag(ops, z, mu, logvar), LogPzProduct(ops, z)))
  {
    var logQz := LogQz(ops, z, mu, logvar);
    var logQzDiag := LogQzDiag(ops, z, mu, logvar);
    var logQzProduct := LogQzProduct(ops, z, mu, logvar);
    var logPzProduct := LogPzProduct(ops, z);
    MeanTelescope(logQzDiag, logQz, logQzProduct, logPzProduct);
    (Mean(Minus(logQzDiag, logQz)), Mean(Minus(logQz, logQzProduct)), Mean(Minus(logQzProduct, logPzProduct)))
  }

  /** When every sample sits at its own posterior mean, the diagonal term is the
      posterior's peak density: -0.5 * (sum of log variances + n_dims * log(2 pi)). */
  lemma LogQzDiagAtMean(ops: Ops, z: Matrix, mu: Matrix, logvar: Matrix, j: nat)
    requires LatentShape(z, mu, logvar) && z == mu && j < |z|
    ensures LogQzDiag(ops, z, mu, logvar)[j]
         == -0.5 * (Sum(logvar[j]) + (Width(z) as real) * Ln2Pi(ops))
  {
    var terms := DensityTerms(ops, z, mu, logvar, j, j);
    forall l | 0 <= l < Width(z)
      ensures terms[l] == Affine(-0.5 * Ln2Pi(ops), 0.5, logvar[j][l])
    {
      assert z[j][l] == mu[j][l];
    }
    SumAffine(logvar[j], terms, -0.5 * Ln2Pi(ops), 0.5);
  }

  // ---------------------------------------------------------------------------
  // Subspace overlap
  // ---------------------------------------------------------------------------

  function Dot(a: seq<real>, b: seq<real>): real
    requires |a| == |b|
  {
    Sum(seq(|a|, k requires 0 <= k < |a| => a[k] * b[k]))
  }

  function Eye(p: int, q: int): real
  {
    if p == q then 1.0 else 0.0
  }

  /** The rows are orthonormal: C C^T is the identity. */
  predicate Orthonormal(c: Matrix)
    requires Rect(c)
  {
    forall p, q :: 0 <= p < |c| && 0 <= q < |c| ==> Dot(c[p], c[q]) == Eye(p, q)
  }

  /** Entrywise `(C C^T - I) ** 2`. */
  function OverlapResidual(c: Matrix): (r: Matrix)
    requires Rect(c)
    ensures |r| == |c| && Rect(r) && Width(r) == |c|
  {
    seq(|c|, p requires 0 <= p < |c| =>
      seq(|c|, q requires 0 <= q < |c| => (Dot(c[p], c[q]) - Eye(p, q)) * (Dot(c[p], c[q]) - Eye(p, q))))
  }

  /** The residual's total is non-negative and vanishes exactly at orthonormal rows. */
  lemma OverlapResidualFacts(c: Matrix)
    requires Rect(c)
    ensures Total(OverlapResidual(c)) >= 0.0
    ensures Total(OverlapResidual(c)) == 0.0 <==> Orthonormal(c)
  {
    var res := OverlapResidual(c);
    forall p, q | 0 <= p < |res| && 0 <= q < |res[p]|
      ensures res[p][q] >= 0.0
      ensures res[p][q] == 0.0 <==> Dot(c[p], c[q]) == Eye(p, q)
    {
      SquareFacts(Dot(c[p], c[q]) - Eye(p, q), res[p][q]);
    }
    TotalNonnegative(res);
    TotalZeroIff(res);
  }

  /** `subspace_overlap(A, B)`: with C the rows of A followed by the rows of B,
      the mean over the d x d entries of (C C^T - I) ** 2. It is never negative,
      and it is zero exactly when the rows of C are orthonormal. */
  function SubspaceOverlap(a: Matrix, b: Matrix): (r: real)
    requires |a| + |b| > 0 && Rect(a + b)
    ensures r >= 0.0
    ensures r == 0.0 <==> Orthonormal(a + b)
  {
    var c := a + b;
    OverlapResidualFacts(c);
    var d := |c| as real;
    assert d * d > 0.0;
    Total(OverlapResidual(c)) / (d * d)
  }
}
