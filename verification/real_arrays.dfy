/** Reductions over sequences and matrices of reals: the sums and means that
    `torch.sum` and `torch.mean` compute, without rounding. A matrix is a
    sequence of rows; a batch is n_frames rows of the flattened non-frame axes. */
module RealArrays {

  type Matrix = seq<seq<real>>

  function Sum(s: seq<real>): real
  {
    if |s| == 0 then 0.0 else Sum(s[..|s| - 1]) + s[|s| - 1]
  }

  function Mean(s: seq<real>): real
    requires |s| > 0
  {
    Sum(s) / (|s| as real)
  }

  /** Elementwise difference of two vectors of the same length. */
  function Minus(a: seq<real>, b: seq<real>): (r: seq<real>)
    requires |a| == |b|
    ensures |r| == |a|
  {
    seq(|a|, k requires 0 <= k < |a| => a[k] - b[k])
  }

  function Min(a: int, b: int): int
  {
    if a <= b then a else b
  }

  /** Number of columns, read off the first row as `x.shape[1]` does. */
  function Width(x: Matrix): nat
  {
    if |x| == 0 then 0 else |x[0]|
  }

  /** Every row has the same length, so the matrix is a 2-D array. */
  predicate Rect(x: Matrix)
  {
    forall j :: 0 <= j < |x| ==> |x[j]| == Width(x)
  }

  predicate SameShape(x: Matrix, y: Matrix)
  {
    |x| == |y| && forall j :: 0 <= j < |x| ==> |x[j]| == |y[j]|
  }

  function RowSums(x: Matrix): (r: seq<real>)
    ensures |r| == |x|
  {
    seq(|x|, j requires 0 <= j < |x| => Sum(x[j]))
  }

  /** Sum of every entry of a matrix. */
  function Total(x: Matrix): real
  {
    Sum(RowSums(x))
  }

  /** A product of two positive reals is positive. */
  lemma ProductPositive(x: real, y: real, p: real)
    requires x > 0.0 && y > 0.0 && p == x * y
    ensures p > 0.0
  {
  }

  /** `s` is the square of `x`: never negative, and zero only at zero. */
  lemma SquareFacts(x: real, s: real)
    requires s == x * x
    ensures s >= 0.0
    ensures s == 0.0 <==> x == 0.0
  {
    if x < 0.0 {
      ProductPositive(0.0 - x, 0.0 - x, s);
    } else if x > 0.0 {
      ProductPositive(x, x, s);
    }
  }

  /** Scaling by a positive factor keeps the sign and the zeros of a non-negative real. */
  lemma ScaleFacts(a: real, b: real, p: real)
    requires a > 0.0 && b >= 0.0 && p == a * b
    ensures p >= 0.0
    ensures p == 0.0 <==> b == 0.0
  {
    if b > 0.0 {
      ProductPositive(a, b, p);
    }
  }

  lemma {:induction false} SumAppend(a: seq<real>, b: seq<real>)
    ensures Sum(a + b) == Sum(a) + Sum(b)
    decreases |b|
  {
    if |b| == 0 {
      assert a + b == a;
    } else {
      var b' := b[..|b| - 1];
      assert (a + b)[..|a + b| - 1] == a + b';
      SumAppend(a, b');
    }
  }

  /** The sum of a prefix splits at any intermediate index. */
  lemma SumSlices(s: seq<real>, i: int, j: int)
    requires 0 <= i <= j <= |s|
    ensures Sum(s[..j]) == Sum(s[..i]) + Sum(s[i..j])
  {
    assert s[..j] == s[..i] + s[i..j];
    SumAppend(s[..i], s[i..j]);
  }

  lemma {:induction false} SumMinus(a: seq<real>, b: seq<real>)
    requires |a| == |b|
    ensures Sum(Minus(a, b)) == Sum(a) - Sum(b)
    decreases |a|
  {
    if |a| > 0 {
      var n := |a| - 1;
      assert Minus(a, b)[..n] == Minus(a[..n], b[..n]);
      SumMinus(a[..n], b[..n]);
    }
  }

  /** `a - b * x`: the shape of a log-likelihood as a function of a squared error. */
  function Affine(a: real, b: real, x: real): real
  {
    a - b * x
  }

  /** A sum of terms `a - b * s[k]` is `|s| * a - b * Sum(s)`. */
  lemma {:induction false} SumAffine(s: seq<real>, t: seq<real>, a: real, b: real)
    requires |s| == |t|
    requires forall k :: 0 <= k < |s| ==> t[k] == Affine(a, b, s[k])
    ensures Sum(t) == (|s| as real) * a - b * Sum(s)
    decreases |s|
  {
    if |s| > 0 {
      var n := |s| - 1;
      SumAffine(s[..n], t[..n], a, b);
      assert Sum(t) == (n as real) * a - b * Sum(s[..n]) + (a - b * s[n]);
    }
  }

  /** Averaging commutes with an affine map. */
  lemma MeanAffine(s: seq<real>, t: seq<real>, a: real, b: real)
    requires |s| == |t| > 0
    requires forall k :: 0 <= k < |s| ==> t[k] == Affine(a, b, s[k])
    ensures Mean(t) == Affine(a, b, Mean(s))
  {
    SumAffine(s, t, a, b);
  }

  lemma {:induction false} SumNonnegative(s: seq<real>)
    requires forall k :: 0 <= k < |s| ==> s[k] >= 0.0
    ensures Sum(s) >= 0.0
    decreases |s|
  {
    if |s| > 0 {
      SumNonnegative(s[..|s| - 1]);
    }
  }

  /** A sum of non-negative terms vanishes exactly when every term does. */
  lemma {:induction false} SumZeroIff(s: seq<real>)
    requires forall k :: 0 <= k < |s| ==> s[k] >= 0.0
    ensures Sum(s) == 0.0 <==> forall k :: 0 <= k < |s| ==> s[k] == 0.0
    decreases |s|
  {
    if |s| > 0 {
      var n := |s| - 1;
      SumZeroIff(s[..n]);
      SumNonnegative(s[..n]);
      if Sum(s) == 0.0 {
        assert Sum(s[..n]) == 0.0 && s[n] == 0.0;
        forall k | 0 <= k < |s|
          ensures s[k] == 0.0
        {
          if k < n {
            assert s[..n][k] == s[k];
          }
        }
      }
    }
  }

  lemma TotalNonnegative(x: Matrix)
    requires forall j, k :: 0 <= j < |x| && 0 <= k < |x[j]| ==> x[j][k] >= 0.0
    ensures Total(x) >= 0.0
  {
    forall j | 0 <= j < |x|
      ensures RowSums(x)[j] >= 0.0
    {
      SumNonnegative(x[j]);
    }
    SumNonnegative(RowSums(x));
  }

  /** A total of non-negative entries vanishes exactly when every entry does. */
  lemma TotalZeroIff(x: Matrix)
    requires forall j, k :: 0 <= j < |x| && 0 <= k < |x[j]| ==> x[j][k] >= 0.0
    ensures Total(x) == 0.0 <==> forall j, k :: 0 <= j < |x| && 0 <= k < |x[j]| ==> x[j][k] == 0.0
  {
    forall j | 0 <= j < |x|
      ensures RowSums(x)[j] >= 0.0
      ensures RowSums(x)[j] == 0.0 <==> forall k :: 0 <= k < |x[j]| ==> x[j][k] == 0.0
    {
      SumNonnegative(x[j]);
      SumZeroIff(x[j]);
    }
    SumZeroIff(RowSums(x));
  }

  /** The mean over the `|x| * width` entries of a matrix whose rows have `width` entries. */
  function EntryMean(x: Matrix, width: nat): real
    requires |x| > 0 && width > 0
  {
    Total(x) / ((|x| as real) * (width as real))
  }

  /** The entry mean has the sign of the total and vanishes exactly with it. */
  lemma EntryMeanSign(x: Matrix, width: nat)
    requires |x| > 0 && width > 0
    ensures Total(x) >= 0.0 ==> EntryMean(x, width) >= 0.0
    ensures EntryMean(x, width) == 0.0 <==> Total(x) == 0.0
  {
    var n := (|x| as real) * (width as real);
    ProductPositive(|x| as real, width as real, n);
    if Total(x) > 0.0 {
      ProductPositive(Total(x) / n, n, Total(x));
    }
  }

  /** Three consecutive mean differences telescope into one. */
  lemma MeanTelescope(a: seq<real>, b: seq<real>, c: seq<real>, d: seq<real>)
    requires |a| == |b| == |c| == |d| > 0
    ensures Mean(Minus(a, b)) + Mean(Minus(b, c)) + Mean(Minus(c, d)) == Mean(Minus(a, d))
  {
    SumMinus(a, b);
    SumMinus(b, c);
    SumMinus(c, d);
    SumMinus(a, d);
    DivideSum3(Sum(Minus(a, b)), Sum(Minus(b, c)), Sum(Minus(c, d)), |a| as real);
  }

  lemma DivideSum3(x: real, y: real, z: real, n: real)
    requires n > 0.0
    ensures x / n + y / n + z / n == (x + y + z) / n
  {
  }
}
