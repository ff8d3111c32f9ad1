/** The kernel density estimate used by `RidgelinePlot.jsx` and
    `ViolinPlot.jsx`: both define the same Epanechnikov kernel and an
    estimator that evaluates, at every point of a grid, the mean of the
    kernel over a sample. */
module KernelDensity {
  import Seqs
  import Geometry

  /** One `[x, density]` pair of an estimate. */
  datatype Point = Point(x: real, y: real)

  function Abs(x: real): real
  {
    if x < 0.0 then -x else x
  }

  /** The kernel's value at 0, its maximum. */
  function Peak(k: real): real
    requires k != 0.0
  {
    0.75 / k
  }

  /** `kernelEpanechnikov(k)(v)`: with `w = v / k`, `0.75 (1 - w * w) / k`
      when `|w| <= 1`, otherwise 0. With `k = 0` the quotient is infinite or
      NaN in JavaScript, the test fails and the kernel is 0. */
  function Kernel(k: real, v: real): real
  {
    if k == 0.0 then 0.0
    else
      var w := v / k;
      if Abs(w) <= 1.0 then 0.75 * (1.0 - w * w) / k else 0.0
  }

  /** For a positive bandwidth the kernel lies between 0 and its peak, which
      it reaches at 0, and is positive exactly inside the open window
      `(-k, k)`. */
  lemma KernelBounds(k: real, v: real)
    requires k > 0.0
    ensures 0.0 <= Kernel(k, v) <= Peak(k)
    ensures Kernel(k, 0.0) == Peak(k)
    ensures Kernel(k, v) > 0.0 <==> Abs(v) < k
  {
    var w := v / k;
    Window(v, k);
    if Abs(w) <= 1.0 {
      UnitSquare(w);
      var b := 0.75 * (1.0 - w * w);
      Geometry.FractionOf(0.75, 1.0 - w * w);
      Geometry.QuotientNonNegative(b, k);
      ScaleDown(b, 0.75, k);
      PositiveQuotient(b, k);
    }
  }

  /** On `[-1, 1]` the square stays in `[0, 1]` and reaches 1 only at the
      ends. */
  lemma UnitSquare(w: real)
    requires Abs(w) <= 1.0
    ensures 0.0 <= w * w <= 1.0
    ensures w * w < 1.0 <==> Abs(w) < 1.0
  {
    var a := Abs(w);
    assert w * w == a * a;
    Geometry.FractionOf(a, a);
    if a < 1.0 {
      Geometry.ScaleOrder(a, 1.0, a);
    }
  }

  /** `|v / k| <= 1` exactly when `|v| <= k`, and strictly likewise. */
  lemma Window(v: real, k: real)
    requires k > 0.0
    ensures Abs(v / k) <= 1.0 <==> Abs(v) <= k
    ensures Abs(v / k) < 1.0 <==> Abs(v) < k
  {
    var q := v / k;
    var x := Abs(q);
    MagnitudeQuotient(v, k);
    if x < 1.0 {
      StrictScale(x, 1.0, k);
    } else if x > 1.0 {
      StrictScale(1.0, x, k);
    } else {
      assert Abs(v) == 1.0 * k;
    }
  }

  lemma MagnitudeQuotient(v: real, k: real)
    requires k > 0.0
    ensures Abs(v) == Abs(v / k) * k
  {
    var q := v / k;
    assert v == q * k;
    if v >= 0.0 {
      Geometry.QuotientNonNegative(v, k);
      assert Abs(q) == q;
    } else {
      PositiveQuotient(-v, k);
      assert -v / k == -q;
      assert Abs(q) == -q;
      assert Abs(v) == -v == (-q) * k;
    }
  }

  lemma StrictScale(a: real, b: real, k: real)
    requires a < b && k > 0.0
    ensures a * k < b * k
  {
  }

  lemma PositiveQuotient(b: real, k: real)
    requires k > 0.0
    ensures b / k > 0.0 <==> b > 0.0
  {
    assert b == (b / k) * k;
  }

  lemma AverageAtMost(sum: real, n: real, c: real)
    requires n > 0.0 && sum <= n * c
    ensures sum / n <= c
  {
    ScaleDown(sum, n * c, n);
    assert n * c / n == c;
  }

  /** Dividing by a positive number keeps the order of two numerators. */
  lemma ScaleDown(a: real, b: real, k: real)
    requires a <= b && k > 0.0
    ensures a / k <= b / k
  {
  }

  /** The kernel is symmetric: `kernel(-v) = kernel(v)`. */
  lemma KernelSymmetric(k: real, v: real)
    ensures Kernel(k, -v) == Kernel(k, v)
  {
    if k != 0.0 {
      var w := v / k;
      assert -v / k == -w;
      assert (-w) * (-w) == w * w;
    }
  }

  /** The kernel's value at `x - v` for every sample value `v`. */
  function Terms(k: real, x: real, sample: seq<real>): (t: seq<real>)
    ensures |t| == |sample|
  {
    seq(|sample|, i requires 0 <= i < |sample| => Kernel(k, x - sample[i]))
  }

  /** `d3.mean(sample, v => kernel(x - v))`. */
  function Mean(k: real, x: real, sample: seq<real>): real
    requires sample != []
  {
    Seqs.SumReal(Terms(k, x, sample)) / |sample| as real
  }

  /** The density at any point lies between 0 and the kernel's peak, and it
      is positive at every point within `k` of some sample value. */
  lemma MeanBounds(k: real, x: real, sample: seq<real>)
    requires k > 0.0 && sample != []
    ensures 0.0 <= Mean(k, x, sample) <= Peak(k)
    ensures (exists j :: 0 <= j < |sample| && Abs(x - sample[j]) < k) ==> Mean(k, x, sample) > 0.0
  {
    var t := Terms(k, x, sample);
    var n := |sample| as real;
    forall i | 0 <= i < |t|
      ensures 0.0 <= t[i] <= Peak(k)
    {
      KernelBounds(k, x - sample[i]);
    }
    Seqs.SumRealNonNegative(t);
    Seqs.SumRealAtMost(t, Peak(k));
    Geometry.QuotientNonNegative(Seqs.SumReal(t), n);
    AverageAtMost(Seqs.SumReal(t), n, Peak(k));
    if j :| 0 <= j < |sample| && Abs(x - sample[j]) < k {
      KernelBounds(k, x - sample[j]);
      Seqs.SumRealElementBound(t, j);
    }
  }

  /** `kernelDensityEstimator(kernel, grid)(sample)`: one `[x, mean]` pair
      per grid point, in grid order. */
  function Estimate(k: real, grid: seq<real>, sample: seq<real>): (d: seq<Point>)
    requires sample != []
    ensures |d| == |grid|
  {
    seq(|grid|, i requires 0 <= i < |grid| => Point(grid[i], Mean(k, grid[i], sample)))
  }

  /** The estimate keeps the grid as its `x` values, in order, and every
      density lies between 0 and the kernel's peak. */
  lemma EstimateBounds(k: real, grid: seq<real>, sample: seq<real>)
    requires k > 0.0 && sample != []
    ensures forall i :: 0 <= i < |grid| ==>
              Estimate(k, grid, sample)[i].x == grid[i]
              && 0.0 <= Estimate(k, grid, sample)[i].y <= Peak(k)
  {
    forall i | 0 <= i < |grid|
      ensures 0.0 <= Estimate(k, grid, sample)[i].y <= Peak(k)
    {
      MeanBounds(k, grid[i], sample);
    }
  }

  /** The densities of an estimate, in grid order. */
  function Densities(d: seq<Point>): (ys: seq<real>)
    ensures |ys| == |d|
  {
    seq(|d|, i requires 0 <= i < |d| => d[i].y)
  }

  /** `d3.max(density, d => d[1])`. */
  function MaxDensity(d: seq<Point>): real
    requires d != []
  {
    Seqs.MaxReal(Densities(d))
  }

  /** An estimate whose grid contains a sample value has a positive maximum
      density. */
  lemma MaxDensityPositive(k: real, grid: seq<real>, sample: seq<real>, i: nat)
    requires k > 0.0 && sample != [] && i < |grid| && grid[i] in sample
    ensures MaxDensity(Estimate(k, grid, sample)) > 0.0
  {
    var d := Estimate(k, grid, sample);
    var j :| 0 <= j < |sample| && sample[j] == grid[i];
    assert Abs(grid[i] - sample[j]) < k;
    MeanBounds(k, grid[i], sample);
    Seqs.MaxRealIsMax(Densities(d));
    assert Densities(d)[i] == d[i].y;
  }
}
