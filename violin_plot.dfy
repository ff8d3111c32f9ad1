/** `ViolinPlot.jsx`: a kernel density estimate per group with the fixed
    bandwidth 7, evaluated at the y-axis ticks and scaled to half the band
    width, and the violin outline drawn from it. */
module ViolinPlot {
  import Seqs
  import KernelDensity
  import Geometry

  /** `kernelEpanechnikov(7)`: every group uses this bandwidth. */
  const Bandwidth: real := 7.0

  /** One group of the `data` object: its key and its values. */
  datatype Group = Group(name: string, values: seq<real>)

  /** One entry of `violinDistributions` (without the statistics). */
  datatype Distribution = Distribution(group: string, density: seq<KernelDensity.Point>, x: real)

  /** `(d / maxDensity) * xMax` for every `[y, d]`; an empty estimate stays
      empty and is never divided. */
  function ScaleDensity(d: seq<KernelDensity.Point>, xMax: real): (r: seq<KernelDensity.Point>)
    requires d != [] ==> KernelDensity.MaxDensity(d) != 0.0
    ensures |r| == |d|
  {
    if d == [] then []
    else
      var m := KernelDensity.MaxDensity(d);
      seq(|d|, i requires 0 <= i < |d| => KernelDensity.Point(d[i].x, d[i].y / m * xMax))
  }

  /** The density of one group at the ticks, before scaling. */
  function Density(ticks: seq<real>, values: seq<real>): (d: seq<KernelDensity.Point>)
    requires values != []
    ensures |d| == |ticks|
  {
    KernelDensity.Estimate(Bandwidth, ticks, values)
  }

  /** Scaling keeps every `y` and puts every scaled density in `[0, xMax]`,
      with `xMax` itself reached at the largest density. */
  lemma {:induction false} ScaledBounds(ticks: seq<real>, values: seq<real>, xMax: real)
    requires values != [] && ticks != [] && xMax >= 0.0
    requires KernelDensity.MaxDensity(Density(ticks, values)) > 0.0
    ensures var r := ScaleDensity(Density(ticks, values), xMax);
            (forall i :: 0 <= i < |ticks| ==> r[i].x == ticks[i] && 0.0 <= r[i].y <= xMax)
            && exists i :: 0 <= i < |ticks| && r[i].y == xMax
  {
    KernelDensity.EstimateBounds(Bandwidth, ticks, values);
    ScaleBounds(Density(ticks, values), xMax);
  }

  lemma ScaleBounds(d: seq<KernelDensity.Point>, xMax: real)
    requires d != [] && xMax >= 0.0 && forall i :: 0 <= i < |d| ==> d[i].y >= 0.0
    requires KernelDensity.MaxDensity(d) > 0.0
    ensures var r := ScaleDensity(d, xMax);
            (forall i :: 0 <= i < |d| ==> r[i].x == d[i].x && 0.0 <= r[i].y <= xMax)
            && exists i :: 0 <= i < |d| && r[i].y == xMax
  {
    var m := KernelDensity.MaxDensity(d);
    var ys := KernelDensity.Densities(d);
    var r := ScaleDensity(d, xMax);
    Seqs.MaxRealIsMax(ys);
    forall i | 0 <= i < |d|
      ensures 0.0 <= r[i].y <= xMax
    {
      assert ys[i] == d[i].y;
      ScaledFraction(d[i].y, m, xMax);
    }
    var j :| 0 <= j < |ys| && ys[j] == m;
    assert d[j].y == m;
    ScaledFraction(m, m, xMax);
  }

  lemma ScaledFraction(y: real, m: real, xMax: real)
    requires 0.0 <= y <= m && m > 0.0 && xMax >= 0.0
    ensures 0.0 <= y / m * xMax <= xMax
    ensures y == m ==> y / m * xMax == xMax
  {
    KernelDensity.ScaleDown(y, m, m);
    assert m / m == 1.0;
    KernelDensity.ScaleDown(0.0, y, m);
    assert 0.0 <= y / m <= 1.0;
    Geometry.FractionOf(xMax, y / m);
    assert y / m * xMax == xMax * (y / m);
  }

  /** The entry for one group: `x` is the group's band position. */
  function DistributionOf(g: Group, ticks: seq<real>, xMax: real, x: real): Distribution
    requires g.values != []
    requires ticks != [] ==> KernelDensity.MaxDensity(Density(ticks, g.values)) != 0.0
  {
    Distribution(g.name, ScaleDensity(Density(ticks, g.values), xMax), x)
  }

  /** `computeDistributions`: one entry per group key, in key order; `xs`
      are the band positions `xScale(group)`. */
  function ComputeDistributions(data: seq<Group>, ticks: seq<real>, xMax: real, xs: seq<real>): (r: seq<Distribution>)
    requires |xs| == |data|
    requires forall i :: 0 <= i < |data| ==> data[i].values != []
    requires forall i :: 0 <= i < |data| ==>
               ticks != [] ==> KernelDensity.MaxDensity(Density(ticks, data[i].values)) != 0.0
    ensures |r| == |data|
    ensures forall i :: 0 <= i < |data| ==>
              r[i].group == data[i].name && r[i].x == xs[i] && |r[i].density| == |ticks|
  {
    seq(|data|, i requires 0 <= i < |data| => DistributionOf(data[i], ticks, xMax, xs[i]))
  }

  /** The right side of the outline, `[x + d, y]` for every point in order. */
  function RightSide(x: real, d: seq<KernelDensity.Point>): (r: seq<(real, real)>)
    ensures |r| == |d|
  {
    seq(|d|, i requires 0 <= i < |d| => (x + d[i].y, d[i].x))
  }

  /** The left side of the outline, `[x - d, y]` for every point in order. */
  function LeftSide(x: real, d: seq<KernelDensity.Point>): (r: seq<(real, real)>)
    ensures |r| == |d|
  {
    seq(|d|, i requires 0 <= i < |d| => (x - d[i].y, d[i].x))
  }

  /** A stored distribution: `createViolinPath` reads its `x` and reverses
      its `density` array in place. */
  class StoredDistribution {
    const x: real
    const density: array<KernelDensity.Point>

    constructor (dist: Distribution)
      ensures x == dist.x && density[..] == dist.density && fresh(density)
    {
      x := dist.x;
      density := new KernelDensity.Point[|dist.density|](i requires 0 <= i < |dist.density| => dist.density[i]);
    }

    /** `distribution.density.reverse()`. */
    method ReverseDensity()
      modifies density
      ensures density[..] == Seqs.Reverse(old(density[..]))
    {
      var n := density.Length;
      var i := 0;
      while i < n / 2
        invariant 0 <= i <= n / 2
        invariant forall k :: 0 <= k < i ==> density[k] == old(density[n - 1 - k]) && density[n - 1 - k] == old(density[k])
        invariant forall k :: i <= k < n - i ==> density[k] == old(density[k])
      {
        density[i], density[n - 1 - i] := density[n - 1 - i], density[i];
        i := i + 1;
      }
      forall k | 0 <= k < n
        ensures density[k] == Seqs.Reverse(old(density[..]))[k]
      {
        Seqs.ReverseAt(old(density[..]), k);
      }
    }

    /** `createViolinPath`: the right side in the stored order, then the
        stored array is reversed and the left side follows in the new order.
        The outline has two points per density point, and the stored
        density is left reversed. */
    method CreateViolinPath() returns (outline: seq<(real, real)>)
      modifies density
      ensures outline == RightSide(x, old(density[..])) + LeftSide(x, Seqs.Reverse(old(density[..])))
      ensures density[..] == Seqs.Reverse(old(density[..]))
    {
      var right := RightSide(x, density[..]);
      ReverseDensity();
      outline := right + LeftSide(x, density[..]);
    }
  }

  /** The outline goes down the right side and back up the left: point `i`
      of the right side and point `n - 1 - i` of the left side are the two
      sides of the same density point. */
  lemma {:induction false} OutlineCloses(x: real, d: seq<KernelDensity.Point>, i: nat)
    requires i < |d|
    ensures var o := RightSide(x, d) + LeftSide(x, Seqs.Reverse(d));
            |o| == 2 * |d|
            && o[i] == (x + d[i].y, d[i].x)
            && o[2 * |d| - 1 - i] == (x - d[i].y, d[i].x)
  {
    Seqs.ReverseAt(d, |d| - 1 - i);
  }

  /** A second call starts from the reversed array: its right side runs in
      the opposite order to the first call's, and the stored density is back
      in its original order. */
  lemma {:induction false} SecondCallFlips(x: real, d: seq<KernelDensity.Point>)
    requires |d| >= 2 && d[0] != d[|d| - 1]
    ensures RightSide(x, Seqs.Reverse(d)) != RightSide(x, d)
    ensures Seqs.Reverse(Seqs.Reverse(d)) == d
  {
    Seqs.ReverseAt(d, 0);
    Seqs.ReverseReverse(d);
    assert RightSide(x, Seqs.Reverse(d))[0] == (x + d[|d| - 1].y, d[|d| - 1].x);
    if d[0].x == d[|d| - 1].x {
      assert d[0].y != d[|d| - 1].y;
    }
  }
}
