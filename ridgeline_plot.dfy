/** `RidgelinePlot.jsx`: one kernel density estimate per group, evaluated
    on a 100-point grid spanning the group's own values and scaled so that
    its largest density is 1. */
module RidgelinePlot {
  import Seqs
  import opened Options
  import KernelDensity

  /** One group of the `data` object: its key and its values. */
  datatype Group = Group(name: string, values: seq<real>)

  /** One entry of `distributions`. */
  datatype Distribution = Distribution(group: string, density: seq<KernelDensity.Point>, color: Option<string>, index: nat)

  /** The number of grid points the estimator is built with. */
  const GridSize: nat := 100

  /** Grid point `i`: `min + (i / (n - 1)) * (max - min)`. */
  function GridPoint(min: real, max: real, i: nat): real
  {
    min + (i as real / (GridSize - 1) as real) * (max - min)
  }

  /** `d3.range(n).map(...)`: the evaluation grid. */
  function Grid(min: real, max: real): (g: seq<real>)
    ensures |g| == GridSize
  {
    seq(GridSize, i requires 0 <= i < GridSize => GridPoint(min, max, i))
  }

  /** The grid starts at `min`, ends at `max`, its points are evenly spaced
      `(max - min) / 99` apart, and it is non-decreasing when `min <= max`. */
  lemma GridShape(min: real, max: real, i: nat, j: nat)
    requires i <= j < GridSize
    ensures Grid(min, max)[0] == min && Grid(min, max)[GridSize - 1] == max
    ensures j == i + 1 ==> Grid(min, max)[j] - Grid(min, max)[i] == (max - min) / 99.0
    ensures min <= max ==> Grid(min, max)[i] <= Grid(min, max)[j]
  {
    var d := max - min;
    var s, t := i as real / 99.0, j as real / 99.0;
    assert s <= t;
    assert GridPoint(min, max, j) - GridPoint(min, max, i) == (t - s) * d;
    if j == i + 1 {
      assert t - s == 1.0 / 99.0;
      assert (1.0 / 99.0) * d == d / 99.0;
    }
    if min <= max {
      assert 0.0 <= (t - s) * d;
    }
  }

  /** `kde(values)`: the estimate on the grid from the smallest to the
      largest value of the sample. */
  function Density(bandwidth: real, values: seq<real>): (d: seq<KernelDensity.Point>)
    requires values != []
    ensures |d| == GridSize
  {
    KernelDensity.Estimate(bandwidth, Grid(Seqs.MinReal(values), Seqs.MaxReal(values)), values)
  }

  /** The largest density of a group is positive: the first grid point is
      the smallest value itself, where the kernel peaks. */
  lemma DensityPositive(bandwidth: real, values: seq<real>)
    requires bandwidth > 0.0 && values != []
    ensures KernelDensity.MaxDensity(Density(bandwidth, values)) > 0.0
  {
    var g := Grid(Seqs.MinReal(values), Seqs.MaxReal(values));
    GridShape(Seqs.MinReal(values), Seqs.MaxReal(values), 0, 0);
    Seqs.MinRealIsMin(values);
    KernelDensity.MaxDensityPositive(bandwidth, g, values, 0);
  }

  /** `density.map(([x, y]) => [x, y / maxDensity])`. */
  function Normalise(d: seq<KernelDensity.Point>, maxDensity: real): (r: seq<KernelDensity.Point>)
    requires maxDensity != 0.0
    ensures |r| == |d|
  {
    seq(|d|, i requires 0 <= i < |d| => KernelDensity.Point(d[i].x, d[i].y / maxDensity))
  }

  /** `colors[i % colors.length]`; with no colour it is `undefined`. */
  function ColorAt(colors: seq<string>, i: nat): (c: Option<string>)
    ensures c.Some? <==> colors != []
    ensures c.Some? ==> c.value in colors
  {
    if colors == [] then None else Some(colors[i % |colors|])
  }

  /** The entry built for group `i`. */
  function DistributionOf(g: Group, i: nat, colors: seq<string>, bandwidth: real): Distribution
    requires bandwidth > 0.0 && g.values != []
  {
    var d := Density(bandwidth, g.values);
    DensityPositive(bandwidth, g.values);
    Distribution(g.name, Normalise(d, KernelDensity.MaxDensity(d)), ColorAt(colors, i), i)
  }

  /** `computeDistributions`: one entry per group, in key order. */
  function ComputeDistributions(data: seq<Group>, colors: seq<string>, bandwidth: real): (r: seq<Distribution>)
    requires bandwidth > 0.0 && forall i :: 0 <= i < |data| ==> data[i].values != []
    ensures |r| == |data|
  {
    seq(|data|, i requires 0 <= i < |data| => DistributionOf(data[i], i, colors, bandwidth))
  }

  /** Every entry keeps its group's key and position and takes colour
      `colors[i % colors.length]`; its density has one point per grid point,
      with the grid as `x` values, from the group's smallest to its largest
      value. */
  lemma DistributionsShape(data: seq<Group>, colors: seq<string>, bandwidth: real, i: nat)
    requires bandwidth > 0.0 && forall i :: 0 <= i < |data| ==> data[i].values != []
    requires i < |data|
    ensures var r := ComputeDistributions(data, colors, bandwidth)[i];
            r.group == data[i].name && r.index == i && r.color == ColorAt(colors, i)
            && |r.density| == GridSize
            && r.density[0].x == Seqs.MinReal(data[i].values)
            && r.density[GridSize - 1].x == Seqs.MaxReal(data[i].values)
  {
    var v := data[i].values;
    GridShape(Seqs.MinReal(v), Seqs.MaxReal(v), 0, 0);
  }

  /** After normalisation every density lies in `[0, 1]` and the largest is
      exactly 1. */
  lemma Normalised(bandwidth: real, values: seq<real>)
    requires bandwidth > 0.0 && values != []
    ensures var d := Density(bandwidth, values);
            var m := KernelDensity.MaxDensity(d);
            m > 0.0
            && (forall i :: 0 <= i < GridSize ==> 0.0 <= Normalise(d, m)[i].y <= 1.0)
            && exists i :: 0 <= i < GridSize && Normalise(d, m)[i].y == 1.0
  {
    var d := Density(bandwidth, values);
    var g := Grid(Seqs.MinReal(values), Seqs.MaxReal(values));
    DensityPositive(bandwidth, values);
    KernelDensity.EstimateBounds(bandwidth, g, values);
    NormaliseBounds(d);
  }

  /** Dividing non-negative densities by their maximum puts them in
      `[0, 1]`, with 1 reached at the maximum. */
  lemma NormaliseBounds(d: seq<KernelDensity.Point>)
    requires d != [] && forall i :: 0 <= i < |d| ==> d[i].y >= 0.0
    requires KernelDensity.MaxDensity(d) > 0.0
    ensures var m := KernelDensity.MaxDensity(d);
            (forall i :: 0 <= i < |d| ==> 0.0 <= Normalise(d, m)[i].y <= 1.0)
            && exists i :: 0 <= i < |d| && Normalise(d, m)[i].y == 1.0
  {
    var m := KernelDensity.MaxDensity(d);
    var ys := KernelDensity.Densities(d);
    Seqs.MaxRealIsMax(ys);
    forall i | 0 <= i < |d|
      ensures 0.0 <= Normalise(d, m)[i].y <= 1.0
    {
      assert ys[i] == d[i].y;
      UnitRatio(d[i].y, m);
    }
    var j :| 0 <= j < |ys| && ys[j] == m;
    assert d[j].y == ys[j];
    SelfRatio(m);
    assert Normalise(d, m)[j].y == m / m;
  }

  lemma SelfRatio(m: real)
    requires m != 0.0
    ensures m / m == 1.0
  {
  }

  lemma UnitRatio(y: real, m: real)
    requires 0.0 <= y <= m && m > 0.0
    ensures 0.0 <= y / m <= 1.0
  {
    KernelDensity.ScaleDown(y, m, m);
    assert m / m == 1.0;
  }

  /** All values of all groups, in key order (`Object.values(data).flat()`). */
  function AllValues(data: seq<Group>): (all: seq<real>)
  {
    if data == [] then [] else AllValues(data[..|data| - 1]) + data[|data| - 1].values
  }

  /** `d3.extent(allValues)`: undefined when there is no value. */
  function XDomain(data: seq<Group>): (r: Option<(real, real)>)
    ensures r.Some? <==> AllValues(data) != []
  {
    var all := AllValues(data);
    if all == [] then None else Some((Seqs.MinReal(all), Seqs.MaxReal(all)))
  }

  /** The domain holds every value of every group, and both of its ends are
      values. */
  lemma XDomainHolds(data: seq<Group>, g: nat, k: nat)
    requires g < |data| && k < |data[g].values|
    ensures XDomain(data).Some?
    ensures var (lo, hi) := XDomain(data).value;
            lo <= data[g].values[k] <= hi && lo in AllValues(data) && hi in AllValues(data)
  {
    ValueListed(data, g, k);
    var all := AllValues(data);
    Seqs.MinRealIsMin(all);
    Seqs.MaxRealIsMax(all);
  }

  lemma {:induction false} ValueListed(data: seq<Group>, g: nat, k: nat)
    requires g < |data| && k < |data[g].values|
    ensures data[g].values[k] in AllValues(data)
  {
    var n := |data| - 1;
    if g < n {
      ValueListed(data[..n], g, k);
      assert data[..n][g] == data[g];
    }
  }
}
