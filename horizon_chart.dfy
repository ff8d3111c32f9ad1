/** The band decomposition of `HorizonChart.jsx`: `computeLayers` splits
    the symmetric domain `[-max, max]` into `bands` equal bands and gives
    each band a positive and a negative layer holding, for every value, the
    part of it that falls into that band. */
module HorizonChart {
  import Seqs

  /** One band `[min, max]` of magnitudes. */
  datatype Range = Range(min: real, max: real)

  /** A layer: one band's share of every value, in input order. */
  datatype Layer = Layer(values: seq<real>, range: Range)

  /** What `computeLayers` sets: the domain and both sets of layers. */
  datatype Horizon = Horizon(domainMin: real, domainMax: real, positive: seq<Layer>, negative: seq<Layer>)

  function Abs(x: real): real
  {
    if x < 0.0 then -x else x
  }

  function Min(a: real, b: real): real
  {
    if a < b then a else b
  }

  /** `Math.max(Math.abs(extent[0]), Math.abs(extent[1]))` with
      `extent = d3.extent(values)`: the largest magnitude of any value. */
  function MaxMagnitude(values: seq<real>): (m: real)
    requires values != []
    ensures m >= 0.0
    ensures m == Abs(Seqs.MinReal(values)) || m == Abs(Seqs.MaxReal(values))
    ensures forall k :: 0 <= k < |values| ==> -m <= values[k] <= m
  {
    Seqs.MinRealIsMin(values);
    Seqs.MaxRealIsMax(values);
    var lo, hi := Abs(Seqs.MinReal(values)), Abs(Seqs.MaxReal(values));
    if lo > hi then lo else hi
  }

  /** Band `i` of width `bandSize`: `[i * bandSize, (i + 1) * bandSize]`. */
  function Band(i: nat, bandSize: real): Range
  {
    Range(i as real * bandSize, (i + 1) as real * bandSize)
  }

  /** `bandRanges`. */
  function BandRanges(bands: nat, bandSize: real): (r: seq<Range>)
    ensures |r| == bands && forall i :: 0 <= i < bands ==> r[i] == Band(i, bandSize)
  {
    seq(bands, i requires 0 <= i < bands => Band(i, bandSize))
  }

  /** The part of `v` above `range.min`, at most one band. */
  function Positive(v: real, range: Range, bandSize: real): real
  {
    if v > range.min then Min(v - range.min, bandSize) else 0.0
  }

  /** The part of `-v` above `range.min`, at most one band. */
  function Negative(v: real, range: Range, bandSize: real): real
  {
    if v < -range.min then Min(-v - range.min, bandSize) else 0.0
  }

  function PositiveLayer(values: seq<real>, range: Range, bandSize: real): (l: Layer)
    ensures l.range == range && |l.values| == |values|
    ensures forall k :: 0 <= k < |values| ==> l.values[k] == Positive(values[k], range, bandSize)
  {
    Layer(seq(|values|, k requires 0 <= k < |values| => Positive(values[k], range, bandSize)), range)
  }

  function NegativeLayer(values: seq<real>, range: Range, bandSize: real): (l: Layer)
    ensures l.range == range && |l.values| == |values|
    ensures forall k :: 0 <= k < |values| ==> l.values[k] == Negative(values[k], range, bandSize)
  {
    Layer(seq(|values|, k requires 0 <= k < |values| => Negative(values[k], range, bandSize)), range)
  }

  /** `computeLayers`. With no band there is nothing to divide by and both
      sets of layers are empty. */
  function ComputeLayers(values: seq<real>, bands: nat): (h: Horizon)
    requires values != []
    ensures |h.positive| == bands && |h.negative| == bands
  {
    var max := MaxMagnitude(values);
    if bands == 0 then Horizon(-max, max, [], [])
    else
      var bandSize := max / bands as real;
      var ranges := BandRanges(bands, bandSize);
      Horizon(-max, max,
        seq(bands, i requires 0 <= i < bands => PositiveLayer(values, ranges[i], bandSize)),
        seq(bands, i requires 0 <= i < bands => NegativeLayer(values, ranges[i], bandSize)))
  }

  // ------------------------------------------------------------ properties

  /** The domain is `[-max, max]` and holds every value. */
  lemma DomainHoldsValues(values: seq<real>, bands: nat)
    requires values != []
    ensures var h := ComputeLayers(values, bands);
            h.domainMin == -h.domainMax && h.domainMax >= 0.0
            && forall k :: 0 <= k < |values| ==> h.domainMin <= values[k] <= h.domainMax
  {
  }

  lemma NextBand(i: nat, bandSize: real)
    ensures (i + 1) as real * bandSize == i as real * bandSize + bandSize
  {
    var j := i as real;
    assert (i + 1) as real == j + 1.0;
    assert (j + 1.0) * bandSize == j * bandSize + bandSize;
  }

  lemma BandTop(k: nat, bandSize: real)
    requires k > 0
    ensures k as real * bandSize == (k - 1) as real * bandSize + bandSize
  {
    var j := (k - 1) as real;
    assert k as real == j + 1.0;
    assert (j + 1.0) * bandSize == j * bandSize + bandSize;
  }

  /** The bands are contiguous from 0, each `bandSize` wide, and the last
      one ends at `max`. */
  lemma BandsContiguous(values: seq<real>, bands: nat)
    requires values != [] && bands > 0
    ensures var max := MaxMagnitude(values);
            var ranges := BandRanges(bands, max / bands as real);
            ranges[0].min == 0.0 && ranges[bands - 1].max == max
            && (forall i :: 0 <= i < bands ==> ranges[i].max - ranges[i].min == max / bands as real)
            && (forall i :: 0 < i < bands ==> ranges[i].min == ranges[i - 1].max)
  {
    var b := MaxMagnitude(values) / bands as real;
    forall i | 0 <= i < bands
      ensures Band(i, b).max - Band(i, b).min == b
    {
      NextBand(i, b);
    }
    WholeBands(MaxMagnitude(values), bands);
    LowIs(bands, b);
  }

  /** Every layer value is between 0 and one band. */
  lemma LayerValuesBounded(values: seq<real>, bands: nat, i: nat, k: nat)
    requires values != [] && i < bands && k < |values|
    ensures var h := ComputeLayers(values, bands);
            var bandSize := MaxMagnitude(values) / bands as real;
            0.0 <= h.positive[i].values[k] <= bandSize && 0.0 <= h.negative[i].values[k] <= bandSize
  {
    var max := MaxMagnitude(values);
    assert max / bands as real >= 0.0;
  }

  /** The negative layers see `-v` as the positive ones see `v`. */
  lemma NegativeMirror(v: real, range: Range, bandSize: real)
    ensures Negative(v, range, bandSize) == Positive(-v, range, bandSize)
  {
  }

  /** `k * bandSize`, added up band by band. */
  function Low(k: nat, bandSize: real): real
  {
    if k == 0 then 0.0 else Low(k - 1, bandSize) + bandSize
  }

  lemma {:induction false} LowIs(k: nat, bandSize: real)
    ensures Low(k, bandSize) == k as real * bandSize
  {
    if k > 0 {
      LowIs(k - 1, bandSize);
      BandTop(k, bandSize);
    }
  }

  lemma {:induction false} LowNonNegative(k: nat, bandSize: real)
    requires bandSize >= 0.0
    ensures Low(k, bandSize) >= 0.0
  {
    if k > 0 {
      LowNonNegative(k - 1, bandSize);
    }
  }

  /** The shares of `v` in the first `k` bands, each band starting at `Low`. */
  function Shares(v: real, bandSize: real, k: nat): (s: seq<real>)
    ensures |s| == k
  {
    if k == 0 then []
    else Shares(v, bandSize, k - 1) + [Positive(v, Range(Low(k - 1, bandSize), Low(k, bandSize)), bandSize)]
  }

  /** Entry `i` of `Shares` is the share of `v` in `Band(i, bandSize)`. */
  lemma {:induction false} SharesAt(v: real, bandSize: real, k: nat, i: nat)
    requires i < k
    ensures Shares(v, bandSize, k)[i] == Positive(v, Band(i, bandSize), bandSize)
  {
    if i < k - 1 {
      SharesAt(v, bandSize, k - 1, i);
    } else {
      LowIs(i, bandSize);
    }
  }

  /** For `v >= 0` the first `k` bands together take `min(v, k * bandSize)`. */
  lemma {:induction false} SharesSum(v: real, bandSize: real, k: nat)
    requires v >= 0.0 && bandSize >= 0.0
    ensures Seqs.SumReal(Shares(v, bandSize, k)) == Min(v, Low(k, bandSize))
  {
    if k > 0 {
      var s := Shares(v, bandSize, k);
      assert s[..k - 1] == Shares(v, bandSize, k - 1);
      SharesSum(v, bandSize, k - 1);
      LowNonNegative(k - 1, bandSize);
      BandStep(v, Low(k - 1, bandSize), bandSize, Range(Low(k - 1, bandSize), Low(k, bandSize)));
    }
  }

  /** Adding the next band's share of `v` extends the covered part by one band. */
  lemma BandStep(v: real, lo: real, bandSize: real, range: Range)
    requires v >= 0.0 && lo >= 0.0 && bandSize >= 0.0 && range.min == lo
    ensures Min(v, lo) + Positive(v, range, bandSize) == Min(v, lo + bandSize)
  {
  }

  /** The values of layer set `layers` at index `k`, band by band. */
  function Column(layers: seq<Layer>, k: nat): seq<real>
    requires forall i :: 0 <= i < |layers| ==> k < |layers[i].values|
  {
    seq(|layers|, i requires 0 <= i < |layers| => layers[i].values[k])
  }

  /** The positive column of value `k` is its shares, the negative column
      the shares of its negation. */
  lemma ColumnShares(values: seq<real>, bands: nat, k: nat)
    requires values != [] && bands > 0 && k < |values|
    ensures var h := ComputeLayers(values, bands);
            var b := MaxMagnitude(values) / bands as real;
            Column(h.positive, k) == Shares(values[k], b, bands)
            && Column(h.negative, k) == Shares(-values[k], b, bands)
  {
    var h := ComputeLayers(values, bands);
    var b := MaxMagnitude(values) / bands as real;
    var v := values[k];
    forall i | 0 <= i < bands
      ensures Column(h.positive, k)[i] == Shares(v, b, bands)[i]
      ensures Column(h.negative, k)[i] == Shares(-v, b, bands)[i]
    {
      SharesAt(v, b, bands, i);
      SharesAt(-v, b, bands, i);
      NegativeMirror(v, Band(i, b), b);
    }
  }

  /** A value within `bands` bands: its shares add up to it, and its
      negative shares are all zero. */
  lemma ValueSplit(v: real, bandSize: real, bands: nat)
    requires v >= 0.0 && bandSize >= 0.0 && v <= Low(bands, bandSize)
    ensures Seqs.SumReal(Shares(v, bandSize, bands)) == v
    ensures forall i :: 0 <= i < bands ==> Negative(v, Band(i, bandSize), bandSize) == 0.0
  {
    SharesSum(v, bandSize, bands);
    forall i | 0 <= i < bands
      ensures Negative(v, Band(i, bandSize), bandSize) == 0.0
    {
      LowIs(i, bandSize);
      LowNonNegative(i, bandSize);
    }
  }

  lemma WholeBands(max: real, bands: nat)
    requires bands > 0
    ensures Low(bands, max / bands as real) == max
  {
    LowIs(bands, max / bands as real);
  }

  /** The entries of layer `i` are the shares of the values in `Band(i, b)`. */
  lemma LayerEntries(values: seq<real>, bands: nat, k: nat, i: nat)
    requires values != [] && i < bands && k < |values|
    ensures var h := ComputeLayers(values, bands);
            var b := MaxMagnitude(values) / bands as real;
            h.positive[i].values[k] == Positive(values[k], Band(i, b), b)
            && h.negative[i].values[k] == Negative(values[k], Band(i, b), b)
  {
  }

  /** A non-negative value is split exactly across the positive layers and
      appears in no negative layer. */
  lemma PositiveDecomposition(values: seq<real>, bands: nat, k: nat)
    requires values != [] && bands > 0 && k < |values| && values[k] >= 0.0
    ensures var h := ComputeLayers(values, bands);
            Seqs.SumReal(Column(h.positive, k)) == values[k]
            && forall i :: 0 <= i < bands ==> h.negative[i].values[k] == 0.0
  {
    var b := MaxMagnitude(values) / bands as real;
    WholeBands(MaxMagnitude(values), bands);
    ValueSplit(values[k], b, bands);
    ColumnShares(values, bands, k);
    AbsentFromNegative(values, bands, k);
  }

  lemma AbsentFromNegative(values: seq<real>, bands: nat, k: nat)
    requires values != [] && bands > 0 && k < |values| && values[k] >= 0.0
    ensures forall i :: 0 <= i < bands ==> ComputeLayers(values, bands).negative[i].values[k] == 0.0
  {
    var b := MaxMagnitude(values) / bands as real;
    WholeBands(MaxMagnitude(values), bands);
    ValueSplit(values[k], b, bands);
    forall i | 0 <= i < bands
      ensures ComputeLayers(values, bands).negative[i].values[k] == 0.0
    {
      LayerEntries(values, bands, k, i);
    }
  }

  /** A negative value is split exactly, as its magnitude, across the
      negative layers and appears in no positive layer. */
  lemma NegativeDecomposition(values: seq<real>, bands: nat, k: nat)
    requires values != [] && bands > 0 && k < |values| && values[k] < 0.0
    ensures var h := ComputeLayers(values, bands);
            Seqs.SumReal(Column(h.negative, k)) == -values[k]
            && forall i :: 0 <= i < bands ==> h.positive[i].values[k] == 0.0
  {
    var b := MaxMagnitude(values) / bands as real;
    var w := -values[k];
    WholeBands(MaxMagnitude(values), bands);
    assert w <= Low(bands, b);
    ValueSplit(w, b, bands);
    ColumnShares(values, bands, k);
    assert Column(ComputeLayers(values, bands).negative, k) == Shares(w, b, bands);
    AbsentFromPositive(values, bands, k);
  }

  lemma AbsentFromPositive(values: seq<real>, bands: nat, k: nat)
    requires values != [] && bands > 0 && k < |values| && values[k] < 0.0
    ensures forall i :: 0 <= i < bands ==> ComputeLayers(values, bands).positive[i].values[k] == 0.0
  {
    var b := MaxMagnitude(values) / bands as real;
    var v := values[k];
    WholeBands(MaxMagnitude(values), bands);
    ValueSplit(-v, b, bands);
    forall i | 0 <= i < bands
      ensures ComputeLayers(values, bands).positive[i].values[k] == 0.0
    {
      LayerEntries(values, bands, k, i);
      NegativeMirror(-v, Band(i, b), b);
    }
  }
}
