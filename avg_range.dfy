/** The average electric range card: the mean of the positive parsed
    "Electric Range" values, or 0 when there is none. */
module AvgRange {
  import Seqs
  import opened Vehicles

  /** The arithmetic mean, and 0 for no value. */
  function Mean(rs: seq<int>): real
  {
    if |rs| == 0 then 0.0 else Seqs.SumInt(rs) as real / |rs| as real
  }

  /** `totalRange / filteredData.length`, or 0 for no contributing row
      (before `toFixed(1)`). */
  function Average(data: seq<Record>): real
  {
    Mean(Ranges(data))
  }

  lemma DivisionUndone(a: real, n: real)
    requires n > 0.0
    ensures (a / n) * n == a
  {
  }

  lemma CastProduct(n: int, x: int)
    ensures (n * x) as real == n as real * x as real
  {
  }

  /** For `n > 0`, `n·lo <= a <= n·hi` gives `lo <= a/n <= hi`. */
  lemma MeanBounds(a: real, n: real, lo: real, hi: real)
    requires n > 0.0 && n * lo <= a <= n * hi
    ensures lo <= a / n <= hi
  {
    DivisionUndone(a, n);
    var m := a / n;
    assert n * (m - lo) >= 0.0;
    assert n * (hi - m) >= 0.0;
  }

  /** A mean lies between the smallest and the largest value. */
  lemma {:induction false} MeanBetween(rs: seq<int>)
    requires |rs| > 0
    ensures Mean(rs) * |rs| as real == Seqs.SumInt(rs) as real
    ensures Seqs.MinInt(rs) as real <= Mean(rs) <= Seqs.MaxInt(rs) as real
  {
    DivisionUndone(Seqs.SumInt(rs) as real, |rs| as real);
    var lo, hi := Seqs.MinInt(rs), Seqs.MaxInt(rs);
    SumBetween(rs);
    MeanBounds(Seqs.SumInt(rs) as real, |rs| as real, lo as real, hi as real);
  }

  lemma {:induction false} SumBetween(rs: seq<int>)
    requires |rs| > 0
    ensures |rs| as real * Seqs.MinInt(rs) as real <= Seqs.SumInt(rs) as real
    ensures Seqs.SumInt(rs) as real <= |rs| as real * Seqs.MaxInt(rs) as real
  {
    Seqs.MinIntIsMin(rs);
    Seqs.MaxIntIsMax(rs);
    Seqs.SumIntBounds(rs, Seqs.MinInt(rs), Seqs.MaxInt(rs));
    BoundsAsReals(|rs|, Seqs.MinInt(rs), Seqs.SumInt(rs), Seqs.MaxInt(rs));
  }

  lemma BoundsAsReals(n: int, lo: int, total: int, hi: int)
    requires n * lo <= total <= n * hi
    ensures n as real * lo as real <= total as real <= n as real * hi as real
  {
    CastProduct(n, lo);
    CastProduct(n, hi);
  }

  /** The mean of positive values is positive. */
  lemma {:induction false} MeanPositive(rs: seq<int>)
    requires |rs| > 0
    requires forall i :: 0 <= i < |rs| ==> rs[i] > 0
    ensures Mean(rs) > 0.0
  {
    MeanBetween(rs);
    Seqs.MinIntIsMin(rs);
  }

  /** The average is 0 without a contributing row; otherwise it is the mean
      of the contributing ranges, between the smallest and the largest of
      them, and so positive. */
  lemma {:induction false} AverageBetween(data: seq<Record>)
    ensures |Ranges(data)| == 0 ==> Average(data) == 0.0
    ensures |Ranges(data)| > 0 ==>
      && Seqs.MinInt(Ranges(data)) as real <= Average(data) <= Seqs.MaxInt(Ranges(data)) as real
      && Average(data) > 0.0
  {
    var rs := Ranges(data);
    assert Average(data) == Mean(rs);
    if |rs| > 0 {
      MeanBetween(rs);
      MeanPositive(rs);
    }
  }
}
