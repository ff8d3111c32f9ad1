/** The electric-range histogram: rows with a positive range are counted in
    buckets of 50 miles, 1–50, 51–100, …, up to the bucket holding the
    largest range. */
module RangeHistogram {
  import opened Options
  import Seqs
  import Text
  import opened Vehicles

  const BucketSize: nat := 50

  /** One bar: its label, its count and its inclusive bounds. */
  datatype Bucket = Bucket(range: string, count: nat, minRange: int, maxRange: int)

  /** `Math.max(...ranges)` over positive ranges. */
  function MaxRange(rs: seq<int>): (m: int)
    requires rs != []
    requires forall i :: 0 <= i < |rs| ==> rs[i] > 0
    ensures m > 0 && m in rs
    ensures forall i :: 0 <= i < |rs| ==> rs[i] <= m
  {
    Seqs.MaxIntIsMax(rs);
    Seqs.MaxInt(rs)
  }

  /** `Math.ceil(maxRange / bucketSize)` for a positive maximum. */
  function BucketCount(maxRange: int): (n: nat)
    requires maxRange > 0
    ensures (n - 1) * BucketSize < maxRange <= n * BucketSize
  {
    (maxRange + BucketSize - 1) / BucketSize
  }

  /** `Math.floor((range - 1) / bucketSize)`. */
  function BucketIndex(r: int): int
  {
    (r - 1) / BucketSize
  }

  function Low(i: int): int { i * BucketSize + 1 }

  function High(i: int): int { (i + 1) * BucketSize }

  /** `${i * bucketSize + 1}-${(i + 1) * bucketSize}`. */
  function Label(i: nat): string
  {
    Text.IntToString(Low(i)) + "-" + Text.IntToString(High(i))
  }

  /** How many of `rs` lie in `[lo, hi]`. */
  function CountIn(rs: seq<int>, lo: int, hi: int): nat
  {
    if rs == [] then 0
    else CountIn(rs[..|rs| - 1], lo, hi) + (if lo <= rs[|rs| - 1] <= hi then 1 else 0)
  }

  /** Bucket `b` is the one whose interval holds `r`, and no other does. */
  lemma BucketIndexExact(r: int, b: int)
    ensures Low(b) <= r <= High(b) <==> b == BucketIndex(r)
  {
    var q := BucketIndex(r);
    assert q * BucketSize <= r - 1 < (q + 1) * BucketSize;
    if b < q {
      assert High(b) <= q * BucketSize;
    } else if b > q {
      assert Low(b) >= (q + 1) * BucketSize + 1;
    }
  }

  /** The component body: filter the rows, then build and fill the bars.
      `None` is the crash on no kept row. */
  method Histogram(data: seq<Record>) returns (buckets: Option<seq<Bucket>>)
    ensures buckets.None? <==> Ranges(data) == []
    ensures buckets.Some? ==> IsHistogram(Ranges(data), buckets.value)
  {
    buckets := Bars(Ranges(data));
  }

  /** The bars for non-empty `rs`: one per 50 miles up to the largest range,
      each with its label, bounds and the number of ranges inside them. */
  ghost predicate IsHistogram(rs: seq<int>, buckets: seq<Bucket>)
    requires rs != []
    requires forall i :: 0 <= i < |rs| ==> rs[i] > 0
  {
    && |buckets| == BucketCount(MaxRange(rs))
    && forall i :: 0 <= i < |buckets| ==>
         buckets[i] == Bucket(Label(i), CountIn(rs, Low(i), High(i)), Low(i), High(i))
  }

  /** Bucket creation and the counting loop over the kept ranges. */
  method Bars(rs: seq<int>) returns (buckets: Option<seq<Bucket>>)
    requires forall i :: 0 <= i < |rs| ==> rs[i] > 0
    ensures buckets.None? <==> rs == []
    ensures buckets.Some? ==> IsHistogram(rs, buckets.value)
  {
    if |rs| == 0 {
      // Math.max() of nothing is -Infinity, and Array(-Infinity) throws.
      return None;
    }
    var n := BucketCount(MaxRange(rs));
    var counts := new nat[n](_ => 0);
    for k := 0 to |rs|
      invariant forall b :: 0 <= b < n ==> counts[b] == CountIn(rs[..k], Low(b), High(b))
    {
      var idx := BucketIndex(rs[k]);
      assert rs[..k + 1][..k] == rs[..k];
      forall b | 0 <= b < n {
        BucketIndexExact(rs[k], b);
      }
      if 0 <= idx < counts.Length {
        counts[idx] := counts[idx] + 1;
      }
    }
    assert rs[..|rs|] == rs;
    buckets := Some(seq(n, i requires 0 <= i < n reads counts =>
      Bucket(Label(i), counts[i], Low(i), High(i))));
  }

  /** The bucket counts, as a sequence. */
  function Counts(rs: seq<int>, n: nat): seq<int>
  {
    seq(n, b => CountIn(rs, Low(b), High(b)))
  }

  /** Every positive range up to the maximum has its bucket in bounds, so the
      guard drops nothing and the bucket counts add up to the number of kept
      rows. */
  lemma {:induction false} CountsSum(rs: seq<int>, n: nat)
    requires forall i :: 0 <= i < |rs| ==> 1 <= rs[i] <= n * BucketSize
    ensures Seqs.SumInt(Counts(rs, n)) == |rs|
  {
    if rs == [] {
      Seqs.SumIntNonNegative(Counts(rs, n));
      ZeroCounts(n);
    } else {
      var p, r := rs[..|rs| - 1], rs[|rs| - 1];
      CountsSum(p, n);
      var idx := BucketIndex(r);
      BucketIndexExact(r, idx);
      assert 0 <= idx < n;
      forall b | 0 <= b < n {
        BucketIndexExact(r, b);
      }
      assert Counts(rs, n) == Counts(p, n)[idx := Counts(p, n)[idx] + 1];
      Seqs.SumIntUpdate(Counts(p, n), idx, Counts(p, n)[idx] + 1);
    }
  }

  lemma {:induction false} ZeroCounts(n: nat)
    ensures Seqs.SumInt(Counts([], n)) == 0
  {
    if n > 0 {
      ZeroCounts(n - 1);
      assert Counts([], n)[..n - 1] == Counts([], n - 1);
    }
  }

  /** With at least one kept row, the histogram's counts add up to the number
      of kept rows and every kept range lies in its bucket. */
  lemma HistogramComplete(data: seq<Record>)
    requires Ranges(data) != []
    ensures var rs := Ranges(data); var n := BucketCount(MaxRange(rs));
      && Seqs.SumInt(Counts(rs, n)) == |rs|
      && forall i :: 0 <= i < |rs| ==>
           0 <= BucketIndex(rs[i]) < n && Low(BucketIndex(rs[i])) <= rs[i] <= High(BucketIndex(rs[i]))
  {
    var rs := Ranges(data);
    var n := BucketCount(MaxRange(rs));
    CountsSum(rs, n);
    forall i | 0 <= i < |rs|
      ensures 0 <= BucketIndex(rs[i]) < n && Low(BucketIndex(rs[i])) <= rs[i] <= High(BucketIndex(rs[i]))
    {
      BucketIndexExact(rs[i], BucketIndex(rs[i]));
    }
  }
}
