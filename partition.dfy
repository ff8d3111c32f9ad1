/** Proportional partitions: lengths given as `value / total * extent`, and
    intervals laid end to end from a start with a fixed gap between
    neighbours. Sankey columns, ParallelSets stacks, chord and sunburst arcs,
    tree-map slices and progress segments are all of this shape. */
module Partition {
  import Seqs

  /** `value / total * extent`. */
  function Share(value: real, total: real, extent: real): real
    requires total != 0.0
  {
    value / total * extent
  }

  /** `value / total * extent` for each value. */
  function Shares(s: seq<real>, total: real, extent: real): (r: seq<real>)
    requires total != 0.0
    ensures |r| == |s| && forall i :: 0 <= i < |s| ==> r[i] == Share(s[i], total, extent)
  {
    seq(|s|, i requires 0 <= i < |s| => Share(s[i], total, extent))
  }

  lemma {:induction false} SharesSum(s: seq<real>, total: real, extent: real)
    requires total != 0.0
    ensures Seqs.SumReal(Shares(s, total, extent)) == Seqs.SumReal(s) / total * extent
  {
    if s != [] {
      var p := s[..|s| - 1];
      var x := s[|s| - 1];
      SharesSum(p, total, extent);
      var r, q := Shares(s, total, extent), Shares(p, total, extent);
      assert forall i :: 0 <= i < |p| ==> r[i] == q[i];
      assert r[..|s| - 1] == q;
      var a := Seqs.SumReal(p);
      assert Share(a, total, extent) + Share(x, total, extent) == Share(a + x, total, extent);
    }
  }

  /** Shares add up like the values they share out. */
  lemma ShareAdd(x: real, y: real, total: real, extent: real)
    requires total != 0.0
    ensures Share(x, total, extent) + Share(y, total, extent) == Share(x + y, total, extent)
  {
    assert x / total + y / total == (x + y) / total;
  }

  /** Shares of the values' own sum fill the extent exactly. */
  lemma SharesOfWhole(s: seq<real>, extent: real)
    requires Seqs.SumReal(s) != 0.0
    ensures Seqs.SumReal(Shares(s, Seqs.SumReal(s), extent)) == extent
  {
    SharesSum(s, Seqs.SumReal(s), extent);
  }

  /** Non-negative values over a positive total give shares in
      `[0, extent]` of a non-negative extent. */
  lemma {:induction false} SharesBounded(s: seq<real>, extent: real)
    requires forall i :: 0 <= i < |s| ==> s[i] >= 0.0
    requires Seqs.SumReal(s) > 0.0 && extent >= 0.0
    ensures forall i :: 0 <= i < |s| ==> 0.0 <= Shares(s, Seqs.SumReal(s), extent)[i] <= extent
  {
    var t := Seqs.SumReal(s);
    forall i | 0 <= i < |s| ensures 0.0 <= Share(s[i], t, extent) <= extent {
      Seqs.SumRealElementBound(s, i);
      FractionBound(s[i], t, extent);
    }
  }

  lemma FractionBound(x: real, t: real, e: real)
    requires 0.0 <= x <= t && t > 0.0 && e >= 0.0
    ensures 0.0 <= x / t * e <= e
  {
    assert x / t <= 1.0;
  }

  /** Intervals `[starts[k], starts[k] + sizes[k]]` laid end to end from
      `start`, with `gap` between neighbours. */
  predicate Packed(starts: seq<real>, sizes: seq<real>, start: real, gap: real)
  {
    && |starts| == |sizes|
    && (|starts| > 0 ==> starts[0] == start)
    && forall k :: 0 < k < |starts| ==> starts[k] == starts[k - 1] + sizes[k - 1] + gap
  }

  /** Each start is the initial start plus everything laid before it. */
  lemma {:induction false} PackedAt(starts: seq<real>, sizes: seq<real>, start: real, gap: real, k: nat)
    requires Packed(starts, sizes, start, gap) && k < |starts|
    ensures starts[k] == start + Seqs.SumReal(sizes[..k]) + k as real * gap
  {
    if k > 0 {
      PackedAt(starts, sizes, start, gap, k - 1);
      assert sizes[..k][..k - 1] == sizes[..k - 1];
    }
  }

  /** The last interval ends after all sizes and the gaps between them. */
  lemma PackedEnd(starts: seq<real>, sizes: seq<real>, start: real, gap: real)
    requires Packed(starts, sizes, start, gap) && |starts| > 0
    ensures starts[|starts| - 1] + sizes[|sizes| - 1]
         == start + Seqs.SumReal(sizes) + (|sizes| - 1) as real * gap
  {
    var n := |starts|;
    PackedAt(starts, sizes, start, gap, n - 1);
    assert sizes[..n - 1] == sizes[..|sizes| - 1];
    assert sizes[..n] == sizes;
  }

  /** With non-negative sizes and gap, an earlier interval ends no later
      than a later one starts: the intervals are ordered and do not overlap. */
  lemma {:induction false} PackedOrdered(starts: seq<real>, sizes: seq<real>, start: real, gap: real, i: nat, j: nat)
    requires Packed(starts, sizes, start, gap) && i < j < |starts|
    requires gap >= 0.0 && forall k :: 0 <= k < |sizes| ==> sizes[k] >= 0.0
    ensures starts[i] + sizes[i] <= starts[j]
  {
    if j > i + 1 {
      PackedOrdered(starts, sizes, start, gap, i, j - 1);
    }
  }
}
