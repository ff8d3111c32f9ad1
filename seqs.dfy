/** Sequence helpers shared by the chart modules: sums, occurrence counts,
    first-appearance de-duplication, prefixes, minimum and maximum. */
module Seqs {
  import JsMath

  /** Sum of a sequence of integers, accumulated from the left as `reduce` does. */
  function SumInt(s: seq<int>): int
  {
    if s == [] then 0 else SumInt(s[..|s| - 1]) + s[|s| - 1]
  }

  /** Sum of a sequence of reals, accumulated from the left as `reduce` does. */
  function SumReal(s: seq<real>): real
  {
    if s == [] then 0.0 else SumReal(s[..|s| - 1]) + s[|s| - 1]
  }

  lemma {:induction false} SumIntAppend(s: seq<int>, t: seq<int>)
    ensures SumInt(s + t) == SumInt(s) + SumInt(t)
  {
    if t == [] {
      assert s + t == s;
    } else {
      assert (s + t)[..|s + t| - 1] == s + t[..|t| - 1];
      SumIntAppend(s, t[..|t| - 1]);
    }
  }

  lemma {:induction false} SumRealAppend(s: seq<real>, t: seq<real>)
    ensures SumReal(s + t) == SumReal(s) + SumReal(t)
  {
    if t == [] {
      assert s + t == s;
    } else {
      assert (s + t)[..|s + t| - 1] == s + t[..|t| - 1];
      SumRealAppend(s, t[..|t| - 1]);
    }
  }

  lemma SumRealFront(s: seq<real>)
    requires s != []
    ensures SumReal(s) == s[0] + SumReal(s[1..])
  {
    assert s == [s[0]] + s[1..];
    SumRealAppend([s[0]], s[1..]);
    assert [s[0]][..0] == [];
  }

  lemma SumIntFront(s: seq<int>)
    requires s != []
    ensures SumInt(s) == s[0] + SumInt(s[1..])
  {
    assert s == [s[0]] + s[1..];
    SumIntAppend([s[0]], s[1..]);
    assert [s[0]][..0] == [];
  }

  /** Updating one element changes the sum by exactly the difference. */
  lemma {:induction false} SumRealUpdate(s: seq<real>, i: nat, v: real)
    requires i < |s|
    ensures SumReal(s[i := v]) == SumReal(s) - s[i] + v
  {
    assert s == s[..i] + [s[i]] + s[i + 1..];
    assert s[i := v] == s[..i] + [v] + s[i + 1..];
    SumRealAppend(s[..i] + [s[i]], s[i + 1..]);
    SumRealAppend(s[..i] + [v], s[i + 1..]);
    SumRealAppend(s[..i], [s[i]]);
    SumRealAppend(s[..i], [v]);
    assert [s[i]][..0] == [] && [v][..0] == [];
  }

  lemma {:induction false} SumIntUpdate(s: seq<int>, i: nat, v: int)
    requires i < |s|
    ensures SumInt(s[i := v]) == SumInt(s) - s[i] + v
  {
    assert s == s[..i] + [s[i]] + s[i + 1..];
    assert s[i := v] == s[..i] + [v] + s[i + 1..];
    SumIntAppend(s[..i] + [s[i]], s[i + 1..]);
    SumIntAppend(s[..i] + [v], s[i + 1..]);
    SumIntAppend(s[..i], [s[i]]);
    SumIntAppend(s[..i], [v]);
    assert [s[i]][..0] == [] && [v][..0] == [];
  }

  lemma {:induction false} SumRealNonNegative(s: seq<real>)
    requires forall i :: 0 <= i < |s| ==> s[i] >= 0.0
    ensures SumReal(s) >= 0.0
  {
    if s != [] {
      SumRealNonNegative(s[..|s| - 1]);
    }
  }

  lemma {:induction false} SumIntNonNegative(s: seq<int>)
    requires forall i :: 0 <= i < |s| ==> s[i] >= 0
    ensures SumInt(s) >= 0
  {
    if s != [] {
      SumIntNonNegative(s[..|s| - 1]);
    }
  }

  /** A prefix sum of non-negative terms never exceeds the whole sum. */
  lemma {:induction false} SumRealPrefixBound(s: seq<real>, k: nat)
    requires k <= |s|
    requires forall i :: 0 <= i < |s| ==> s[i] >= 0.0
    ensures 0.0 <= SumReal(s[..k]) <= SumReal(s)
  {
    assert s == s[..k] + s[k..];
    SumRealAppend(s[..k], s[k..]);
    SumRealNonNegative(s[..k]);
    SumRealNonNegative(s[k..]);
  }

  /** A term of a non-negative sum is at most the sum. */
  lemma {:induction false} SumRealElementBound(s: seq<real>, i: nat)
    requires i < |s| && forall k :: 0 <= k < |s| ==> s[k] >= 0.0
    ensures 0.0 <= s[i] <= SumReal(s)
  {
    if i < |s| - 1 {
      SumRealElementBound(s[..|s| - 1], i);
    } else {
      SumRealNonNegative(s[..|s| - 1]);
    }
  }

  /** A sum of terms each at most `c` is at most `|s| * c`. */
  lemma {:induction false} SumRealAtMost(s: seq<real>, c: real)
    requires forall k :: 0 <= k < |s| ==> s[k] <= c
    ensures SumReal(s) <= |s| as real * c
  {
    if s != [] {
      var n := |s| as real;
      SumRealAtMost(s[..|s| - 1], c);
      assert (|s| - 1) as real == n - 1.0;
      assert (n - 1.0) * c + c == n * c;
    }
  }

  /** Scaling every term scales the sum. */
  lemma {:induction false} SumRealScale(s: seq<real>, t: seq<real>, c: real)
    requires |t| == |s| && forall k :: 0 <= k < |s| ==> t[k] == c * s[k]
    ensures SumReal(t) == c * SumReal(s)
  {
    if s != [] {
      SumRealScale(s[..|s| - 1], t[..|t| - 1], c);
    }
  }

  /** A non-empty sum of positive terms is positive. */
  lemma {:induction false} SumRealPositive(s: seq<real>)
    requires s != [] && forall k :: 0 <= k < |s| ==> s[k] > 0.0
    ensures SumReal(s) > 0.0
  {
    SumRealNonNegative(s[..|s| - 1]);
  }

  /** Number of occurrences of `x` in `s`. */
  function Occurrences<T(==)>(s: seq<T>, x: T): nat
  {
    if s == [] then 0
    else Occurrences(s[..|s| - 1], x) + (if s[|s| - 1] == x then 1 else 0)
  }

  lemma {:induction false} OccurrencesAppend<T>(s: seq<T>, t: seq<T>, x: T)
    ensures Occurrences(s + t, x) == Occurrences(s, x) + Occurrences(t, x)
  {
    if t == [] {
      assert s + t == s;
    } else {
      assert (s + t)[..|s + t| - 1] == s + t[..|t| - 1];
      OccurrencesAppend(s, t[..|t| - 1], x);
    }
  }

  lemma {:induction false} OccurrencesPositive<T>(s: seq<T>, x: T)
    ensures Occurrences(s, x) > 0 <==> x in s
  {
    if s != [] {
      OccurrencesPositive(s[..|s| - 1], x);
      assert s == s[..|s| - 1] + [s[|s| - 1]];
    }
  }

  /** The distinct elements of `s`, in order of first appearance (`new Set(s)`). */
  function Dedup<T(==)>(s: seq<T>): seq<T>
  {
    if s == [] then []
    else
      var d := Dedup(s[..|s| - 1]);
      if s[|s| - 1] in d then d else d + [s[|s| - 1]]
  }

  ghost predicate Distinct<T>(s: seq<T>)
  {
    forall i, j :: 0 <= i < j < |s| ==> s[i] != s[j]
  }

  lemma {:induction false} DedupProperties<T>(s: seq<T>)
    ensures Distinct(Dedup(s))
    ensures forall x :: x in Dedup(s) <==> x in s
    ensures forall n :: 0 <= n <= |s| ==> Dedup(s[..n]) <= Dedup(s)
    ensures forall i, j :: 0 <= i < j < |Dedup(s)| ==>
      JsMath.IndexOf(s, Dedup(s)[i]) < JsMath.IndexOf(s, Dedup(s)[j])
  {
    DedupMembers(s);
    DedupPrefix(s);
    DedupFirstAppearance(s);
  }

  lemma {:induction false} DedupMembers<T>(s: seq<T>)
    ensures Distinct(Dedup(s))
    ensures forall x :: x in Dedup(s) <==> x in s
  {
    if s != [] {
      DedupMembers(s[..|s| - 1]);
      assert s == s[..|s| - 1] + [s[|s| - 1]];
    }
  }

  /** Each prefix of `s` deduplicates to a prefix of `Dedup(s)`. */
  lemma {:induction false} DedupPrefix<T>(s: seq<T>)
    ensures forall n :: 0 <= n <= |s| ==> Dedup(s[..n]) <= Dedup(s)
  {
    if s != [] {
      DedupPrefix(s[..|s| - 1]);
      forall n | 0 <= n <= |s|
        ensures Dedup(s[..n]) <= Dedup(s)
      {
        if n < |s| {
          assert s[..|s| - 1][..n] == s[..n];
        } else {
          assert s[..n] == s;
        }
      }
    }
  }

  /** An earlier element of `Dedup(s)` occurs in `s` before any occurrence
      of a later one. */
  lemma {:induction false} DedupFirstAppearance<T>(s: seq<T>)
    ensures forall i, j :: 0 <= i < j < |Dedup(s)| ==>
      JsMath.IndexOf(s, Dedup(s)[i]) < JsMath.IndexOf(s, Dedup(s)[j])
  {
    if s != [] {
      DedupFirstAppearance(s[..|s| - 1]);
      DedupAppendOrder(s[..|s| - 1], s[|s| - 1]);
      assert s == s[..|s| - 1] + [s[|s| - 1]];
    }
  }

  /** The step of `DedupFirstAppearance`: appending `y` keeps the order. */
  lemma DedupAppendOrder<T>(t: seq<T>, y: T)
    requires forall i, j :: 0 <= i < j < |Dedup(t)| ==>
      JsMath.IndexOf(t, Dedup(t)[i]) < JsMath.IndexOf(t, Dedup(t)[j])
    ensures forall i, j :: 0 <= i < j < |Dedup(t + [y])| ==>
      JsMath.IndexOf(t + [y], Dedup(t + [y])[i]) < JsMath.IndexOf(t + [y], Dedup(t + [y])[j])
  {
    var s := t + [y];
    assert s[..|s| - 1] == t;
    DedupMembers(t);
    var d := Dedup(s);
    assert d == if y in Dedup(t) then Dedup(t) else Dedup(t) + [y];
    forall i, j | 0 <= i < j < |d|
      ensures JsMath.IndexOf(s, d[i]) < JsMath.IndexOf(s, d[j])
    {
      DedupElement(t, i);
      IndexOfExtend(t, y, d[i]);
      if j < |Dedup(t)| {
        DedupElement(t, j);
        IndexOfExtend(t, y, d[j]);
      } else {
        assert d[j] == y && y !in t;
        assert s[..|t|] == t;
      }
    }
  }

  lemma DedupElement<T>(t: seq<T>, i: nat)
    requires i < |Dedup(t)|
    ensures Dedup(t)[i] in t
  {
    DedupMembers(t);
  }

  /** Appending an element does not move the first index of one already
      present. */
  lemma {:induction false} IndexOfExtend<T>(t: seq<T>, y: T, x: T)
    requires x in t
    ensures JsMath.IndexOf(t + [y], x) == JsMath.IndexOf(t, x)
  {
    if t[0] != x {
      assert (t + [y])[1..] == t[1..] + [y];
      IndexOfExtend(t[1..], y, x);
    }
  }

  /** Keeping the first `n` elements (`slice(0, n)`). */
  function Take<T>(s: seq<T>, n: nat): (r: seq<T>)
    ensures |r| == if |s| < n then |s| else n
    ensures r == s[..|r|]
  {
    if |s| <= n then s else s[..n]
  }

  /** Largest element of a non-empty sequence (`Math.max(...s)`, `d3.max`). */
  function MaxReal(s: seq<real>): real
    requires s != []
  {
    if |s| == 1 then s[0]
    else
      var m := MaxReal(s[..|s| - 1]);
      if s[|s| - 1] > m then s[|s| - 1] else m
  }

  /** Smallest element of a non-empty sequence (`Math.min(...s)`, `d3.min`). */
  function MinReal(s: seq<real>): real
    requires s != []
  {
    if |s| == 1 then s[0]
    else
      var m := MinReal(s[..|s| - 1]);
      if s[|s| - 1] < m then s[|s| - 1] else m
  }

  lemma {:induction false} MaxRealIsMax(s: seq<real>)
    requires s != []
    ensures MaxReal(s) in s
    ensures forall i :: 0 <= i < |s| ==> s[i] <= MaxReal(s)
  {
    if |s| > 1 {
      MaxRealIsMax(s[..|s| - 1]);
      assert forall i :: 0 <= i < |s| - 1 ==> s[i] == s[..|s| - 1][i];
    }
  }

  lemma {:induction false} MinRealIsMin(s: seq<real>)
    requires s != []
    ensures MinReal(s) in s
    ensures forall i :: 0 <= i < |s| ==> MinReal(s) <= s[i]
  {
    if |s| > 1 {
      MinRealIsMin(s[..|s| - 1]);
      assert forall i :: 0 <= i < |s| - 1 ==> s[i] == s[..|s| - 1][i];
    }
  }

  /** Largest element of a non-empty integer sequence. */
  function MaxInt(s: seq<int>): int
    requires s != []
  {
    if |s| == 1 then s[0]
    else
      var m := MaxInt(s[..|s| - 1]);
      if s[|s| - 1] > m then s[|s| - 1] else m
  }

  lemma {:induction false} MaxIntIsMax(s: seq<int>)
    requires s != []
    ensures MaxInt(s) in s
    ensures forall i :: 0 <= i < |s| ==> s[i] <= MaxInt(s)
  {
    if |s| > 1 {
      MaxIntIsMax(s[..|s| - 1]);
      assert forall i :: 0 <= i < |s| - 1 ==> s[i] == s[..|s| - 1][i];
    }
  }

  /** Reverse of a sequence (`Array.prototype.reverse`). */
  function Reverse<T>(s: seq<T>): (r: seq<T>)
    ensures |r| == |s|
  {
    if s == [] then [] else Reverse(s[1..]) + [s[0]]
  }

  lemma {:induction false} ReverseAt<T>(s: seq<T>, k: nat)
    requires k < |s|
    ensures Reverse(s)[k] == s[|s| - 1 - k]
  {
    if k < |s| - 1 {
      ReverseAt(s[1..], k);
    }
  }

  lemma ReverseReverse<T>(s: seq<T>)
    ensures Reverse(Reverse(s)) == s
  {
    forall k | 0 <= k < |s| ensures Reverse(Reverse(s))[k] == s[k] {
      ReverseAt(Reverse(s), k);
      ReverseAt(s, |s| - 1 - k);
    }
  }

  /** Smallest element of a non-empty integer sequence. */
  function MinInt(s: seq<int>): int
    requires s != []
  {
    if |s| == 1 then s[0]
    else
      var m := MinInt(s[..|s| - 1]);
      if s[|s| - 1] < m then s[|s| - 1] else m
  }

  lemma {:induction false} MinIntIsMin(s: seq<int>)
    requires s != []
    ensures MinInt(s) in s
    ensures forall i :: 0 <= i < |s| ==> MinInt(s) <= s[i]
  {
    if |s| > 1 {
      MinIntIsMin(s[..|s| - 1]);
      assert forall i :: 0 <= i < |s| - 1 ==> s[i] == s[..|s| - 1][i];
    }
  }

  /** A sum of terms between `lo` and `hi` lies between `|s|·lo` and `|s|·hi`. */
  lemma {:induction false} SumIntBounds(s: seq<int>, lo: int, hi: int)
    requires forall i :: 0 <= i < |s| ==> lo <= s[i] <= hi
    ensures |s| * lo <= SumInt(s) <= |s| * hi
  {
    if s != [] {
      var n := |s| - 1;
      SumIntBounds(s[..n], lo, hi);
      assert SumInt(s) == SumInt(s[..n]) + s[n];
      assert |s| * lo == n * lo + lo && |s| * hi == n * hi + hi;
    }
  }
}
