/** `Array.prototype.sort` with a comparator, which is stable: an insertion
    sort by a total preorder `le` ("a may come before b"), with the proofs that
    its result is ordered, is a permutation of its input, and keeps the input
    order of elements the comparator calls equal. */
module Sorting {
  import Seqs

  ghost predicate TotalPreorder<T(!new)>(le: (T, T) -> bool)
  {
    && (forall a, b :: le(a, b) || le(b, a))
    && (forall a, b, c :: le(a, b) && le(b, c) ==> le(a, c))
  }

  ghost predicate SortedBy<T>(s: seq<T>, le: (T, T) -> bool)
  {
    forall i, j :: 0 <= i < j < |s| ==> le(s[i], s[j])
  }

  /** Inserts `x` before the first element it may precede. */
  function Insert<T>(x: T, s: seq<T>, le: (T, T) -> bool): (r: seq<T>)
    ensures |r| == |s| + 1
  {
    if s == [] then [x]
    else if le(x, s[0]) then [x] + s
    else [s[0]] + Insert(x, s[1..], le)
  }

  /** The stable sort of `s` by `le`. */
  function SortBy<T>(s: seq<T>, le: (T, T) -> bool): (r: seq<T>)
    ensures |r| == |s|
  {
    if s == [] then [] else Insert(s[0], SortBy(s[1..], le), le)
  }

  lemma {:induction false} InsertPermutation<T>(x: T, s: seq<T>, le: (T, T) -> bool)
    ensures multiset(Insert(x, s, le)) == multiset(s) + multiset{x}
  {
    if s == [] {
      assert Insert(x, s, le) == [x];
    } else if le(x, s[0]) {
      assert Insert(x, s, le) == [x] + s;
    } else {
      InsertPermutation(x, s[1..], le);
      assert s == [s[0]] + s[1..];
      assert Insert(x, s, le) == [s[0]] + Insert(x, s[1..], le);
    }
  }

  lemma {:induction false} SortPermutation<T>(s: seq<T>, le: (T, T) -> bool)
    ensures multiset(SortBy(s, le)) == multiset(s)
  {
    if s != [] {
      SortPermutation(s[1..], le);
      InsertPermutation(s[0], SortBy(s[1..], le), le);
      assert s == [s[0]] + s[1..];
    }
  }

  lemma {:induction false} InsertSorted<T(!new)>(x: T, s: seq<T>, le: (T, T) -> bool)
    requires TotalPreorder(le)
    requires SortedBy(s, le)
    ensures SortedBy(Insert(x, s, le), le)
  {
    if s != [] && !le(x, s[0]) {
      InsertSorted(x, s[1..], le);
      var r := Insert(x, s[1..], le);
      InsertPermutation(x, s[1..], le);
      forall j | 0 <= j < |r| ensures le(s[0], r[j]) {
        assert r[j] in multiset(r);
        assert r[j] in multiset(s[1..]) || r[j] == x;
        if r[j] != x {
          var k :| 0 <= k < |s[1..]| && s[1..][k] == r[j];
          assert s[k + 1] == r[j];
        }
      }
    }
  }

  lemma {:induction false} SortSorted<T(!new)>(s: seq<T>, le: (T, T) -> bool)
    requires TotalPreorder(le)
    ensures SortedBy(SortBy(s, le), le)
  {
    if s != [] {
      SortSorted(s[1..], le);
      InsertSorted(s[0], SortBy(s[1..], le), le);
    }
  }

  /** The elements of `s` that the comparator calls equal to `p`, in order. */
  function EqualTo<T>(s: seq<T>, p: T, le: (T, T) -> bool): seq<T>
  {
    if s == [] then []
    else (if le(s[0], p) && le(p, s[0]) then [s[0]] else []) + EqualTo(s[1..], p, le)
  }

  lemma {:induction false} InsertStable<T(!new)>(x: T, s: seq<T>, p: T, le: (T, T) -> bool)
    requires TotalPreorder(le)
    ensures EqualTo(Insert(x, s, le), p, le)
         == (if le(x, p) && le(p, x) then [x] else []) + EqualTo(s, p, le)
  {
    var hx := if le(x, p) && le(p, x) then [x] else [];
    if s == [] {
      assert Insert(x, s, le) == [x];
      assert EqualTo([x], p, le) == hx + EqualTo([x][1..], p, le);
    } else if le(x, s[0]) {
      var r := Insert(x, s, le);
      assert r == [x] + s;
      assert r[0] == x && r[1..] == s;
    } else {
      var r := Insert(x, s, le);
      var r' := Insert(x, s[1..], le);
      assert r == [s[0]] + r';
      assert r[0] == s[0] && r[1..] == r';
      InsertStable(x, s[1..], p, le);
      var h0 := if le(s[0], p) && le(p, s[0]) then [s[0]] else [];
      assert EqualTo(r, p, le) == h0 + EqualTo(r', p, le);
      assert EqualTo(s, p, le) == h0 + EqualTo(s[1..], p, le);
      NotBothEqual(x, s[0], p, le);
    }
  }

  /** Two elements the comparator orders strictly are not both equal to
      one pivot. */
  lemma NotBothEqual<T(!new)>(x: T, y: T, p: T, le: (T, T) -> bool)
    requires TotalPreorder(le) && !le(x, y)
    ensures !(le(x, p) && le(p, x) && le(y, p) && le(p, y))
  {
  }

  /** Stability: for every pivot, the elements equal to it keep their input order. */
  lemma {:induction false} SortStable<T(!new)>(s: seq<T>, p: T, le: (T, T) -> bool)
    requires TotalPreorder(le)
    ensures EqualTo(SortBy(s, le), p, le) == EqualTo(s, p, le)
  {
    if s != [] {
      SortStable(s[1..], p, le);
      InsertStable(s[0], SortBy(s[1..], le), p, le);
    }
  }

  /** Only the comparator's answers on the elements present matter. */
  lemma {:induction false} InsertAgree<T>(x: T, s: seq<T>, le: (T, T) -> bool, le': (T, T) -> bool)
    requires forall a, b :: (a == x || a in s) && (b == x || b in s) ==> le(a, b) == le'(a, b)
    ensures Insert(x, s, le) == Insert(x, s, le')
  {
    if s != [] && !le(x, s[0]) {
      InsertAgree(x, s[1..], le, le');
    }
  }

  /** Two comparators that agree on the elements of `s` sort it alike. */
  lemma {:induction false} SortAgree<T(!new)>(s: seq<T>, le: (T, T) -> bool, le': (T, T) -> bool)
    requires forall a, b :: a in s && b in s ==> le(a, b) == le'(a, b)
    ensures SortBy(s, le) == SortBy(s, le')
  {
    if s != [] {
      SortAgree(s[1..], le, le');
      SortMembers(s[1..], le);
      InsertAgree(s[0], SortBy(s[1..], le), le, le');
    }
  }

  /** Sorting keeps exactly the elements it was given. */
  lemma SortMembers<T(!new)>(s: seq<T>, le: (T, T) -> bool)
    ensures forall x :: x in SortBy(s, le) <==> x in s
  {
    SortPermutation(s, le);
    forall x ensures x in SortBy(s, le) <==> x in s {
      assert x in SortBy(s, le) <==> x in multiset(SortBy(s, le));
      assert x in s <==> x in multiset(s);
    }
  }

  /** Distinct elements stay distinct after sorting. */
  lemma SortDistinct<T(!new)>(s: seq<T>, le: (T, T) -> bool)
    requires Seqs.Distinct(s)
    ensures Seqs.Distinct(SortBy(s, le))
  {
    SortPermutation(s, le);
    PermutationDistinct(s, SortBy(s, le));
  }

  /** A permutation of distinct elements is distinct. */
  lemma PermutationDistinct<T>(s: seq<T>, r: seq<T>)
    requires Seqs.Distinct(s)
    requires multiset(r) == multiset(s)
    ensures Seqs.Distinct(r)
  {
    forall i, j | 0 <= i < j < |r| ensures r[i] != r[j] {
      if r[i] == r[j] {
        assert multiset(r)[r[i]] >= 2 by {
          assert r == r[..i] + [r[i]] + r[i + 1..j] + [r[j]] + r[j + 1..];
        }
        DistinctMultiplicity(s, r[i]);
      }
    }
  }

  lemma {:induction false} DistinctMultiplicity<T>(s: seq<T>, x: T)
    requires Seqs.Distinct(s)
    ensures multiset(s)[x] <= 1
  {
    if s != [] {
      assert s == [s[0]] + s[1..];
      DistinctMultiplicity(s[1..], x);
      assert s[0] !in s[1..];
    }
  }
}
