/** The few JavaScript built-ins the charts share, on exact numbers. */
module JsMath {

  /** `Math.round`: the nearest integer, halves rounded up. */
  function Round(x: real): (n: int)
    ensures x - 0.5 < n as real <= x + 0.5
  {
    (x + 0.5).Floor
  }

  /** Rounding an integer gives it back, and rounding keeps order. */
  lemma RoundProperties(x: real, y: real, k: int)
    ensures Round(k as real) == k
    ensures x <= y ==> Round(x) <= Round(y)
  {
  }

  /** `Array.prototype.indexOf`: the first position holding `x`, or -1. */
  function IndexOf<T(==)>(s: seq<T>, x: T): (i: int)
    ensures -1 <= i < |s|
    ensures i == -1 <==> x !in s
    ensures 0 <= i ==> s[i] == x && x !in s[..i]
  {
    if s == [] then -1
    else if s[0] == x then 0
    else
      var j := IndexOf(s[1..], x);
      if j == -1 then -1 else j + 1
  }

  /** In a sequence without repeats, `indexOf` finds each element where
      it stands. */
  lemma {:induction false} IndexOfUnique<T>(s: seq<T>, j: nat)
    requires j < |s| && forall a, b :: 0 <= a < b < |s| ==> s[a] != s[b]
    ensures IndexOf(s, s[j]) == j
  {
    if j > 0 {
      assert s[0] != s[j];
      assert s[1..][j - 1] == s[j];
      IndexOfUnique(s[1..], j - 1);
    }
  }
}
