/** The counting dictionary the charts build with
    `data.reduce((acc, v) => { acc[k] = (acc[k] || 0) + 1; return acc }, {})`
    and read back with `Object.entries`. A JavaScript object keeps its own
    properties in insertion order, except that array-index keys ("0", "1", …,
    canonical decimal numbers below 2^32 - 1) are listed first, ascending.
    The dictionary is modelled as starting with no properties at all: the
    names `{}` inherits from `Object.prototype` ("constructor", "toString",
    "__proto__", …) are not modelled. */
module JsObject {
  import Seqs
  import Sorting
  import Text
  import opened Options

  /** One own property `key: count` of a counting dictionary. */
  datatype Entry = Entry(key: string, count: nat)

  function KeysOf(d: seq<Entry>): (ks: seq<string>)
    ensures |ks| == |d|
    ensures forall i :: 0 <= i < |d| ==> ks[i] == d[i].key
  {
    if d == [] then [] else KeysOf(d[..|d| - 1]) + [d[|d| - 1].key]
  }

  /** The sum of the counts. */
  function Total(d: seq<Entry>): nat
  {
    if d == [] then 0 else Total(d[..|d| - 1]) + d[|d| - 1].count
  }

  lemma {:induction false} TotalAppend(a: seq<Entry>, b: seq<Entry>)
    ensures Total(a + b) == Total(a) + Total(b)
  {
    if b == [] {
      assert a + b == a;
    } else {
      assert (a + b)[..|a + b| - 1] == a + b[..|b| - 1];
      TotalAppend(a, b[..|b| - 1]);
    }
  }

  /** Removing the entry at `j` lowers the total by its count. */
  lemma {:induction false} TotalWithout(r: seq<Entry>, j: nat)
    requires j < |r|
    ensures Total(r) == Total(r[..j] + r[j + 1..]) + r[j].count
  {
    assert r == r[..j] + [r[j]] + r[j + 1..];
    TotalAppend(r[..j] + [r[j]], r[j + 1..]);
    TotalAppend(r[..j], [r[j]]);
    TotalAppend(r[..j], r[j + 1..]);
    assert [r[j]][..0] == [];
  }

  /** Position of the property named `k`, if the dictionary has one. */
  function Find(d: seq<Entry>, k: string): (r: Option<nat>)
    ensures r.Some? ==> r.value < |d| && d[r.value].key == k
    ensures r.Some? ==> forall m :: 0 <= m < r.value ==> d[m].key != k
    ensures r.None? <==> k !in KeysOf(d)
  {
    if d == [] then None
    else if d[0].key == k then Some(0)
    else
      var r := Find(d[1..], k);
      KeysOfTail(d, k);
      if r.None? then None else Some(r.value + 1)
  }

  /** A key of a non-empty dictionary other than its first is a key of the rest. */
  lemma KeysOfTail(d: seq<Entry>, k: string)
    requires d != [] && d[0].key != k
    ensures k in KeysOf(d) <==> k in KeysOf(d[1..])
  {
    assert KeysOf(d) == [d[0].key] + KeysOf(d[1..]);
  }

  /** `acc[k]`, where a missing property reads as 0 (`acc[k] || 0`). */
  function CountOf(d: seq<Entry>, k: string): nat
  {
    match Find(d, k)
    case Some(i) => d[i].count
    case None => 0
  }

  /** `acc[k] = (acc[k] || 0) + 1`: an existing property keeps its place,
      a new one is added last. */
  function Bump(d: seq<Entry>, k: string): seq<Entry>
  {
    match Find(d, k)
    case Some(i) => d[i := Entry(k, d[i].count + 1)]
    case None => d + [Entry(k, 1)]
  }

  /** The dictionary after counting `keys` from left to right. */
  function Tallied(keys: seq<string>): seq<Entry>
  {
    if keys == [] then [] else Bump(Tallied(keys[..|keys| - 1]), keys[|keys| - 1])
  }

  /** The `reduce` loop, updating the accumulator in place. */
  method Tally(keys: seq<string>) returns (acc: seq<Entry>)
    ensures acc == Tallied(keys)
  {
    acc := [];
    for i := 0 to |keys|
      invariant acc == Tallied(keys[..i])
    {
      var k := keys[i];
      var j := Locate(acc, k);
      TalliedStep(keys, i);
      BumpAt(acc, k, j);
      if j < |acc| {
        acc := acc[j := Entry(k, acc[j].count + 1)];
      } else {
        acc := acc + [Entry(k, 1)];
      }
    }
    assert keys[..|keys|] == keys;
  }

  /** The lookup of `acc[k]`: the first position holding `k`, or `|d|`. */
  method Locate(d: seq<Entry>, k: string) returns (j: nat)
    ensures j <= |d| && forall m :: 0 <= m < j ==> d[m].key != k
    ensures j < |d| ==> d[j].key == k
  {
    j := 0;
    while j < |d| && d[j].key != k
      invariant j <= |d|
      invariant forall m :: 0 <= m < j ==> d[m].key != k
    {
      j := j + 1;
    }
  }

  lemma TalliedStep(keys: seq<string>, i: nat)
    requires i < |keys|
    ensures Tallied(keys[..i + 1]) == Bump(Tallied(keys[..i]), keys[i])
  {
    assert keys[..i + 1][..i] == keys[..i];
  }

  /** The two cases of `Bump`, once the scan has found where `k` is. */
  lemma BumpAt(d: seq<Entry>, k: string, j: nat)
    requires j <= |d|
    requires forall m :: 0 <= m < j ==> d[m].key != k
    requires j < |d| ==> d[j].key == k
    ensures Bump(d, k) == if j < |d| then d[j := Entry(k, d[j].count + 1)] else d + [Entry(k, 1)]
  {
    FindAt(d, k, j);
    if j < |d| {
      assert Find(d, k) == Some(j);
    } else {
      assert Find(d, k) == None;
    }
  }

  lemma FindAt(d: seq<Entry>, k: string, j: nat)
    requires j <= |d|
    requires forall m :: 0 <= m < j ==> d[m].key != k
    requires j < |d| ==> d[j].key == k
    ensures Find(d, k) == if j < |d| then Some(j) else None
  {
  }

  lemma KeysOfBump(d: seq<Entry>, k: string)
    ensures KeysOf(Bump(d, k)) == if k in KeysOf(d) then KeysOf(d) else KeysOf(d) + [k]
  {
  }

  /** The keys are the distinct counted values in order of first appearance. */
  lemma {:induction false} TalliedKeys(keys: seq<string>)
    ensures KeysOf(Tallied(keys)) == Seqs.Dedup(keys)
  {
    if keys != [] {
      TalliedKeys(keys[..|keys| - 1]);
      KeysOfBump(Tallied(keys[..|keys| - 1]), keys[|keys| - 1]);
    }
  }

  lemma TalliedDistinct(keys: seq<string>)
    ensures Seqs.Distinct(KeysOf(Tallied(keys)))
    ensures forall k :: k in KeysOf(Tallied(keys)) <==> k in keys
  {
    TalliedKeys(keys);
    Seqs.DedupProperties(keys);
  }

  lemma CountOfBump(d: seq<Entry>, k: string, x: string)
    ensures CountOf(Bump(d, k), x) == CountOf(d, x) + (if x == k then 1 else 0)
  {
    var b := Bump(d, k);
    match Find(d, k)
    case Some(i) =>
      FindAt(b, x, match Find(d, x) case Some(j) => j case None => |d|);
    case None =>
      FindAt(b, x, match Find(d, x) case Some(j) => j case None => if x == k then |d| else |b|);
  }

  /** `acc[k] || 0` is the number of occurrences of `k`, for every `k`. */
  lemma {:induction false} TalliedCountOf(keys: seq<string>, k: string)
    ensures CountOf(Tallied(keys), k) == Seqs.Occurrences(keys, k)
  {
    if keys != [] {
      TalliedCountOf(keys[..|keys| - 1], k);
      CountOfBump(Tallied(keys[..|keys| - 1]), keys[|keys| - 1], k);
    }
  }

  /** Every property holds the number of occurrences of its key, at least 1. */
  lemma TalliedCounts(keys: seq<string>)
    ensures forall i :: 0 <= i < |Tallied(keys)| ==>
      Tallied(keys)[i].count == Seqs.Occurrences(keys, Tallied(keys)[i].key) >= 1
  {
    var t := Tallied(keys);
    TalliedDistinct(keys);
    forall i | 0 <= i < |t|
      ensures t[i].count == Seqs.Occurrences(keys, t[i].key) >= 1
    {
      FindAt(t, t[i].key, i);
      TalliedCountOf(keys, t[i].key);
      Seqs.OccurrencesPositive(keys, t[i].key);
    }
  }

  /** The counts add up to the number of counted values. */
  lemma {:induction false} TalliedSum(keys: seq<string>)
    ensures Total(Tallied(keys)) == |keys|
  {
    if keys != [] {
      TalliedSum(keys[..|keys| - 1]);
      TotalBump(Tallied(keys[..|keys| - 1]), keys[|keys| - 1]);
    }
  }

  lemma {:induction false} TotalBump(d: seq<Entry>, k: string)
    ensures Total(Bump(d, k)) == Total(d) + 1
  {
    var f := Find(d, k);
    if f.Some? {
      assert Bump(d, k) == d[f.value := Entry(k, d[f.value].count + 1)];
      TotalIncrement(d, f.value, Entry(k, d[f.value].count + 1));
    } else {
      assert Bump(d, k) == d + [Entry(k, 1)];
      TotalAppend(d, [Entry(k, 1)]);
      assert [Entry(k, 1)][..0] == [];
    }
  }

  /** Raising one count by one raises the total by one. */
  lemma {:induction false} TotalIncrement(d: seq<Entry>, i: nat, e: Entry)
    requires i < |d| && e.count == d[i].count + 1
    ensures Total(d[i := e]) == Total(d) + 1
  {
    var b := d[i := e];
    assert b[..i] == d[..i] && b[i + 1..] == d[i + 1..];
    TotalWithout(d, i);
    TotalWithout(b, i);
  }

  /** A canonical array-index key: decimal digits, no leading zero,
      value below 2^32 - 1. */
  predicate IsArrayIndex(k: string)
  {
    |k| >= 1 && Text.AllDigits(k) && (|k| == 1 || k[0] != '0')
    && Text.DigitsValue(k) < 4294967295
  }

  function IndexRank(e: Entry): nat
  {
    if IsArrayIndex(e.key) then Text.DigitsValue(e.key) else 0
  }

  predicate IndexOrder(a: Entry, b: Entry)
  {
    IndexRank(a) <= IndexRank(b)
  }

  function IndexKeyed(d: seq<Entry>): (r: seq<Entry>)
    ensures forall i :: 0 <= i < |r| ==> IsArrayIndex(r[i].key)
  {
    if d == [] then []
    else (if IsArrayIndex(d[0].key) then [d[0]] else []) + IndexKeyed(d[1..])
  }

  function OtherKeyed(d: seq<Entry>): (r: seq<Entry>)
    ensures forall i :: 0 <= i < |r| ==> !IsArrayIndex(r[i].key)
  {
    if d == [] then []
    else (if IsArrayIndex(d[0].key) then [] else [d[0]]) + OtherKeyed(d[1..])
  }

  /** `Object.entries(acc)`: array-index keys ascending, then the other keys
      in insertion order. */
  function Entries(d: seq<Entry>): seq<Entry>
  {
    Sorting.SortBy(IndexKeyed(d), IndexOrder) + OtherKeyed(d)
  }

  lemma IndexOrderTotal()
    ensures Sorting.TotalPreorder(IndexOrder)
  {
  }

  lemma {:induction false} SplitPermutation(d: seq<Entry>)
    ensures multiset(IndexKeyed(d)) + multiset(OtherKeyed(d)) == multiset(d)
  {
    if d != [] {
      SplitPermutation(d[1..]);
      assert d == [d[0]] + d[1..];
    }
  }

  /** `Object.entries` lists every property exactly once. */
  lemma EntriesPermutation(d: seq<Entry>)
    ensures multiset(Entries(d)) == multiset(d)
  {
    Sorting.SortPermutation(IndexKeyed(d), IndexOrder);
    SplitPermutation(d);
  }

  /** Array-index keys come first, in ascending numeric order; every other
      key follows, in insertion order. */
  lemma EntriesOrder(d: seq<Entry>)
    ensures var e := Entries(d); var n := |IndexKeyed(d)|;
      && n <= |e|
      && (forall i :: 0 <= i < n ==> IsArrayIndex(e[i].key))
      && (forall i, j :: 0 <= i < j < n ==>
            Text.DigitsValue(e[i].key) <= Text.DigitsValue(e[j].key))
      && e[n..] == OtherKeyed(d)
  {
    var s := Sorting.SortBy(IndexKeyed(d), IndexOrder);
    IndexOrderTotal();
    Sorting.SortSorted(IndexKeyed(d), IndexOrder);
    Sorting.SortPermutation(IndexKeyed(d), IndexOrder);
    forall i | 0 <= i < |s| ensures IsArrayIndex(s[i].key) {
      assert s[i] in multiset(IndexKeyed(d));
    }
  }

  /** Without array-index keys, `Object.entries` is plain insertion order. */
  lemma EntriesNoIndexKeys(d: seq<Entry>)
    requires forall i :: 0 <= i < |d| ==> !IsArrayIndex(d[i].key)
    ensures Entries(d) == d
  {
    NoIndexKeys(d);
  }

  lemma {:induction false} NoIndexKeys(d: seq<Entry>)
    requires forall i :: 0 <= i < |d| ==> !IsArrayIndex(d[i].key)
    ensures IndexKeyed(d) == [] && OtherKeyed(d) == d
  {
    if d != [] {
      NoIndexKeys(d[1..]);
    }
  }

  /** `(a, b) => b.count - a.count`: larger counts first. */
  predicate ByCountDesc(a: Entry, b: Entry)
  {
    a.count >= b.count
  }

  /** `Number(key)` for a key of decimal digits; other keys are not compared. */
  function KeyNumber(k: string): nat
  {
    if Text.AllDigits(k) then Text.DigitsValue(k) else 0
  }

  /** `(a, b) => a.key - b.key` on keys of decimal digits: ascending numbers. */
  predicate ByNumericKey(a: Entry, b: Entry)
  {
    KeyNumber(a.key) <= KeyNumber(b.key)
  }

  lemma OrdersTotal()
    ensures Sorting.TotalPreorder(ByCountDesc)
    ensures Sorting.TotalPreorder(ByNumericKey)
  {
  }

  /** Reordering entries keeps the total count. */
  lemma {:induction false} TotalPermutation(d: seq<Entry>, r: seq<Entry>)
    requires multiset(d) == multiset(r)
    ensures Total(d) == Total(r)
    decreases |d|
  {
    if d != [] {
      var j := MatchLast(d, r);
      TotalPermutation(d[..|d| - 1], r[..j] + r[j + 1..]);
      TotalWithout(r, j);
    }
  }

  /** The last entry of `d` sits somewhere in its reordering `r`; what is
      left on both sides is again a reordering. */
  lemma MatchLast(d: seq<Entry>, r: seq<Entry>) returns (j: nat)
    requires d != [] && multiset(d) == multiset(r)
    ensures j < |r| && r[j] == d[|d| - 1]
    ensures multiset(d[..|d| - 1]) == multiset(r[..j] + r[j + 1..])
  {
    var x := d[|d| - 1];
    assert x in multiset(r);
    j :| 0 <= j < |r| && r[j] == x;
    RemoveAtMultiset(r, j);
    assert d == d[..|d| - 1] + [x];
    assert multiset(d[..|d| - 1]) == multiset(d) - multiset{x};
  }

  lemma RemoveAtMultiset(r: seq<Entry>, j: nat)
    requires j < |r|
    ensures multiset(r[..j] + r[j + 1..]) == multiset(r) - multiset{r[j]}
  {
    assert r == r[..j] + [r[j]] + r[j + 1..];
  }

  /** A reordering of a dictionary's entries still has distinct keys, the same
      keys, the same entries and the same total count. */
  lemma PermutedEntries(d: seq<Entry>, r: seq<Entry>)
    requires multiset(r) == multiset(d)
    requires Seqs.Distinct(KeysOf(d))
    ensures Seqs.Distinct(KeysOf(r))
    ensures forall i :: 0 <= i < |r| ==> r[i] in d
    ensures forall k :: k in KeysOf(r) <==> k in KeysOf(d)
    ensures Total(r) == Total(d)
  {
    TotalPermutation(d, r);
    PermutedMembers(d, r);
    PermutedKeys(d, r);
    DistinctEntries(d);
    Sorting.PermutationDistinct(d, r);
    var ks := KeysOf(r);
    forall i, j | 0 <= i < j < |r| ensures ks[i] != ks[j] {
      SameKeySameEntry(d, r[i], r[j]);
    }
  }

  lemma PermutedKeys(d: seq<Entry>, r: seq<Entry>)
    requires multiset(r) == multiset(d)
    ensures forall k :: k in KeysOf(r) <==> k in KeysOf(d)
  {
    forall k | k in KeysOf(d) ensures k in KeysOf(r) {
      var i :| 0 <= i < |d| && d[i].key == k;
      assert d[i] in multiset(r);
      var j :| 0 <= j < |r| && r[j] == d[i];
      assert KeysOf(r)[j] == k;
    }
    forall k | k in KeysOf(r) ensures k in KeysOf(d) {
      var i :| 0 <= i < |r| && r[i].key == k;
      assert r[i] in multiset(d);
      var j :| 0 <= j < |d| && d[j] == r[i];
      assert KeysOf(d)[j] == k;
    }
  }

  lemma PermutedMembers(d: seq<Entry>, r: seq<Entry>)
    requires multiset(r) == multiset(d)
    ensures forall i :: 0 <= i < |r| ==> r[i] in d
  {
    forall i | 0 <= i < |r| ensures r[i] in d {
      assert r[i] in multiset(d);
    }
  }

  lemma SameKeySameEntry(d: seq<Entry>, x: Entry, y: Entry)
    requires Seqs.Distinct(KeysOf(d))
    requires x in d && y in d
    ensures x.key == y.key ==> x == y
  {
    if x.key == y.key {
      var a :| 0 <= a < |d| && d[a] == x;
      var b :| 0 <= b < |d| && d[b] == y;
      assert KeysOf(d)[a] == KeysOf(d)[b];
    }
  }

  lemma DistinctEntries(d: seq<Entry>)
    requires Seqs.Distinct(KeysOf(d))
    ensures Seqs.Distinct(d)
  {
    forall i, j | 0 <= i < j < |d| ensures d[i] != d[j] {
      assert KeysOf(d)[i] != KeysOf(d)[j];
    }
  }

  /** `Object.entries(tally).sort(compare)` for a comparator that orders by `le`. */
  function SortedTally(keys: seq<string>, le: (Entry, Entry) -> bool): seq<Entry>
  {
    Sorting.SortBy(Entries(Tallied(keys)), le)
  }

  /** Rows each holding a distinct key of `keys` with its number of
      occurrences. */
  ghost predicate RowsOf(keys: seq<string>, d: seq<Entry>)
  {
    && Seqs.Distinct(KeysOf(d))
    && (forall i :: 0 <= i < |d| ==> d[i].key in keys && d[i].count == Seqs.Occurrences(keys, d[i].key) >= 1)
  }

  /** Rows counting `keys`: each distinct key once, with its number of
      occurrences, as many rows as distinct keys, adding up to `|keys|`. */
  ghost predicate CountRows(keys: seq<string>, d: seq<Entry>)
  {
    && RowsOf(keys, d)
    && |d| == |Seqs.Dedup(keys)|
    && (forall k :: k in KeysOf(d) <==> k in keys)
    && Total(d) == |keys|
  }

  /** Larger counts first. */
  ghost predicate Ranked(d: seq<Entry>)
  {
    forall i, j :: 0 <= i < j < |d| ==> d[i].count >= d[j].count
  }

  /** The tally itself counts its keys. */
  lemma TalliedRows(keys: seq<string>)
    ensures CountRows(keys, Tallied(keys))
  {
    var t := Tallied(keys);
    TalliedKeys(keys);
    TalliedDistinct(keys);
    TalliedCounts(keys);
    TalliedSum(keys);
    forall i | 0 <= i < |t| ensures t[i].key in keys {
      assert KeysOf(t)[i] == t[i].key;
    }
  }

  /** Any reordering of counting rows counts the same keys. */
  lemma PermutedRows(keys: seq<string>, d: seq<Entry>, r: seq<Entry>)
    requires CountRows(keys, d) && multiset(r) == multiset(d)
    ensures CountRows(keys, r)
  {
    PermutedEntries(d, r);
    assert |r| == |multiset(r)| == |multiset(d)| == |d|;
    forall i | 0 <= i < |r|
      ensures r[i].key in keys && r[i].count == Seqs.Occurrences(keys, r[i].key) >= 1
    {
      var j :| 0 <= j < |d| && d[j] == r[i];
    }
  }

  /** The sorted rows are ordered by `le` and count `keys`. */
  lemma SortedTallyProperties(keys: seq<string>, le: (Entry, Entry) -> bool)
    requires Sorting.TotalPreorder(le)
    ensures Sorting.SortedBy(SortedTally(keys, le), le)
    ensures CountRows(keys, SortedTally(keys, le))
  {
    var e := Entries(Tallied(keys));
    Sorting.SortSorted(e, le);
    Sorting.SortPermutation(e, le);
    EntriesTallyProperties(keys);
    PermutedRows(keys, e, SortedTally(keys, le));
  }

  /** Rows the comparator calls equal keep their `Object.entries` order. */
  lemma SortedTallyTies(keys: seq<string>, le: (Entry, Entry) -> bool, p: Entry)
    requires Sorting.TotalPreorder(le)
    ensures Sorting.EqualTo(SortedTally(keys, le), p, le)
         == Sorting.EqualTo(Entries(Tallied(keys)), p, le)
  {
    Sorting.SortStable(Entries(Tallied(keys)), p, le);
  }

  /** `.sort((a, b) => b.count - a.count).slice(0, n)` over the tally. */
  function TopCounts(keys: seq<string>, n: nat): seq<Entry>
  {
    Seqs.Take(SortedTally(keys, ByCountDesc), n)
  }

  /** At most `n` rows, largest counts first, each key once with its number
      of occurrences; an omitted key never outnumbers the last kept one, and
      with at most `n` distinct keys nothing is omitted. */
  lemma TopCountsProperties(keys: seq<string>, n: nat)
    requires n > 0
    ensures |TopCounts(keys, n)| <= n
    ensures Ranked(TopCounts(keys, n)) && RowsOf(keys, TopCounts(keys, n))
    ensures forall k :: k in keys && k !in KeysOf(TopCounts(keys, n)) ==>
              |TopCounts(keys, n)| == n && Seqs.Occurrences(keys, k) <= TopCounts(keys, n)[n - 1].count
    ensures |Seqs.Dedup(keys)| <= n ==>
              TopCounts(keys, n) == SortedTally(keys, ByCountDesc) && Total(TopCounts(keys, n)) == |keys|
  {
    var r := SortedTally(keys, ByCountDesc);
    OrdersTotal();
    SortedTallyProperties(keys, ByCountDesc);
    assert Ranked(r);
    PrefixRows(keys, r, |TopCounts(keys, n)|);
    OmittedBelow(keys, r, n);
  }

  /** A prefix of ranked rows is ranked rows. */
  lemma PrefixRows(keys: seq<string>, r: seq<Entry>, m: nat)
    requires Ranked(r) && RowsOf(keys, r) && m <= |r|
    ensures Ranked(r[..m]) && RowsOf(keys, r[..m])
  {
    assert KeysOf(r[..m]) == KeysOf(r)[..m];
  }

  /** A key left out of the first `n` ranked rows counting `keys` lies
      beyond them, so `n` rows were kept and none of them is smaller. */
  lemma OmittedBelow(keys: seq<string>, r: seq<Entry>, n: nat)
    requires n > 0 && Ranked(r) && CountRows(keys, r)
    ensures var top := Seqs.Take(r, n);
            forall k :: k in keys && k !in KeysOf(top) ==>
              |top| == n && Seqs.Occurrences(keys, k) <= top[n - 1].count
  {
    var top := Seqs.Take(r, n);
    assert KeysOf(top) == KeysOf(r)[..|top|];
    forall k | k in keys && k !in KeysOf(top)
      ensures |top| == n && Seqs.Occurrences(keys, k) <= top[n - 1].count
    {
      var j :| 0 <= j < |r| && KeysOf(r)[j] == k;
      assert j >= |top|;
    }
  }

  /** The rows of `Object.entries(tally)` count `keys`. */
  lemma EntriesTallyProperties(keys: seq<string>)
    ensures CountRows(keys, Entries(Tallied(keys)))
  {
    var t := Tallied(keys);
    TalliedRows(keys);
    EntriesPermutation(t);
    PermutedRows(keys, t, Entries(t));
  }

  /** `.map(([k, v]) => ({ name: f(k), value: v }))`. */
  function Relabel(d: seq<Entry>, f: string -> string): (r: seq<Entry>)
    ensures |r| == |d|
    ensures forall i :: 0 <= i < |d| ==> r[i] == Entry(f(d[i].key), d[i].count)
  {
    seq(|d|, i requires 0 <= i < |d| => Entry(f(d[i].key), d[i].count))
  }

  lemma {:induction false} RelabelTotal(d: seq<Entry>, f: string -> string)
    ensures Total(Relabel(d, f)) == Total(d)
  {
    if d != [] {
      RelabelTotal(d[..|d| - 1], f);
      assert Relabel(d, f)[..|d| - 1] == Relabel(d[..|d| - 1], f);
    }
  }

  /** Relabelled tally rows: row `i` carries the new name of the `i`-th
      distinct key and that key's count, every key has its row, names may
      coincide but rows are never merged, and the counts add up to `|keys|`. */
  lemma RelabeledTally(keys: seq<string>, f: string -> string)
    ensures var e := Entries(Tallied(keys)); var r := Relabel(e, f);
      && |r| == |Seqs.Dedup(keys)|
      && (forall i :: 0 <= i < |r| ==>
            e[i].key in keys && r[i] == Entry(f(e[i].key), Seqs.Occurrences(keys, e[i].key)))
      && (forall k :: k in keys ==> Entry(f(k), Seqs.Occurrences(keys, k)) in r)
      && Total(r) == |keys|
  {
    var e := Entries(Tallied(keys));
    EntriesTallyProperties(keys);
    assert CountRows(keys, e);
    RelabelTotal(e, f);
    RelabelCovers(keys, e, f);
  }

  /** Relabelled rows that count every key still have a row for each key. */
  lemma RelabelCovers(keys: seq<string>, e: seq<Entry>, f: string -> string)
    requires CountRows(keys, e)
    ensures forall k :: k in keys ==> Entry(f(k), Seqs.Occurrences(keys, k)) in Relabel(e, f)
  {
    var r := Relabel(e, f);
    forall k | k in keys ensures Entry(f(k), Seqs.Occurrences(keys, k)) in r {
      assert k in KeysOf(e);
      var i :| 0 <= i < |e| && KeysOf(e)[i] == k;
      assert r[i] == Entry(f(k), Seqs.Occurrences(keys, k));
    }
  }

  /** The summed counts of the properties whose key satisfies `p`. */
  function TotalWhere(d: seq<Entry>, p: string -> bool): nat
  {
    if d == [] then 0 else TotalWhere(d[..|d| - 1], p) + (if p(d[|d| - 1].key) then d[|d| - 1].count else 0)
  }

  /** How many of `keys` satisfy `p`. */
  function CountWhere(keys: seq<string>, p: string -> bool): nat
  {
    if keys == [] then 0 else CountWhere(keys[..|keys| - 1], p) + (if p(keys[|keys| - 1]) then 1 else 0)
  }

  lemma {:induction false} TotalWhereAppend(a: seq<Entry>, b: seq<Entry>, p: string -> bool)
    ensures TotalWhere(a + b, p) == TotalWhere(a, p) + TotalWhere(b, p)
  {
    if b == [] {
      assert a + b == a;
    } else {
      assert (a + b)[..|a + b| - 1] == a + b[..|b| - 1];
      TotalWhereAppend(a, b[..|b| - 1], p);
    }
  }

  lemma {:induction false} TotalWhereWithout(r: seq<Entry>, j: nat, p: string -> bool)
    requires j < |r|
    ensures TotalWhere(r, p) == TotalWhere(r[..j] + r[j + 1..], p) + (if p(r[j].key) then r[j].count else 0)
  {
    assert r == r[..j] + [r[j]] + r[j + 1..];
    TotalWhereAppend(r[..j] + [r[j]], r[j + 1..], p);
    TotalWhereAppend(r[..j], [r[j]], p);
    TotalWhereAppend(r[..j], r[j + 1..], p);
    assert [r[j]][..0] == [];
  }

  lemma {:induction false} TotalWhereBump(d: seq<Entry>, k: string, p: string -> bool)
    ensures TotalWhere(Bump(d, k), p) == TotalWhere(d, p) + (if p(k) then 1 else 0)
  {
    var f := Find(d, k);
    if f.Some? {
      assert Bump(d, k) == d[f.value := Entry(k, d[f.value].count + 1)];
      TotalWhereIncrement(d, f.value, Entry(k, d[f.value].count + 1), p);
    } else {
      assert Bump(d, k) == d + [Entry(k, 1)];
      TotalWhereAppend(d, [Entry(k, 1)], p);
      assert [Entry(k, 1)][..0] == [];
    }
  }

  lemma TotalWhereIncrement(d: seq<Entry>, i: nat, e: Entry, p: string -> bool)
    requires i < |d| && e.key == d[i].key && e.count == d[i].count + 1
    ensures TotalWhere(d[i := e], p) == TotalWhere(d, p) + (if p(e.key) then 1 else 0)
  {
    var b := d[i := e];
    assert b[..i] == d[..i] && b[i + 1..] == d[i + 1..];
    TotalWhereWithout(d, i, p);
    TotalWhereWithout(b, i, p);
  }

  /** The tally's counts over keys satisfying `p` add up to the number of
      counted values satisfying `p`. */
  lemma {:induction false} TalliedTotalWhere(keys: seq<string>, p: string -> bool)
    ensures TotalWhere(Tallied(keys), p) == CountWhere(keys, p)
  {
    if keys != [] {
      TalliedTotalWhere(keys[..|keys| - 1], p);
      TotalWhereBump(Tallied(keys[..|keys| - 1]), keys[|keys| - 1], p);
    }
  }

  lemma {:induction false} TotalWherePermutation(d: seq<Entry>, r: seq<Entry>, p: string -> bool)
    requires multiset(d) == multiset(r)
    ensures TotalWhere(d, p) == TotalWhere(r, p)
    decreases |d|
  {
    if d != [] {
      var j := MatchLast(d, r);
      TotalWherePermutation(d[..|d| - 1], r[..j] + r[j + 1..], p);
      TotalWhereWithout(r, j, p);
    }
  }

  /** The same, read through `Object.entries`. */
  lemma EntriesTotalWhere(keys: seq<string>, p: string -> bool)
    ensures TotalWhere(Entries(Tallied(keys)), p) == CountWhere(keys, p)
  {
    EntriesPermutation(Tallied(keys));
    TotalWherePermutation(Entries(Tallied(keys)), Tallied(keys), p);
    TalliedTotalWhere(keys, p);
  }
}
