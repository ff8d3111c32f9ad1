/** The parallel-sets layout: for each chosen dimension, one node per
    category stacked from the top margin in proportion to its count; between
    each pair of adjacent dimensions, one ribbon per co-occurring pair of
    categories; and each node's ribbons stacked along its edge. Ribbons are
    keyed by the text `${a}-${b}` and split back on "-". */
module ParallelSets {
  import opened Options
  import Seqs
  import Text
  import opened JsObject
  import opened Vehicles
  import Partition

  datatype Margin = Margin(top: real, right: real, bottom: real, left: real)

  /** `height - margin.top - margin.bottom`. */
  function Available(height: real, margin: Margin): real
  {
    height - margin.top - margin.bottom
  }

  /** One category of one dimension. */
  datatype Node = Node(name: string, value: nat, dimension: string, dimensionIndex: nat, y: real, height: real)

  /** The `values` dictionary of one dimension, in `Object.entries` order. */
  function Categories(data: seq<Record>, dim: string): seq<Entry>
  {
    Entries(Tallied(Column(data, dim)))
  }

  function Ys(nodes: seq<Node>): seq<real>
  {
    seq(|nodes|, k requires 0 <= k < |nodes| => nodes[k].y)
  }

  function Heights(nodes: seq<Node>): seq<real>
  {
    seq(|nodes|, k requires 0 <= k < |nodes| => nodes[k].height)
  }

  function CountsReal(e: seq<Entry>): seq<real>
  {
    seq(|e|, k requires 0 <= k < |e| => e[k].count as real)
  }

  /** The nodes of dimension `i`: one per category, in entry order, with its
      count, stacked without gaps from `top`, each as tall as its count's
      share of `available`. */
  ghost predicate IsDimensionNodes(data: seq<Record>, dim: string, i: nat, top: real, available: real, nodes: seq<Node>)
  {
    var e := Categories(data, dim);
    && |nodes| == |e|
    && (forall k :: 0 <= k < |nodes| ==>
          && data != []
          && nodes[k].name == e[k].key && nodes[k].value == e[k].count
          && nodes[k].dimension == dim && nodes[k].dimensionIndex == i
          && nodes[k].height == Partition.Share(e[k].count as real, |data| as real, available))
    && Stacked(nodes, top)
  }

  /** Nodes laid top to bottom from `top`, each starting where the previous
      one ends. */
  predicate Stacked(nodes: seq<Node>, top: real)
  {
    && (|nodes| > 0 ==> nodes[0].y == top)
    && forall k :: 0 < k < |nodes| ==> nodes[k].y == nodes[k - 1].y + nodes[k - 1].height
  }

  lemma {:induction false} StackedPacked(nodes: seq<Node>, top: real)
    requires Stacked(nodes, top)
    ensures Partition.Packed(Ys(nodes), Heights(nodes), top, 0.0)
  {
  }

  lemma {:induction false} NoDataNoCategories(dim: string)
    ensures Categories([], dim) == []
  {
    assert Column([], dim) == [];
    assert Tallied([]) == [];
    assert IndexKeyed([]) == [] && OtherKeyed([]) == [];
  }

  /** One dimension's `values` count and the `y +=` node map. */
  method DimensionNodes(data: seq<Record>, dim: string, i: nat, top: real, available: real)
    returns (nodes: seq<Node>)
    ensures IsDimensionNodes(data, dim, i, top, available, nodes)
  {
    var values := Tally(Column(data, dim));
    var e := Entries(values);
    if data == [] {
      NoDataNoCategories(dim);
      return [];
    }
    nodes := PlaceNodes(e, |data| as real, dim, i, top, available);
  }

  /** `Object.entries(values).map(...)` with `y += node.height`. */
  method PlaceNodes(e: seq<Entry>, total: real, dim: string, i: nat, top: real, available: real)
    returns (nodes: seq<Node>)
    requires total != 0.0
    ensures |nodes| == |e|
    ensures forall k :: 0 <= k < |e| ==>
      nodes[k] == Node(e[k].key, e[k].count, dim, i, nodes[k].y, Partition.Share(e[k].count as real, total, available))
    ensures Stacked(nodes, top)
  {
    var y := top;
    nodes := [];
    for k := 0 to |e|
      invariant |nodes| == k
      invariant forall j :: 0 <= j < k ==>
        nodes[j] == Node(e[j].key, e[j].count, dim, i, nodes[j].y, Partition.Share(e[j].count as real, total, available))
      invariant Stacked(nodes, top)
      invariant y == if k == 0 then top else nodes[k - 1].y + nodes[k - 1].height
    {
      var node := Node(e[k].key, e[k].count, dim, i, y, e[k].count as real / total * available);
      StackedAppend(nodes, top, node);
      nodes := nodes + [node];
      y := y + node.height;
    }
  }

  lemma StackedAppend(nodes: seq<Node>, top: real, node: Node)
    requires Stacked(nodes, top)
    requires node.y == if nodes == [] then top else nodes[|nodes| - 1].y + nodes[|nodes| - 1].height
    ensures Stacked(nodes + [node], top)
  {
    var r := nodes + [node];
    forall k | 0 < k < |r| ensures r[k].y == r[k - 1].y + r[k - 1].height {
      if k < |nodes| {
        assert r[k] == nodes[k] && r[k - 1] == nodes[k - 1];
      }
    }
  }

  lemma {:induction false} StackedEnd(nodes: seq<Node>, top: real)
    requires Stacked(nodes, top) && nodes != []
    ensures nodes[|nodes| - 1].y + nodes[|nodes| - 1].height == top + Seqs.SumReal(Heights(nodes))
  {
    StackedPacked(nodes, top);
    Partition.PackedEnd(Ys(nodes), Heights(nodes), top, 0.0);
  }

  lemma {:induction false} CountsRealTotal(e: seq<Entry>)
    ensures Seqs.SumReal(CountsReal(e)) == Total(e) as real
  {
    if e != [] {
      CountsRealTotal(e[..|e| - 1]);
      assert CountsReal(e)[..|e| - 1] == CountsReal(e[..|e| - 1]);
    }
  }

  /** A dimension's counts add up to the number of records, so its nodes
      fill the available height exactly: the last ends at `top + available`. */
  lemma {:induction false} DimensionFill(data: seq<Record>, dim: string, i: nat, top: real, available: real, nodes: seq<Node>)
    requires IsDimensionNodes(data, dim, i, top, available, nodes) && data != []
    ensures Total(Categories(data, dim)) == |data|
    ensures Seqs.SumReal(Heights(nodes)) == available
    ensures nodes != [] && nodes[|nodes| - 1].y + nodes[|nodes| - 1].height == top + available
  {
    var e := Categories(data, dim);
    EntriesTallyProperties(Column(data, dim));
    assert Key(data[0], dim) in Column(data, dim);
    assert |Seqs.Dedup(Column(data, dim))| > 0 by {
      Seqs.DedupProperties(Column(data, dim));
    }
    NodesFill(e, nodes, top, available);
  }

  lemma {:induction false} NodesFill(e: seq<Entry>, nodes: seq<Node>, top: real, available: real)
    requires Total(e) > 0 && |nodes| == |e| > 0 && Stacked(nodes, top)
    requires forall k :: 0 <= k < |e| ==>
      nodes[k].height == Partition.Share(e[k].count as real, Total(e) as real, available)
    ensures Seqs.SumReal(Heights(nodes)) == available
    ensures nodes[|nodes| - 1].y + nodes[|nodes| - 1].height == top + available
  {
    CountsRealTotal(e);
    assert Heights(nodes) == Partition.Shares(CountsReal(e), Total(e) as real, available);
    Partition.SharesOfWhole(CountsReal(e), available);
    StackedEnd(nodes, top);
  }

  /** The node lists of every dimension, block `q` for `dims[q]`. */
  ghost predicate Layered(data: seq<Record>, dims: seq<string>, top: real, available: real, blocks: seq<seq<Node>>)
  {
    && |blocks| == |dims|
    && forall q :: 0 <= q < |dims| ==> IsDimensionNodes(data, dims[q], q, top, available, blocks[q])
  }

  /** `dimensionNodes`: the dimensions' node lists one after another (`.flat()`). */
  function Flatten(blocks: seq<seq<Node>>): seq<Node>
  {
    if blocks == [] then [] else Flatten(blocks[..|blocks| - 1]) + blocks[|blocks| - 1]
  }

  /** Where block `q` starts in the flattened list. */
  function Offset(blocks: seq<seq<Node>>, q: nat): nat
    requires q <= |blocks|
  {
    |Flatten(blocks[..q])|
  }

  lemma {:induction false} FlattenOffset(blocks: seq<seq<Node>>, q: nat, t: nat)
    requires q < |blocks| && t < |blocks[q]|
    ensures Offset(blocks, q) + t < |Flatten(blocks)|
    ensures Flatten(blocks)[Offset(blocks, q) + t] == blocks[q][t]
  {
    var n := |blocks|;
    var init := blocks[..n - 1];
    if q == n - 1 {
      assert blocks[..q] == init;
    } else {
      FlattenOffset(init, q, t);
      assert init[..q] == blocks[..q];
    }
  }

  /** Each position of the flattened list lies in exactly one block. */
  lemma {:induction false} FlattenAt(blocks: seq<seq<Node>>, m: nat) returns (q: nat, t: nat)
    requires m < |Flatten(blocks)|
    ensures q < |blocks| && t < |blocks[q]| && m == Offset(blocks, q) + t
    ensures Flatten(blocks)[m] == blocks[q][t]
  {
    var n := |blocks|;
    var init := blocks[..n - 1];
    if m < |Flatten(init)| {
      q, t := FlattenAt(init, m);
      assert init[..q] == blocks[..q];
    } else {
      q, t := n - 1, m - |Flatten(init)|;
      assert blocks[..q] == init;
    }
  }

  /** `dimensionNodes.find((n) => n.name === name && n.dimension === dim)`:
      the first such node's position, `None` for `undefined`. */
  function FindNode(nodes: seq<Node>, name: string, dim: string): (r: Option<nat>)
    ensures r.Some? ==> r.value < |nodes| && nodes[r.value].name == name && nodes[r.value].dimension == dim
    ensures r.Some? ==> forall m :: 0 <= m < r.value ==> !(nodes[m].name == name && nodes[m].dimension == dim)
    ensures r.None? ==> forall m :: 0 <= m < |nodes| ==> !(nodes[m].name == name && nodes[m].dimension == dim)
  {
    if nodes == [] then None
    else if nodes[0].name == name && nodes[0].dimension == dim then Some(0)
    else match FindNode(nodes[1..], name, dim)
      case None => None
      case Some(k) => Some(k + 1)
  }

  lemma FindFirst(nodes: seq<Node>, name: string, dim: string, p: nat)
    requires p < |nodes| && nodes[p].name == name && nodes[p].dimension == dim
    requires forall m :: 0 <= m < p ==> !(nodes[m].name == name && nodes[m].dimension == dim)
    ensures FindNode(nodes, name, dim) == Some(p)
  {
  }

  /** A node's name and dimension single it out once the dimensions are
      distinct: `find` returns that node and no earlier one. */
  lemma FindPlaced(data: seq<Record>, dims: seq<string>, top: real, available: real, blocks: seq<seq<Node>>, q: nat, t: nat)
    requires Layered(data, dims, top, available, blocks) && Seqs.Distinct(dims)
    requires q < |dims| && t < |blocks[q]|
    ensures Offset(blocks, q) + t < |Flatten(blocks)|
    ensures Flatten(blocks)[Offset(blocks, q) + t] == blocks[q][t]
    ensures FindNode(Flatten(blocks), blocks[q][t].name, dims[q]) == Some(Offset(blocks, q) + t)
  {
    var nodes, p, a := Flatten(blocks), Offset(blocks, q) + t, blocks[q][t].name;
    FlattenOffset(blocks, q, t);
    DimensionNodeFacts(data, dims[q], q, top, available, blocks[q]);
    forall m | 0 <= m < p ensures !(nodes[m].name == a && nodes[m].dimension == dims[q]) {
      var q', t' := FlattenAt(blocks, m);
      assert nodes[m].dimension == dims[q'];
      if q' == q {
        assert t' < t;
      } else {
        assert dims[q'] != dims[q];
      }
    }
    FindFirst(nodes, a, dims[q], p);
  }

  /** What a dimension's nodes hold: distinct names, each a value of the
      column, counted by the node's value. */
  lemma DimensionNodeFacts(data: seq<Record>, dim: string, i: nat, top: real, available: real, nodes: seq<Node>)
    requires IsDimensionNodes(data, dim, i, top, available, nodes)
    ensures forall a, b :: 0 <= a < b < |nodes| ==> nodes[a].name != nodes[b].name
    ensures forall k :: 0 <= k < |nodes| ==>
      nodes[k].name in Column(data, dim) && nodes[k].value == Seqs.Occurrences(Column(data, dim), nodes[k].name)
    ensures forall x :: x in Column(data, dim) ==> exists k :: 0 <= k < |nodes| && nodes[k].name == x
  {
    EntriesTallyProperties(Column(data, dim));
    NodesOfEntries(Categories(data, dim), nodes, Column(data, dim));
  }

  lemma NodesOfEntries(e: seq<Entry>, nodes: seq<Node>, col: seq<string>)
    requires |nodes| == |e| && forall k :: 0 <= k < |e| ==> nodes[k].name == e[k].key && nodes[k].value == e[k].count
    requires Seqs.Distinct(KeysOf(e)) && forall x :: x in KeysOf(e) <==> x in col
    requires forall k :: 0 <= k < |e| ==> e[k].key in col && e[k].count == Seqs.Occurrences(col, e[k].key)
    ensures forall a, b :: 0 <= a < b < |nodes| ==> nodes[a].name != nodes[b].name
    ensures forall k :: 0 <= k < |nodes| ==> nodes[k].name in col && nodes[k].value == Seqs.Occurrences(col, nodes[k].name)
    ensures forall x :: x in col ==> exists k :: 0 <= k < |nodes| && nodes[k].name == x
  {
    forall a, b | 0 <= a < b < |nodes| ensures nodes[a].name != nodes[b].name {
      assert KeysOf(e)[a] == nodes[a].name && KeysOf(e)[b] == nodes[b].name;
    }
    forall x | x in col ensures exists k :: 0 <= k < |nodes| && nodes[k].name == x {
      assert x in KeysOf(e);
      var k :| 0 <= k < |e| && KeysOf(e)[k] == x;
      assert nodes[k].name == x;
    }
  }

  /** A ribbon between adjacent dimensions. `source` and `target` are
      positions in the flattened node list; `None` is the `undefined` a
      failed `find` gives. */
  datatype Link = Link(source: Option<nat>, target: Option<nat>, value: nat, sourceY: real, targetY: real, height: real)

  /** Which end of a ribbon. */
  datatype Side = Source | Target

  function EndOf(l: Link, side: Side): Option<nat>
  {
    match side
    case Source => l.source
    case Target => l.target
  }

  /** The dimension a pair's ribbons start from or end in. */
  function PairDim(d1: string, d2: string, side: Side): string
  {
    match side
    case Source => d1
    case Target => d2
  }

  /** `${d[dim1]}-${d[dim2]}`. */
  function PairKey(r: Record, d1: string, d2: string): string
  {
    Key(r, d1) + "-" + Key(r, d2)
  }

  function PairKeys(data: seq<Record>, d1: string, d2: string): (ks: seq<string>)
    ensures |ks| == |data| && forall n :: 0 <= n < |data| ==> ks[n] == PairKey(data[n], d1, d2)
  {
    seq(|data|, n requires 0 <= n < |data| => PairKey(data[n], d1, d2))
  }

  /** The `links` dictionary of one pair of dimensions, in `Object.entries` order. */
  function PairEntries(data: seq<Record>, d1: string, d2: string): seq<Entry>
  {
    Tallied(PairKeys(data, d1, d2))
  }

  /** Every pair key holds "-", so none is an array index and
      `Object.entries(links)` lists the pairs in first-seen order. */
  lemma PairEntriesOrder(data: seq<Record>, d1: string, d2: string)
    ensures Entries(Tallied(PairKeys(data, d1, d2))) == PairEntries(data, d1, d2)
  {
    var keys := PairKeys(data, d1, d2);
    forall n | 0 <= n < |keys| ensures !Text.AllDigits(keys[n]) {
      assert keys[n][|Key(data[n], d1)|] == '-';
    }
    NonNumericInOrder(keys);
  }

  /** Keys that are not all digits are never array indices. */
  lemma NonNumericInOrder(keys: seq<string>)
    requires forall n :: 0 <= n < |keys| ==> !Text.AllDigits(keys[n])
    ensures Entries(Tallied(keys)) == Tallied(keys)
  {
    var d := Tallied(keys);
    TalliedDistinct(keys);
    forall i | 0 <= i < |d| ensures !IsArrayIndex(d[i].key) {
      var k := d[i].key;
      assert KeysOf(d)[i] == k;
      assert k in keys;
    }
    EntriesNoIndexKeys(d);
  }

  /** `const [source, target] = key.split("-")`: the first and second
      pieces, the second `undefined` when there is no "-". */
  function NameOn(key: string, side: Side): Option<string>
  {
    match side
    case Source => Some(Text.Before(key, '-'))
    case Target =>
      var parts := Text.Split(key, '-');
      if |parts| > 1 then Some(parts[1]) else None
  }

  /** Keys whose `side` piece is `a`. */
  function Named(side: Side, a: string): string -> bool
  {
    k => NameOn(k, side) == Some(a)
  }

  /** `find` by a name that may be `undefined` (matching no node). */
  function Lookup(nodes: seq<Node>, name: Option<string>, dim: string): (r: Option<nat>)
    ensures r.Some? ==> r.value < |nodes| && name == Some(nodes[r.value].name) && nodes[r.value].dimension == dim
  {
    match name
    case None => None
    case Some(a) => FindNode(nodes, a, dim)
  }

  /** The ribbon of one `links` entry, its `sourceY` and `targetY` still 0. */
  function PairLink(en: Entry, nodes: seq<Node>, d1: string, d2: string, total: real, available: real): Link
    requires total != 0.0
  {
    Link(Lookup(nodes, NameOn(en.key, Source), d1), Lookup(nodes, NameOn(en.key, Target), d2),
         en.count, 0.0, 0.0, Partition.Share(en.count as real, total, available))
  }

  /** Every ribbon end that is set names a node. */
  predicate EndsInRange(links: seq<Link>, n: nat)
  {
    forall m :: 0 <= m < |links| ==>
      (links[m].source.Some? ==> links[m].source.value < n) && (links[m].target.Some? ==> links[m].target.value < n)
  }

  function PairLinks(e: seq<Entry>, nodes: seq<Node>, d1: string, d2: string, total: real, available: real): (r: seq<Link>)
    requires total != 0.0
    ensures |r| == |e| && forall k :: 0 <= k < |e| ==> r[k] == PairLink(e[k], nodes, d1, d2, total, available)
  {
    seq(|e|, k requires 0 <= k < |e| => PairLink(e[k], nodes, d1, d2, total, available))
  }

  /** How many adjacent pairs `dims` has. */
  function Pairs(dims: seq<string>): nat
  {
    if dims == [] then 0 else |dims| - 1
  }

  /** The `links` dictionary of every adjacent pair. */
  function PairTables(data: seq<Record>, dims: seq<string>): (t: seq<seq<Entry>>)
    ensures |t| == Pairs(dims)
  {
    seq(Pairs(dims), i requires 0 <= i < Pairs(dims) => PairEntries(data, dims[i], dims[i + 1]))
  }

  lemma PairTableAt(data: seq<Record>, dims: seq<string>, i: nat)
    requires i < Pairs(dims)
    ensures PairTables(data, dims)[i] == PairEntries(data, dims[i], dims[i + 1])
  {
  }

  /** The ribbons of every adjacent pair, each from that pair's table. */
  function PairBlocks(tables: seq<seq<Entry>>, dims: seq<string>, nodes: seq<Node>, total: real, available: real): (r: seq<seq<Link>>)
    requires total != 0.0 && |tables| < |dims|
    ensures |r| == |tables|
  {
    seq(|tables|, i requires 0 <= i < |tables| => PairLinks(tables[i], nodes, dims[i], dims[i + 1], total, available))
  }

  lemma PairBlockAt(tables: seq<seq<Entry>>, dims: seq<string>, nodes: seq<Node>, total: real, available: real, i: nat)
    requires total != 0.0 && i < |tables| < |dims|
    ensures PairBlocks(tables, dims, nodes, total, available)[i] == PairLinks(tables[i], nodes, dims[i], dims[i + 1], total, available)
  {
  }

  /** Blocks of ribbons pushed one block after another. */
  function Concat(bs: seq<seq<Link>>): seq<Link>
  {
    if bs == [] then [] else Concat(bs[..|bs| - 1]) + bs[|bs| - 1]
  }

  /** `dimensionLinks`: ribbons between each dimension and the next only. */
  function AllLinks(data: seq<Record>, dims: seq<string>, nodes: seq<Node>, available: real): seq<Link>
  {
    if data == [] || dims == [] then []
    else Concat(PairBlocks(PairTables(data, dims), dims, nodes, |data| as real, available))
  }

  /** A pair's ribbons end at nodes or `undefined`, each as tall as its share. */
  lemma PairShape(e: seq<Entry>, nodes: seq<Node>, d1: string, d2: string, total: real, available: real)
    requires total != 0.0
    ensures EndsInRange(PairLinks(e, nodes, d1, d2, total, available), |nodes|)
    ensures Proportional(PairLinks(e, nodes, d1, d2, total, available), total, available)
  {
  }

  /** Every ribbon's ends are nodes or `undefined`, and every ribbon is as
      tall as its count's share of the available height. */
  lemma AllLinksShape(data: seq<Record>, dims: seq<string>, nodes: seq<Node>, available: real)
    ensures EndsInRange(AllLinks(data, dims, nodes, available), |nodes|)
    ensures data != [] ==> Proportional(AllLinks(data, dims, nodes, available), |data| as real, available)
  {
    if data != [] && dims != [] {
      var tables := PairTables(data, dims);
      var bs := PairBlocks(tables, dims, nodes, |data| as real, available);
      forall i | 0 <= i < |bs|
        ensures EndsInRange(bs[i], |nodes|) && Proportional(bs[i], |data| as real, available)
      {
        PairBlockAt(tables, dims, nodes, |data| as real, available, i);
        PairShape(tables[i], nodes, dims[i], dims[i + 1], |data| as real, available);
      }
      ConcatShape(bs, |nodes|, |data| as real, available);
    }
  }

  lemma {:induction false} ConcatShape(bs: seq<seq<Link>>, n: nat, total: real, available: real)
    requires total != 0.0
    requires forall i :: 0 <= i < |bs| ==> EndsInRange(bs[i], n) && Proportional(bs[i], total, available)
    ensures EndsInRange(Concat(bs), n) && Proportional(Concat(bs), total, available)
  {
    if bs != [] {
      ConcatShape(bs[..|bs| - 1], n, total, available);
      var before, last := Concat(bs[..|bs| - 1]), bs[|bs| - 1];
      forall m | 0 <= m < |before + last|
        ensures (m < |before| ==> (before + last)[m] == before[m])
        ensures (m >= |before| ==> (before + last)[m] == last[m - |before|])
      {
      }
    }
  }

  /** The loop over `i < dimensions.length - 1` that counts co-occurring
      pairs and pushes one ribbon per entry. */
  method BuildLinks(data: seq<Record>, dims: seq<string>, nodes: seq<Node>, available: real) returns (links: seq<Link>)
    ensures links == AllLinks(data, dims, nodes, available)
  {
    links := [];
    if data == [] || dims == [] {
      return;
    }
    ghost var bs := PairBlocks(PairTables(data, dims), dims, nodes, |data| as real, available);
    for i := 0 to |dims| - 1
      invariant links == Concat(bs[..i])
    {
      var counts := Tally(PairKeys(data, dims[i], dims[i + 1]));
      BlockOfPair(data, dims, nodes, available, i);
      links := PushPair(links, Entries(counts), nodes, dims[i], dims[i + 1], |data| as real, available);
      ConcatStep(bs, i);
    }
    assert bs[..|dims| - 1] == bs;
  }

  /** Pair `i`'s block holds the ribbons of its counts in `Object.entries` order. */
  lemma BlockOfPair(data: seq<Record>, dims: seq<string>, nodes: seq<Node>, available: real, i: nat)
    requires data != [] && i + 1 < |dims|
    ensures PairBlocks(PairTables(data, dims), dims, nodes, |data| as real, available)[i]
         == PairLinks(Entries(Tallied(PairKeys(data, dims[i], dims[i + 1]))), nodes, dims[i], dims[i + 1], |data| as real, available)
  {
    PairEntriesOrder(data, dims[i], dims[i + 1]);
    PairTableAt(data, dims, i);
    PairBlockAt(PairTables(data, dims), dims, nodes, |data| as real, available, i);
  }

  lemma ConcatStep(bs: seq<seq<Link>>, i: nat)
    requires i < |bs|
    ensures Concat(bs[..i + 1]) == Concat(bs[..i]) + bs[i]
  {
    assert bs[..i + 1][..i] == bs[..i];
  }

  /** `Object.entries(links).forEach(... dimensionLinks.push(...))`. */
  method PushPair(links: seq<Link>, e: seq<Entry>, nodes: seq<Node>, d1: string, d2: string, total: real, available: real)
    returns (r: seq<Link>)
    requires total != 0.0
    ensures r == links + PairLinks(e, nodes, d1, d2, total, available)
  {
    r := links;
    for k := 0 to |e|
      invariant r == links + PairLinks(e[..k], nodes, d1, d2, total, available)
    {
      r := r + [PairLink(e[k], nodes, d1, d2, total, available)];
      assert PairLinks(e[..k + 1], nodes, d1, d2, total, available)
          == PairLinks(e[..k], nodes, d1, d2, total, available) + [PairLink(e[k], nodes, d1, d2, total, available)];
    }
    assert e[..|e|] == e;
  }

  /** The summed heights of the ribbons whose `side` end is node `j`. */
  function StackHeight(links: seq<Link>, j: nat, side: Side): real
  {
    if links == [] then 0.0
    else
      var l := links[|links| - 1];
      StackHeight(links[..|links| - 1], j, side) + (if EndOf(l, side) == Some(j) then l.height else 0.0)
  }

  /** `l.source.dimension === dim || l.target.dimension === dim` throws a
      TypeError: the source is `undefined`, or the source is of another
      dimension and the target is `undefined`. */
  predicate Fails(l: Link, nodes: seq<Node>, dim: string)
  {
    l.source.None? || (l.source.value < |nodes| && nodes[l.source.value].dimension != dim && l.target.None?)
  }

  /** The `dimLinks` filter throws for some dimension and ribbon. */
  predicate Throws(links: seq<Link>, nodes: seq<Node>, dims: seq<string>)
  {
    exists i, m :: 0 <= i < |dims| && 0 <= m < |links| && Fails(links[m], nodes, dims[i])
  }

  /** The end is a node of one of `dims`, so the stacking loop visits it. */
  predicate Visited(end: Option<nat>, nodes: seq<Node>, dims: seq<string>)
  {
    end.Some? && end.value < |nodes| && nodes[end.value].dimension in dims
  }

  /** Ribbon `m` with the ends marked done placed: `sourceY` is its source
      node's `y` plus the heights of the earlier ribbons leaving that node,
      `targetY` likewise for the ribbons entering its target. */
  function Placed(links: seq<Link>, nodes: seq<Node>, m: nat, sourceDone: bool, targetDone: bool): Link
    requires m < |links| && EndsInRange(links, |nodes|)
  {
    var l := links[m];
    l.(sourceY := if sourceDone && l.source.Some? then nodes[l.source.value].y + StackHeight(links[..m], l.source.value, Source) else l.sourceY,
       targetY := if targetDone && l.target.Some? then nodes[l.target.value].y + StackHeight(links[..m], l.target.value, Target) else l.targetY)
  }

  /** The ribbons after the stacking loop over every dimension. */
  function StackedLinks(links: seq<Link>, nodes: seq<Node>, dims: seq<string>): (r: seq<Link>)
    requires EndsInRange(links, |nodes|)
    ensures |r| == |links|
  {
    seq(|links|, m requires 0 <= m < |links| =>
      Placed(links, nodes, m, Visited(links[m].source, nodes, dims), Visited(links[m].target, nodes, dims)))
  }

  /** Ends placed once dimensions `dims[..i]`, and of `dims[i]` the nodes
      before position `j`, have been visited. */
  predicate DoneBy(nodes: seq<Node>, dims: seq<string>, i: nat, j: nat, end: Option<nat>)
  {
    && end.Some? && end.value < |nodes|
    && i <= |dims|
    && (nodes[end.value].dimension in dims[..i] || (i < |dims| && nodes[end.value].dimension == dims[i] && end.value < j))
  }

  function SetY(l: Link, side: Side, y: real): Link
  {
    match side
    case Source => l.(sourceY := y)
    case Target => l.(targetY := y)
  }

  /** The loop that visits every dimension, every node of it, and sets the
      `sourceY` then the `targetY` of the ribbons at that node; `None` when
      the `dimLinks` filter throws. */
  method StackLinks(links: seq<Link>, nodes: seq<Node>, dims: seq<string>) returns (r: Option<seq<Link>>)
    requires EndsInRange(links, |nodes|)
    ensures r.None? <==> Throws(links, nodes, dims)
    ensures r.Some? ==> r.value == StackedLinks(links, nodes, dims)
  {
    var cur := links;
    for i := 0 to |dims|
      invariant |cur| == |links|
      invariant forall i', m :: 0 <= i' < i && 0 <= m < |links| ==> !Fails(links[m], nodes, dims[i'])
      invariant forall m :: 0 <= m < |links| ==>
        cur[m] == Placed(links, nodes, m, DoneBy(nodes, dims, i, 0, links[m].source), DoneBy(nodes, dims, i, 0, links[m].target))
    {
      var m := FirstFailure(links, nodes, dims[i]);
      if m < |links| {
        return None;
      }
      cur := StackDimension(cur, links, nodes, dims, i);
    }
    assert dims[..|dims|] == dims;
    return Some(cur);
  }

  /** The `dimLinks` filter over dimension `dim`: the first ribbon that makes
      it throw, or `|links|` when none does. */
  method FirstFailure(links: seq<Link>, nodes: seq<Node>, dim: string) returns (m: nat)
    ensures m <= |links| && forall m' :: 0 <= m' < m ==> !Fails(links[m'], nodes, dim)
    ensures m < |links| ==> Fails(links[m], nodes, dim)
  {
    m := 0;
    while m < |links| && !Fails(links[m], nodes, dim)
      invariant m <= |links| && forall m' :: 0 <= m' < m ==> !Fails(links[m'], nodes, dim)
    {
      m := m + 1;
    }
  }

  /** One round of the outer loop: every node of `dims[i]` in turn stacks
      its outgoing, then its incoming ribbons. */
  method StackDimension(cur: seq<Link>, links: seq<Link>, nodes: seq<Node>, dims: seq<string>, i: nat)
    returns (next: seq<Link>)
    requires EndsInRange(links, |nodes|) && i < |dims| && |cur| == |links|
    requires forall m :: 0 <= m < |links| ==>
      cur[m] == Placed(links, nodes, m, DoneBy(nodes, dims, i, 0, links[m].source), DoneBy(nodes, dims, i, 0, links[m].target))
    ensures |next| == |links|
    ensures forall m :: 0 <= m < |links| ==>
      next[m] == Placed(links, nodes, m, DoneBy(nodes, dims, i + 1, 0, links[m].source), DoneBy(nodes, dims, i + 1, 0, links[m].target))
  {
    next := cur;
    for j := 0 to |nodes|
      invariant |next| == |links|
      invariant forall m :: 0 <= m < |links| ==>
        next[m] == Placed(links, nodes, m, DoneBy(nodes, dims, i, j, links[m].source), DoneBy(nodes, dims, i, j, links[m].target))
    {
      if nodes[j].dimension == dims[i] {
        next := StackNode(next, links, nodes, j, Source);
        next := StackNode(next, links, nodes, j, Target);
      }
    }
    assert dims[..i + 1] == dims[..i] + [dims[i]];
  }

  /** `y = node.y` and, for each ribbon at node `j` on `side` in order,
      set its y and move `y` down by its height. */
  method StackNode(cur: seq<Link>, links: seq<Link>, nodes: seq<Node>, j: nat, side: Side) returns (next: seq<Link>)
    requires |cur| == |links| && j < |nodes|
    ensures |next| == |cur|
    ensures forall m :: 0 <= m < |links| ==>
      next[m] == if EndOf(links[m], side) == Some(j) then SetY(cur[m], side, nodes[j].y + StackHeight(links[..m], j, side)) else cur[m]
  {
    next := cur;
    var y := nodes[j].y;
    for m := 0 to |links|
      invariant |next| == |cur|
      invariant y == nodes[j].y + StackHeight(links[..m], j, side)
      invariant forall m' :: 0 <= m' < m ==>
        next[m'] == if EndOf(links[m'], side) == Some(j) then SetY(cur[m'], side, nodes[j].y + StackHeight(links[..m'], j, side)) else cur[m']
      invariant forall m' :: m <= m' < |links| ==> next[m'] == cur[m']
    {
      assert links[..m + 1][..m] == links[..m];
      if EndOf(links[m], side) == Some(j) {
        next := next[m := SetY(cur[m], side, y)];
        y := y + links[m].height;
      }
    }
  }

  /** The summed counts of the ribbons whose `side` end is node `j`. */
  function StackCount(links: seq<Link>, j: nat, side: Side): nat
  {
    if links == [] then 0
    else
      var l := links[|links| - 1];
      StackCount(links[..|links| - 1], j, side) + (if EndOf(l, side) == Some(j) then l.value else 0)
  }

  /** Every ribbon is as tall as its count's share of the available height. */
  predicate Proportional(links: seq<Link>, total: real, available: real)
    requires total != 0.0
  {
    forall m :: 0 <= m < |links| ==> links[m].height == Partition.Share(links[m].value as real, total, available)
  }

  /** Stacked heights are the share of the stacked counts. */
  lemma {:induction false} StackHeightShare(links: seq<Link>, j: nat, side: Side, total: real, available: real)
    requires total != 0.0 && Proportional(links, total, available)
    ensures StackHeight(links, j, side) == Partition.Share(StackCount(links, j, side) as real, total, available)
  {
    if links == [] {
      assert Partition.Share(0.0, total, available) == 0.0;
    } else {
      var n := |links|;
      StackHeightShare(links[..n - 1], j, side, total, available);
      var l := links[n - 1];
      ShareStep(StackHeight(links[..n - 1], j, side), l.height, StackCount(links[..n - 1], j, side), l.value, total, available, EndOf(l, side) == Some(j));
    }
  }

  lemma ShareStep(h: real, lh: real, before: nat, c: nat, total: real, available: real, cond: bool)
    requires total != 0.0
    requires h == Partition.Share(before as real, total, available) && lh == Partition.Share(c as real, total, available)
    ensures h + (if cond then lh else 0.0) == Partition.Share((before + (if cond then c else 0)) as real, total, available)
  {
    Partition.ShareAdd(before as real, c as real, total, available);
  }

  lemma {:induction false} StackCountAppend(a: seq<Link>, b: seq<Link>, j: nat, side: Side)
    ensures StackCount(a + b, j, side) == StackCount(a, j, side) + StackCount(b, j, side)
  {
    if b == [] {
      assert a + b == a;
    } else {
      assert (a + b)[..|a + b| - 1] == a + b[..|b| - 1];
      StackCountAppend(a, b[..|b| - 1], j, side);
    }
  }

  /** A pair's ribbons at a node of another dimension: none. */
  lemma {:induction false} PairElsewhere(e: seq<Entry>, nodes: seq<Node>, d1: string, d2: string, total: real, available: real, j: nat, side: Side)
    requires total != 0.0 && j < |nodes| && nodes[j].dimension != PairDim(d1, d2, side)
    ensures StackCount(PairLinks(e, nodes, d1, d2, total, available), j, side) == 0
  {
    if e != [] {
      var n := |e|;
      var ls := PairLinks(e, nodes, d1, d2, total, available);
      PairElsewhere(e[..n - 1], nodes, d1, d2, total, available, j, side);
      assert ls[..n - 1] == PairLinks(e[..n - 1], nodes, d1, d2, total, available);
      LinkEndDimension(e[n - 1], nodes, d1, d2, total, available, side);
      assert EndOf(ls[n - 1], side) != Some(j);
      assert StackCount(ls, j, side) == StackCount(ls[..n - 1], j, side);
    }
  }

  /** A ribbon's end on a side, when set, is a node of that side's dimension. */
  lemma LinkEndDimension(en: Entry, nodes: seq<Node>, d1: string, d2: string, total: real, available: real, side: Side)
    requires total != 0.0
    ensures var end := EndOf(PairLink(en, nodes, d1, d2, total, available), side);
            end.Some? ==> end.value < |nodes| && nodes[end.value].dimension == PairDim(d1, d2, side)
  {
  }

  /** A pair's ribbons at a node of its `side` dimension, which `find`
      returns for its own name: the counts whose key names it on that side. */
  lemma PairStackCount(e: seq<Entry>, nodes: seq<Node>, d1: string, d2: string, total: real, available: real, j: nat, side: Side)
    requires total != 0.0 && j < |nodes|
    requires FindNode(nodes, nodes[j].name, PairDim(d1, d2, side)) == Some(j)
    ensures StackCount(PairLinks(e, nodes, d1, d2, total, available), j, side) == TotalWhere(e, Named(side, nodes[j].name))
  {
    var ls := PairLinks(e, nodes, d1, d2, total, available);
    forall k | 0 <= k < |e|
      ensures ls[k].value == e[k].count
      ensures EndOf(ls[k], side) == Some(j) <==> Named(side, nodes[j].name)(e[k].key)
    {
      LinkAtNode(e[k], nodes, d1, d2, total, available, j, side);
    }
    CountsMatch(ls, e, j, side, Named(side, nodes[j].name));
  }

  /** Ribbons carrying the entries' counts, meeting node `j` exactly for the
      keys satisfying `p`, stack up the counts of those keys. */
  lemma {:induction false} CountsMatch(ls: seq<Link>, e: seq<Entry>, j: nat, side: Side, p: string -> bool)
    requires |ls| == |e|
    requires forall k :: 0 <= k < |e| ==> ls[k].value == e[k].count && (EndOf(ls[k], side) == Some(j) <==> p(e[k].key))
    ensures StackCount(ls, j, side) == TotalWhere(e, p)
  {
    if e != [] {
      CountsMatch(ls[..|ls| - 1], e[..|e| - 1], j, side, p);
    }
  }

  /** A ribbon meets node `j` on `side` exactly when its key names the node
      there. */
  lemma LinkAtNode(en: Entry, nodes: seq<Node>, d1: string, d2: string, total: real, available: real, j: nat, side: Side)
    requires total != 0.0 && j < |nodes|
    requires FindNode(nodes, nodes[j].name, PairDim(d1, d2, side)) == Some(j)
    ensures EndOf(PairLink(en, nodes, d1, d2, total, available), side) == Some(j) <==> Named(side, nodes[j].name)(en.key)
  {
    assert EndOf(PairLink(en, nodes, d1, d2, total, available), side) == Lookup(nodes, NameOn(en.key, side), PairDim(d1, d2, side));
  }

  /** Which adjacent pair has a node of dimension `q` on its `side`. */
  function PairOf(q: nat, side: Side): int
  {
    match side
    case Source => q
    case Target => q - 1
  }

  /** Pair `p`'s `side` dimension is `dims[q]` exactly when `p` is the pair
      of `q` on that side. */
  lemma PairDimOf(dims: seq<string>, p: nat, q: nat, side: Side)
    requires Seqs.Distinct(dims) && p + 1 < |dims| && q < |dims|
    ensures PairDim(dims[p], dims[p + 1], side) == dims[q] <==> PairOf(q, side) == p
  {
    if side.Source? {
      assert p != q ==> dims[p] != dims[q];
    } else {
      assert p + 1 != q ==> dims[p + 1] != dims[q];
    }
  }

  /** Blocks of which only block `p` meets node `j`, with count `t`: their
      concatenation meets it with `t` when block `p` exists, else not at all. */
  lemma {:induction false} ConcatCount(bs: seq<seq<Link>>, j: nat, side: Side, p: int, t: nat)
    requires forall i :: 0 <= i < |bs| ==> StackCount(bs[i], j, side) == if i == p then t else 0
    ensures StackCount(Concat(bs), j, side) == if 0 <= p < |bs| then t else 0
  {
    if bs != [] {
      var n := |bs|;
      ConcatCount(bs[..n - 1], j, side, p, t);
      StackCountAppend(Concat(bs[..n - 1]), bs[n - 1], j, side);
    }
  }

  /** Pair table `i` adds to a node's stack only when it is that node's own table. */
  lemma PairCountAt(tables: seq<seq<Entry>>, dims: seq<string>, nodes: seq<Node>, total: real, available: real, i: nat, j: nat, q: nat, side: Side)
    requires total != 0.0 && i < |tables| < |dims| && Seqs.Distinct(dims) && q < |dims| && j < |nodes|
    requires nodes[j].dimension == dims[q] && FindNode(nodes, nodes[j].name, dims[q]) == Some(j)
    ensures StackCount(PairLinks(tables[i], nodes, dims[i], dims[i + 1], total, available), j, side)
         == if PairOf(q, side) == i then TotalWhere(tables[i], Named(side, nodes[j].name)) else 0
  {
    PairDimOf(dims, i, q, side);
    if PairOf(q, side) == i {
      PairStackCount(tables[i], nodes, dims[i], dims[i + 1], total, available, j, side);
    } else {
      PairElsewhere(tables[i], nodes, dims[i], dims[i + 1], total, available, j, side);
    }
  }

  /** Without "-" in either value, the key splits back into the two values. */
  lemma NameOnPairKey(r: Record, d1: string, d2: string, side: Side)
    requires '-' !in Key(r, d1) && '-' !in Key(r, d2)
    ensures NameOn(PairKey(r, d1, d2), side) == Some(Key(r, PairDim(d1, d2, side)))
  {
    var a, b := Key(r, d1), Key(r, d2);
    Text.BeforeUpTo(a, '-', b);
    assert Text.Join([a, b], ['-']) == PairKey(r, d1, d2);
    Text.SplitJoin([a, b], '-');
  }

  /** Keys are written for every value in the source dimension. */
  ghost predicate NoDash(data: seq<Record>, dims: seq<string>)
  {
    forall n, d :: 0 <= n < |data| && 0 <= d < |dims| ==> '-' !in Key(data[n], dims[d])
  }

  /** Without "-", the keys naming `a` on a side are the records whose
      value on that side's dimension is `a`. */
  lemma CountWhereNamed(data: seq<Record>, d1: string, d2: string, side: Side, a: string)
    requires forall n :: 0 <= n < |data| ==> '-' !in Key(data[n], d1) && '-' !in Key(data[n], d2)
    ensures CountWhere(PairKeys(data, d1, d2), Named(side, a)) == Seqs.Occurrences(Column(data, PairDim(d1, d2, side)), a)
  {
    var keys, column := PairKeys(data, d1, d2), Column(data, PairDim(d1, d2, side));
    forall n | 0 <= n < |data| ensures Named(side, a)(keys[n]) <==> column[n] == a {
      NameOnPairKey(data[n], d1, d2, side);
    }
    CountWhereMatches(keys, column, Named(side, a), a);
  }

  /** Keys satisfying `p` exactly where the paired value is `a` are counted
      by `a`'s occurrences. */
  lemma {:induction false} CountWhereMatches(keys: seq<string>, values: seq<string>, p: string -> bool, a: string)
    requires |keys| == |values|
    requires forall n :: 0 <= n < |keys| ==> (p(keys[n]) <==> values[n] == a)
    ensures CountWhere(keys, p) == Seqs.Occurrences(values, a)
  {
    if keys != [] {
      CountWhereMatches(keys[..|keys| - 1], values[..|values| - 1], p, a);
    }
  }

  /** Without "-" in any value and with distinct dimensions, the counts of
      the ribbons leaving a node (of every dimension but the last) and of
      those entering it (of every dimension but the first) add up to the
      node's own count; there are none on the other side. */
  lemma NodeStackCount(data: seq<Record>, dims: seq<string>, top: real, available: real, blocks: seq<seq<Node>>, q: nat, t: nat, side: Side)
    requires Layered(data, dims, top, available, blocks) && data != [] && Seqs.Distinct(dims) && NoDash(data, dims)
    requires q < |dims| && t < |blocks[q]|
    ensures Offset(blocks, q) + t < |Flatten(blocks)| && Flatten(blocks)[Offset(blocks, q) + t] == blocks[q][t]
    ensures StackCount(AllLinks(data, dims, Flatten(blocks), available), Offset(blocks, q) + t, side)
         == if 0 <= PairOf(q, side) < |dims| - 1 then blocks[q][t].value else 0
  {
    FindPlaced(data, dims, top, available, blocks, q, t);
    DimensionNodeFacts(data, dims[q], q, top, available, blocks[q]);
    StackCountOfNode(data, dims, Flatten(blocks), available, Offset(blocks, q) + t, q, side);
  }

  /** The counting argument for one node, found by `find` under its own name. */
  lemma StackCountOfNode(data: seq<Record>, dims: seq<string>, nodes: seq<Node>, available: real, j: nat, q: nat, side: Side)
    requires data != [] && Seqs.Distinct(dims) && NoDash(data, dims) && q < |dims| && j < |nodes|
    requires nodes[j].dimension == dims[q] && FindNode(nodes, nodes[j].name, dims[q]) == Some(j)
    ensures StackCount(AllLinks(data, dims, nodes, available), j, side)
         == if 0 <= PairOf(q, side) < |dims| - 1 then Seqs.Occurrences(Column(data, dims[q]), nodes[j].name) else 0
  {
    var tables := PairTables(data, dims);
    assert AllLinks(data, dims, nodes, available) == Concat(PairBlocks(tables, dims, nodes, |data| as real, available));
    BlocksCount(tables, dims, nodes, |data| as real, available, j, q, side);
    if 0 <= PairOf(q, side) < |dims| - 1 {
      PairTotal(data, dims, q, side, nodes[j].name);
    }
  }

  /** Without "-", the counts of pair `PairOf(q, side)` naming `a` on that
      side are `a`'s occurrences in dimension `q`'s column. */
  lemma PairTotal(data: seq<Record>, dims: seq<string>, q: nat, side: Side, a: string)
    requires Seqs.Distinct(dims) && NoDash(data, dims) && q < |dims| && 0 <= PairOf(q, side) < |dims| - 1
    ensures TotalWhere(PairTables(data, dims)[PairOf(q, side)], Named(side, a)) == Seqs.Occurrences(Column(data, dims[q]), a)
  {
    var p := PairOf(q, side);
    assert forall n :: 0 <= n < |data| ==> '-' !in Key(data[n], dims[p]) && '-' !in Key(data[n], dims[p + 1]);
    PairTableAt(data, dims, p);
    PairCountOccurrences(data, dims[p], dims[p + 1], side, a);
    PairDimOf(dims, p, q, side);
  }

  /** With distinct dimensions, only the node's own pair meets it on a side. */
  lemma BlocksCount(tables: seq<seq<Entry>>, dims: seq<string>, nodes: seq<Node>, total: real, available: real, j: nat, q: nat, side: Side)
    requires total != 0.0 && |tables| < |dims| && Seqs.Distinct(dims) && q < |dims| && j < |nodes|
    requires nodes[j].dimension == dims[q] && FindNode(nodes, nodes[j].name, dims[q]) == Some(j)
    ensures StackCount(Concat(PairBlocks(tables, dims, nodes, total, available)), j, side)
         == if 0 <= PairOf(q, side) < |tables| then TotalWhere(tables[PairOf(q, side)], Named(side, nodes[j].name)) else 0
  {
    var bs := PairBlocks(tables, dims, nodes, total, available);
    var p := PairOf(q, side);
    var t := if 0 <= p < |tables| then TotalWhere(tables[p], Named(side, nodes[j].name)) else 0;
    forall i | 0 <= i < |bs|
      ensures StackCount(bs[i], j, side) == if i == p then t else 0
    {
      PairBlockAt(tables, dims, nodes, total, available, i);
      PairCountAt(tables, dims, nodes, total, available, i, j, q, side);
    }
    ConcatCount(bs, j, side, p, t);
  }

  /** Without "-", a pair's counts whose key names `a` on a side are `a`'s
      occurrences in that side's column. */
  lemma PairCountOccurrences(data: seq<Record>, d1: string, d2: string, side: Side, a: string)
    requires forall n :: 0 <= n < |data| ==> '-' !in Key(data[n], d1) && '-' !in Key(data[n], d2)
    ensures TotalWhere(PairEntries(data, d1, d2), Named(side, a)) == Seqs.Occurrences(Column(data, PairDim(d1, d2, side)), a)
  {
    TalliedTotalWhere(PairKeys(data, d1, d2), Named(side, a));
    CountWhereNamed(data, d1, d2, side, a);
  }

  /** The same in heights: a node's outgoing ribbons, stacked from `node.y`,
      end exactly at `node.y + node.height`, and so do its incoming ones. */
  lemma NodeStackFilled(data: seq<Record>, dims: seq<string>, top: real, available: real, blocks: seq<seq<Node>>, q: nat, t: nat, side: Side)
    requires Layered(data, dims, top, available, blocks) && data != [] && Seqs.Distinct(dims) && NoDash(data, dims)
    requires q < |dims| && t < |blocks[q]|
    ensures Offset(blocks, q) + t < |Flatten(blocks)| && Flatten(blocks)[Offset(blocks, q) + t] == blocks[q][t]
    ensures StackHeight(AllLinks(data, dims, Flatten(blocks), available), Offset(blocks, q) + t, side)
         == if 0 <= PairOf(q, side) < |dims| - 1 then blocks[q][t].height else 0.0
  {
    NodeStackCount(data, dims, top, available, blocks, q, t, side);
    assert IsDimensionNodes(data, dims[q], q, top, available, blocks[q]);
    AllLinksShape(data, dims, Flatten(blocks), available);
    HeightOfCount(AllLinks(data, dims, Flatten(blocks), available), Offset(blocks, q) + t, side, |data| as real, available,
                  if 0 <= PairOf(q, side) < |dims| - 1 then blocks[q][t].value else 0);
  }

  /** A stack of proportional ribbons whose counts add up to `c` is `c`'s share tall. */
  lemma HeightOfCount(links: seq<Link>, j: nat, side: Side, total: real, available: real, c: nat)
    requires total != 0.0 && Proportional(links, total, available) && StackCount(links, j, side) == c
    ensures StackHeight(links, j, side) == Partition.Share(c as real, total, available)
    ensures c == 0 ==> StackHeight(links, j, side) == 0.0
  {
    StackHeightShare(links, j, side, total, available);
    assert Partition.Share(0.0, total, available) == 0.0;
  }

  /** Both ends of every ribbon are nodes, not `undefined`. */
  predicate EndsSet(links: seq<Link>)
  {
    forall m :: 0 <= m < |links| ==> links[m].source.Some? && links[m].target.Some?
  }

  /** Every value of dimension `q`'s column is the name of one of its nodes,
      so `find` by that name and dimension succeeds. */
  lemma NameFound(data: seq<Record>, dims: seq<string>, top: real, available: real, blocks: seq<seq<Node>>, q: nat, a: string)
    requires Layered(data, dims, top, available, blocks) && q < |dims| && a in Column(data, dims[q])
    ensures FindNode(Flatten(blocks), a, dims[q]).Some?
  {
    DimensionNodeFacts(data, dims[q], q, top, available, blocks[q]);
    var t :| 0 <= t < |blocks[q]| && blocks[q][t].name == a;
    FlattenOffset(blocks, q, t);
    assert blocks[q][t].dimension == dims[q];
  }

  /** Without "-" in the values, a ribbon of pair `p` finds both its nodes. */
  lemma PairLinkEnds(data: seq<Record>, dims: seq<string>, top: real, available: real, blocks: seq<seq<Node>>, p: nat, en: Entry)
    requires Layered(data, dims, top, available, blocks) && NoDash(data, dims) && p + 1 < |dims| && data != []
    requires en in PairEntries(data, dims[p], dims[p + 1])
    ensures PairLink(en, Flatten(blocks), dims[p], dims[p + 1], |data| as real, available).source.Some?
    ensures PairLink(en, Flatten(blocks), dims[p], dims[p + 1], |data| as real, available).target.Some?
  {
    var n := PairKeyOf(data, dims[p], dims[p + 1], en);
    EndFound(data, dims, top, available, blocks, p, n, Source);
    EndFound(data, dims, top, available, blocks, p, n, Target);
  }

  /** Every key of a pair's dictionary is the key of some record. */
  lemma PairKeyOf(data: seq<Record>, d1: string, d2: string, en: Entry) returns (n: nat)
    requires en in PairEntries(data, d1, d2)
    ensures n < |data| && en.key == PairKey(data[n], d1, d2)
  {
    var keys := PairKeys(data, d1, d2);
    var d := Tallied(keys);
    TalliedDistinct(keys);
    var i :| 0 <= i < |d| && d[i] == en;
    assert KeysOf(d)[i] == en.key;
    assert en.key in keys;
    n :| 0 <= n < |keys| && keys[n] == en.key;
  }

  /** The key of record `n` names, on each side, a node `find` reaches. */
  lemma EndFound(data: seq<Record>, dims: seq<string>, top: real, available: real, blocks: seq<seq<Node>>, p: nat, n: nat, side: Side)
    requires Layered(data, dims, top, available, blocks) && NoDash(data, dims) && p + 1 < |dims| && n < |data|
    ensures Lookup(Flatten(blocks), NameOn(PairKey(data[n], dims[p], dims[p + 1]), side), PairDim(dims[p], dims[p + 1], side)).Some?
  {
    NameOnPairKey(data[n], dims[p], dims[p + 1], side);
    var q := if side.Source? then p else p + 1;
    assert Column(data, dims[q])[n] == Key(data[n], dims[q]);
    NameFound(data, dims, top, available, blocks, q, Key(data[n], dims[q]));
  }

  lemma {:induction false} ConcatEnds(bs: seq<seq<Link>>)
    requires forall p :: 0 <= p < |bs| ==> EndsSet(bs[p])
    ensures EndsSet(Concat(bs))
  {
    if bs != [] {
      ConcatEnds(bs[..|bs| - 1]);
      var before, last := Concat(bs[..|bs| - 1]), bs[|bs| - 1];
      forall m | 0 <= m < |before + last|
        ensures (m < |before| ==> (before + last)[m] == before[m])
        ensures (m >= |before| ==> (before + last)[m] == last[m - |before|])
      {
      }
    }
  }

  /** Without "-" in any value of a chosen dimension, every ribbon finds both
      its nodes, so the `dimLinks` filter never throws. */
  lemma NoDashNoThrow(data: seq<Record>, dims: seq<string>, top: real, available: real, blocks: seq<seq<Node>>)
    requires Layered(data, dims, top, available, blocks) && NoDash(data, dims)
    ensures EndsSet(AllLinks(data, dims, Flatten(blocks), available))
    ensures !Throws(AllLinks(data, dims, Flatten(blocks), available), Flatten(blocks), dims)
  {
    if data != [] && dims != [] {
      var nodes := Flatten(blocks);
      var tables := PairTables(data, dims);
      var bs := PairBlocks(tables, dims, nodes, |data| as real, available);
      forall p | 0 <= p < |bs| ensures EndsSet(bs[p]) {
        PairBlockAt(tables, dims, nodes, |data| as real, available, p);
        PairTableAt(data, dims, p);
        PairLinksEnds(data, dims, top, available, blocks, p);
      }
      ConcatEnds(bs);
    }
  }

  /** Without "-", every ribbon of pair `p` finds both its nodes. */
  lemma PairLinksEnds(data: seq<Record>, dims: seq<string>, top: real, available: real, blocks: seq<seq<Node>>, p: nat)
    requires Layered(data, dims, top, available, blocks) && NoDash(data, dims) && p + 1 < |dims| && data != []
    ensures EndsSet(PairLinks(PairEntries(data, dims[p], dims[p + 1]), Flatten(blocks), dims[p], dims[p + 1], |data| as real, available))
  {
    var e := PairEntries(data, dims[p], dims[p + 1]);
    var links := PairLinks(e, Flatten(blocks), dims[p], dims[p + 1], |data| as real, available);
    forall k | 0 <= k < |links| ensures links[k].source.Some? && links[k].target.Some? {
      assert e[k] in e;
      PairLinkEnds(data, dims, top, available, blocks, p, e[k]);
    }
  }

  function LinkHeights(links: seq<Link>): (r: seq<real>)
    ensures |r| == |links| && forall k :: 0 <= k < |links| ==> r[k] == links[k].height
  {
    seq(|links|, k requires 0 <= k < |links| => links[k].height)
  }

  /** A pair's counts add up to the number of records, so its ribbons
      together are exactly as tall as the available height. */
  lemma PairFill(data: seq<Record>, d1: string, d2: string, nodes: seq<Node>, available: real)
    requires data != []
    ensures Total(PairEntries(data, d1, d2)) == |data|
    ensures Seqs.SumReal(LinkHeights(PairLinks(PairEntries(data, d1, d2), nodes, d1, d2, |data| as real, available))) == available
  {
    var e := PairEntries(data, d1, d2);
    TalliedSum(PairKeys(data, d1, d2));
    CountsRealTotal(e);
    var counts := CountsReal(e);
    forall k | 0 <= k < |e| ensures counts[k] == e[k].count as real { }
    assert LinkHeights(PairLinks(e, nodes, d1, d2, |data| as real, available))
        == Partition.Shares(counts, |data| as real, available);
    Partition.SharesOfWhole(CountsReal(e), available);
  }

  /** A category holding "-" breaks its key apart: with the one record
      `{A: "x-y", B: "z"}` the key "x-y-z" names "x" as its source, no node
      of "A" is called "x", and the `dimLinks` filter throws. */
  lemma DashedCategoryThrows(top: real, available: real, blocks: seq<seq<Node>>)
    requires Layered([map["A" := "x-y", "B" := "z"]], ["A", "B"], top, available, blocks)
    ensures Throws(AllLinks([map["A" := "x-y", "B" := "z"]], ["A", "B"], Flatten(blocks), available), Flatten(blocks), ["A", "B"])
  {
    NoNodeNamed(top, available, blocks);
    DashedThrows(Flatten(blocks), available);
  }

  lemma DashedThrows(nodes: seq<Node>, available: real)
    requires FindNode(nodes, "x", "A").None?
    ensures Throws(AllLinks([map["A" := "x-y", "B" := "z"]], ["A", "B"], nodes, available), nodes, ["A", "B"])
  {
    DashedLinks(nodes, available);
    DashedSource(nodes, available);
    var links := AllLinks([map["A" := "x-y", "B" := "z"]], ["A", "B"], nodes, available);
    assert Fails(links[0], nodes, ["A", "B"][0]);
  }

  /** The key's source piece is "x". */
  lemma DashedSource(nodes: seq<Node>, available: real)
    ensures PairLink(Entry("x-y-z", 1), nodes, "A", "B", 1.0, available).source == FindNode(nodes, "x", "A")
  {
    assert Text.Before("x-y-z", '-') == "x";
  }

  /** That record gives one ribbon, for the key "x-y-z". */
  lemma DashedLinks(nodes: seq<Node>, available: real)
    ensures AllLinks([map["A" := "x-y", "B" := "z"]], ["A", "B"], nodes, available)
         == [PairLink(Entry("x-y-z", 1), nodes, "A", "B", 1.0, available)]
  {
    SinglePair([map["A" := "x-y", "B" := "z"]], ["A", "B"], nodes, available);
    DashedTable();
  }

  lemma DashedTable()
    ensures PairEntries([map["A" := "x-y", "B" := "z"]], "A", "B") == [Entry("x-y-z", 1)]
  {
    DashedKeys();
    var data := [map["A" := "x-y", "B" := "z"]];
    assert PairKeys(data, "A", "B")[0] == "x-y" + "-" + "z" == "x-y-z";
    assert PairKeys(data, "A", "B") == ["x-y-z"];
    assert Tallied(["x-y-z"]) == Bump([], "x-y-z") == [Entry("x-y-z", 1)];
  }

  /** With two dimensions there is one pair, and its ribbons are all the ribbons. */
  lemma SinglePair(data: seq<Record>, dims: seq<string>, nodes: seq<Node>, available: real)
    requires data != [] && |dims| == 2
    ensures AllLinks(data, dims, nodes, available)
         == PairLinks(PairEntries(data, dims[0], dims[1]), nodes, dims[0], dims[1], |data| as real, available)
  {
    PairTableAt(data, dims, 0);
    var tables := PairTables(data, dims);
    PairBlockAt(tables, dims, nodes, |data| as real, available, 0);
    var bs := PairBlocks(tables, dims, nodes, |data| as real, available);
    assert bs[..|bs| - 1] == [];
    assert Concat(bs) == Concat([]) + bs[0];
  }

  lemma DashedKeys()
    ensures Key(map["A" := "x-y", "B" := "z"], "A") == "x-y" && Key(map["A" := "x-y", "B" := "z"], "B") == "z"
    ensures Column([map["A" := "x-y", "B" := "z"]], "A") == ["x-y"]
  {
  }

  /** Its nodes are called "x-y" and "z" only. */
  lemma NoNodeNamed(top: real, available: real, blocks: seq<seq<Node>>)
    requires Layered([map["A" := "x-y", "B" := "z"]], ["A", "B"], top, available, blocks)
    ensures FindNode(Flatten(blocks), "x", "A").None?
  {
    DashedKeys();
    NameAbsent([map["A" := "x-y", "B" := "z"]], ["A", "B"], top, available, blocks, "x", "A");
  }

  /** `find` fails for a name that is not a value of the dimension's column. */
  lemma NameAbsent(data: seq<Record>, dims: seq<string>, top: real, available: real, blocks: seq<seq<Node>>, a: string, dim: string)
    requires Layered(data, dims, top, available, blocks) && a !in Column(data, dim)
    ensures FindNode(Flatten(blocks), a, dim).None?
  {
    var nodes := Flatten(blocks);
    forall m | 0 <= m < |nodes| ensures !(nodes[m].name == a && nodes[m].dimension == dim) {
      var q, t := FlattenAt(blocks, m);
      DimensionNodeFacts(data, dims[q], q, top, available, blocks[q]);
      assert nodes[m].dimension == dims[q];
    }
  }

  /** The `dims.map(...)` building every dimension's nodes, flattened. */
  method AllDimensionNodes(data: seq<Record>, dims: seq<string>, top: real, available: real)
    returns (nodes: seq<Node>, ghost blocks: seq<seq<Node>>)
    ensures Layered(data, dims, top, available, blocks) && nodes == Flatten(blocks)
  {
    nodes := [];
    blocks := [];
    for i := 0 to |dims|
      invariant |blocks| == i && nodes == Flatten(blocks)
      invariant forall q :: 0 <= q < i ==> IsDimensionNodes(data, dims[q], q, top, available, blocks[q])
    {
      var block := DimensionNodes(data, dims[i], i, top, available);
      BlocksAppend(data, dims, top, available, blocks, block);
      blocks := blocks + [block];
      nodes := nodes + block;
    }
  }

  lemma BlocksAppend(data: seq<Record>, dims: seq<string>, top: real, available: real, blocks: seq<seq<Node>>, block: seq<Node>)
    requires |blocks| < |dims|
    requires forall q :: 0 <= q < |blocks| ==> IsDimensionNodes(data, dims[q], q, top, available, blocks[q])
    requires IsDimensionNodes(data, dims[|blocks|], |blocks|, top, available, block)
    ensures forall q :: 0 <= q < |blocks| + 1 ==> IsDimensionNodes(data, dims[q], q, top, available, (blocks + [block])[q])
    ensures Flatten(blocks + [block]) == Flatten(blocks) + block
  {
    var b := blocks + [block];
    assert b[..|blocks|] == blocks;
    forall q | 0 <= q < |b| ensures IsDimensionNodes(data, dims[q], q, top, available, b[q]) {
      if q < |blocks| {
        assert b[q] == blocks[q];
      } else {
        assert q == |blocks| && b[q] == block;
      }
    }
  }

  /** What `computeLayout` hands to `setNodes` and `setLinks`. */
  datatype Layout = Layout(nodes: seq<Node>, links: seq<Link>)

  /** `computeLayout`: the nodes of every dimension, flattened; the ribbons of
      every adjacent pair; then the stacking loop. `None` is the TypeError the
      `dimLinks` filter throws on an `undefined` ribbon end. */
  method ComputeLayout(data: seq<Record>, dims: seq<string>, height: real, margin: Margin)
    returns (r: Option<Layout>, ghost blocks: seq<seq<Node>>)
    ensures Layered(data, dims, margin.top, Available(height, margin), blocks)
    ensures r.None? <==> Throws(AllLinks(data, dims, Flatten(blocks), Available(height, margin)), Flatten(blocks), dims)
    ensures r.Some? ==> r.value.nodes == Flatten(blocks)
    ensures EndsInRange(AllLinks(data, dims, Flatten(blocks), Available(height, margin)), |Flatten(blocks)|)
    ensures r.Some? ==> r.value.links == StackedLinks(AllLinks(data, dims, Flatten(blocks), Available(height, margin)), Flatten(blocks), dims)
  {
    var available := Available(height, margin);
    var nodes;
    nodes, blocks := AllDimensionNodes(data, dims, margin.top, available);
    var links := BuildLinks(data, dims, nodes, available);
    AllLinksShape(data, dims, nodes, available);
    var stacked := StackLinks(links, nodes, dims);
    match stacked
    case None =>
      r := None;
    case Some(placed) =>
      r := Some(Layout(nodes, placed));
  }
}
