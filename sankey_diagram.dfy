/** The Sankey diagram layout: nodes are the distinct flow ends, links point
    at node positions, a node's value is the larger of what leaves and what
    enters it, nodes are put in columns so that every link goes rightwards,
    and each column is stacked top to bottom in proportion to value. */
module SankeyDiagram {
  import Seqs
  import JsMath
  import Sorting
  import Partition
  import opened Options

  /** One input flow `{ source, target, value }`. */
  datatype Flow = Flow(source: string, target: string, value: real)

  /** `{ source, target, value }` with node positions; -1 is "not found". */
  datatype Link = Link(source: int, target: int, value: real)

  function Sources(data: seq<Flow>): seq<string>
  {
    seq(|data|, i requires 0 <= i < |data| => data[i].source)
  }

  function Targets(data: seq<Flow>): seq<string>
  {
    seq(|data|, i requires 0 <= i < |data| => data[i].target)
  }

  /** `[...sources, ...targets]`. */
  function Ends(data: seq<Flow>): seq<string>
  {
    Sources(data) + Targets(data)
  }

  /** `[...new Set([...sources, ...targets])]`: the node ids. */
  function NodeIds(data: seq<Flow>): seq<string>
  {
    Seqs.Dedup(Ends(data))
  }

  /** The ids are distinct, are exactly the flow ends, and come in the order
      in which they first appear among all sources and then all targets. */
  lemma NodeIdsProperties(data: seq<Flow>)
    ensures Seqs.Distinct(NodeIds(data))
    ensures forall id :: id in NodeIds(data) <==>
      exists i :: 0 <= i < |data| && (data[i].source == id || data[i].target == id)
    ensures forall a, b :: 0 <= a < b < |NodeIds(data)| ==>
      JsMath.IndexOf(Ends(data), NodeIds(data)[a]) < JsMath.IndexOf(Ends(data), NodeIds(data)[b])
  {
    Seqs.DedupProperties(Ends(data));
    EndsMembers(data);
  }

  /** An id is among the ends exactly when some flow starts or ends there. */
  lemma EndsMembers(data: seq<Flow>)
    ensures forall id :: id in Ends(data) <==>
      exists i :: 0 <= i < |data| && (data[i].source == id || data[i].target == id)
  {
    var ends := Ends(data);
    forall id ensures id in ends <==>
      exists i :: 0 <= i < |data| && (data[i].source == id || data[i].target == id)
    {
      if id in ends {
        var k :| 0 <= k < 2 * |data| && ends[k] == id;
        if k < |data| {
          assert data[k].source == id;
        } else {
          assert data[k - |data|].target == id;
        }
      }
      if exists i :: 0 <= i < |data| && (data[i].source == id || data[i].target == id) {
        var i :| 0 <= i < |data| && (data[i].source == id || data[i].target == id);
        if data[i].source == id {
          assert ends[i] == id;
        } else {
          assert ends[|data| + i] == id;
        }
      }
    }
  }

  /** `nodes.findIndex((n) => n.id === id)`. */
  function FindIndex(ids: seq<string>, id: string): (r: int)
    ensures -1 <= r < |ids|
    ensures r == -1 <==> id !in ids
    ensures r >= 0 ==> ids[r] == id && forall k :: 0 <= k < r ==> ids[k] != id
  {
    if ids == [] then -1
    else if ids[0] == id then 0
    else
      var r := FindIndex(ids[1..], id);
      if r == -1 then -1 else r + 1
  }

  /** `data.map(...)` into links. */
  function Links(data: seq<Flow>): (links: seq<Link>)
    ensures |links| == |data|
  {
    var ids := NodeIds(data);
    seq(|data|, i requires 0 <= i < |data| =>
      Link(FindIndex(ids, data[i].source), FindIndex(ids, data[i].target), data[i].value))
  }

  predicate ValidLinks(links: seq<Link>, n: nat)
  {
    forall i :: 0 <= i < |links| ==> 0 <= links[i].source < n && 0 <= links[i].target < n
  }

  /** Every link points at the node carrying its flow's source and target
      ids, so both ends are valid node positions. */
  lemma LinksValid(data: seq<Flow>)
    ensures ValidLinks(Links(data), |NodeIds(data)|)
    ensures forall i :: 0 <= i < |data| ==>
      && NodeIds(data)[Links(data)[i].source] == data[i].source
      && NodeIds(data)[Links(data)[i].target] == data[i].target
      && Links(data)[i].value == data[i].value
  {
    NodeIdsProperties(data);
    forall i | 0 <= i < |data|
      ensures data[i].source in NodeIds(data) && data[i].target in NodeIds(data)
    {
    }
  }

  /** `node.sourceLinks.reduce((sum, l) => sum + l.value, 0)`. */
  function OutSum(links: seq<Link>, v: int): real
  {
    if links == [] then 0.0
    else OutSum(links[..|links| - 1], v) + (if links[|links| - 1].source == v then links[|links| - 1].value else 0.0)
  }

  /** `node.targetLinks.reduce((sum, l) => sum + l.value, 0)`. */
  function InSum(links: seq<Link>, v: int): real
  {
    if links == [] then 0.0
    else InSum(links[..|links| - 1], v) + (if links[|links| - 1].target == v then links[|links| - 1].value else 0.0)
  }

  function Max(a: real, b: real): real { if a >= b then a else b }

  /** The forEach over nodes that sets `node.value`. */
  method NodeValues(n: nat, links: seq<Link>) returns (values: seq<real>)
    ensures |values| == n
    ensures forall v :: 0 <= v < n ==>
      && values[v] >= OutSum(links, v) && values[v] >= InSum(links, v)
      && (values[v] == OutSum(links, v) || values[v] == InSum(links, v))
  {
    values := [];
    for v := 0 to n
      invariant |values| == v
      invariant forall w :: 0 <= w < v ==> values[w] == Max(OutSum(links, w), InSum(links, w))
    {
      values := values + [Max(OutSum(links, v), InSum(links, v))];
    }
  }

  /** What leaves all nodes together is the whole flow: every link is
      counted at its source exactly once. */
  lemma {:induction false} OutSumsTotal(links: seq<Link>, n: nat)
    requires ValidLinks(links, n)
    ensures Seqs.SumReal(OutSums(links, n)) == LinkTotal(links)
  {
    if links != [] {
      var p := links[..|links| - 1];
      var l := links[|links| - 1];
      OutSumsTotal(p, n);
      var before := OutSums(p, n);
      assert OutSums(links, n) == before[l.source := before[l.source] + l.value];
      Seqs.SumRealUpdate(before, l.source, before[l.source] + l.value);
    } else {
      ZeroSums(n);
    }
  }

  lemma {:induction false} ZeroSums(n: nat)
    ensures Seqs.SumReal(OutSums([], n)) == 0.0
  {
    if n > 0 {
      ZeroSums(n - 1);
      assert OutSums([], n)[..n - 1] == OutSums([], n - 1);
    }
  }

  function OutSums(links: seq<Link>, n: nat): (s: seq<real>)
    ensures |s| == n && forall v :: 0 <= v < n ==> s[v] == OutSum(links, v)
  {
    seq(n, v requires 0 <= v < n => OutSum(links, v))
  }

  function LinkTotal(links: seq<Link>): real
  {
    if links == [] then 0.0 else LinkTotal(links[..|links| - 1]) + links[|links| - 1].value
  }

  /** `node.targetLinks.every((link) => nodes[link.source].x !== undefined)`:
      every link into `v` comes from a node that already has a column. */
  predicate Ready(links: seq<Link>, xs: seq<Option<nat>>, v: nat)
    requires ValidLinks(links, |xs|)
  {
    forall i :: 0 <= i < |links| && links[i].target == v ==> xs[links[i].source].Some?
  }

  /** `remaining.filter(...)` with the readiness test, evaluated before any
      node of this round gets its column. */
  function ReadyOf(links: seq<Link>, xs: seq<Option<nat>>, remaining: seq<nat>): (column: seq<nat>)
    requires ValidLinks(links, |xs|)
    ensures forall v :: v in column <==> v in remaining && Ready(links, xs, v)
  {
    if remaining == [] then []
    else
      var rest := ReadyOf(links, xs, remaining[..|remaining| - 1]);
      var v := remaining[|remaining| - 1];
      if Ready(links, xs, v) then rest + [v] else rest
  }

  /** `remaining.filter((n) => n !== node)`. */
  function Remove(s: seq<nat>, v: nat): (r: seq<nat>)
    ensures |r| <= |s|
    ensures v in s ==> |r| < |s|
    ensures forall x :: x in r <==> x in s && x != v
  {
    if s == [] then []
    else
      var rest := Remove(s[..|s| - 1], v);
      assert s == s[..|s| - 1] + [s[|s| - 1]];
      if s[|s| - 1] == v then rest else rest + [s[|s| - 1]]
  }

  /** No link enters `v`. */
  predicate NoIncoming(links: seq<Link>, v: nat)
  {
    forall i :: 0 <= i < |links| ==> links[i].target != v
  }

  /** Acyclicity, witnessed by a rank that rises along every link. */
  ghost predicate RankedBy(links: seq<Link>, rank: seq<nat>)
    requires ValidLinks(links, |rank|)
  {
    forall i :: 0 <= i < |links| ==> rank[links[i].source] < rank[links[i].target]
  }

  /** What holds between rounds of the column loop: the unplaced nodes are
      exactly those still remaining, every placed node sits in exactly the
      column its `x` names, no column is empty, the first column is exactly
      the nodes no link enters, and a placed node's sources are placed in
      lower columns. */
  ghost predicate Layered(n: nat, links: seq<Link>, xs: seq<Option<nat>>, remaining: seq<nat>, columns: seq<seq<nat>>)
  {
    && |xs| == n && ValidLinks(links, n)
    && (forall v :: v in remaining ==> v < n)
    && (forall v :: 0 <= v < n ==> (xs[v].None? <==> v in remaining))
    && (forall v :: 0 <= v < n && xs[v].Some? ==> xs[v].value < |columns|)
    && (forall c, v :: 0 <= c < |columns| && 0 <= v < n ==> (v in columns[c] <==> xs[v] == Some(c)))
    && (forall c :: 0 <= c < |columns| ==> columns[c] != [] && forall v :: v in columns[c] ==> v < n)
    && (|columns| > 0 ==> forall v: nat :: v in columns[0] <==> v < n && NoIncoming(links, v))
    && (forall i :: 0 <= i < |links| && xs[links[i].target].Some? ==>
          xs[links[i].source].Some? && xs[links[i].source].value < xs[links[i].target].value)
  }

  /** The column loop. On acyclic links it ends; every node then has exactly
      one column, no column is empty, column 0 is exactly the nodes no link
      enters, and every link goes from a lower to a strictly higher column. */
  method AssignColumns(n: nat, links: seq<Link>, ghost rank: seq<nat>)
    returns (columns: seq<seq<nat>>, xs: seq<Option<nat>>)
    requires |rank| == n && ValidLinks(links, n) && RankedBy(links, rank)
    ensures |xs| == n
    ensures forall v :: 0 <= v < n ==> xs[v].Some? && xs[v].value < |columns|
    ensures forall c, v :: 0 <= c < |columns| && 0 <= v < n ==> (v in columns[c] <==> xs[v] == Some(c))
    ensures forall c :: 0 <= c < |columns| ==> columns[c] != [] && forall v :: v in columns[c] ==> v < n
    ensures |columns| > 0 ==> forall v: nat :: v in columns[0] <==> v < n && NoIncoming(links, v)
    ensures forall i :: 0 <= i < |links| ==> xs[links[i].source].value < xs[links[i].target].value
  {
    columns := [];
    xs := seq(n, _ => None);
    var remaining: seq<nat> := seq(n, v requires 0 <= v < n => v);
    assert forall v :: 0 <= v < n ==> remaining[v] == v && xs[v] == None;
    while |remaining| > 0
      invariant Layered(n, links, xs, remaining, columns)
      decreases |remaining|
    {
      var column := ReadyOf(links, xs, remaining);
      ReadyExists(links, xs, remaining, rank);
      var xs', remaining' := PlaceColumn(xs, remaining, column, |columns|);
      NextRound(n, links, xs, remaining, columns, column, xs', remaining');
      xs, remaining, columns := xs', remaining', columns + [column];
    }
  }

  /** `column.forEach((node) => { node.x = columns.length; remaining = ... })`. */
  method PlaceColumn(xs0: seq<Option<nat>>, remaining0: seq<nat>, column: seq<nat>, c: nat)
    returns (xs: seq<Option<nat>>, remaining: seq<nat>)
    requires forall v :: v in column ==> v < |xs0|
    ensures |xs| == |xs0|
    ensures forall v :: 0 <= v < |xs| ==> xs[v] == if v in column then Some(c) else xs0[v]
    ensures forall v :: v in remaining <==> v in remaining0 && v !in column
    ensures |remaining| <= |remaining0|
    ensures column != [] && column[0] in remaining0 ==> |remaining| < |remaining0|
  {
    xs, remaining := xs0, remaining0;
    for k := 0 to |column|
      invariant |xs| == |xs0|
      invariant forall v :: 0 <= v < |xs| ==> xs[v] == if v in column[..k] then Some(c) else xs0[v]
      invariant forall v :: v in remaining <==> v in remaining0 && v !in column[..k]
      invariant |remaining| <= |remaining0| && (k > 0 && column[0] in remaining0 ==> |remaining| < |remaining0|)
    {
      var v := column[k];
      assert v in column;
      xs := xs[v := Some(c)];
      remaining := Remove(remaining, v);
      assert column[..k + 1] == column[..k] + [v];
    }
    assert column[..|column|] == column;
  }

  /** One round keeps the loop's invariant. */
  lemma NextRound(n: nat, links: seq<Link>, xs: seq<Option<nat>>, remaining: seq<nat>,
                  columns: seq<seq<nat>>, column: seq<nat>, xs': seq<Option<nat>>, remaining': seq<nat>)
    requires Layered(n, links, xs, remaining, columns)
    requires column == ReadyOf(links, xs, remaining) && column != []
    requires |xs'| == n
    requires forall v :: 0 <= v < n ==> xs'[v] == if v in column then Some(|columns|) else xs[v]
    requires forall v :: v in remaining' <==> v in remaining && v !in column
    ensures Layered(n, links, xs', remaining', columns + [column])
  {
    RoundColumns(n, links, xs, remaining, columns, column, xs', remaining');
    RoundLinks(n, links, xs, remaining, columns, column, xs', remaining');
    if columns == [] {
      RoundFirst(n, links, xs, remaining, columns, column, xs', remaining');
    }
  }

  /** After a round each node sits in exactly the column its `x` names. */
  lemma RoundColumns(n: nat, links: seq<Link>, xs: seq<Option<nat>>, remaining: seq<nat>,
                  columns: seq<seq<nat>>, column: seq<nat>, xs': seq<Option<nat>>, remaining': seq<nat>)
    requires Layered(n, links, xs, remaining, columns)
    requires column == ReadyOf(links, xs, remaining) && column != []
    requires |xs'| == n
    requires forall v :: 0 <= v < n ==> xs'[v] == if v in column then Some(|columns|) else xs[v]
    requires forall v :: v in remaining' <==> v in remaining && v !in column
    ensures forall c, v :: 0 <= c < |columns + [column]| && 0 <= v < n ==>
              (v in (columns + [column])[c] <==> xs'[v] == Some(c))
  {
    var cs := columns + [column];
    forall c, v | 0 <= c < |cs| && 0 <= v < n
      ensures v in cs[c] <==> xs'[v] == Some(c)
    {
      if c < |columns| {
        assert cs[c] == columns[c];
      } else {
        assert cs[c] == column;
      }
    }
  }

  /** After a round a placed node's sources still sit in lower columns:
      the new column's nodes were ready, so their sources were placed
      before. */
  lemma RoundLinks(n: nat, links: seq<Link>, xs: seq<Option<nat>>, remaining: seq<nat>,
                  columns: seq<seq<nat>>, column: seq<nat>, xs': seq<Option<nat>>, remaining': seq<nat>)
    requires Layered(n, links, xs, remaining, columns)
    requires column == ReadyOf(links, xs, remaining) && column != []
    requires |xs'| == n
    requires forall v :: 0 <= v < n ==> xs'[v] == if v in column then Some(|columns|) else xs[v]
    requires forall v :: v in remaining' <==> v in remaining && v !in column
    ensures forall i :: 0 <= i < |links| && xs'[links[i].target].Some? ==>
              xs'[links[i].source].Some? && xs'[links[i].source].value < xs'[links[i].target].value
  {
    forall i | 0 <= i < |links| && xs'[links[i].target].Some?
      ensures xs'[links[i].source].Some? && xs'[links[i].source].value < xs'[links[i].target].value
    {
      var t, u := links[i].target, links[i].source;
      if t in column {
        assert Ready(links, xs, t);
        assert xs[u].Some?;
      } else {
        assert xs[t].Some?;
      }
      assert u !in remaining;
      assert xs'[u] == xs[u];
    }
  }

  /** The first round takes exactly the nodes no link enters. */
  lemma RoundFirst(n: nat, links: seq<Link>, xs: seq<Option<nat>>, remaining: seq<nat>,
                  columns: seq<seq<nat>>, column: seq<nat>, xs': seq<Option<nat>>, remaining': seq<nat>)
    requires Layered(n, links, xs, remaining, columns)
    requires column == ReadyOf(links, xs, remaining) && column != []
    requires |xs'| == n
    requires forall v :: 0 <= v < n ==> xs'[v] == if v in column then Some(|columns|) else xs[v]
    requires forall v :: v in remaining' <==> v in remaining && v !in column
    requires columns == []
    ensures forall v: nat :: v in column <==> v < n && NoIncoming(links, v)
  {
    forall v: nat ensures v in column <==> v < n && NoIncoming(links, v) {
      if v < n && NoIncoming(links, v) {
        assert Ready(links, xs, v);
      }
      if v in column {
        assert Ready(links, xs, v);
        forall i | 0 <= i < |links| ensures links[i].target != v {
          assert xs[links[i].source].None?;
        }
      }
    }
  }

  /** On ranked links the unplaced node of least rank is ready, so every
      round places at least one node. */
  lemma ReadyExists(links: seq<Link>, xs: seq<Option<nat>>, remaining: seq<nat>, rank: seq<nat>)
    requires |rank| == |xs| && ValidLinks(links, |xs|) && RankedBy(links, rank)
    requires remaining != [] && forall v :: v in remaining ==> v < |xs|
    requires forall v :: 0 <= v < |xs| ==> (xs[v].None? <==> v in remaining)
    ensures ReadyOf(links, xs, remaining) != []
  {
    var m := LeastRanked(remaining, rank);
    forall i | 0 <= i < |links| && links[i].target == m
      ensures xs[links[i].source].Some?
    {
      assert rank[links[i].source] < rank[m];
    }
    assert m in ReadyOf(links, xs, remaining);
  }

  lemma {:induction false} LeastRanked(s: seq<nat>, rank: seq<nat>) returns (m: nat)
    requires s != [] && forall v :: v in s ==> v < |rank|
    ensures m in s && forall v :: v in s ==> rank[m] <= rank[v]
  {
    if |s| == 1 {
      m := s[0];
    } else {
      var p := s[..|s| - 1];
      assert forall v :: v in p ==> v in s;
      var m' := LeastRanked(p, rank);
      var last := s[|s| - 1];
      assert s == p + [last];
      assert last in s;
      m := if rank[last] < rank[m'] then last else m';
    }
  }

  /** Nodes `cyc[0] -> cyc[1] -> … -> cyc[0]` joined by the links `edges`;
      a self-link is a cycle of length one. */
  ghost predicate IsCycle(links: seq<Link>, cyc: seq<nat>, edges: seq<nat>)
  {
    && |cyc| >= 1 && |edges| == |cyc|
    && (forall k :: 0 <= k < |cyc| ==> edges[k] < |links| && links[edges[k]].source == cyc[k])
    && (forall k :: 0 <= k < |cyc| - 1 ==> links[edges[k]].target == cyc[k + 1])
    && links[edges[|cyc| - 1]].target == cyc[0]
  }

  /** A cycle admits no rank that rises along every link, so the column
      loop's precondition is exactly acyclicity. */
  lemma {:induction false} CycleNotRanked(links: seq<Link>, cyc: seq<nat>, edges: seq<nat>, rank: seq<nat>)
    requires ValidLinks(links, |rank|) && IsCycle(links, cyc, edges)
    ensures !RankedBy(links, rank)
  {
    if RankedBy(links, rank) {
      var n := |cyc|;
      assert cyc[0] < |rank| by {
        assert links[edges[0]].source == cyc[0];
      }
      for k := 0 to n - 1
        invariant cyc[k] < |rank| && rank[cyc[k]] >= rank[cyc[0]] + k
      {
        var l := links[edges[k]];
        assert l.source == cyc[k] && l.target == cyc[k + 1];
        assert rank[l.source] < rank[l.target];
      }
    }
  }

  /** A node on a cycle whose nodes are all unplaced is never ready: its
      incoming cycle link starts at an unplaced node. */
  lemma {:induction false} CycleNeverReady(links: seq<Link>, xs: seq<Option<nat>>, remaining: seq<nat>,
                        cyc: seq<nat>, edges: seq<nat>)
    requires ValidLinks(links, |xs|) && IsCycle(links, cyc, edges)
    requires forall k :: 0 <= k < |cyc| ==> cyc[k] < |xs| && xs[cyc[k]].None?
    ensures forall k :: 0 <= k < |cyc| ==> cyc[k] !in ReadyOf(links, xs, remaining)
  {
    var n := |cyc|;
    forall k | 0 <= k < n ensures !Ready(links, xs, cyc[k]) {
      var p := if k == 0 then n - 1 else k - 1;
      assert links[edges[p]].target == cyc[k];
    }
  }

  /** When every remaining node has a link from an unplaced node, the round
      finds an empty column and changes nothing: `remaining` never shrinks
      and `while (remaining.length)` never ends. */
  lemma StuckRound(links: seq<Link>, xs: seq<Option<nat>>, remaining: seq<nat>)
    requires ValidLinks(links, |xs|)
    requires forall v :: v in remaining ==>
      exists i :: 0 <= i < |links| && links[i].target == v && xs[links[i].source].None?
    ensures ReadyOf(links, xs, remaining) == []
  {
  }

  /** A node of one column with its value, as the stacking sees it. */
  datatype Weighted = Weighted(node: nat, value: real)

  /** The comparator `(a, b) => b.value - a.value`: larger values first,
      equal values keep their order. */
  predicate ByValueDesc(a: Weighted, b: Weighted)
  {
    a.value >= b.value
  }

  lemma ByValueDescPreorder()
    ensures Sorting.TotalPreorder(ByValueDesc)
  {
  }

  function Values(ws: seq<Weighted>): seq<real>
  {
    seq(|ws|, k requires 0 <= k < |ws| => ws[k].value)
  }

  /** `height - nodePadding * (column.length - 1)`. */
  function ColumnHeight(height: real, padding: real, size: nat): real
  {
    height - padding * (size as real - 1.0)
  }

  /** `column.reduce((sum, n) => sum + n.value, 0)`, read after the in-place
      sort: the divisor of every height in the column. */
  function ColumnTotal(column: seq<Weighted>): real
  {
    Seqs.SumReal(Values(Sorting.SortBy(column, ByValueDesc)))
  }

  /** One column of the y pass: sort by value, then give each node the next
      y and a height in proportion to its value. When the column total is
      zero every height is `0 / 0` or `v / 0`, which is not a number; the
      result is then `None`. Otherwise the heights fill the column's height
      less the padding, so the last node ends exactly at `height`. */
  method StackColumn(column: seq<Weighted>, height: real, padding: real) returns (st: Option<Stack>)
    requires column != []
    ensures st.None? <==> ColumnTotal(column) == 0.0
    ensures st.Some? ==> IsStack(column, st.value, height, padding)
  {
    var sorted := Sorting.SortBy(column, ByValueDesc);
    SortedColumn(column);
    var total := Seqs.SumReal(Values(sorted));
    if total == 0.0 {
      return None;
    }
    var columnHeight := ColumnHeight(height, padding, |column|);
    var ys, hs := StackShares(Values(sorted), total, columnHeight, padding);
    Partition.SharesOfWhole(Values(sorted), columnHeight);
    StackEnd(ys, hs, height, padding);
    st := Some(Stack(sorted, ys, hs));
  }

  /** The `forEach` placing each node below the previous one, padding
      apart, with its share of the column height. */
  method StackShares(values: seq<real>, total: real, columnHeight: real, padding: real)
    returns (ys: seq<real>, hs: seq<real>)
    requires total != 0.0
    ensures hs == Partition.Shares(values, total, columnHeight)
    ensures Partition.Packed(ys, hs, 0.0, padding) && |ys| == |values|
  {
    var y := 0.0;
    ys, hs := [], [];
    for k := 0 to |values|
      invariant |ys| == |hs| == k
      invariant forall j :: 0 <= j < k ==> hs[j] == Partition.Share(values[j], total, columnHeight)
      invariant Partition.Packed(ys, hs, 0.0, padding)
      invariant y == if k == 0 then 0.0 else ys[k - 1] + hs[k - 1] + padding
    {
      var h := Partition.Share(values[k], total, columnHeight);
      ys, hs := ys + [y], hs + [h];
      y := y + h + padding;
    }
  }

  lemma StackEnd(ys: seq<real>, hs: seq<real>, height: real, padding: real)
    requires Partition.Packed(ys, hs, 0.0, padding) && |ys| > 0
    requires Seqs.SumReal(hs) == ColumnHeight(height, padding, |ys|)
    ensures ys[|ys| - 1] + hs[|hs| - 1] == height
  {
    Partition.PackedEnd(ys, hs, 0.0, padding);
  }

  /** The sorted column is an ordered permutation of the column. */
  lemma SortedColumn(column: seq<Weighted>)
    ensures var sorted := Sorting.SortBy(column, ByValueDesc);
      && Sorting.SortedBy(sorted, ByValueDesc) && multiset(sorted) == multiset(column)
  {
    ByValueDescPreorder();
    Sorting.SortSorted(column, ByValueDesc);
    Sorting.SortPermutation(column, ByValueDesc);
  }

  /** A column of positive values has a positive total, so it is stacked. */
  lemma PositiveColumnTotal(column: seq<Weighted>)
    requires column != [] && forall k :: 0 <= k < |column| ==> column[k].value > 0.0
    ensures ColumnTotal(column) > 0.0
  {
    var sorted := Sorting.SortBy(column, ByValueDesc);
    Sorting.SortMembers(column, ByValueDesc);
    forall k | 0 <= k < |sorted| ensures Values(sorted)[k] > 0.0 {
      assert sorted[k] in column;
    }
    Seqs.SumRealPositive(Values(sorted));
  }

  /** The cubic link path: from the middle of the source node's right edge
      to the middle of the target node's left edge, with control points
      half a column in from each end. */
  datatype Path = Path(x0: real, y0: real, x1: real, y1: real, x2: real, y2: real, x3: real, y3: real)

  /** `width / (columns.length - 1)`: the distance between columns. */
  function ColumnStep(width: real, columnCount: nat): real
    requires columnCount > 1
  {
    width / (columnCount as real - 1.0)
  }

  /** `y + height / 2`. */
  function Middle(y: real, h: real): real
  {
    y + h / 2.0
  }

  /** The path string of one link, as its eight numbers. */
  function LinkPath(sourceX: nat, sourceY: real, sourceH: real, targetX: nat, targetY: real, targetH: real,
                    width: real, columnCount: nat): Path
    requires columnCount > 1
  {
    var step := ColumnStep(width, columnCount);
    Path(sourceX as real * step, Middle(sourceY, sourceH),
         (sourceX as real + 0.5) * step, Middle(sourceY, sourceH),
         (targetX as real - 0.5) * step, Middle(targetY, targetH),
         targetX as real * step, Middle(targetY, targetH))
  }

  /** A link into a higher column runs left to right: its x coordinates
      increase strictly from the start through the control points to the
      end, each control point sits at its end's height, and each end lies
      within its node's extent. */
  lemma LinkPathShape(sourceX: nat, sourceY: real, sourceH: real, targetX: nat, targetY: real, targetH: real,
                      width: real, columnCount: nat)
    requires columnCount > 1 && width > 0.0 && sourceX < targetX
    requires sourceH >= 0.0 && targetH >= 0.0
    ensures var p := LinkPath(sourceX, sourceY, sourceH, targetX, targetY, targetH, width, columnCount);
      && p.x0 < p.x1 <= p.x2 < p.x3
      && p.y1 == p.y0 && p.y2 == p.y3
      && sourceY <= p.y0 <= sourceY + sourceH
      && targetY <= p.y3 <= targetY + targetH
      && p.x3 - p.x0 == (targetX - sourceX) as real * ColumnStep(width, columnCount)
  {
    var step := ColumnStep(width, columnCount);
    var d := columnCount as real - 1.0;
    assert d >= 1.0 && step == width / d;
    assert step > 0.0 by {
      assert step * d == width;
    }
    var sx, tx := sourceX as real, targetX as real;
    var p := LinkPath(sourceX, sourceY, sourceH, targetX, targetY, targetH, width, columnCount);
    ScaleMonotone(sx, sx + 0.5, step);
    ScaleMonotone(sx + 0.5, tx - 0.5, step);
    ScaleMonotone(tx - 0.5, tx, step);
    assert tx * step - sx * step == (tx - sx) * step;
  }

  lemma ScaleMonotone(a: real, b: real, c: real)
    requires a <= b && c > 0.0
    ensures a * c <= b * c && (a < b ==> a * c < b * c)
  {
  }

  /** A link's value counts toward what leaves its source and what enters
      its target. */
  lemma {:induction false} SumsAtLeast(links: seq<Link>, i: nat)
    requires i < |links| && forall k :: 0 <= k < |links| ==> links[k].value >= 0.0
    ensures OutSum(links, links[i].source) >= links[i].value
    ensures InSum(links, links[i].target) >= links[i].value
  {
    var p := links[..|links| - 1];
    if i < |links| - 1 {
      SumsAtLeast(p, i);
    }
    SumsNonNegative(p, links[i].source);
    SumsNonNegative(p, links[i].target);
  }

  lemma {:induction false} SumsNonNegative(links: seq<Link>, v: int)
    requires forall k :: 0 <= k < |links| ==> links[k].value >= 0.0
    ensures OutSum(links, v) >= 0.0 && InSum(links, v) >= 0.0
  {
    if links != [] {
      SumsNonNegative(links[..|links| - 1], v);
    }
  }

  /** With positive flows every node is the end of some flow, so its value
      is positive. */
  lemma {:induction false} NodeValuePositive(data: seq<Flow>, v: nat)
    requires forall i :: 0 <= i < |data| ==> data[i].value > 0.0
    requires v < |NodeIds(data)|
    ensures Max(OutSum(Links(data), v), InSum(Links(data), v)) > 0.0
  {
    var i := EndingFlow(data, v);
    var links := Links(data);
    SumsAtLeast(links, i);
  }

  /** Some link starts or ends at each node. */
  lemma {:induction false} EndingFlow(data: seq<Flow>, v: nat) returns (i: nat)
    requires v < |NodeIds(data)|
    ensures i < |data| && (Links(data)[i].source == v || Links(data)[i].target == v)
    ensures Links(data)[i].value == data[i].value
  {
    var ids, links := NodeIds(data), Links(data);
    NodeIdsProperties(data);
    LinksValid(data);
    assert ids[v] in ids;
    i :| 0 <= i < |data| && (data[i].source == ids[v] || data[i].target == ids[v]);
    if data[i].source == ids[v] {
      assert ids[links[i].source] == ids[v];
    } else {
      assert ids[links[i].target] == ids[v];
    }
  }

  /** The nodes of one column paired with their values. */
  function Weigh(column: seq<nat>, values: seq<real>): (ws: seq<Weighted>)
    requires forall k :: 0 <= k < |column| ==> column[k] < |values|
    ensures |ws| == |column|
    ensures forall k :: 0 <= k < |column| ==> ws[k] == Weighted(column[k], values[column[k]])
  {
    seq(|column|, k requires 0 <= k < |column| => Weighted(column[k], values[column[k]]))
  }

  /** One stacked column: its nodes in sorted order with their y and height. */
  datatype Stack = Stack(order: seq<Weighted>, ys: seq<real>, hs: seq<real>)

  /** What the y pass makes of one column. */
  ghost predicate IsStack(column: seq<Weighted>, st: Stack, height: real, padding: real)
  {
    && st.order == Sorting.SortBy(column, ByValueDesc)
    && Sorting.SortedBy(st.order, ByValueDesc) && multiset(st.order) == multiset(column)
    && Seqs.SumReal(Values(st.order)) != 0.0
    && st.hs == Partition.Shares(Values(st.order), Seqs.SumReal(Values(st.order)), ColumnHeight(height, padding, |column|))
    && Partition.Packed(st.ys, st.hs, 0.0, padding) && |st.ys| == |column| > 0
    && Seqs.SumReal(st.hs) == ColumnHeight(height, padding, |column|)
    && st.ys[|st.ys| - 1] + st.hs[|st.hs| - 1] == height
  }

  /** The whole layout effect for acyclic flows: nodes, links, node values,
      columns and the stacked columns. A column whose total is zero has no
      numeric heights (`None`); with positive flows every node value is
      positive and every column is stacked. */
  method Layout(data: seq<Flow>, height: real, padding: real, ghost rank: seq<nat>)
    returns (ids: seq<string>, links: seq<Link>, values: seq<real>,
             columns: seq<seq<nat>>, xs: seq<Option<nat>>, stacks: seq<Option<Stack>>)
    requires |rank| == |NodeIds(data)| && ValidLinks(Links(data), |rank|) && RankedBy(Links(data), rank)
    ensures ids == NodeIds(data) && links == Links(data) && |values| == |ids| == |xs|
    ensures forall v :: 0 <= v < |ids| ==> values[v] == Max(OutSum(links, v), InSum(links, v))
    ensures forall v :: 0 <= v < |ids| ==> xs[v].Some? && xs[v].value < |columns|
    ensures forall c, v :: 0 <= c < |columns| && 0 <= v < |ids| ==> (v in columns[c] <==> xs[v] == Some(c))
    ensures forall i :: 0 <= i < |links| ==> xs[links[i].source].value < xs[links[i].target].value
    ensures |stacks| == |columns|
    ensures forall c :: 0 <= c < |columns| ==> columns[c] != []
    ensures forall c, k :: 0 <= c < |columns| && 0 <= k < |columns[c]| ==> columns[c][k] < |values|
    ensures forall c :: 0 <= c < |columns| ==> (stacks[c].None? <==> ColumnTotal(Weigh(columns[c], values)) == 0.0)
    ensures forall c :: 0 <= c < |columns| ==> stacks[c].Some? ==> IsStack(Weigh(columns[c], values), stacks[c].value, height, padding)
    ensures (forall i :: 0 <= i < |data| ==> data[i].value > 0.0) ==>
      (forall v :: 0 <= v < |ids| ==> values[v] > 0.0) && forall c :: 0 <= c < |columns| ==> stacks[c].Some?
  {
    ids := NodeIds(data);
    links := Links(data);
    var n := |ids|;
    LinksValid(data);
    values := NodeValues(n, links);
    columns, xs := AssignColumns(n, links, rank);
    forall d, k | 0 <= d < |columns| && 0 <= k < |columns[d]| ensures columns[d][k] < n {
      assert columns[d][k] in columns[d];
    }
    stacks := StackColumns(columns, values, height, padding);
    PositiveLayout(data, values, columns, stacks);
  }

  /** With positive flows every node value is positive, so every column
      has a positive total and is stacked. */
  lemma PositiveLayout(data: seq<Flow>, values: seq<real>, columns: seq<seq<nat>>, stacks: seq<Option<Stack>>)
    requires |values| == |NodeIds(data)| && |stacks| == |columns|
    requires forall v :: 0 <= v < |values| ==> values[v] == Max(OutSum(Links(data), v), InSum(Links(data), v))
    requires forall c :: 0 <= c < |columns| ==> columns[c] != []
    requires forall c, k :: 0 <= c < |columns| && 0 <= k < |columns[c]| ==> columns[c][k] < |values|
    requires forall c :: 0 <= c < |columns| ==> (stacks[c].None? <==> ColumnTotal(Weigh(columns[c], values)) == 0.0)
    ensures (forall i :: 0 <= i < |data| ==> data[i].value > 0.0) ==>
      (forall v :: 0 <= v < |values| ==> values[v] > 0.0) && forall c :: 0 <= c < |columns| ==> stacks[c].Some?
  {
    if forall i :: 0 <= i < |data| ==> data[i].value > 0.0 {
      PositiveValues(data, values);
      PositiveColumns(columns, values);
    }
  }

  lemma PositiveValues(data: seq<Flow>, values: seq<real>)
    requires forall i :: 0 <= i < |data| ==> data[i].value > 0.0
    requires |values| == |NodeIds(data)|
    requires forall v :: 0 <= v < |values| ==> values[v] == Max(OutSum(Links(data), v), InSum(Links(data), v))
    ensures forall v :: 0 <= v < |values| ==> values[v] > 0.0
  {
    forall v | 0 <= v < |values| ensures values[v] > 0.0 {
      NodeValuePositive(data, v);
    }
  }

  lemma PositiveColumns(columns: seq<seq<nat>>, values: seq<real>)
    requires forall d :: 0 <= d < |columns| ==> columns[d] != []
    requires forall d, k :: 0 <= d < |columns| && 0 <= k < |columns[d]| ==> columns[d][k] < |values|
    requires forall v :: 0 <= v < |values| ==> values[v] > 0.0
    ensures forall c :: 0 <= c < |columns| ==> ColumnTotal(Weigh(columns[c], values)) > 0.0
  {
    forall c | 0 <= c < |columns| ensures ColumnTotal(Weigh(columns[c], values)) > 0.0 {
      PositiveColumnTotal(Weigh(columns[c], values));
    }
  }

  /** `columns.forEach(...)`: every column is stacked, or has no numeric
      heights when its total is zero. */
  method StackColumns(columns: seq<seq<nat>>, values: seq<real>, height: real, padding: real)
    returns (stacks: seq<Option<Stack>>)
    requires forall d :: 0 <= d < |columns| ==> columns[d] != []
    requires forall d, k :: 0 <= d < |columns| && 0 <= k < |columns[d]| ==> columns[d][k] < |values|
    ensures |stacks| == |columns|
    ensures forall c :: 0 <= c < |columns| ==> (stacks[c].None? <==> ColumnTotal(Weigh(columns[c], values)) == 0.0)
    ensures forall c :: 0 <= c < |columns| ==> stacks[c].Some? ==> IsStack(Weigh(columns[c], values), stacks[c].value, height, padding)
  {
    stacks := [];
    for c := 0 to |columns|
      invariant |stacks| == c
      invariant forall d :: 0 <= d < c ==> (stacks[d].None? <==> ColumnTotal(Weigh(columns[d], values)) == 0.0)
      invariant forall d :: 0 <= d < c ==> stacks[d].Some? ==> IsStack(Weigh(columns[d], values), stacks[d].value, height, padding)
    {
      var st := StackColumn(Weigh(columns[c], values), height, padding);
      ghost var done := stacks;
      stacks := stacks + [st];
      assert stacks[c] == st && forall d :: 0 <= d < c ==> stacks[d] == done[d];
    }
  }
}
