/** The slice tree map of `TreeMap.jsx`: `calculateLayout` cuts the parent
    rectangle along its longer side into one slice per direct child, in
    proportion to the child's value, and gives each slice the cross span
    that makes its area the parent's whole area. Grandchildren are not laid
    out. */
module TreeMap {
  import Seqs
  import Partition

  /** A hierarchy node; a node without a `children` property has none
      (`node.children || []`). */
  datatype Node = Node(name: string, value: real, children: seq<Node>)

  /** `{...child, x0, y0, x1, y1}`: the child with its rectangle. */
  datatype Cell = Cell(node: Node, x0: real, y0: real, x1: real, y1: real)

  function Values(children: seq<Node>): seq<real>
  {
    seq(|children|, i requires 0 <= i < |children| => children[i].value)
  }

  /** `children.reduce((sum, child) => sum + child.value, 0)`. */
  function Total(children: seq<Node>): real
  {
    Seqs.SumReal(Values(children))
  }

  /** The parent is cut left to right when it is wider than it is tall,
      top to bottom otherwise. */
  predicate Horizontal(x0: real, y0: real, x1: real, y1: real)
  {
    x1 - x0 > y1 - y0
  }

  /** The parent's side along which it is cut. */
  function Extent(x0: real, y0: real, x1: real, y1: real): real
  {
    if Horizontal(x0, y0, x1, y1) then x1 - x0 else y1 - y0
  }

  /** `width * height` of the parent. */
  function Area(x0: real, y0: real, x1: real, y1: real): real
  {
    (x1 - x0) * (y1 - y0)
  }

  /** A child's span along the cut: the parent's side times
      `child.value / total`. It is 0, and the cross span that divides the
      area by it is undefined, exactly when the child's value or the side
      is 0. */
  function SplitSpan(value: real, total: real, x0: real, y0: real, x1: real, y1: real): (s: real)
    requires total != 0.0
    ensures s == 0.0 <==> value == 0.0 || Extent(x0, y0, x1, y1) == 0.0
  {
    ZeroShare(value, total, Extent(x0, y0, x1, y1));
    Partition.Share(value, total, Extent(x0, y0, x1, y1))
  }

  /** The span is `width * ratio` or `height * ratio`, as the component
      writes it. */
  lemma SplitSpanIs(value: real, total: real, x0: real, y0: real, x1: real, y1: real)
    requires total != 0.0
    ensures Horizontal(x0, y0, x1, y1) ==> SplitSpan(value, total, x0, y0, x1, y1) == (x1 - x0) * (value / total)
    ensures !Horizontal(x0, y0, x1, y1) ==> SplitSpan(value, total, x0, y0, x1, y1) == (y1 - y0) * (value / total)
  {
  }

  lemma ZeroShare(value: real, total: real, extent: real)
    requires total != 0.0
    ensures Partition.Share(value, total, extent) == 0.0 <==> value == 0.0 || extent == 0.0
  {
    if value != 0.0 && extent != 0.0 {
      assert value / total != 0.0;
    }
  }

  /** What the divisions need: a non-zero total, a non-zero side to cut and
      no zero-valued child. */
  predicate Divisible(children: seq<Node>, total: real, x0: real, y0: real, x1: real, y1: real)
  {
    total != 0.0 && Extent(x0, y0, x1, y1) != 0.0
    && forall i :: 0 <= i < |children| ==> children[i].value != 0.0
  }

  /** The rectangle `processedChildren` gets for `child` at the running
      corner `(cx, cy)`: the split span is the side times
      `child.value / total`, and the cross span is the parent's area over
      the split span. */
  function CellOf(child: Node, total: real, x0: real, y0: real, x1: real, y1: real, cx: real, cy: real): Cell
    requires total != 0.0 && child.value != 0.0 && Extent(x0, y0, x1, y1) != 0.0
  {
    var ratio := child.value / total;
    var width, height := x1 - x0, y1 - y0;
    var area := width * height;
    NonZeroProduct(Extent(x0, y0, x1, y1), ratio);
    if width > height then
      var childWidth := width * ratio;
      Cell(child, cx, cy, cx + childWidth, cy + area / childWidth)
    else
      var childHeight := height * ratio;
      Cell(child, cx, cy, cx + area / childHeight, cy + childHeight)
  }

  lemma NonZeroQuotient(a: real, b: real)
    requires a != 0.0 && b != 0.0
    ensures a / b != 0.0
  {
    assert a / b * b == a;
  }

  lemma NonZeroProduct(a: real, b: real)
    requires a != 0.0 && b != 0.0
    ensures a * b != 0.0
  {
  }

  /** The cells of `children` from the running corner `(cx, cy)`, which
      moves along the cut after each cell. */
  function Row(children: seq<Node>, total: real, x0: real, y0: real, x1: real, y1: real, cx: real, cy: real): (cells: seq<Cell>)
    requires Divisible(children, total, x0, y0, x1, y1)
    ensures |cells| == |children|
  {
    if children == [] then []
    else
      var c := CellOf(children[0], total, x0, y0, x1, y1, cx, cy);
      var h := Horizontal(x0, y0, x1, y1);
      [c] + Row(children[1..], total, x0, y0, x1, y1, if h then c.x1 else cx, if h then cy else c.y1)
  }

  /** `calculateLayout(node, x0, y0, x1, y1).children`. */
  function Layout(node: Node, x0: real, y0: real, x1: real, y1: real): seq<Cell>
    requires node.children != [] ==> Divisible(node.children, Total(node.children), x0, y0, x1, y1)
  {
    if node.children == [] then [] else Row(node.children, Total(node.children), x0, y0, x1, y1, x0, y0)
  }

  /** `calculateLayout`: map the children to cells, moving the running
      corner along the cut. */
  method CalculateLayout(node: Node, x0: real, y0: real, x1: real, y1: real) returns (processed: seq<Cell>)
    requires node.children != [] ==> Divisible(node.children, Total(node.children), x0, y0, x1, y1)
    ensures processed == Layout(node, x0, y0, x1, y1)
  {
    var children := node.children;
    processed := [];
    if children == [] {
      return;
    }
    var total := TotalOf(children);
    var currentX, currentY := x0, y0;
    for i := 0 to |children|
      invariant processed + Row(children[i..], total, x0, y0, x1, y1, currentX, currentY)
                == Row(children, total, x0, y0, x1, y1, x0, y0)
    {
      var child := children[i];
      var childData := PlaceChild(child, total, x0, y0, x1, y1, currentX, currentY);
      ghost var cx, cy := currentX, currentY;
      if x1 - x0 > y1 - y0 {
        currentX := childData.x1;
      } else {
        currentY := childData.y1;
      }
      RowStep(children, i, total, x0, y0, x1, y1, cx, cy, childData, currentX, currentY);
      processed := processed + [childData];
    }
  }

  /** `children.reduce((sum, child) => sum + child.value, 0)`. */
  method TotalOf(children: seq<Node>) returns (total: real)
    ensures total == Total(children)
  {
    total := 0.0;
    for i := 0 to |children|
      invariant total == Seqs.SumReal(Values(children)[..i])
    {
      assert Values(children)[..i + 1][..i] == Values(children)[..i];
      total := total + children[i].value;
    }
    assert Values(children)[..|children|] == Values(children);
  }

  lemma RowStep(children: seq<Node>, i: nat, total: real, x0: real, y0: real, x1: real, y1: real,
                cx: real, cy: real, c: Cell, nextX: real, nextY: real)
    requires Divisible(children, total, x0, y0, x1, y1) && i < |children|
    requires c == CellOf(children[i], total, x0, y0, x1, y1, cx, cy)
    requires nextX == (if Horizontal(x0, y0, x1, y1) then c.x1 else cx)
    requires nextY == (if Horizontal(x0, y0, x1, y1) then cy else c.y1)
    ensures Row(children[i..], total, x0, y0, x1, y1, cx, cy)
            == [c] + Row(children[i + 1..], total, x0, y0, x1, y1, nextX, nextY)
  {
    assert children[i..][1..] == children[i + 1..];
  }

  /** `CellOf` of a cut across the width, over the ratio, the sides and
      the area as the component names them. */
  lemma CellOfWide(child: Node, total: real, x0: real, y0: real, x1: real, y1: real, cx: real, cy: real,
                   ratio: real, width: real, height: real, area: real)
    requires total != 0.0 && child.value != 0.0 && width > height && width != 0.0
    requires ratio == child.value / total && width == x1 - x0 && height == y1 - y0 && area == width * height
    ensures width * ratio != 0.0 && Extent(x0, y0, x1, y1) != 0.0
    ensures CellOf(child, total, x0, y0, x1, y1, cx, cy) == Cell(child, cx, cy, cx + width * ratio, cy + area / (width * ratio))
  {
    NonZeroQuotient(child.value, total);
    NonZeroProduct(width, ratio);
  }

  /** `CellOf` of a cut down the height. */
  lemma CellOfTall(child: Node, total: real, x0: real, y0: real, x1: real, y1: real, cx: real, cy: real,
                   ratio: real, width: real, height: real, area: real)
    requires total != 0.0 && child.value != 0.0 && !(width > height) && height != 0.0
    requires ratio == child.value / total && width == x1 - x0 && height == y1 - y0 && area == width * height
    ensures height * ratio != 0.0 && Extent(x0, y0, x1, y1) != 0.0
    ensures CellOf(child, total, x0, y0, x1, y1, cx, cy) == Cell(child, cx, cy, cx + area / (height * ratio), cy + height * ratio)
  {
    NonZeroQuotient(child.value, total);
    NonZeroProduct(height, ratio);
  }

  /** The body of the `children.map` callback: the cell of one child at the
      running corner. */
  method PlaceChild(child: Node, total: real, x0: real, y0: real, x1: real, y1: real, currentX: real, currentY: real)
    returns (childData: Cell)
    requires total != 0.0 && child.value != 0.0 && Extent(x0, y0, x1, y1) != 0.0
    ensures childData == CellOf(child, total, x0, y0, x1, y1, currentX, currentY)
  {
    var ratio := child.value / total;
    var width := x1 - x0;
    var height := y1 - y0;
    var area := width * height;
    if width > height {
      CellOfWide(child, total, x0, y0, x1, y1, currentX, currentY, ratio, width, height, area);
      var childWidth := width * ratio;
      childData := Cell(child, currentX, currentY, currentX + childWidth, currentY + area / childWidth);
    } else {
      CellOfTall(child, total, x0, y0, x1, y1, currentX, currentY, ratio, width, height, area);
      var childHeight := height * ratio;
      childData := Cell(child, currentX, currentY, currentX + area / childHeight, currentY + childHeight);
    }
  }

  // ------------------------------------------------------------ properties

  /** The shape of the slices: one cell per child, in order, holding that
      child; every cell starts on the parent's leading edge across the cut,
      the first at the parent's corner, each next one where the previous
      ended; its span along the cut is the parent's side times
      `value / total`, and its width times its height is the parent's area. */
  predicate Sliced(cells: seq<Cell>, children: seq<Node>, total: real, x0: real, y0: real, x1: real, y1: real, cx: real, cy: real)
    requires Divisible(children, total, x0, y0, x1, y1)
  {
    var h := Horizontal(x0, y0, x1, y1);
    |cells| == |children|
    && (cells != [] ==> cells[0].x0 == cx && cells[0].y0 == cy)
    && (forall i :: 0 <= i < |cells| ==> Slice(cells[i], children[i], total, x0, y0, x1, y1, cx, cy))
    && (forall i :: 0 < i < |cells| ==>
          (h ==> cells[i].x0 == cells[i - 1].x1) && (!h ==> cells[i].y0 == cells[i - 1].y1))
  }

  /** One cell of the cut: it holds `child`, starts on the leading edge
      across the cut, spans the parent's side times `value / total` along
      the cut, and its width times its height is the parent's area. */
  predicate Slice(c: Cell, child: Node, total: real, x0: real, y0: real, x1: real, y1: real, cx: real, cy: real)
    requires total != 0.0
  {
    var h := Horizontal(x0, y0, x1, y1);
    c.node == child
    && (h ==> c.y0 == cy && c.x1 - c.x0 == SplitSpan(child.value, total, x0, y0, x1, y1))
    && (!h ==> c.x0 == cx && c.y1 - c.y0 == SplitSpan(child.value, total, x0, y0, x1, y1))
    && Area(c.x0, c.y0, c.x1, c.y1) == Area(x0, y0, x1, y1)
  }

  lemma CellSlice(child: Node, total: real, x0: real, y0: real, x1: real, y1: real, cx: real, cy: real)
    requires total != 0.0 && child.value != 0.0 && Extent(x0, y0, x1, y1) != 0.0
    ensures Slice(CellOf(child, total, x0, y0, x1, y1, cx, cy), child, total, x0, y0, x1, y1, cx, cy)
  {
    var split := SplitSpan(child.value, total, x0, y0, x1, y1);
    SplitSpanIs(child.value, total, x0, y0, x1, y1);
    Cancel(Area(x0, y0, x1, y1), split);
  }

  lemma Cancel(area: real, split: real)
    requires split != 0.0
    ensures split * (area / split) == area && (area / split) * split == area
  {
  }

  lemma {:induction false} RowSliced(children: seq<Node>, total: real, x0: real, y0: real, x1: real, y1: real, cx: real, cy: real)
    requires Divisible(children, total, x0, y0, x1, y1)
    ensures Sliced(Row(children, total, x0, y0, x1, y1, cx, cy), children, total, x0, y0, x1, y1, cx, cy)
  {
    if children != [] {
      var c := CellOf(children[0], total, x0, y0, x1, y1, cx, cy);
      var h := Horizontal(x0, y0, x1, y1);
      CellSlice(children[0], total, x0, y0, x1, y1, cx, cy);
      RowSliced(children[1..], total, x0, y0, x1, y1, if h then c.x1 else cx, if h then cy else c.y1);
    }
  }

  /** Only the direct children are laid out, each exactly once and in
      order, as slices of the parent; a node without children gives none. */
  lemma LayoutSliced(node: Node, x0: real, y0: real, x1: real, y1: real)
    requires node.children != [] ==> Divisible(node.children, Total(node.children), x0, y0, x1, y1)
    ensures node.children == [] ==> Layout(node, x0, y0, x1, y1) == []
    ensures node.children != [] ==>
      Sliced(Layout(node, x0, y0, x1, y1), node.children, Total(node.children), x0, y0, x1, y1, x0, y0)
  {
    if node.children != [] {
      RowSliced(node.children, Total(node.children), x0, y0, x1, y1, x0, y0);
    }
  }

  /** With at least one child, the slices exactly fill the side being cut:
      the last one ends on the parent's far edge. */
  lemma LayoutFills(node: Node, x0: real, y0: real, x1: real, y1: real)
    requires node.children != [] && Divisible(node.children, Total(node.children), x0, y0, x1, y1)
    ensures var cells := Layout(node, x0, y0, x1, y1);
            (Horizontal(x0, y0, x1, y1) ==> cells[|cells| - 1].x1 == x1)
            && (!Horizontal(x0, y0, x1, y1) ==> cells[|cells| - 1].y1 == y1)
  {
    LayoutSliced(node, x0, y0, x1, y1);
    SlicedEnd(Layout(node, x0, y0, x1, y1), node.children, Total(node.children), x0, y0, x1, y1, x0, y0);
    Partition.SharesOfWhole(Values(node.children), Extent(x0, y0, x1, y1));
  }

  /** Slices laid end to end from the running corner end after the
      children's shares of the cut side, all together. */
  lemma SlicedEnd(cells: seq<Cell>, children: seq<Node>, total: real, x0: real, y0: real, x1: real, y1: real, cx: real, cy: real)
    requires Divisible(children, total, x0, y0, x1, y1) && Sliced(cells, children, total, x0, y0, x1, y1, cx, cy)
    requires cells != []
    ensures var e := Partition.Shares(Values(children), total, Extent(x0, y0, x1, y1));
            (Horizontal(x0, y0, x1, y1) ==> cells[|cells| - 1].x1 == cx + Seqs.SumReal(e))
            && (!Horizontal(x0, y0, x1, y1) ==> cells[|cells| - 1].y1 == cy + Seqs.SumReal(e))
  {
    var h := Horizontal(x0, y0, x1, y1);
    var values := Values(children);
    forall k | 0 <= k < |children| ensures values[k] == children[k].value { }
    var sizes := Partition.Shares(values, total, Extent(x0, y0, x1, y1));
    var starts := seq(|cells|, i requires 0 <= i < |cells| => if h then cells[i].x0 else cells[i].y0);
    forall i | 0 <= i < |cells|
      ensures (if h then cells[i].x1 else cells[i].y1) == starts[i] + sizes[i]
    {
      SliceEnd(cells[i], children[i], total, x0, y0, x1, y1, cx, cy);
    }
    assert Partition.Packed(starts, sizes, if h then cx else cy, 0.0);
    Partition.PackedEnd(starts, sizes, if h then cx else cy, 0.0);
  }

  /** A slice ends its child's share of the cut side after it starts. */
  lemma SliceEnd(c: Cell, child: Node, total: real, x0: real, y0: real, x1: real, y1: real, cx: real, cy: real)
    requires total != 0.0 && Slice(c, child, total, x0, y0, x1, y1, cx, cy)
    ensures Horizontal(x0, y0, x1, y1) ==> c.x1 == c.x0 + Partition.Share(child.value, total, Extent(x0, y0, x1, y1))
    ensures !Horizontal(x0, y0, x1, y1) ==> c.y1 == c.y0 + Partition.Share(child.value, total, Extent(x0, y0, x1, y1))
  {
  }

  /** Every slice has the parent's whole area, so with two or more children
      the slices together cover more than the parent: here two equal
      children of a 4 × 2 rectangle each get 2 × 4. */
  lemma SlicesOverlapArea()
    ensures var node := Node("root", 2.0, [Node("a", 1.0, []), Node("b", 1.0, [])]);
            Divisible(node.children, Total(node.children), 0.0, 0.0, 4.0, 2.0)
            && Layout(node, 0.0, 0.0, 4.0, 2.0)
               == [Cell(node.children[0], 0.0, 0.0, 2.0, 4.0), Cell(node.children[1], 2.0, 0.0, 4.0, 4.0)]
  {
    var a, b := Node("a", 1.0, []), Node("b", 1.0, []);
    var node := Node("root", 2.0, [a, b]);
    assert Values(node.children) == [1.0, 1.0];
    assert Seqs.SumReal([1.0, 1.0]) == Seqs.SumReal([1.0]) + 1.0;
    assert [1.0, 1.0][..1] == [1.0];
    assert Total(node.children) == 2.0;
  }
}
