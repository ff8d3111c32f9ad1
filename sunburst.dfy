/** The sunburst of `Sunburst.jsx`: `calculateLayout` lays the children of
    one node around the circle, one ring per level, and recurses into every
    child that has children; each call hands its own list to `setPaths`.
    Clicking a path walks the `parent` links up to the root to build the
    breadcrumbs. */
module Sunburst {
  import opened Options
  import opened Geometry

  /** A hierarchy node. `id` stands for the node's identity, which the
      `parent` links refer to. */
  datatype Node = Node(id: nat, name: string, value: real, children: Children)

  /** A node's `children` property: absent, or an array, which is truthy
      even when it is empty. */
  datatype Children = Absent | Present(nodes: seq<Node>)

  /** `minAngle`: the narrowest span a path gets. */
  const MinAngle: real := 0.005

  /** One ring segment, as pushed onto `newPaths`. */
  datatype Path = Path(
    startAngle: real,
    endAngle: real,
    innerRadius: real,
    outerRadius: real,
    value: real,
    data: Node,
    level: nat)

  /** A node can be laid out when every node with a child to place has a
      non-zero value to divide the circle by. */
  predicate Divisible(node: Node)
    decreases node
  {
    match node.children
    case Absent => true
    case Present(children) =>
      (children != [] ==> node.value != 0.0)
      && forall child :: child in children ==> Divisible(child)
  }

  /** `angleRatio`: the angle per unit of value when `total` fills the circle. */
  function AngleRatio(total: real): real
    requires total != 0.0
  {
    2.0 * Pi / total
  }

  /** `Math.max(child.value * angleRatio, minAngle)`: the proportional span,
      raised to the floor. */
  function Span(value: real, angleRatio: real): (s: real)
    ensures s >= MinAngle && s >= Proportional(value, angleRatio)
    ensures s == Proportional(value, angleRatio) || s == MinAngle
  {
    if Proportional(value, angleRatio) > MinAngle then Proportional(value, angleRatio) else MinAngle
  }

  /** `child.value * angleRatio`: the span before the floor. */
  function Proportional(value: real, angleRatio: real): real
  {
    value * angleRatio
  }

  /** `radius / 10`: the width of one ring. */
  function RingWidth(radius: real): real
  {
    radius / 10.0
  }

  /** The path `processNode` builds for `child` starting at `start`. */
  function PathOf(child: Node, start: real, angleRatio: real, level: nat, radius: real): Path
  {
    Path(start, start + Span(child.value, angleRatio),
      level as real * RingWidth(radius), (level + 1) as real * RingWidth(radius),
      child.value, child, level)
  }

  /** The paths of `children`, each starting where the previous one ended. */
  function Siblings(children: seq<Node>, start: real, angleRatio: real, level: nat, radius: real): (ps: seq<Path>)
    ensures |ps| == |children|
  {
    if children == [] then []
    else
      var p := PathOf(children[0], start, angleRatio, level, radius);
      [p] + Siblings(children[1..], p.endAngle, angleRatio, level, radius)
  }

  /** The list `calculateLayout(node, startAngle, _, level)` hands to
      `setPaths`: the paths of the node's own children, and nothing from the
      recursive calls. */
  function Layout(node: Node, startAngle: real, level: nat, radius: real): seq<Path>
    requires Divisible(node)
  {
    match node.children
    case Absent => []
    case Present(children) =>
      if children == [] then [] else Siblings(children, startAngle, AngleRatio(node.value), level, radius)
  }

  /** The shape of one call's list: one path per child, in order, on ring
      `level`, the first at `start`, each next one where the previous ended,
      each spanning its floored proportional angle. */
  predicate Laid(ps: seq<Path>, children: seq<Node>, start: real, angleRatio: real, level: nat, radius: real)
  {
    |ps| == |children|
    && (ps != [] ==> ps[0].startAngle == start)
    && (forall i :: 0 < i < |ps| ==> ps[i].startAngle == ps[i - 1].endAngle)
    && (forall i :: 0 <= i < |ps| ==>
          ps[i].endAngle == ps[i].startAngle + Span(children[i].value, angleRatio)
          && ps[i].data == children[i] && ps[i].value == children[i].value && ps[i].level == level
          && ps[i].innerRadius == level as real * (radius / 10.0)
          && ps[i].outerRadius == (level + 1) as real * (radius / 10.0))
  }

  lemma {:induction false} SiblingsLaid(children: seq<Node>, start: real, angleRatio: real, level: nat, radius: real)
    ensures Laid(Siblings(children, start, angleRatio, level, radius), children, start, angleRatio, level, radius)
  {
    if children != [] {
      var p := PathOf(children[0], start, angleRatio, level, radius);
      SiblingsLaid(children[1..], p.endAngle, angleRatio, level, radius);
    }
  }

  /** Every path of one call is on that call's ring, spans at least
      `minAngle`, and the paths are contiguous from `startAngle`. */
  lemma LayoutLaid(node: Node, startAngle: real, level: nat, radius: real)
    requires Divisible(node) && node.children.Present? && node.children.nodes != []
    ensures Laid(Layout(node, startAngle, level, radius), node.children.nodes, startAngle,
                 AngleRatio(node.value), level, radius)
    ensures forall p :: p in Layout(node, startAngle, level, radius) ==>
              p.level == level && p.endAngle - p.startAngle >= MinAngle
  {
    SiblingsLaid(node.children.nodes, startAngle, AngleRatio(node.value), level, radius);
  }

  /** The values of `children`, added up. */
  function SumValues(children: seq<Node>): real
  {
    if children == [] then 0.0 else children[0].value + SumValues(children[1..])
  }

  /** With no span raised to the floor, the siblings end at `start` plus
      their total value times the ratio. */
  lemma {:induction false} SiblingsEnd(children: seq<Node>, start: real, angleRatio: real, level: nat, radius: real)
    requires children != []
    requires forall child :: child in children ==> Proportional(child.value, angleRatio) >= MinAngle
    ensures Siblings(children, start, angleRatio, level, radius)[|children| - 1].endAngle
            == start + Proportional(SumValues(children), angleRatio)
  {
    var p := PathOf(children[0], start, angleRatio, level, radius);
    assert children[0] in children;
    assert p.endAngle == start + Proportional(children[0].value, angleRatio);
    var rest := children[1..];
    if rest == [] {
      assert SumValues(children) == children[0].value;
    } else {
      forall child | child in rest
        ensures Proportional(child.value, angleRatio) >= MinAngle
      {
        assert child in children;
      }
      SiblingsEnd(rest, p.endAngle, angleRatio, level, radius);
      ProportionalAdd(children[0].value, SumValues(rest), angleRatio);
    }
  }

  /** If no span is raised to the floor and the children's values add up to
      the node's value, the siblings close the circle. */
  lemma SiblingsCloseCircle(node: Node, startAngle: real, level: nat, radius: real)
    requires Divisible(node) && node.children.Present? && node.children.nodes != []
    requires SumValues(node.children.nodes) == node.value
    requires forall child :: child in node.children.nodes ==> Proportional(child.value, AngleRatio(node.value)) >= MinAngle
    ensures var ps := Layout(node, startAngle, level, radius);
            ps[|ps| - 1].endAngle == startAngle + 2.0 * Pi
  {
    var children := node.children.nodes;
    SiblingsEnd(children, startAngle, AngleRatio(node.value), level, radius);
    SiblingsLaid(children, startAngle, AngleRatio(node.value), level, radius);
    WholeRatio(node.value);
  }

  lemma ProportionalAdd(a: real, b: real, angleRatio: real)
    ensures Proportional(a + b, angleRatio) == Proportional(a, angleRatio) + Proportional(b, angleRatio)
  {
  }

  lemma WholeRatio(total: real)
    requires total != 0.0
    ensures Proportional(total, AngleRatio(total)) == 2.0 * Pi
  {
  }

  /** The recursive call divides the full circle by the child's own value,
      starting from the child's start angle, so a grandchild can reach past
      the end of its parent's span: here the first child spans half a turn
      and its only child a whole turn. */
  lemma GrandchildEscapes(radius: real)
    ensures var b := Node(2, "b", 1.0, Absent);
            var a := Node(1, "a", 1.0, Present([b]));
            var root := Node(0, "root", 2.0, Present([a, Node(3, "c", 1.0, Absent)]));
            Divisible(root)
            && Layout(root, 0.0, 0, radius)[0].endAngle == Pi
            && Layout(a, 0.0, 1, radius)[0].endAngle == 2.0 * Pi
            && Layout(a, 0.0, 1, radius)[0].endAngle > Layout(root, 0.0, 0, radius)[0].endAngle
  {
    var b := Node(2, "b", 1.0, Absent);
    var a := Node(1, "a", 1.0, Present([b]));
    var c := Node(3, "c", 1.0, Absent);
    var root := Node(0, "root", 2.0, Present([a, c]));
    assert Divisible(b) && Divisible(c);
    assert forall child :: child in [b] ==> child == b;
    assert Divisible(a);
    assert forall child :: child in [a, c] ==> child == a || child == c;
    assert Proportional(1.0, AngleRatio(2.0)) == Pi;
    assert Proportional(1.0, AngleRatio(1.0)) == 2.0 * Pi;
  }

  /** `createArcPath` turns both angles back by a quarter turn before taking
      the flag; the rotation cancels, so the flag is 1 exactly when the path
      spans more than half a turn. */
  function ArcFlag(p: Path): (f: int)
    ensures f == 0 || f == 1
    ensures f == 1 <==> p.endAngle - p.startAngle > Pi
  {
    LargeArcFlag(p.startAngle - Pi / 2.0, p.endAngle - Pi / 2.0)
  }

  // ------------------------------------------------------------ breadcrumbs

  /** The `parent` links as a map from a node's id to its parent's id, with a
      depth that strictly falls along every link, so the walk ends. */
  ghost predicate Ranked(parent: map<nat, nat>, depth: map<nat, nat>)
  {
    forall n :: n in parent ==> n in depth && parent[n] in depth && depth[parent[n]] < depth[n]
  }

  /** The ancestors of `n`, root first, ending at `n`. */
  ghost function Chain(parent: map<nat, nat>, depth: map<nat, nat>, n: nat): seq<nat>
    requires Ranked(parent, depth) && (n in parent ==> n in depth)
    decreases if n in depth then depth[n] else 0
  {
    if n in parent then Chain(parent, depth, parent[n]) + [n] else [n]
  }

  /** The chain ends at `n`, starts at a node without a parent, and each
      entry is the parent of the next. */
  lemma {:induction false} ChainShape(parent: map<nat, nat>, depth: map<nat, nat>, n: nat)
    requires Ranked(parent, depth) && (n in parent ==> n in depth)
    ensures var c := Chain(parent, depth, n);
            c != [] && c[|c| - 1] == n && c[0] !in parent
            && forall i :: 0 < i < |c| ==> c[i] in parent && parent[c[i]] == c[i - 1]
    decreases if n in depth then depth[n] else 0
  {
    if n in parent {
      ChainShape(parent, depth, parent[n]);
    }
  }

  // ------------------------------------------------------------ the component

  /** The component's state: the paths last handed to `setPaths` and the
      breadcrumbs. */
  class SunburstChart {
    /** `Math.min(width, height) / 2`. */
    const radius: real
    var paths: seq<Path>
    var breadcrumbs: seq<nat>

    constructor (width: real, height: real)
      ensures radius == (if width < height then width else height) / 2.0
      ensures paths == [] && breadcrumbs == []
    {
      radius := (if width < height then width else height) / 2.0;
      paths := [];
      breadcrumbs := [];
    }

    /** `calculateLayout(node, startAngle, _, level)`: lay out the children,
        recursing into those that have children, then `setPaths`. Every
        recursive call sets the paths before the caller does, so the state
        ends with the caller's own list. */
    method CalculateLayout(node: Node, startAngle: real, level: nat)
      requires Divisible(node)
      modifies this
      ensures paths == Layout(node, startAngle, level, radius)
      ensures breadcrumbs == old(breadcrumbs)
      decreases node
    {
      var newPaths := [];
      var currentAngle := startAngle;
      if node.children.Present? && node.children.nodes != [] {
        var children := node.children.nodes;
        var angleRatio := 2.0 * Pi / node.value;
        for i := 0 to |children|
          invariant breadcrumbs == old(breadcrumbs)
          invariant newPaths + Siblings(children[i..], currentAngle, angleRatio, level, radius)
                    == Siblings(children, startAngle, angleRatio, level, radius)
        {
          var child := children[i];
          assert children[i..] == [child] + children[i + 1..];
          var angle := Span(child.value, angleRatio);
          var path := Path(currentAngle, currentAngle + angle,
            level as real * (radius / 10.0), (level + 1) as real * (radius / 10.0),
            child.value, child, level);
          assert path == PathOf(child, currentAngle, angleRatio, level, radius);
          assert Siblings(children[i..], currentAngle, angleRatio, level, radius)
                 == [path] + Siblings(children[i + 1..], currentAngle + angle, angleRatio, level, radius);
          newPaths := newPaths + [path];
          if child.children.Present? {
            assert child in children;
            CalculateLayout(child, currentAngle, level + 1);
          }
          currentAngle := currentAngle + angle;
        }
      }
      paths := newPaths;
    }

    /** `handlePathClick`: prepend each node while walking the `parent`
        links up from the clicked one. */
    method HandlePathClick(parent: map<nat, nat>, ghost depth: map<nat, nat>, clicked: nat)
      requires Ranked(parent, depth) && (clicked in parent ==> clicked in depth)
      modifies this
      ensures breadcrumbs == Chain(parent, depth, clicked)
      ensures paths == old(paths)
    {
      var newBreadcrumbs := [];
      var current := Some(clicked);
      while current.Some?
        invariant current.Some? ==> (current.value in parent ==> current.value in depth)
        invariant current.Some? ==> Chain(parent, depth, clicked) == Chain(parent, depth, current.value) + newBreadcrumbs
        invariant current.None? ==> newBreadcrumbs == Chain(parent, depth, clicked)
        decreases match current case None => 0 case Some(c) => if c in depth then depth[c] + 1 else 1
      {
        var c := current.value;
        newBreadcrumbs := [c] + newBreadcrumbs;
        current := if c in parent then Some(parent[c]) else None;
      }
      breadcrumbs := newBreadcrumbs;
    }
  }
}
