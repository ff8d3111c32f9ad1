/** `NetworkGraph.jsx`: the hand-written force simulation. Initialisation
    places the nodes and zeroes their velocities; one `applyForces` step
    adds a repulsion between every ordered pair of distinct nodes and an
    attraction along every link, then damps the velocities, moves the nodes
    and clamps them into the drawing area. */
module NetworkGraph {
  import Seqs

  /** The simulated state of one node. */
  datatype Body = Body(x: real, y: real, vx: real, vy: real)

  /** A link between two node indices. */
  datatype Link = Link(source: nat, target: nat)

  /** `k * k` with `k = sqrt(width * height / nodes.length)`. With no node
      JavaScript's `k` is infinite, but then no pair is visited. */
  function KSquared(width: real, height: real, n: nat): real
  {
    if n == 0 then 0.0 else width * height / n as real
  }

  function Sq(d: real): real
  {
    d * d
  }

  /** The squared distance between two nodes, `dx * dx + dy * dy`. */
  function Dist2(a: Body, b: Body): real
  {
    Sq(b.x - a.x) + Sq(b.y - a.y)
  }

  /** `dx * force / distance` with `force = k * k / distance`, that is
      `dx * k² / (dx² + dy²)`, and likewise for `y`; nothing at distance 0. */
  function Impulse(dx: real, dy: real, k2: real): (f: (real, real))
    ensures dx == 0.0 && dy == 0.0 ==> f == (0.0, 0.0)
  {
    var d2 := Sq(dx) + Sq(dy);
    if d2 > 0.0 then (dx * k2 / d2, dy * k2 / d2) else (0.0, 0.0)
  }

  /** The impulse node `b` receives from node `a`, and `a` loses;
      coincident nodes exert nothing. */
  function Repulsion(a: Body, b: Body, k2: real): (f: (real, real))
    ensures (a.x == b.x && a.y == b.y) ==> f == (0.0, 0.0)
  {
    Impulse(b.x - a.x, b.y - a.y, k2)
  }

  /** Repulsion is antisymmetric: swapping the nodes negates the impulse. */
  lemma RepulsionAntisymmetric(a: Body, b: Body, k2: real)
    ensures Repulsion(b, a, k2) == (-Repulsion(a, b, k2).0, -Repulsion(a, b, k2).1)
  {
    ImpulseOdd(b.x - a.x, b.y - a.y, k2);
    assert a.x - b.x == -(b.x - a.x);
    assert a.y - b.y == -(b.y - a.y);
  }

  lemma ImpulseOdd(dx: real, dy: real, k2: real)
    ensures Impulse(-dx, -dy, k2) == (-Impulse(dx, dy, k2).0, -Impulse(dx, dy, k2).1)
  {
    NegatedSquare(dx);
    NegatedSquare(dy);
    var d2 := Sq(dx) + Sq(dy);
    if d2 > 0.0 {
      NegatedQuotient(dx, k2, d2);
      NegatedQuotient(dy, k2, d2);
    }
  }

  lemma NegatedSquare(d: real)
    ensures Sq(-d) == Sq(d)
  {
  }

  lemma NegatedQuotient(d: real, k2: real, d2: real)
    requires d2 != 0.0
    ensures (-d) * k2 / d2 == -(d * k2 / d2)
  {
  }

  /** Node `i` loses `(fx, fy)` of velocity and node `j` gains it. */
  function Exchange(s: seq<Body>, i: nat, j: nat, fx: real, fy: real): (r: seq<Body>)
    requires i < |s| && j < |s| && i != j
    ensures |r| == |s|
  {
    var s1 := s[i := s[i].(vx := s[i].vx - fx, vy := s[i].vy - fy)];
    s1[j := s1[j].(vx := s1[j].vx + fx, vy := s1[j].vy + fy)]
  }

  /** The visit of the ordered pair `(i, j)`. */
  function Pair(s: seq<Body>, k2: real, i: nat, j: nat): (r: seq<Body>)
    requires i < |s| && j < |s|
    ensures |r| == |s|
  {
    if i != j && Dist2(s[i], s[j]) > 0.0 then
      var f := Repulsion(s[i], s[j], k2);
      Exchange(s, i, j, f.0, f.1)
    else s
  }

  /** Row `i` of the repulsion loops, up to (not including) column `j`. */
  function RepelRow(s: seq<Body>, k2: real, i: nat, j: nat): (r: seq<Body>)
    requires i < |s| && j <= |s|
    ensures |r| == |s|
  {
    if j == 0 then s else Pair(RepelRow(s, k2, i, j - 1), k2, i, j - 1)
  }

  /** The first `i` rows of the repulsion loops. */
  function RepelAll(s: seq<Body>, k2: real, i: nat): (r: seq<Body>)
    requires i <= |s|
    ensures |r| == |s|
  {
    if i == 0 then s else RepelRow(RepelAll(s, k2, i - 1), k2, i - 1, |s|)
  }

  /** The attraction along one link: `force = distance * 0.1`, so the
      source gains `0.1 * (dx, dy)` and the target loses it; nothing when
      the two ends coincide. */
  function Attract(s: seq<Body>, l: Link): (r: seq<Body>)
    requires l.source < |s| && l.target < |s|
    ensures |r| == |s|
  {
    var a, b := s[l.source], s[l.target];
    var dx, dy := b.x - a.x, b.y - a.y;
    if Sq(dx) + Sq(dy) > 0.0 then
      var s1 := s[l.source := a.(vx := a.vx + dx * 0.1, vy := a.vy + dy * 0.1)];
      s1[l.target := s1[l.target].(vx := s1[l.target].vx - dx * 0.1, vy := s1[l.target].vy - dy * 0.1)]
    else s
  }

  predicate LinksIn(links: seq<Link>, n: nat)
  {
    forall l :: l in links ==> l.source < n && l.target < n
  }

  /** The first `m` links' attractions, in order. */
  function AttractAll(s: seq<Body>, links: seq<Link>, m: nat): (r: seq<Body>)
    requires m <= |links| && LinksIn(links, |s|)
    ensures |r| == |s|
  {
    if m == 0 then s else Attract(AttractAll(s, links, m - 1), links[m - 1])
  }

  /** `Math.max(lo, Math.min(hi, v))`. */
  function Clamp(v: real, lo: real, hi: real): (r: real)
    ensures lo <= hi ==> lo <= r <= hi
    ensures lo <= v <= hi ==> r == v
  {
    if v < hi then (if lo < v then v else lo) else (if lo < hi then hi else lo)
  }

  /** Damping by 0.9, the move, and the clamp to the area inset by 30. */
  function Settle(b: Body, width: real, height: real): Body
  {
    var vx, vy := b.vx * 0.9, b.vy * 0.9;
    Body(Clamp(b.x + vx, 30.0, width - 30.0), Clamp(b.y + vy, 30.0, height - 30.0), vx, vy)
  }

  /** The first `m` nodes settled. */
  function SettleAll(s: seq<Body>, width: real, height: real, m: nat): (r: seq<Body>)
    requires m <= |s|
    ensures |r| == |s|
  {
    seq(|s|, i requires 0 <= i < |s| => if i < m then Settle(s[i], width, height) else s[i])
  }

  /** The forces of one step, before damping. */
  function Forces(s: seq<Body>, links: seq<Link>, width: real, height: real): (r: seq<Body>)
    requires LinksIn(links, |s|)
    ensures |r| == |s|
  {
    AttractAll(RepelAll(s, KSquared(width, height, |s|), |s|), links, |links|)
  }

  /** One whole `applyForces` step. */
  function Step(s: seq<Body>, links: seq<Link>, width: real, height: real): (r: seq<Body>)
    requires LinksIn(links, |s|)
    ensures |r| == |s|
  {
    SettleAll(Forces(s, links, width, height), width, height, |s|)
  }

  /** `steps` calls of `applyForces`, as the animation frames run them. */
  function Steps(s: seq<Body>, links: seq<Link>, width: real, height: real, steps: nat): (r: seq<Body>)
    requires LinksIn(links, |s|)
    ensures |r| == |s|
  {
    if steps == 0 then s else Step(Steps(s, links, width, height, steps - 1), links, width, height)
  }

  // ------------------------------------------------------------ properties

  function Vxs(s: seq<Body>): (v: seq<real>)
    ensures |v| == |s|
  {
    seq(|s|, i requires 0 <= i < |s| => s[i].vx)
  }

  function Vys(s: seq<Body>): (v: seq<real>)
    ensures |v| == |s|
  {
    seq(|s|, i requires 0 <= i < |s| => s[i].vy)
  }

  /** The total momentum `(Σ vx, Σ vy)` of the nodes (all of mass 1). */
  function Momentum(s: seq<Body>): (real, real)
  {
    (Seqs.SumReal(Vxs(s)), Seqs.SumReal(Vys(s)))
  }

  /** Changing one node's velocity changes the momentum by the difference. */
  lemma MomentumUpdate(s: seq<Body>, i: nat, b: Body)
    requires i < |s|
    ensures Momentum(s[i := b]) == (Momentum(s).0 - s[i].vx + b.vx, Momentum(s).1 - s[i].vy + b.vy)
  {
    assert Vxs(s[i := b]) == Vxs(s)[i := b.vx];
    assert Vys(s[i := b]) == Vys(s)[i := b.vy];
    Seqs.SumRealUpdate(Vxs(s), i, b.vx);
    Seqs.SumRealUpdate(Vys(s), i, b.vy);
  }

  /** What one node loses the other gains. */
  lemma ExchangeConserves(s: seq<Body>, i: nat, j: nat, fx: real, fy: real)
    requires i < |s| && j < |s| && i != j
    ensures Momentum(Exchange(s, i, j, fx, fy)) == Momentum(s)
  {
    var s1 := s[i := s[i].(vx := s[i].vx - fx, vy := s[i].vy - fy)];
    MomentumUpdate(s, i, s1[i]);
    MomentumUpdate(s1, j, s1[j].(vx := s1[j].vx + fx, vy := s1[j].vy + fy));
  }

  lemma {:induction false} RepelRowConserves(s: seq<Body>, k2: real, i: nat, j: nat)
    requires i < |s| && j <= |s|
    ensures Momentum(RepelRow(s, k2, i, j)) == Momentum(s)
  {
    if j > 0 {
      RepelRowConserves(s, k2, i, j - 1);
      var r := RepelRow(s, k2, i, j - 1);
      if i != j - 1 && Dist2(r[i], r[j - 1]) > 0.0 {
        var f := Repulsion(r[i], r[j - 1], k2);
        ExchangeConserves(r, i, j - 1, f.0, f.1);
      }
    }
  }

  lemma {:induction false} RepelAllConserves(s: seq<Body>, k2: real, i: nat)
    requires i <= |s|
    ensures Momentum(RepelAll(s, k2, i)) == Momentum(s)
  {
    if i > 0 {
      RepelAllConserves(s, k2, i - 1);
      RepelRowConserves(RepelAll(s, k2, i - 1), k2, i - 1, |s|);
    }
  }

  /** The attraction along a link moves `0.1 * (dx, dy)` of velocity from
      the target to the source; every other node is unchanged. */
  lemma AttractEffect(s: seq<Body>, l: Link)
    requires l.source < |s| && l.target < |s| && l.source != l.target
    ensures var r := Attract(s, l);
            var dx, dy := s[l.target].x - s[l.source].x, s[l.target].y - s[l.source].y;
            var moved := Dist2(s[l.source], s[l.target]) > 0.0;
            r[l.source].vx == s[l.source].vx + (if moved then dx * 0.1 else 0.0)
            && r[l.source].vy == s[l.source].vy + (if moved then dy * 0.1 else 0.0)
            && r[l.target].vx == s[l.target].vx - (if moved then dx * 0.1 else 0.0)
            && r[l.target].vy == s[l.target].vy - (if moved then dy * 0.1 else 0.0)
            && forall m :: 0 <= m < |s| && m != l.source && m != l.target ==> r[m] == s[m]
  {
  }

  lemma AttractConserves(s: seq<Body>, l: Link)
    requires l.source < |s| && l.target < |s|
    ensures Momentum(Attract(s, l)) == Momentum(s)
  {
    var a, b := s[l.source], s[l.target];
    var dx, dy := b.x - a.x, b.y - a.y;
    if Sq(dx) + Sq(dy) > 0.0 {
      assert l.source != l.target;
      var s1 := s[l.source := a.(vx := a.vx + dx * 0.1, vy := a.vy + dy * 0.1)];
      MomentumUpdate(s, l.source, s1[l.source]);
      MomentumUpdate(s1, l.target, s1[l.target].(vx := s1[l.target].vx - dx * 0.1, vy := s1[l.target].vy - dy * 0.1));
    }
  }

  lemma {:induction false} AttractAllConserves(s: seq<Body>, links: seq<Link>, m: nat)
    requires m <= |links| && LinksIn(links, |s|)
    ensures Momentum(AttractAll(s, links, m)) == Momentum(s)
  {
    if m > 0 {
      AttractAllConserves(s, links, m - 1);
      AttractConserves(AttractAll(s, links, m - 1), links[m - 1]);
    }
  }

  /** The force phase leaves the total momentum unchanged. */
  lemma ForcesConserve(s: seq<Body>, links: seq<Link>, width: real, height: real)
    requires LinksIn(links, |s|)
    ensures Momentum(Forces(s, links, width, height)) == Momentum(s)
  {
    var k2 := KSquared(width, height, |s|);
    RepelAllConserves(s, k2, |s|);
    AttractAllConserves(RepelAll(s, k2, |s|), links, |links|);
  }

  /** Damping scales the momentum by 0.9 (clamping moves positions only). */
  lemma StepDampsMomentum(s: seq<Body>, links: seq<Link>, width: real, height: real)
    requires LinksIn(links, |s|)
    ensures Momentum(Step(s, links, width, height)) == (0.9 * Momentum(s).0, 0.9 * Momentum(s).1)
  {
    var f := Forces(s, links, width, height);
    var r := Step(s, links, width, height);
    ForcesConserve(s, links, width, height);
    Seqs.SumRealScale(Vxs(f), Vxs(r), 0.9);
    Seqs.SumRealScale(Vys(f), Vys(r), 0.9);
  }

  /** Nodes that start at rest, as the constructor sets them, keep a total
      momentum of zero after any number of steps. */
  lemma {:induction false} RestStaysBalanced(s: seq<Body>, links: seq<Link>, width: real, height: real, steps: nat)
    requires LinksIn(links, |s|) && Momentum(s) == (0.0, 0.0)
    ensures Momentum(Steps(s, links, width, height, steps)) == (0.0, 0.0)
  {
    if steps > 0 {
      RestStaysBalanced(s, links, width, height, steps - 1);
      StepDampsMomentum(Steps(s, links, width, height, steps - 1), links, width, height);
    }
  }

  /** Only velocities change in the force phase: every node is still where
      it started. */
  predicate SamePlaces(s: seq<Body>, r: seq<Body>)
  {
    |s| == |r| && forall i :: 0 <= i < |s| ==> r[i].x == s[i].x && r[i].y == s[i].y
  }

  lemma {:induction false} RepelKeepsPlaces(s: seq<Body>, k2: real, i: nat, j: nat)
    requires i < |s| && j <= |s|
    ensures SamePlaces(s, RepelRow(s, k2, i, j))
  {
    if j > 0 {
      RepelKeepsPlaces(s, k2, i, j - 1);
    }
  }

  lemma {:induction false} RepelAllKeepsPlaces(s: seq<Body>, k2: real, i: nat)
    requires i <= |s|
    ensures SamePlaces(s, RepelAll(s, k2, i))
  {
    if i > 0 {
      RepelAllKeepsPlaces(s, k2, i - 1);
      RepelKeepsPlaces(RepelAll(s, k2, i - 1), k2, i - 1, |s|);
    }
  }

  lemma {:induction false} AttractKeepsPlaces(s: seq<Body>, links: seq<Link>, m: nat)
    requires m <= |links| && LinksIn(links, |s|)
    ensures SamePlaces(s, AttractAll(s, links, m))
  {
    if m > 0 {
      AttractKeepsPlaces(s, links, m - 1);
    }
  }

  /** One step: each velocity is the force phase's velocity times 0.9, each
      node moves by its new velocity from where it started and is clamped to
      `[30, width - 30] × [30, height - 30]`, which holds it whenever the
      area is at least 60 by 60. */
  lemma StepMoves(s: seq<Body>, links: seq<Link>, width: real, height: real, i: nat)
    requires LinksIn(links, |s|) && i < |s|
    ensures var f := Forces(s, links, width, height)[i];
            var r := Step(s, links, width, height)[i];
            r.vx == f.vx * 0.9 && r.vy == f.vy * 0.9
            && r.x == Clamp(s[i].x + r.vx, 30.0, width - 30.0)
            && r.y == Clamp(s[i].y + r.vy, 30.0, height - 30.0)
            && (width >= 60.0 ==> 30.0 <= r.x <= width - 30.0)
            && (height >= 60.0 ==> 30.0 <= r.y <= height - 30.0)
  {
    var k2 := KSquared(width, height, |s|);
    RepelAllKeepsPlaces(s, k2, |s|);
    AttractKeepsPlaces(RepelAll(s, k2, |s|), links, |links|);
  }

  /** With two nodes the loops visit `(0, 1)` and then `(1, 0)`; the
      visits of a node to itself do nothing. */
  lemma TwoNodeVisits(s: seq<Body>, k2: real)
    requires |s| == 2
    ensures RepelAll(s, k2, 2) == Pair(Pair(s, k2, 0, 1), k2, 1, 0)
  {
    assert RepelAll(s, k2, 1) == RepelRow(s, k2, 0, 2);
    assert RepelRow(s, k2, 0, 1) == s;
    var row0 := Pair(s, k2, 0, 1);
    assert RepelRow(row0, k2, 1, 1) == Pair(row0, k2, 1, 0);
  }

  /** Each unordered pair is visited twice: with two nodes apart, the first
      loses twice the impulse it would lose from a single visit, and the
      second gains twice that. */
  lemma PairVisitedTwice(s: seq<Body>, k2: real)
    requires |s| == 2 && Dist2(s[0], s[1]) > 0.0
    ensures var f := Repulsion(s[0], s[1], k2);
            var r := RepelAll(s, k2, 2);
            r[0].vx == s[0].vx - 2.0 * f.0 && r[0].vy == s[0].vy - 2.0 * f.1
            && r[1].vx == s[1].vx + 2.0 * f.0 && r[1].vy == s[1].vy + 2.0 * f.1
  {
    TwoNodeVisits(s, k2);
    var f := Repulsion(s[0], s[1], k2);
    var row0 := Exchange(s, 0, 1, f.0, f.1);
    assert Pair(s, k2, 0, 1) == row0;
    assert row0[0].x == s[0].x && row0[0].y == s[0].y;
    assert row0[1].x == s[1].x && row0[1].y == s[1].y;
    RepulsionAntisymmetric(s[0], s[1], k2);
    assert Repulsion(row0[1], row0[0], k2) == (-f.0, -f.1);
    NegatedSquare(s[1].x - s[0].x);
    NegatedSquare(s[1].y - s[0].y);
    assert s[0].x - s[1].x == -(s[1].x - s[0].x) && s[0].y - s[1].y == -(s[1].y - s[0].y);
    assert Dist2(row0[1], row0[0]) > 0.0;
    assert Pair(row0, k2, 1, 0) == Exchange(row0, 1, 0, -f.0, -f.1);
  }

  /** The simulation: the node array, whose entries the step updates in
      place, and the links. */
  class Simulation {
    const nodes: array<Body>
    const links: seq<Link>
    const width: real
    const height: real

    predicate Valid()
    {
      LinksIn(links, nodes.Length)
    }

    /** Initialisation: each node at its (random) start position with zero
        velocity. */
    constructor (positions: seq<(real, real)>, links: seq<Link>, width: real, height: real)
      requires LinksIn(links, |positions|)
      ensures Valid() && this.links == links && this.width == width && this.height == height
      ensures nodes.Length == |positions| && fresh(nodes)
      ensures forall i :: 0 <= i < |positions| ==>
                nodes[i] == Body(positions[i].0, positions[i].1, 0.0, 0.0)
    {
      this.links := links;
      this.width := width;
      this.height := height;
      nodes := new Body[|positions|](i requires 0 <= i < |positions| => Body(positions[i].0, positions[i].1, 0.0, 0.0));
    }

    /** `applyForces`. */
    method ApplyForces()
      requires Valid()
      modifies nodes
      ensures nodes[..] == Step(old(nodes[..]), links, width, height)
    {
      var n := nodes.Length;
      var k2 := KSquared(width, height, n);
      ghost var s := old(nodes[..]);
      var i := 0;
      while i < n
        invariant 0 <= i <= n
        invariant nodes[..] == RepelAll(s, k2, i)
      {
        ghost var row := nodes[..];
        var j := 0;
        while j < n
          invariant 0 <= j <= n
          invariant nodes[..] == RepelRow(row, k2, i, j)
        {
          VisitPair(i, j, k2);
          j := j + 1;
        }
        i := i + 1;
      }
      ghost var repelled := nodes[..];
      var m := 0;
      while m < |links|
        invariant 0 <= m <= |links|
        invariant nodes[..] == AttractAll(repelled, links, m)
      {
        PullLink(links[m]);
        m := m + 1;
      }
      ghost var pulled := nodes[..];
      m := 0;
      while m < n
        invariant 0 <= m <= n
        invariant nodes[..] == SettleAll(pulled, width, height, m)
      {
        nodes[m] := Settle(nodes[m], width, height);
        m := m + 1;
      }
    }

    /** The inner body of the repulsion loops for `node1 = i`, `node2 = j`. */
    method VisitPair(i: nat, j: nat, k2: real)
      requires i < nodes.Length && j < nodes.Length
      modifies nodes
      ensures nodes[..] == Pair(old(nodes[..]), k2, i, j)
    {
      if i != j {
        var a, b := nodes[i], nodes[j];
        var dx, dy := b.x - a.x, b.y - a.y;
        if Sq(dx) + Sq(dy) > 0.0 {
          var f := Impulse(dx, dy, k2);
          nodes[i] := a.(vx := a.vx - f.0, vy := a.vy - f.1);
          nodes[j] := b.(vx := b.vx + f.0, vy := b.vy + f.1);
        }
      }
    }

    /** The body of the link loop. */
    method PullLink(l: Link)
      requires l.source < nodes.Length && l.target < nodes.Length
      modifies nodes
      ensures nodes[..] == Attract(old(nodes[..]), l)
    {
      var source, target := nodes[l.source], nodes[l.target];
      var dx, dy := target.x - source.x, target.y - source.y;
      if Sq(dx) + Sq(dy) > 0.0 {
        nodes[l.source] := source.(vx := source.vx + dx * 0.1, vy := source.vy + dy * 0.1);
        var t := nodes[l.target];
        nodes[l.target] := t.(vx := t.vx - dx * 0.1, vy := t.vy - dy * 0.1);
        ghost var s := old(nodes[..]);
        ghost var s1 := s[l.source := source.(vx := source.vx + dx * 0.1, vy := source.vy + dy * 0.1)];
        assert nodes[..] == s1[l.target := s1[l.target].(vx := s1[l.target].vx - dx * 0.1, vy := s1[l.target].vy - dy * 0.1)];
      }
    }
  }
}
