/** `SpiralPlot`: the data laid round a spiral, `cycles` points per turn;
    each turn sits further out, and each point further out still by its
    value. */
module SpiralPlot {
  import opened Options
  import opened Geometry
  import Seqs

  datatype Datum = Datum(name: string, value: real)

  /** A placed point: its datum, angle, distance from the centre, turn and
      place within the turn. */
  datatype Point = Point(datum: Datum, angle: real, radius: real, cycle: nat, cyclePosition: nat)

  function Values(data: seq<Datum>): seq<real>
  {
    seq(|data|, i requires 0 <= i < |data| => data[i].value)
  }

  /** The distance of turn `cycle` from the centre: `count / cycles` turns
      share the radius. */
  function SpiralRadius(cycle: nat, radius: real, count: nat, cycles: nat): real
    requires count > 0 && cycles > 0
  {
    (cycle + 1) as real * (radius / (count as real / cycles as real))
  }

  /** Point `i` of `count`: turn `i / cycles`, position `i % cycles`, and
      `2π / cycles` of angle per position. */
  function PointAt(d: Datum, i: nat, count: nat, cycles: nat, radius: real, top: real): Point
    requires count > 0 && cycles > 0
  {
    var cycle := i / cycles;
    var angle := (i % cycles) as real * (2.0 * Pi / cycles as real);
    var spiralRadius := SpiralRadius(cycle, radius, count, cycles);
    Point(d, angle, spiralRadius + Linear(0.0, top, 0.0, radius, d.value), cycle, i % cycles)
  }

  /** `computeLayout`. */
  function Layout(data: seq<Datum>, cycles: nat, width: real, height: real, margin: Margin): (ps: seq<Point>)
    requires cycles > 0
    ensures |ps| == |data|
  {
    if data == [] then []
    else
      var radius := PlotRadius(width, height, margin);
      var top := Seqs.MaxReal(Values(data));
      seq(|data|, i requires 0 <= i < |data| => PointAt(data[i], i, |data|, cycles, radius, top))
  }

  /** Point `i` is the datum's point, on the value scale from `[0, max]`
      to `[0, radius]`. */
  lemma LayoutAt(data: seq<Datum>, cycles: nat, width: real, height: real, margin: Margin, i: nat)
    requires cycles > 0 && i < |data|
    ensures Layout(data, cycles, width, height, margin)[i]
            == PointAt(data[i], i, |data|, cycles, PlotRadius(width, height, margin), Seqs.MaxReal(Values(data)))
  {
  }

  /** The turn and the position within it recover the index, the position
      is below `cycles`, and the point keeps its datum. */
  lemma CycleIndex(d: Datum, i: nat, count: nat, cycles: nat, radius: real, top: real)
    requires count > 0 && cycles > 0
    ensures var p := PointAt(d, i, count, cycles, radius, top);
            p.cycle * cycles + p.cyclePosition == i && p.cyclePosition < cycles && p.datum == d
  {
  }

  /** The angle lies in `[0, 2π)`. */
  lemma AngleInTurn(d: Datum, i: nat, count: nat, cycles: nat, radius: real, top: real)
    requires count > 0 && cycles > 0
    ensures var p := PointAt(d, i, count, cycles, radius, top);
            0.0 <= p.angle < 2.0 * Pi
  {
    var c := cycles as real;
    var k := (i % cycles) as real;
    var step := 2.0 * Pi / c;
    assert step * c == 2.0 * Pi;
    assert k <= c - 1.0;
    ScaleOrder(k, c - 1.0, step);
    assert (c - 1.0) * step == 2.0 * Pi - step;
  }

  /** Later points never sit on an earlier turn: with a non-negative
      radius the turn's distance does not decrease along the data. */
  lemma SpiralGrows(i: nat, j: nat, radius: real, count: nat, cycles: nat)
    requires count > 0 && cycles > 0 && i <= j && radius >= 0.0
    ensures i / cycles <= j / cycles
    ensures SpiralRadius(i / cycles, radius, count, cycles) <= SpiralRadius(j / cycles, radius, count, cycles)
  {
    DivMonotone(i, j, cycles);
    var q := count as real / cycles as real;
    QuotientNonNegative(count as real, cycles as real);
    assert q > 0.0 by {
      assert q * cycles as real == count as real;
    }
    QuotientNonNegative(radius, q);
    ScaleOrder((i / cycles + 1) as real, (j / cycles + 1) as real, radius / q);
  }

  lemma DivMonotone(i: nat, j: nat, c: nat)
    requires c > 0 && i <= j
    ensures i / c <= j / c
  {
    var a, b := i / c, j / c;
    assert a * c <= i;
    assert j < (b + 1) * c;
    if a > b {
      MulMonotone(b + 1, a, c);
    }
  }

  lemma MulMonotone(x: nat, y: nat, c: nat)
    requires x <= y
    ensures x * c <= y * c
  {
  }

  /** With a positive largest value, the value adds nothing at 0, the full
      radius at the largest value, and an amount in between for the values
      in between. */
  lemma ValueOffset(d: Datum, i: nat, count: nat, cycles: nat, radius: real, top: real)
    requires count > 0 && cycles > 0 && top > 0.0 && radius >= 0.0
    ensures var p := PointAt(d, i, count, cycles, radius, top);
            var s := SpiralRadius(i / cycles, radius, count, cycles);
            (d.value == 0.0 ==> p.radius == s)
            && (d.value == top ==> p.radius == s + radius)
            && (0.0 <= d.value <= top ==> s <= p.radius <= s + radius)
  {
    LinearEnds(0.0, top, 0.0, radius);
    if 0.0 <= d.value <= top {
      LinearWithin(0.0, top, 0.0, radius, d.value);
    }
  }

  /** `getPointColor`: the colour of the point's position, darkened when
      another turn is selected. */
  datatype Color = Color(base: Option<string>, darker: bool)

  function PointColor(p: Point, colors: seq<string>, selectedCycle: Option<nat>): (c: Color)
  {
    var base := if colors == [] then None else Some(colors[p.cyclePosition % |colors|]);
    Color(base, selectedCycle.Some? && p.cycle != selectedCycle.value)
  }

  /** Points in the same place of every turn share a colour, and only the
      selected turn keeps its plain colour once one is selected. */
  lemma ColorRule(p: Point, q: Point, colors: seq<string>, selectedCycle: Option<nat>)
    requires p.cyclePosition == q.cyclePosition
    ensures PointColor(p, colors, selectedCycle).base == PointColor(q, colors, selectedCycle).base
    ensures !PointColor(p, colors, selectedCycle).darker <==> selectedCycle.None? || p.cycle == selectedCycle.value
    ensures colors != [] ==> PointColor(p, colors, selectedCycle).base == Some(colors[p.cyclePosition % |colors|])
  {
  }
}
