/** `PolarArea`: equal-angle wedges around a centre, one per datum, each
    reaching out from a fixed inner radius to a radius set by its value. */
module PolarArea {
  import opened Options
  import opened Geometry
  import Seqs

  datatype Datum = Datum(name: string, value: real)

  /** A computed wedge: the datum's fields plus its angles, radii and
      colour (`undefined` when no colours are given). */
  datatype Segment = Segment(datum: Datum, startAngle: real, endAngle: real,
                             innerRadius: real, outerRadius: real, color: Option<string>)

  function Values(data: seq<Datum>): seq<real>
  {
    seq(|data|, i requires 0 <= i < |data| => data[i].value)
  }

  /** The wedge angle scale: `[0, n]` onto `[0, 2π]`. */
  function Angle(n: nat, i: real): real
    requires n > 0
  {
    Linear(0.0, n as real, 0.0, 2.0 * Pi, i)
  }

  /** `colors[i % colors.length]`. */
  function ColorAt(colors: seq<string>, i: nat): Option<string>
  {
    if colors == [] then None else Some(colors[i % |colors|])
  }

  /** The outer radii: each value on the scale from `[0, top]` to
      `[innerRadius, radius]`. */
  function Radii(values: seq<real>, top: real, innerRadius: real, radius: real): (rs: seq<real>)
    ensures |rs| == |values|
  {
    if values == [] then []
    else Radii(values[..|values| - 1], top, innerRadius, radius) + [Linear(0.0, top, innerRadius, radius, values[|values| - 1])]
  }

  lemma {:induction false} RadiiAt(values: seq<real>, top: real, innerRadius: real, radius: real, i: nat)
    requires i < |values|
    ensures Radii(values, top, innerRadius, radius)[i] == Linear(0.0, top, innerRadius, radius, values[i])
  {
    if i < |values| - 1 {
      RadiiAt(values[..|values| - 1], top, innerRadius, radius, i);
    }
  }

  /** `computeLayout`: wedge `i` spans `[angle(i), angle(i + 1)]` and its
      outer radius is the value on the scale from `[0, max]` to
      `[innerRadius, radius]`. */
  function Layout(data: seq<Datum>, colors: seq<string>, width: real, height: real,
                  innerRadius: real, margin: Margin): (segs: seq<Segment>)
    ensures |segs| == |data|
  {
    if data == [] then []
    else
      var radii := Radii(Values(data), Seqs.MaxReal(Values(data)), innerRadius, PlotRadius(width, height, margin));
      var n := |data|;
      seq(n, i requires 0 <= i < n =>
        Segment(data[i], Angle(n, i as real), Angle(n, (i + 1) as real), innerRadius, radii[i], ColorAt(colors, i)))
  }

  /** Each wedge keeps its datum and the given inner radius and takes the
      colours in turn. */
  lemma LayoutKeeps(data: seq<Datum>, colors: seq<string>, width: real, height: real,
                    innerRadius: real, margin: Margin)
    ensures var segs := Layout(data, colors, width, height, innerRadius, margin);
            forall i :: 0 <= i < |data| ==>
              segs[i].datum == data[i] && segs[i].innerRadius == innerRadius
              && segs[i].color == (if colors == [] then None else Some(colors[i % |colors|]))
  {
  }

  /** One wedge's angle, `2π / n`. */
  function Step(n: nat): real
    requires n > 0
  {
    2.0 * Pi / n as real
  }

  /** Wedges `i` steps in and one step wide, following one another
      without gaps from 0 round to 2π. */
  predicate EvenlySpread(segs: seq<Segment>, n: nat)
    requires n > 0
  {
    && |segs| == n
    && (forall i :: 0 <= i < n ==>
          segs[i].startAngle == i as real * Step(n) && segs[i].endAngle == segs[i].startAngle + Step(n))
    && (forall i :: 0 < i < n ==> segs[i].startAngle == segs[i - 1].endAngle)
    && segs[0].startAngle == 0.0 && segs[n - 1].endAngle == 2.0 * Pi
  }

  /** Wedges placed by the angle scale at `i` and `i + 1`. */
  predicate ScalePlaced(segs: seq<Segment>, n: nat)
    requires n > 0
  {
    |segs| == n
    && forall i :: 0 <= i < n ==>
         segs[i].startAngle == Angle(n, i as real) && segs[i].endAngle == Angle(n, (i + 1) as real)
  }

  /** The wedges have equal angles, follow one another without gaps, and
      together go once round from 0 to 2π. */
  lemma WedgeAngles(data: seq<Datum>, colors: seq<string>, width: real, height: real,
                    innerRadius: real, margin: Margin)
    requires data != []
    ensures EvenlySpread(Layout(data, colors, width, height, innerRadius, margin), |data|)
  {
    LayoutAngles(data, colors, width, height, innerRadius, margin);
    EvenWedges(Layout(data, colors, width, height, innerRadius, margin), |data|);
  }

  lemma LayoutAngles(data: seq<Datum>, colors: seq<string>, width: real, height: real,
                     innerRadius: real, margin: Margin)
    requires data != []
    ensures ScalePlaced(Layout(data, colors, width, height, innerRadius, margin), |data|)
  {
  }

  /** The angle scale spreads wedges evenly. */
  lemma EvenWedges(segs: seq<Segment>, n: nat)
    requires n > 0 && ScalePlaced(segs, n)
    ensures EvenlySpread(segs, n)
  {
    forall i | 0 <= i < n
      ensures segs[i].startAngle == i as real * Step(n) && segs[i].endAngle == segs[i].startAngle + Step(n)
    {
      Steps(n, i);
    }
    AngleAt(n, n);
    FullTurn(n);
  }

  /** Angles `i` and `i + 1` are `i` steps and one step further. */
  lemma Steps(n: nat, i: nat)
    requires n > 0
    ensures Angle(n, i as real) == i as real * Step(n)
    ensures Angle(n, (i + 1) as real) == Angle(n, i as real) + Step(n)
  {
    AngleAt(n, i);
    AngleAt(n, i + 1);
    NextStep(i, Step(n));
  }

  lemma NextStep(i: nat, step: real)
    ensures (i + 1) as real * step == i as real * step + step
  {
  }

  /** The angle scale puts `i` at `i` steps. */
  lemma AngleAt(n: nat, i: nat)
    requires n > 0
    ensures Angle(n, i as real) == i as real * Step(n)
  {
    var m := n as real;
    assert Angle(n, i as real) == i as real / m * (2.0 * Pi);
    DivSwap(i as real, 2.0 * Pi, m);
  }

  lemma DivSwap(a: real, c: real, m: real)
    requires m != 0.0
    ensures a / m * c == a * (c / m)
  {
    assert a / m * m == a;
    assert c / m * m == c;
    assert a / m * c * m == a * (c / m) * m;
  }

  lemma FullTurn(n: nat)
    requires n > 0
    ensures n as real * Step(n) == 2.0 * Pi
  {
    var m := n as real;
    assert (2.0 * Pi / m) * m == 2.0 * Pi;
  }

  /** With a positive largest value: a zero value reaches only the inner
      radius, the largest value reaches the full radius, and every value
      between lands between them, larger values further out. */
  lemma OuterRadii(data: seq<Datum>, colors: seq<string>, width: real, height: real,
                   innerRadius: real, margin: Margin, i: nat, j: nat)
    requires i < |data| && j < |data| && Seqs.MaxReal(Values(data)) > 0.0
    requires innerRadius <= PlotRadius(width, height, margin)
    ensures var segs := Layout(data, colors, width, height, innerRadius, margin);
            var top := Seqs.MaxReal(Values(data));
            (data[i].value == 0.0 ==> segs[i].outerRadius == innerRadius)
            && (data[i].value == top ==> segs[i].outerRadius == PlotRadius(width, height, margin))
            && (data[i].value >= 0.0 ==> innerRadius <= segs[i].outerRadius <= PlotRadius(width, height, margin))
            && (data[i].value <= data[j].value ==> segs[i].outerRadius <= segs[j].outerRadius)
  {
    var top := Seqs.MaxReal(Values(data));
    var radius := PlotRadius(width, height, margin);
    Seqs.MaxRealIsMax(Values(data));
    assert Values(data)[i] == data[i].value;
    RadiiAt(Values(data), top, innerRadius, radius, i);
    RadiiAt(Values(data), top, innerRadius, radius, j);
    LinearEnds(0.0, top, innerRadius, radius);
    if data[i].value >= 0.0 {
      LinearWithin(0.0, top, innerRadius, radius, data[i].value);
    }
    if data[i].value <= data[j].value {
      LinearMonotone(0.0, top, innerRadius, radius, data[i].value, data[j].value);
    }
  }

  /** The axis line and the label both stand at the wedge's middle angle,
      which lies strictly inside the wedge. */
  function MidAngle(s: Segment): real
  {
    (s.startAngle + s.endAngle) / 2.0
  }

  /** `createAxisPath`'s length: 20 beyond the wedge. */
  function AxisLength(s: Segment): real
  {
    s.outerRadius + 20.0
  }

  /** `getLabelPosition`'s radius: 30 beyond the wedge. */
  function LabelRadius(s: Segment): real
  {
    s.outerRadius + 30.0
  }

  /** The label sits 10 beyond the axis' end, and both point at the middle
      of wedge `i`, half a step past its start. */
  lemma AxisAndLabel(data: seq<Datum>, colors: seq<string>, width: real, height: real,
                     innerRadius: real, margin: Margin, i: nat)
    requires i < |data|
    ensures var s := Layout(data, colors, width, height, innerRadius, margin)[i];
            LabelRadius(s) == AxisLength(s) + 10.0
            && MidAngle(s) == (i as real + 0.5) * Step(|data|)
            && s.startAngle < MidAngle(s) < s.endAngle
  {
    WedgeAngles(data, colors, width, height, innerRadius, margin);
    var segs := Layout(data, colors, width, height, innerRadius, margin);
    assert segs[i].startAngle == i as real * Step(|data|);
    var step := Step(|data|);
    assert step > 0.0;
    assert (i as real * step + (i as real * step + step)) / 2.0 == (i as real + 0.5) * step;
  }
}
