/** Angles, arcs and linear scales shared by the radial and axis charts.
    Angles are plain reals in radians; the cosine/sine endpoints of SVG
    paths are not modelled. */
module Geometry {

  /** `Math.PI`, the double nearest to the circle constant. */
  const Pi: real := 3.141592653589793

  /** The SVG large-arc flag of the arc-path helpers: 1 when the arc from
      `startAngle` to `endAngle` is longer than half a turn, else 0. */
  function LargeArcFlag(startAngle: real, endAngle: real): (f: int)
    ensures f == 0 || f == 1
  {
    if endAngle - startAngle > Pi then 1 else 0
  }

  /** Rotating both ends by the same angle (Sunburst and CircularProgress
      start at twelve o'clock, `- Math.PI / 2`) leaves the flag unchanged. */
  lemma LargeArcFlagShift(startAngle: real, endAngle: real, shift: real)
    ensures LargeArcFlag(startAngle + shift, endAngle + shift) == LargeArcFlag(startAngle, endAngle)
  {
  }

  /** The margins around a chart's plot area. */
  datatype Margin = Margin(top: real, right: real, bottom: real, left: real)

  /** The radial charts' radius: half the smaller of the plot area's
      width and height. */
  function PlotRadius(width: real, height: real, margin: Margin): (r: real)
    ensures 2.0 * r <= width - margin.left - margin.right
    ensures 2.0 * r <= height - margin.top - margin.bottom
    ensures 2.0 * r == width - margin.left - margin.right || 2.0 * r == height - margin.top - margin.bottom
  {
    var w, h := width - margin.left - margin.right, height - margin.top - margin.bottom;
    (if w < h then w else h) / 2.0
  }

  /** A `d3.scaleLinear()` with domain `[d0, d1]` and range `[r0, r1]`: linear
      interpolation, extended beyond the domain; a collapsed domain maps
      every input to the middle of the range. */
  function Linear(d0: real, d1: real, r0: real, r1: real, x: real): real
  {
    if d0 == d1 then (r0 + r1) / 2.0
    else r0 + (x - d0) / (d1 - d0) * (r1 - r0)
  }

  /** The ends of the domain go to the ends of the range. */
  lemma LinearEnds(d0: real, d1: real, r0: real, r1: real)
    requires d0 != d1
    ensures Linear(d0, d1, r0, r1, d0) == r0
    ensures Linear(d0, d1, r0, r1, d1) == r1
  {
    assert (d1 - d0) / (d1 - d0) == 1.0;
    assert (d0 - d0) / (d1 - d0) == 0.0;
  }

  /** On an increasing domain the scale keeps the order of its inputs when
      the range increases, and reverses it when the range decreases. */
  lemma LinearMonotone(d0: real, d1: real, r0: real, r1: real, x: real, x': real)
    requires d0 < d1 && x <= x'
    ensures r0 <= r1 ==> Linear(d0, d1, r0, r1, x) <= Linear(d0, d1, r0, r1, x')
    ensures r1 <= r0 ==> Linear(d0, d1, r0, r1, x') <= Linear(d0, d1, r0, r1, x)
  {
    var a, b := (x - d0) / (d1 - d0), (x' - d0) / (d1 - d0);
    assert b - a == (x' - x) / (d1 - d0);
    QuotientNonNegative(x' - x, d1 - d0);
    ScaleOrder(a, b, r1 - r0);
  }

  /** Inputs inside the domain land inside the range. */
  lemma LinearWithin(d0: real, d1: real, r0: real, r1: real, x: real)
    requires d0 < d1 && d0 <= x <= d1
    ensures r0 <= r1 ==> r0 <= Linear(d0, d1, r0, r1, x) <= r1
    ensures r1 <= r0 ==> r1 <= Linear(d0, d1, r0, r1, x) <= r0
  {
    LinearEnds(d0, d1, r0, r1);
    LinearMonotone(d0, d1, r0, r1, d0, x);
    LinearMonotone(d0, d1, r0, r1, x, d1);
  }

  lemma ScaleOrder(a: real, b: real, c: real)
    requires a <= b
    ensures c >= 0.0 ==> a * c <= b * c
    ensures c <= 0.0 ==> b * c <= a * c
  {
    assert (b - a) * c == b * c - a * c;
    if c >= 0.0 {
      assert (b - a) * c >= 0.0;
    } else {
      assert (b - a) * (-c) >= 0.0;
    }
  }

  lemma QuotientNonNegative(p: real, q: real)
    requires p >= 0.0 && q > 0.0
    ensures p / q >= 0.0
  {
    assert p / q * q == p;
  }

  lemma DivAdd(a: real, b: real, t: real)
    requires t != 0.0
    ensures a / t + b / t == (a + b) / t
  {
  }

  lemma Distribute(s: real, a: real, b: real)
    ensures s * (a + b) == s * a + s * b
  {
  }

  /** A fraction in `[0, 1]` of a non-negative length stays within it. */
  lemma FractionOf(s: real, a: real)
    requires s >= 0.0 && 0.0 <= a <= 1.0
    ensures 0.0 <= s * a <= s
  {
    ScaleOrder(a, 1.0, s);
    ScaleOrder(0.0, a, s);
  }
}
