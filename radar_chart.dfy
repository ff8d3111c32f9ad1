/** `RadarChart`: one axis per category spread evenly round the centre,
    starting straight up; each series is a closed polygon whose vertex on
    axis `k` lies at the value's share of `maxValue` along the 80-unit
    radius. Points are kept in polar form (angle, distance from the
    centre); the cosine/sine coordinates are not modelled. */
module RadarChart {
  import opened Geometry

  /** The chart's radius in viewBox units. */
  const Radius := 80.0

  /** A point as the angle of its axis and its distance from the centre. */
  datatype Polar = Polar(angle: real, distance: real)

  /** `angleStep`: a full turn shared among `n` axes. */
  function AngleStep(n: nat): real
    requires n > 0
  {
    2.0 * Pi / n as real
  }

  /** `getPoint(value, index)` for `n` categories. */
  function GetPoint(value: real, index: nat, n: nat, maxValue: real): Polar
    requires n > 0 && maxValue != 0.0
  {
    Polar(index as real * AngleStep(n) - Pi / 2.0, value / maxValue * Radius)
  }

  /** Axis 0 points straight up, each next axis is one step further round,
      and `n` steps make a full turn. */
  lemma AxisAngles(value: real, value': real, index: nat, n: nat, maxValue: real)
    requires n > 0 && maxValue != 0.0
    ensures GetPoint(value, 0, n, maxValue).angle == -Pi / 2.0
    ensures GetPoint(value', index + 1, n, maxValue).angle == GetPoint(value, index, n, maxValue).angle + AngleStep(n)
    ensures GetPoint(value, n, n, maxValue).angle == -Pi / 2.0 + 2.0 * Pi
  {
    var s := AngleStep(n);
    assert (index + 1) as real * s == index as real * s + s;
    assert s * n as real == 2.0 * Pi;
  }

  /** A value sits at its share of `maxValue` along the radius: 0 at the
      centre, `maxValue` on the rim, `s · maxValue` at `s` of the radius;
      with a positive `maxValue` larger values lie further out, and values
      from 0 to `maxValue` stay within the rim. */
  lemma PointDistance(value: real, value': real, index: nat, n: nat, maxValue: real, s: real)
    requires n > 0 && maxValue != 0.0
    ensures GetPoint(0.0, index, n, maxValue).distance == 0.0
    ensures GetPoint(maxValue, index, n, maxValue).distance == Radius
    ensures GetPoint(maxValue * s, index, n, maxValue).distance == s * Radius
    ensures maxValue > 0.0 && value <= value' ==>
              GetPoint(value, index, n, maxValue).distance <= GetPoint(value', index, n, maxValue).distance
    ensures maxValue > 0.0 && 0.0 <= value <= maxValue ==>
              0.0 <= GetPoint(value, index, n, maxValue).distance <= Radius
  {
    assert maxValue * s / maxValue == s;
    if maxValue > 0.0 {
      if value <= value' {
        Share(value, value', maxValue);
      }
      if 0.0 <= value <= maxValue {
        Share(0.0, value, maxValue);
        Share(value, maxValue, maxValue);
        assert 0.0 / maxValue * Radius == 0.0;
        assert maxValue / maxValue == 1.0;
      }
    }
  }

  lemma Share(a: real, b: real, m: real)
    requires m > 0.0 && a <= b
    ensures a / m * Radius <= b / m * Radius
  {
    assert b / m - a / m == (b - a) / m;
    QuotientNonNegative(b - a, m);
    ScaleOrder(a / m, b / m, Radius);
  }

  /** An SVG path command with the point it goes to. */
  datatype Command = MoveTo(p: Polar) | LineTo(p: Polar) | Close

  /** The `reduce` in `createPath`, over the values so far. */
  function Trace(values: seq<real>, n: nat, maxValue: real): (cs: seq<Command>)
    requires n > 0 && maxValue != 0.0
    ensures |cs| == |values|
  {
    if values == [] then []
    else
      var k := |values| - 1;
      var p := GetPoint(values[k], k, n, maxValue);
      Trace(values[..k], n, maxValue) + [if k == 0 then MoveTo(p) else LineTo(p)]
  }

  /** `createPath(values)`: the traced points, closed with `Z`. */
  function CreatePath(values: seq<real>, n: nat, maxValue: real): (cs: seq<Command>)
    requires n > 0 && maxValue != 0.0
  {
    Trace(values, n, maxValue) + [Close]
  }

  /** The path has one command per value and a closing `Z`: it moves to
      the first value's point and draws a line to each later one, on the
      value's own axis. */
  lemma {:induction false} PathShape(values: seq<real>, n: nat, maxValue: real)
    requires n > 0 && maxValue != 0.0
    ensures var cs := CreatePath(values, n, maxValue);
            |cs| == |values| + 1 && cs[|values|] == Close
            && (forall k :: 0 <= k < |values| ==>
                  cs[k] == if k == 0 then MoveTo(GetPoint(values[k], k, n, maxValue))
                           else LineTo(GetPoint(values[k], k, n, maxValue)))
  {
    if values != [] {
      var k := |values| - 1;
      PathShape(values[..k], n, maxValue);
      assert forall j :: 0 <= j < k ==> values[..k][j] == values[j];
    }
  }

  /** The background rings' fractions of `maxValue`. */
  const GridScales: seq<real> := [0.2, 0.4, 0.6, 0.8, 1.0]

  /** One background ring: a vertex on every axis at `scale · maxValue`. */
  function Ring(scale: real, n: nat, maxValue: real): (ring: seq<Polar>)
    requires n > 0 && maxValue != 0.0
    ensures |ring| == n
  {
    seq(n, k requires 0 <= k < n => GetPoint(maxValue * scale, k, n, maxValue))
  }

  /** Ring `i`'s opacity. */
  function RingOpacity(i: nat): real
  {
    0.1 + i as real * 0.1
  }

  /** The axis lines' outer ends. */
  function AxisEnds(n: nat, maxValue: real): (ends: seq<Polar>)
    requires n > 0 && maxValue != 0.0
    ensures |ends| == n
  {
    seq(n, k requires 0 <= k < n => GetPoint(maxValue, k, n, maxValue))
  }

  /** The category labels' positions. */
  function LabelPoints(n: nat, maxValue: real): (ps: seq<Polar>)
    requires n > 0 && maxValue != 0.0
    ensures |ps| == n
  {
    seq(n, k requires 0 <= k < n => GetPoint(maxValue * 1.2, k, n, maxValue))
  }

  /** Ring `i` runs through every axis at `(i + 1) / 5` of the radius and
      the rings grow fainter inwards; the outer ring meets the axis ends on
      the rim, and each label stands on its axis a fifth of the radius
      beyond the rim. */
  lemma GridAndLabels(n: nat, maxValue: real, i: nat, k: nat)
    requires n > 0 && maxValue != 0.0 && i < |GridScales| && k < n
    ensures Ring(GridScales[i], n, maxValue)[k].distance == (i + 1) as real * 16.0
    ensures Ring(GridScales[i], n, maxValue)[k].angle == AxisEnds(n, maxValue)[k].angle
    ensures 0.1 <= RingOpacity(i) <= 0.5
    ensures Ring(GridScales[4], n, maxValue) == AxisEnds(n, maxValue)
    ensures AxisEnds(n, maxValue)[k].distance == Radius
    ensures LabelPoints(n, maxValue)[k] == Polar(AxisEnds(n, maxValue)[k].angle, Radius + 16.0)
  {
    PointDistance(0.0, 0.0, k, n, maxValue, GridScales[i]);
    PointDistance(0.0, 0.0, k, n, maxValue, 1.2);
    assert maxValue * 1.0 == maxValue;
  }
}
