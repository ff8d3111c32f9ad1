/** `BubbleChart`: one bubble per record in an 800 × 400 box, placed by
    two numeric fields on linear scales over the data's own extent (40 units
    of padding on every side, y upwards) and sized by a third field from 10
    to 50. */
module BubbleChart {
  import Seqs
  import Geometry

  /** A record: its numeric fields by name. */
  type Item = map<string, real>

  /** An axis prop: the field it plots and the extent its labels show. */
  datatype Axis = Axis(key: string, min: real, max: real)

  const Padding := 40.0

  /** The field `key` of every record. */
  function Column(data: seq<Item>, key: string): seq<real>
    requires forall d :: d in data ==> key in d
  {
    seq(|data|, i requires 0 <= i < |data| => data[i][key])
  }

  /** A value's share of `[lo, hi]`. */
  function Share(value: real, lo: real, hi: real): real
    requires lo != hi
  {
    (value - lo) / (hi - lo)
  }

  /** The share is 0 at `lo` and 1 at `hi`, keeps the order of values, and
      stays in `[0, 1]` between the ends. */
  lemma ShareBounds(value: real, value': real, lo: real, hi: real)
    requires lo < hi
    ensures Share(lo, lo, hi) == 0.0 && Share(hi, lo, hi) == 1.0
    ensures value <= value' ==> Share(value, lo, hi) <= Share(value', lo, hi)
    ensures lo <= value <= hi ==> 0.0 <= Share(value, lo, hi) <= 1.0
  {
    var d := hi - lo;
    assert d / d == 1.0;
    if value <= value' {
      assert Share(value', lo, hi) - Share(value, lo, hi) == (value' - value) / d;
      Geometry.QuotientNonNegative(value' - value, d);
    }
    if lo <= value <= hi {
      Geometry.QuotientNonNegative(value - lo, d);
      var s := Share(value, lo, hi);
      assert (s - 1.0) * d == value - hi;
    }
  }

  /** `xScale` over the extent `[lo, hi]` of the x field. */
  function XScale(value: real, lo: real, hi: real): real
    requires lo != hi
  {
    Share(value, lo, hi) * (800.0 - Padding * 2.0) + Padding
  }

  /** `yScale` over the extent `[lo, hi]` of the y field, upwards. */
  function YScale(value: real, lo: real, hi: real): real
    requires lo != hi
  {
    400.0 - (Share(value, lo, hi) * (400.0 - Padding * 2.0) + Padding)
  }

  /** `getBubbleSize` over the extent `[lo, hi]` of the size field. */
  function BubbleSize(value: real, lo: real, hi: real): real
    requires lo != hi
  {
    Share(value, lo, hi) * (50.0 - 10.0) + 10.0
  }

  /** x runs from 40 at the smallest value to 760 at the largest, y from
      360 down to 40, and the radius from 10 to 50; x and the radius grow
      with the value and y shrinks, and values inside the extent stay inside
      these bounds. */
  lemma Scales(value: real, value': real, lo: real, hi: real)
    requires lo < hi
    ensures XScale(lo, lo, hi) == 40.0 && XScale(hi, lo, hi) == 760.0
    ensures YScale(lo, lo, hi) == 360.0 && YScale(hi, lo, hi) == 40.0
    ensures BubbleSize(lo, lo, hi) == 10.0 && BubbleSize(hi, lo, hi) == 50.0
    ensures value <= value' ==>
              XScale(value, lo, hi) <= XScale(value', lo, hi)
              && YScale(value', lo, hi) <= YScale(value, lo, hi)
              && BubbleSize(value, lo, hi) <= BubbleSize(value', lo, hi)
    ensures lo <= value <= hi ==>
              40.0 <= XScale(value, lo, hi) <= 760.0
              && 40.0 <= YScale(value, lo, hi) <= 360.0
              && 10.0 <= BubbleSize(value, lo, hi) <= 50.0
  {
    ShareBounds(value, value', lo, hi);
  }

  /** A drawn bubble: centre and radius. */
  datatype Bubble = Bubble(cx: real, cy: real, r: real)

  /** The fields a chart reads are present in every record, and each spans
      more than one value (`Math.min`/`Math.max` of the column differ). */
  predicate Plottable(data: seq<Item>, xKey: string, yKey: string, sizeKey: string)
  {
    data != []
    && (forall d :: d in data ==> xKey in d && yKey in d && sizeKey in d)
    && Seqs.MinReal(Column(data, xKey)) != Seqs.MaxReal(Column(data, xKey))
    && Seqs.MinReal(Column(data, yKey)) != Seqs.MaxReal(Column(data, yKey))
    && Seqs.MinReal(Column(data, sizeKey)) != Seqs.MaxReal(Column(data, sizeKey))
  }

  /** The bubbles, one per record. */
  function Bubbles(data: seq<Item>, xKey: string, yKey: string, sizeKey: string): (bs: seq<Bubble>)
    requires Plottable(data, xKey, yKey, sizeKey)
    ensures |bs| == |data|
  {
    var xs, ys, ss := Column(data, xKey), Column(data, yKey), Column(data, sizeKey);
    seq(|data|, i requires 0 <= i < |data| =>
      Bubble(XScale(xs[i], Seqs.MinReal(xs), Seqs.MaxReal(xs)),
             YScale(ys[i], Seqs.MinReal(ys), Seqs.MaxReal(ys)),
             BubbleSize(ss[i], Seqs.MinReal(ss), Seqs.MaxReal(ss))))
  }

  /** Every bubble is centred inside the padded plot area with a radius
      from 10 to 50; the records with the smallest and largest x sit on the
      left and right edges. */
  lemma BubblesInside(data: seq<Item>, xKey: string, yKey: string, sizeKey: string, i: nat)
    requires Plottable(data, xKey, yKey, sizeKey) && i < |data|
    ensures var b := Bubbles(data, xKey, yKey, sizeKey)[i];
            var xs := Column(data, xKey);
            40.0 <= b.cx <= 760.0 && 40.0 <= b.cy <= 360.0 && 10.0 <= b.r <= 50.0
            && (data[i][xKey] == Seqs.MinReal(xs) ==> b.cx == 40.0)
            && (data[i][xKey] == Seqs.MaxReal(xs) ==> b.cx == 760.0)
  {
    var xs, ys, ss := Column(data, xKey), Column(data, yKey), Column(data, sizeKey);
    InExtent(xs, i);
    InExtent(ys, i);
    InExtent(ss, i);
    Scales(xs[i], xs[i], Seqs.MinReal(xs), Seqs.MaxReal(xs));
    Scales(ys[i], ys[i], Seqs.MinReal(ys), Seqs.MaxReal(ys));
    Scales(ss[i], ss[i], Seqs.MinReal(ss), Seqs.MaxReal(ss));
  }

  /** A column's values lie within its extent. */
  lemma InExtent(col: seq<real>, i: nat)
    requires i < |col|
    ensures Seqs.MinReal(col) <= col[i] <= Seqs.MaxReal(col)
  {
    Seqs.MinRealIsMin(col);
    Seqs.MaxRealIsMax(col);
  }

  /** Axis label `i` of six: `min + i · (max − min) / 5`. */
  function AxisLabel(axis: Axis, i: nat): real
  {
    axis.min + i as real * (axis.max - axis.min) / 5.0
  }

  /** The labels run from the axis' `min` to its `max` in five equal
      steps; when the axis extent is the data's, label `i` of the x axis
      falls at its drawn position `40 + 144 i` and of the y axis at
      `360 − 64 i`. */
  lemma AxisLabels(axis: Axis, i: nat)
    requires axis.min != axis.max
    ensures AxisLabel(axis, 0) == axis.min && AxisLabel(axis, 5) == axis.max
    ensures AxisLabel(axis, i + 1) - AxisLabel(axis, i) == (axis.max - axis.min) / 5.0
    ensures XScale(AxisLabel(axis, i), axis.min, axis.max) == 40.0 + i as real * 144.0
    ensures YScale(AxisLabel(axis, i), axis.min, axis.max) == 360.0 - i as real * 64.0
  {
    var d := axis.max - axis.min;
    var x := i as real / 5.0;
    var p := AxisLabel(axis, i) - axis.min;
    assert p == x * d;
    Cancel(x, d);
    assert Share(AxisLabel(axis, i), axis.min, axis.max) == p / d;
  }

  lemma Cancel(x: real, d: real)
    requires d != 0.0
    ensures x * d / d == x
  {
  }
}
