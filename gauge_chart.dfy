/** `GaugeChart`: a half-dial whose value arc sweeps the value's share of
    `[min, max]` as 0 to 180 degrees, coloured by the first threshold the
    share does not exceed, with a legend of the threshold bands. */
module GaugeChart {
  import opened Options
  import opened Text

  /** A colour band, up to `value` percent. */
  datatype Threshold = Threshold(value: int, color: string)

  /** The default bands. */
  const DefaultThresholds: seq<Threshold> :=
    [Threshold(33, "#ef4444"), Threshold(66, "#f59e0b"), Threshold(100, "#10b981")]

  /** `percentage`: the value's share of `[min, max]`, in percent. */
  function Percentage(value: real, min: real, max: real): real
    requires max != min
  {
    (value - min) / (max - min) * 100.0
  }

  /** `rotation`: the share as degrees of the half-turn. */
  function Rotation(percentage: real): real
  {
    percentage * 180.0 / 100.0
  }

  /** The dial turns from 0 degrees at `min` to 180 at `max`, staying in
      `[0, 180]` in between and turning further for larger values. */
  lemma RotationBounds(value: real, value': real, min: real, max: real)
    requires min < max
    ensures Rotation(Percentage(min, min, max)) == 0.0
    ensures Rotation(Percentage(max, min, max)) == 180.0
    ensures min <= value <= max ==> 0.0 <= Rotation(Percentage(value, min, max)) <= 180.0
    ensures value <= value' ==> Rotation(Percentage(value, min, max)) <= Rotation(Percentage(value', min, max))
  {
    var d := max - min;
    assert (max - min) / d == 1.0;
    assert (min - min) / d == 0.0;
    if value <= value' {
      QuotientGrows(value - min, value' - min, d);
    }
    if min <= value <= max {
      QuotientGrows(0.0, value - min, d);
      QuotientGrows(value - min, max - min, d);
    }
  }

  /** Dividing by a positive number keeps order. */
  lemma QuotientGrows(a: real, b: real, d: real)
    requires 0.0 < d && a <= b
    ensures a / d <= b / d
  {
    assert b / d - a / d == (b - a) / d by {
      assert (b / d - a / d) * d == b - a;
    }
    assert (b - a) / d * d == b - a;
  }

  /** The index `thresholds.find(t => x <= t.value)` picks, if any. */
  function FirstAtLeast(thresholds: seq<Threshold>, x: real): (r: Option<nat>)
    ensures r.Some? ==> r.value < |thresholds| && x <= thresholds[r.value].value as real
    ensures r.Some? ==> forall j :: 0 <= j < r.value ==> x > thresholds[j].value as real
    ensures r.None? ==> forall j :: 0 <= j < |thresholds| ==> x > thresholds[j].value as real
  {
    if thresholds == [] then None
    else if x <= thresholds[0].value as real then Some(0)
    else
      match FirstAtLeast(thresholds[1..], x)
      case None => None
      case Some(i) => Some(i + 1)
  }

  /** `getColor(x)`: the colour of the first threshold not below `x`, else
      the last threshold's. */
  function GetColor(thresholds: seq<Threshold>, x: real): string
    requires thresholds != []
  {
    match FirstAtLeast(thresholds, x)
    case Some(i) => thresholds[i].color
    case None => thresholds[|thresholds| - 1].color
  }

  /** With ascending thresholds, a share in band `i` (above threshold
      `i - 1`, at most threshold `i`) takes colour `i`, and a share above
      every threshold takes the last colour. */
  lemma ColorBands(thresholds: seq<Threshold>, x: real, i: nat)
    requires thresholds != [] && i < |thresholds|
    requires forall a, b :: 0 <= a < b < |thresholds| ==> thresholds[a].value < thresholds[b].value
    ensures (i == 0 || thresholds[i - 1].value as real < x) && x <= thresholds[i].value as real ==>
              GetColor(thresholds, x) == thresholds[i].color
    ensures x > thresholds[|thresholds| - 1].value as real ==>
              GetColor(thresholds, x) == thresholds[|thresholds| - 1].color
  {
    var r := FirstAtLeast(thresholds, x);
    if (i == 0 || thresholds[i - 1].value as real < x) && x <= thresholds[i].value as real {
      assert r.Some?;
    }
  }

  /** The value arc's stroke: `getColor(percentage)`. */
  function Stroke(thresholds: seq<Threshold>, value: real, min: real, max: real): string
    requires thresholds != [] && max != min
  {
    GetColor(thresholds, Percentage(value, min, max))
  }

  /** With the default bands, the dial's low end is red, its high end green,
      and its middle amber. */
  lemma DefaultStroke(min: real, max: real)
    requires min < max
    ensures Stroke(DefaultThresholds, min, min, max) == "#ef4444"
    ensures Stroke(DefaultThresholds, (min + max) / 2.0, min, max) == "#f59e0b"
    ensures Stroke(DefaultThresholds, max, min, max) == "#10b981"
  {
    RotationBounds(min, max, min, max);
    var d := max - min;
    assert ((min + max) / 2.0 - min) / d == 0.5 by {
      assert (min + max) / 2.0 - min == d / 2.0;
    }
    ColorBands(DefaultThresholds, Percentage(min, min, max), 0);
    ColorBands(DefaultThresholds, Percentage((min + max) / 2.0, min, max), 1);
    ColorBands(DefaultThresholds, Percentage(max, min, max), 2);
  }

  /** The SVG large-arc flag of the value arc. */
  function LargeArc(rotation: real): (f: int)
  {
    if rotation > 90.0 then 1 else 0
  }

  /** The value arc's end x: from 20 at no rotation to 180 at a half-turn. */
  function EndX(rotation: real): real
  {
    20.0 + 160.0 * (rotation / 180.0)
  }

  /** The rotation is the value's share of `[min, max]` of 180 degrees. */
  lemma RotationShare(value: real, min: real, max: real)
    requires max != min
    ensures Rotation(Percentage(value, min, max)) == (value - min) / (max - min) * 180.0
  {
  }

  /** The flag is set exactly past a quarter-turn, which with the dial
      running over `[min, max]` is past the middle value. */
  lemma ArcFlag(value: real, min: real, max: real)
    requires min < max
    ensures LargeArc(Rotation(Percentage(value, min, max))) == 1 <==> value > (min + max) / 2.0
  {
    RotationShare(value, min, max);
    HalfShare(value - min, max - min);
  }

  /** A share is over a half exactly when the part is over half the whole. */
  lemma HalfShare(p: real, d: real)
    requires d > 0.0
    ensures p / d > 0.5 <==> p > d / 2.0
  {
    var s := p / d;
    assert (s - 0.5) * d == p - d / 2.0;
  }

  /** The end x stays on the dial's width, from 20 at `min` to 180 at
      `max`, and moves right with the value. */
  lemma ArcEndX(value: real, value': real, min: real, max: real)
    requires min < max
    ensures min <= value <= max ==> 20.0 <= EndX(Rotation(Percentage(value, min, max))) <= 180.0
    ensures EndX(Rotation(Percentage(min, min, max))) == 20.0
    ensures EndX(Rotation(Percentage(max, min, max))) == 180.0
    ensures value <= value' ==> EndX(Rotation(Percentage(value, min, max))) <= EndX(Rotation(Percentage(value', min, max)))
  {
    RotationBounds(value, value', min, max);
    RotationBounds(min, max, min, max);
  }

  /** Legend label `i`: the band from the previous threshold (0 for the
      first) to this one, in percent. */
  function LegendLabel(thresholds: seq<Threshold>, i: nat): string
    requires i < |thresholds|
  {
    (if i == 0 then "0" else IntToString(thresholds[i - 1].value)) + "-" + IntToString(thresholds[i].value) + "%"
  }

  /** With non-negative thresholds, each label reads back as its band: the
      part before the `%` splits at the `-` into the band's two ends. */
  lemma LegendBands(thresholds: seq<Threshold>, i: nat)
    requires i < |thresholds|
    requires forall j :: 0 <= j < |thresholds| ==> thresholds[j].value >= 0
    ensures var l := LegendLabel(thresholds, i);
            var lo := if i == 0 then 0 else thresholds[i - 1].value;
            l[|l| - 1] == '%'
            && var parts := Split(l[..|l| - 1], '-');
            |parts| == 2 && ParseInt(parts[0]) == Some(lo) && ParseInt(parts[1]) == Some(thresholds[i].value)
  {
    var lo := if i == 0 then 0 else thresholds[i - 1].value;
    var a, b := NatToString(lo), NatToString(thresholds[i].value);
    assert a == (if i == 0 then "0" else IntToString(thresholds[i - 1].value));
    var l := LegendLabel(thresholds, i);
    assert l[..|l| - 1] == Join([a, b], "-");
    assert '-' !in a && '-' !in b by {
      assert forall k :: 0 <= k < |a| ==> IsDigit(a[k]);
      assert forall k :: 0 <= k < |b| ==> IsDigit(b[k]);
    }
    SplitJoin([a, b], '-');
    ParseIntOfNatToString(lo);
    ParseIntOfNatToString(thresholds[i].value);
  }
}
