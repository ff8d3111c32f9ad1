/** `TrendCard`: a headline value with a trend indicator (its direction by
    the sign of the trend, then the trend's magnitude) and a sparkline
    spread across a 100 × 30 box. */
module TrendCard {
  import Seqs
  import Text
  import Geometry

  /** `trendType`, also the indicator's and the sparkline's style class. */
  datatype TrendType = Positive | Negative | Neutral

  function TrendTypeOf(trend: real): TrendType
  {
    if trend > 0.0 then Positive else if trend < 0.0 then Negative else Neutral
  }

  /** The indicator: an arrow, then `Math.abs(trend)` percent. */
  datatype Indicator = Indicator(arrow: string, magnitude: real)

  function IndicatorOf(trend: real): Indicator
  {
    Indicator(if trend > 0.0 then "↑" else if trend < 0.0 then "↓" else "→",
              if trend < 0.0 then -trend else trend)
  }

  /** The arrow always agrees with the trend type, the magnitude is the
      trend's absolute value, and a trend and its negation show the same
      magnitude with the opposite arrow. */
  lemma IndicatorAgrees(trend: real)
    ensures IndicatorOf(trend).arrow == match TrendTypeOf(trend) case Positive => "↑" case Negative => "↓" case Neutral => "→"
    ensures IndicatorOf(trend).magnitude >= 0.0
    ensures IndicatorOf(trend).magnitude == 0.0 <==> TrendTypeOf(trend) == Neutral
    ensures IndicatorOf(-trend).magnitude == IndicatorOf(trend).magnitude
    ensures TrendTypeOf(trend) == Positive <==> TrendTypeOf(-trend) == Negative
  {
  }

  /** A sparkline point in the 100 × 30 box. */
  datatype SparkPoint = SparkPoint(x: real, y: real)

  /** Point `i`: spread evenly from 0 to 100 across, and from 30 (the
      smallest value) up to 5 (the largest). */
  function PointAt(v: real, i: nat, n: nat, min: real, max: real): SparkPoint
    requires n >= 2 && max != min
  {
    SparkPoint(i as real / (n - 1) as real * 100.0, 30.0 - (v - min) / (max - min) * 25.0)
  }

  /** The points of `generateSparkline`; one point or constant data would
      divide by zero. */
  function Sparkline(data: seq<real>): (ps: seq<SparkPoint>)
    requires |data| >= 2 && Seqs.MaxReal(data) != Seqs.MinReal(data)
    ensures |ps| == |data|
  {
    var min, max := Seqs.MinReal(data), Seqs.MaxReal(data);
    seq(|data|, i requires 0 <= i < |data| => PointAt(data[i], i, |data|, min, max))
  }

  /** Across: the first point at 0, the last at 100, and every next point
      the same distance further right. */
  lemma SparkAcross(data: seq<real>, i: nat)
    requires |data| >= 2 && Seqs.MaxReal(data) != Seqs.MinReal(data) && i + 1 < |data|
    ensures var ps := Sparkline(data);
            ps[0].x == 0.0 && ps[|data| - 1].x == 100.0
            && ps[i + 1].x == ps[i].x + 100.0 / (|data| - 1) as real
  {
    var m := (|data| - 1) as real;
    Across(i as real, m);
    assert 0.0 / m * 100.0 == 0.0;
  }

  lemma Across(a: real, m: real)
    requires m > 0.0
    ensures (a + 1.0) / m * 100.0 == a / m * 100.0 + 100.0 / m
    ensures m / m * 100.0 == 100.0
  {
    assert (a + 1.0) / m == a / m + 1.0 / m;
  }

  /** Up: every point lies between 5 and 30, the smallest values at 30 and
      the largest at 5, and a larger value never sits lower. */
  lemma SparkUp(data: seq<real>, i: nat, j: nat)
    requires |data| >= 2 && Seqs.MaxReal(data) != Seqs.MinReal(data) && i < |data| && j < |data|
    ensures var ps := Sparkline(data);
            5.0 <= ps[i].y <= 30.0
            && (data[i] == Seqs.MinReal(data) ==> ps[i].y == 30.0)
            && (data[i] == Seqs.MaxReal(data) ==> ps[i].y == 5.0)
            && (data[i] <= data[j] ==> ps[j].y <= ps[i].y)
  {
    var min, max := Seqs.MinReal(data), Seqs.MaxReal(data);
    Seqs.MinRealIsMin(data);
    Seqs.MaxRealIsMax(data);
    assert min <= data[0] <= max;
    Fraction(data[i] - min, max - min);
    Order(data[i] - min, data[j] - min, max - min);
  }

  lemma Fraction(p: real, d: real)
    requires d > 0.0 && 0.0 <= p <= d
    ensures 0.0 <= p / d * 25.0 <= 25.0
    ensures p == 0.0 ==> p / d == 0.0
    ensures p == d ==> p / d == 1.0
  {
    Geometry.QuotientNonNegative(p, d);
    var s := p / d;
    assert (s - 1.0) * d == p - d;
    assert s <= 1.0;
  }

  lemma Order(p: real, q: real, d: real)
    requires d > 0.0
    ensures p <= q ==> p / d * 25.0 <= q / d * 25.0
  {
    assert q / d - p / d == (q - p) / d;
    assert (q - p) / d * d == q - p;
  }

  /** The path: `M `, then the formatted points joined with ` L `. */
  function SparkPath(points: seq<string>): string
  {
    "M " + Text.Join(points, " L ")
  }

  /** The path starts with a move, and when the formatted points hold no
      `L` (numbers and a comma do not) there is one line-to per point after
      the first. */
  lemma {:induction false} SparkPathLines(points: seq<string>)
    requires points != []
    requires forall k :: 0 <= k < |points| ==> 'L' !in points[k]
    ensures SparkPath(points)[..2] == "M "
    ensures Seqs.Occurrences(Text.Join(points, " L "), 'L') == |points| - 1
  {
    Seqs.OccurrencesPositive(points[0], 'L');
    if |points| > 1 {
      SparkPathLines(points[1..]);
      var rest := Text.Join(points[1..], " L ");
      assert Text.Join(points, " L ") == points[0] + " L " + rest;
      Seqs.OccurrencesAppend(points[0] + " L ", rest, 'L');
      Seqs.OccurrencesAppend(points[0], " L ", 'L');
      assert Seqs.Occurrences(" L ", 'L') == 1 by {
        assert " L "[..2] == " L";
        assert " L"[..1] == " ";
        assert " "[..0] == "";
      }
    }
  }
}
