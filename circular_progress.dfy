/** `CircularProgress`: a ring split into one coloured segment per item,
    each segment's angle its share of the total, growing from nothing to its
    full share over a one-second animation. */
module CircularProgress {
  import opened Options
  import opened Geometry
  import opened JsMath
  import Seqs

  datatype Item = Item(value: real, color: string)

  /** An item with the value it shows at the moment. */
  datatype Shown = Shown(item: Item, currentValue: real)

  /** The animation's length in milliseconds. */
  const Duration := 1000.0

  function Min(a: real, b: real): real
  {
    if a < b then a else b
  }

  /** `Math.min(elapsed / duration, 1)`. */
  function Progress(elapsed: real): real
  {
    Min(elapsed / Duration, 1.0)
  }

  /** Progress starts at 0, never goes back, and is 1 from one second on. */
  lemma ProgressBounds(elapsed: real, later: real)
    requires 0.0 <= elapsed <= later
    ensures 0.0 <= Progress(elapsed) <= Progress(later) <= 1.0
    ensures Progress(0.0) == 0.0
    ensures elapsed >= Duration ==> Progress(elapsed) == 1.0
  {
  }

  /** One animation frame: every item scaled by the progress. */
  function Frame(data: seq<Item>, elapsed: real): (f: seq<Shown>)
    ensures |f| == |data|
  {
    seq(|data|, i requires 0 <= i < |data| => Shown(data[i], data[i].value * Progress(elapsed)))
  }

  /** Without animation: every item at its value. */
  function Still(data: seq<Item>): (f: seq<Shown>)
    ensures |f| == |data|
  {
    seq(|data|, i requires 0 <= i < |data| => Shown(data[i], data[i].value))
  }

  /** The initial state (every current value 0) is the frame at time 0;
      during the animation a non-negative value is shown between 0 and
      itself, growing; from one second on the frame is the still picture. */
  lemma FrameBounds(data: seq<Item>, elapsed: real, later: real)
    requires 0.0 <= elapsed <= later
    ensures Frame(data, 0.0) == seq(|data|, i requires 0 <= i < |data| => Shown(data[i], 0.0))
    ensures forall i :: 0 <= i < |data| && data[i].value >= 0.0 ==>
              0.0 <= Frame(data, elapsed)[i].currentValue <= Frame(data, later)[i].currentValue <= data[i].value
    ensures elapsed >= Duration ==> Frame(data, elapsed) == Still(data)
  {
    ProgressBounds(elapsed, later);
    forall i | 0 <= i < |data| && data[i].value >= 0.0
      ensures 0.0 <= Frame(data, elapsed)[i].currentValue <= Frame(data, later)[i].currentValue <= data[i].value
    {
      assert Frame(data, elapsed)[i].currentValue == data[i].value * Progress(elapsed);
      assert Frame(data, later)[i].currentValue == data[i].value * Progress(later);
      ScaleOrder(0.0, Progress(elapsed), data[i].value);
      ScaleOrder(Progress(elapsed), Progress(later), data[i].value);
      ScaleOrder(Progress(later), 1.0, data[i].value);
    }
  }

  /** `data.reduce((sum, item) => sum + item.value, 0)`. */
  function Total(data: seq<Item>): real
  {
    if data == [] then 0.0 else Total(data[..|data| - 1]) + data[|data| - 1].value
  }

  function Values(data: seq<Item>): seq<real>
  {
    seq(|data|, i requires 0 <= i < |data| => data[i].value)
  }

  /** The total is the sum of the values. */
  lemma {:induction false} TotalIsSum(data: seq<Item>)
    ensures Total(data) == Seqs.SumReal(Values(data))
  {
    if data != [] {
      var init := data[..|data| - 1];
      TotalIsSum(init);
      assert Values(data) == Values(init) + [data[|data| - 1].value];
      Seqs.SumRealAppend(Values(init), [data[|data| - 1].value]);
    }
  }

  /** One drawn segment: its angles, the arc flag, and the percentage
      label when there is one. */
  datatype Segment = Segment(startAngle: real, endAngle: real, largeArc: int, percent: Option<int>)

  /** `2π · currentValue / total`. */
  function SegmentAngle(currentValue: real, total: real): real
    requires total != 0.0
  {
    2.0 * Pi * currentValue / total
  }

  /** The label: shown only above a tenth of the total, reading the share
      as a rounded percentage. */
  function Label(currentValue: real, total: real): (l: Option<int>)
    requires total != 0.0
  {
    if currentValue / total > 0.1 then Some(Round(currentValue / total * 100.0)) else None
  }

  /** A label reads between 10 and 100 when it shows a share of at most
      the whole, within half a percent of the exact share. */
  lemma LabelBounds(currentValue: real, total: real)
    requires total != 0.0
    ensures Label(currentValue, total).Some? <==> currentValue / total > 0.1
    ensures Label(currentValue, total).Some? ==>
              var exact := currentValue / total * 100.0;
              exact - 0.5 < Label(currentValue, total).value as real <= exact + 0.5
    ensures Label(currentValue, total).Some? && currentValue / total <= 1.0 ==>
              10 <= Label(currentValue, total).value <= 100
  {
  }

  /** The segments: the first starts at twelve o'clock (`-π/2`), each
      next starts where the previous ends, each spans its share of the turn
      and carries its flag and label. */
  predicate SegmentLayout(segs: seq<Segment>, shown: seq<Shown>, total: real)
    requires total != 0.0
  {
    && |segs| == |shown|
    && (forall i :: 0 <= i < |segs| ==>
          segs[i].endAngle == segs[i].startAngle + SegmentAngle(shown[i].currentValue, total)
          && segs[i].largeArc == LargeArcFlag(segs[i].startAngle, segs[i].endAngle)
          && segs[i].percent == Label(shown[i].currentValue, total))
    && (|segs| > 0 ==> segs[0].startAngle == -Pi / 2.0)
    && forall i :: 0 < i < |segs| ==> segs[i].startAngle == segs[i - 1].endAngle
  }

  /** The segment loop of the render, threading `currentAngle`. */
  method Segments(shown: seq<Shown>, total: real) returns (segs: seq<Segment>)
    requires total != 0.0
    ensures SegmentLayout(segs, shown, total)
  {
    var currentAngle := -Pi / 2.0;
    segs := [];
    var i := 0;
    while i < |shown|
      invariant 0 <= i <= |shown|
      invariant SegmentLayout(segs, shown[..i], total)
      invariant currentAngle == if i == 0 then -Pi / 2.0 else segs[i - 1].endAngle
    {
      var segmentAngle := 2.0 * Pi * shown[i].currentValue / total;
      var endAngle := currentAngle + segmentAngle;
      var largeArc := if endAngle - currentAngle > Pi then 1 else 0;
      segs := segs + [Segment(currentAngle, endAngle, largeArc, Label(shown[i].currentValue, total))];
      currentAngle := currentAngle + segmentAngle;
      i := i + 1;
    }
    assert shown[..i] == shown;
  }

  function CurrentValues(shown: seq<Shown>): seq<real>
  {
    seq(|shown|, i requires 0 <= i < |shown| => shown[i].currentValue)
  }

  lemma AngleAdd(a: real, b: real, total: real)
    requires total != 0.0
    ensures SegmentAngle(a, total) + SegmentAngle(b, total) == SegmentAngle(a + b, total)
  {
    assert (2.0 * Pi * a) / total + (2.0 * Pi * b) / total == (2.0 * Pi * a + 2.0 * Pi * b) / total;
  }

  /** Segment `k` starts past twelve o'clock by the share of the turn the
      segments before it take. */
  lemma {:induction false} SegmentStart(segs: seq<Segment>, shown: seq<Shown>, total: real, k: nat)
    requires total != 0.0 && SegmentLayout(segs, shown, total) && k < |segs|
    ensures segs[k].startAngle == -Pi / 2.0 + SegmentAngle(Seqs.SumReal(CurrentValues(shown)[..k]), total)
  {
    var cv := CurrentValues(shown);
    if k == 0 {
      assert 2.0 * Pi * 0.0 / total == 0.0;
    } else {
      SegmentStart(segs, shown, total, k - 1);
      assert cv[..k] == cv[..k - 1] + [cv[k - 1]];
      Seqs.SumRealAppend(cv[..k - 1], [cv[k - 1]]);
      AngleAdd(Seqs.SumReal(cv[..k - 1]), cv[k - 1], total);
    }
  }

  /** Segment `k` ends past twelve o'clock by the share of the turn it and
      the segments before it take. */
  lemma SegmentEnd(segs: seq<Segment>, shown: seq<Shown>, total: real, k: nat)
    requires total != 0.0 && SegmentLayout(segs, shown, total) && k < |segs|
    ensures segs[k].endAngle == -Pi / 2.0 + SegmentAngle(Seqs.SumReal(CurrentValues(shown)[..k + 1]), total)
  {
    var cv := CurrentValues(shown);
    SegmentStart(segs, shown, total, k);
    assert cv[..k + 1] == cv[..k] + [cv[k]];
    Seqs.SumRealAppend(cv[..k], [cv[k]]);
    AngleAdd(Seqs.SumReal(cv[..k]), cv[k], total);
  }

  /** The still picture shows the values that make up the total. */
  lemma StillSum(data: seq<Item>)
    ensures Seqs.SumReal(CurrentValues(Still(data))) == Total(data)
  {
    assert CurrentValues(Still(data)) == Values(data);
    TotalIsSum(data);
  }

  /** With the still picture (or the animation's last frame), the segments
      close the ring: the last ends a full turn after twelve o'clock. */
  lemma StillRingCloses(data: seq<Item>, segs: seq<Segment>)
    requires Total(data) != 0.0 && SegmentLayout(segs, Still(data), Total(data)) && |segs| > 0
    ensures segs[|segs| - 1].endAngle == -Pi / 2.0 + 2.0 * Pi
  {
    var t, n := Total(data), |segs|;
    var cv := CurrentValues(Still(data));
    SegmentEnd(segs, Still(data), t, n - 1);
    assert cv[..n] == cv;
    StillSum(data);
    WholeTurn(t);
  }

  lemma WholeTurn(t: real)
    requires t != 0.0
    ensures SegmentAngle(t, t) == 2.0 * Pi
  {
    assert 2.0 * Pi * t / t == 2.0 * Pi * (t / t);
  }

  /** Over a positive total, a segment takes the large-arc flag exactly
      when it shows more than half of the total. */
  lemma LargeArcOverHalf(segs: seq<Segment>, shown: seq<Shown>, total: real, i: nat)
    requires total > 0.0 && SegmentLayout(segs, shown, total) && i < |segs|
    ensures segs[i].largeArc == 1 <==> shown[i].currentValue > total / 2.0
  {
    var v := shown[i].currentValue;
    assert SegmentAngle(v, total) == 2.0 * Pi * (v / total);
    assert v / total * total == v;
    if v > total / 2.0 {
      assert v / total > 0.5;
    } else {
      assert v / total <= 0.5;
    }
  }
}
