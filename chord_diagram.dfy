/** Chord diagram layout: one arc per group around the circle, sized by the
    group's row total, and one chord per positive off-diagonal cell of the
    flow matrix, joining a sub-arc of its row's group to a sub-arc of its
    column's group. */
module ChordDiagram {
  import Seqs
  import opened Geometry

  /** The flow matrix: `data[i][j]` is the flow from group `i` to group `j`. */
  type Matrix = seq<seq<real>>

  predicate Square(data: Matrix)
  {
    forall i :: 0 <= i < |data| ==> |data[i]| == |data|
  }

  predicate NonNegative(data: Matrix)
  {
    forall i, j :: 0 <= i < |data| && 0 <= j < |data[i]| ==> data[i][j] >= 0.0
  }

  /** `groupTotals`: each row's full sum, diagonal included. */
  function RowTotals(data: Matrix): (t: seq<real>)
    ensures |t| == |data| && forall i :: 0 <= i < |data| ==> t[i] == Seqs.SumReal(data[i])
  {
    seq(|data|, i requires 0 <= i < |data| => Seqs.SumReal(data[i]))
  }

  /** `total`, the sum of the group totals. */
  function GrandTotal(data: Matrix): real
  {
    Seqs.SumReal(RowTotals(data))
  }

  /** The cell `(i, j)` gets a chord. */
  predicate Emits(data: Matrix, i: nat, j: nat)
    requires i < |data| && j < |data[i]|
  {
    i != j && data[i][j] > 0.0
  }

  /** The inputs for which every angle of the layout is a number: the grand
      total is not zero, and neither is the row total of either end of any
      chord (the source divides by both without a guard). */
  predicate Defined(data: Matrix)
  {
    && Square(data)
    && GrandTotal(data) != 0.0
    && forall i, j :: 0 <= i < |data| && 0 <= j < |data| && Emits(data, i, j) ==>
         Seqs.SumReal(data[i]) != 0.0 && Seqs.SumReal(data[j]) != 0.0
  }

  datatype Arc = Arc(index: nat, startAngle: real, endAngle: real, value: real)

  /** The angle `2π · value / total` a group takes out of the full turn. */
  function Span(value: real, total: real): real
    requires total != 0.0
  {
    2.0 * Pi * value / total
  }

  /** The group arcs: arc `i` carries group `i`'s total and spans its share
      of the turn, the first starts at 0 and each next one starts where the
      previous one ends. */
  predicate ArcLayout(arcs: seq<Arc>, totals: seq<real>, total: real)
    requires total != 0.0
  {
    && |arcs| == |totals|
    && (forall i :: 0 <= i < |arcs| ==>
          arcs[i].index == i && arcs[i].value == totals[i]
          && arcs[i].endAngle == arcs[i].startAngle + Span(totals[i], total))
    && (|arcs| > 0 ==> arcs[0].startAngle == 0.0)
    && forall i :: 0 < i < |arcs| ==> arcs[i].startAngle == arcs[i - 1].endAngle
  }

  /** `groupAngles`: the map over the group totals that threads `startAngle`. */
  method GroupArcs(totals: seq<real>, total: real) returns (arcs: seq<Arc>)
    requires total != 0.0
    ensures ArcLayout(arcs, totals, total)
  {
    var startAngle := 0.0;
    arcs := [];
    var i := 0;
    while i < |totals|
      invariant 0 <= i <= |totals|
      invariant ArcLayout(arcs, totals[..i], total)
      invariant startAngle == if i == 0 then 0.0 else arcs[i - 1].endAngle
    {
      var angle := 2.0 * Pi * totals[i] / total;
      arcs := arcs + [Arc(i, startAngle, startAngle + angle, totals[i])];
      startAngle := startAngle + angle;
      i := i + 1;
    }
    assert totals[..i] == totals;
  }

  lemma SpanFraction(v: real, total: real)
    requires total != 0.0
    ensures Span(v, total) == 2.0 * Pi * (v / total)
  {
  }

  lemma SpanAdd(a: real, b: real, total: real)
    requires total != 0.0
    ensures Span(a, total) + Span(b, total) == Span(a + b, total)
  {
    assert (2.0 * Pi * a) / total + (2.0 * Pi * b) / total == (2.0 * Pi * a + 2.0 * Pi * b) / total;
  }

  /** Arc `k` starts at the share of the turn taken by the groups before it. */
  lemma {:induction false} ArcStart(arcs: seq<Arc>, totals: seq<real>, total: real, k: nat)
    requires total != 0.0 && ArcLayout(arcs, totals, total) && k < |arcs|
    ensures arcs[k].startAngle == Span(Seqs.SumReal(totals[..k]), total)
  {
    if k > 0 {
      ArcStart(arcs, totals, total, k - 1);
      assert totals[..k][..k - 1] == totals[..k - 1];
      SpanAdd(Seqs.SumReal(totals[..k - 1]), totals[k - 1], total);
    }
  }

  /** When the total is the sum of the group totals, the last arc ends at 2π. */
  lemma ArcsCloseCircle(arcs: seq<Arc>, totals: seq<real>)
    requires Seqs.SumReal(totals) != 0.0 && ArcLayout(arcs, totals, Seqs.SumReal(totals)) && |arcs| > 0
    ensures arcs[|arcs| - 1].endAngle == 2.0 * Pi
  {
    var t, n := Seqs.SumReal(totals), |arcs|;
    ArcStart(arcs, totals, t, n - 1);
    SpanAdd(Seqs.SumReal(totals[..n - 1]), totals[n - 1], t);
    SpanWhole(t);
  }

  lemma SpanWhole(t: real)
    requires t != 0.0
    ensures Span(t, t) == 2.0 * Pi
  {
    assert 2.0 * Pi * t / t == 2.0 * Pi * (t / t);
  }

  /** Over a positive total, a group arc is drawn with the large-arc flag
      exactly when its group holds more than half of the total. */
  lemma ArcLargeFlag(arcs: seq<Arc>, totals: seq<real>, total: real, i: nat)
    requires total > 0.0 && ArcLayout(arcs, totals, total) && i < |arcs|
    ensures LargeArcFlag(arcs[i].startAngle, arcs[i].endAngle) == 1 <==> totals[i] > total / 2.0
  {
    var v := totals[i];
    assert Span(v, total) == 2.0 * Pi * (v / total);
    assert v / total * total == v;
    if v > total / 2.0 {
      assert v / total > 0.5;
    } else {
      assert v / total <= 0.5;
    }
  }

  datatype SubArc = SubArc(index: nat, startAngle: real, endAngle: real)

  datatype Chord = Chord(source: SubArc, target: SubArc, value: real)

  /** The group arcs `calculateLayout` lays out for `data`. */
  predicate Laid(data: Matrix, arcs: seq<Arc>)
  {
    Defined(data) && ArcLayout(arcs, RowTotals(data), GrandTotal(data))
  }

  /** One arc per group, and a non-zero value on both ends of every chord:
      what computing the chords needs of the arcs. */
  predicate Fits(data: Matrix, arcs: seq<Arc>)
  {
    && Square(data) && |arcs| == |data|
    && forall i, j :: 0 <= i < |data| && 0 <= j < |data| && Emits(data, i, j) ==>
         arcs[i].value != 0.0 && arcs[j].value != 0.0
  }

  lemma LaidFits(data: Matrix, arcs: seq<Arc>)
    requires Laid(data, arcs)
    ensures Fits(data, arcs)
  {
  }

  /** The chord for cell `(i, j)`. Its source sub-arc starts inside arc `i`
      after the share of row `i` before column `j` and takes `data[i][j]`'s
      share of arc `i`. Its target sub-arc starts inside arc `j` after the
      share of row `j` before column `i`, but its width is again
      `data[i][j]`, measured against row `j`'s total. */
  function ChordAt(data: Matrix, arcs: seq<Arc>, i: nat, j: nat): Chord
    requires Fits(data, arcs) && i < |data| && j < |data| && Emits(data, i, j)
  {
    var sourceArc, targetArc, value := arcs[i], arcs[j], data[i][j];
    var sourceStart := sourceArc.startAngle + Portion(sourceArc, Seqs.SumReal(data[i][..j]));
    var targetStart := targetArc.startAngle + Portion(targetArc, Seqs.SumReal(data[j][..i]));
    Chord(
      SubArc(i, sourceStart, sourceStart + Portion(sourceArc, value)),
      SubArc(j, targetStart, targetStart + Portion(targetArc, value)),
      value)
  }

  /** `(arc.endAngle - arc.startAngle) * (part / arc.value)`: the angle a
      part of a group's value takes out of the group's arc. */
  function Portion(arc: Arc, part: real): real
    requires arc.value != 0.0
  {
    (arc.endAngle - arc.startAngle) * (part / arc.value)
  }

  /** The chords of row `i` from its first `n` cells, in column order. */
  function RowChords(data: Matrix, arcs: seq<Arc>, i: nat, n: nat): seq<Chord>
    requires Fits(data, arcs) && i < |data| && n <= |data|
  {
    if n == 0 then []
    else if Emits(data, i, n - 1) then RowChords(data, arcs, i, n - 1) + [ChordAt(data, arcs, i, n - 1)]
    else RowChords(data, arcs, i, n - 1)
  }

  /** The chords of the first `m` rows, in row-major order. */
  function ChordsUpTo(data: Matrix, arcs: seq<Arc>, m: nat): seq<Chord>
    requires Fits(data, arcs) && m <= |data|
  {
    if m == 0 then [] else ChordsUpTo(data, arcs, m - 1) + RowChords(data, arcs, m - 1, |data|)
  }

  function Chords(data: Matrix, arcs: seq<Arc>): seq<Chord>
    requires Fits(data, arcs)
  {
    ChordsUpTo(data, arcs, |data|)
  }

  /** `calculateLayout`: the group arcs, then the chords pushed row by row. */
  method CalculateLayout(data: Matrix) returns (arcs: seq<Arc>, chords: seq<Chord>)
    requires Defined(data)
    ensures Laid(data, arcs) && Fits(data, arcs)
    ensures chords == Chords(data, arcs)
  {
    var groupTotals := RowTotals(data);
    var total := Seqs.SumReal(groupTotals);
    arcs := GroupArcs(groupTotals, total);
    LaidFits(data, arcs);
    chords := [];
    var i := 0;
    while i < |data|
      invariant 0 <= i <= |data|
      invariant chords == ChordsUpTo(data, arcs, i)
    {
      var row := data[i];
      var j := 0;
      while j < |row|
        invariant 0 <= j <= |row|
        invariant chords == ChordsUpTo(data, arcs, i) + RowChords(data, arcs, i, j)
      {
        var value := row[j];
        if i != j && value > 0.0 {
          assert Emits(data, i, j);
          var sourceArc, targetArc := arcs[i], arcs[j];
          var sourceStartAngle := sourceArc.startAngle + Portion(sourceArc, Seqs.SumReal(row[..j]));
          var sourceEndAngle := sourceStartAngle + Portion(sourceArc, value);
          var targetStartAngle := targetArc.startAngle + Portion(targetArc, Seqs.SumReal(data[j][..i]));
          var targetEndAngle := targetStartAngle + Portion(targetArc, value);
          chords := chords + [Chord(SubArc(i, sourceStartAngle, sourceEndAngle), SubArc(j, targetStartAngle, targetEndAngle), value)];
        }
        j := j + 1;
      }
      i := i + 1;
    }
  }

  /** `c` is the chord of a cell that emits one. */
  predicate IsChordOf(data: Matrix, arcs: seq<Arc>, c: Chord)
    requires Fits(data, arcs)
  {
    && c.source.index < |data| && c.target.index < |data|
    && Emits(data, c.source.index, c.target.index)
    && c == ChordAt(data, arcs, c.source.index, c.target.index)
  }

  /** `c`'s cell comes before `d`'s in row-major order. */
  predicate RowMajor(c: Chord, d: Chord)
  {
    c.source.index < d.source.index
    || (c.source.index == d.source.index && c.target.index < d.target.index)
  }

  /** The chords are exactly the cells `(i, j)` with `i != j` and a positive
      flow, each once, in row-major order. */
  lemma ChordsExactly(data: Matrix, arcs: seq<Arc>)
    requires Fits(data, arcs)
    ensures forall k :: 0 <= k < |Chords(data, arcs)| ==> IsChordOf(data, arcs, Chords(data, arcs)[k])
    ensures forall k, l :: 0 <= k < l < |Chords(data, arcs)| ==> RowMajor(Chords(data, arcs)[k], Chords(data, arcs)[l])
    ensures forall i, j :: 0 <= i < |data| && 0 <= j < |data| && Emits(data, i, j) ==>
      exists k :: 0 <= k < |Chords(data, arcs)|
        && Chords(data, arcs)[k].source.index == i && Chords(data, arcs)[k].target.index == j
  {
    UpToFacts(data, arcs, |data|);
    var c := Chords(data, arcs);
    forall i, j | 0 <= i < |data| && 0 <= j < |data| && Emits(data, i, j)
      ensures exists k :: 0 <= k < |c| && c[k].source.index == i && c[k].target.index == j
    {
      var k :| 0 <= k < |c| && c[k].source.index == i && c[k].target.index == j;
    }
  }

  /** `r` holds exactly the chords of the emitting cells among the first
      `n` of row `i`, in column order. */
  predicate RowShaped(data: Matrix, arcs: seq<Arc>, i: nat, n: nat, r: seq<Chord>)
    requires Fits(data, arcs) && i < |data| && n <= |data|
  {
    && (forall k :: 0 <= k < |r| ==> IsChordOf(data, arcs, r[k]) && r[k].source.index == i && r[k].target.index < n)
    && (forall k, l :: 0 <= k < l < |r| ==> r[k].target.index < r[l].target.index)
    && forall j :: 0 <= j < n && Emits(data, i, j) ==>
         exists k :: 0 <= k < |r| && r[k].target.index == j
  }

  /** `u` holds exactly the chords of the emitting cells of the first `m`
      rows, in row-major order. */
  predicate UpToShaped(data: Matrix, arcs: seq<Arc>, m: nat, u: seq<Chord>)
    requires Fits(data, arcs) && m <= |data|
  {
    && (forall k :: 0 <= k < |u| ==> IsChordOf(data, arcs, u[k]) && u[k].source.index < m)
    && (forall k, l :: 0 <= k < l < |u| ==> RowMajor(u[k], u[l]))
    && forall i, j :: 0 <= i < m && 0 <= j < |data| && Emits(data, i, j) ==>
         exists k :: 0 <= k < |u| && u[k].source.index == i && u[k].target.index == j
  }

  lemma {:induction false} RowFacts(data: Matrix, arcs: seq<Arc>, i: nat, n: nat)
    requires Fits(data, arcs) && i < |data| && n <= |data|
    ensures RowShaped(data, arcs, i, n, RowChords(data, arcs, i, n))
  {
    if n > 0 {
      RowFacts(data, arcs, i, n - 1);
      var p := RowChords(data, arcs, i, n - 1);
      if Emits(data, i, n - 1) {
        AppendCell(data, arcs, i, n, p);
      } else {
        SkipCell(data, arcs, i, n, p);
      }
    }
  }

  /** Pushing the chord of an emitting cell `(i, n - 1)`. */
  lemma AppendCell(data: Matrix, arcs: seq<Arc>, i: nat, n: nat, p: seq<Chord>)
    requires Fits(data, arcs) && i < |data| && 0 < n <= |data| && Emits(data, i, n - 1)
    requires RowShaped(data, arcs, i, n - 1, p)
    ensures RowShaped(data, arcs, i, n, p + [ChordAt(data, arcs, i, n - 1)])
  {
    var c := ChordAt(data, arcs, i, n - 1);
    var r := p + [c];
    assert c.source.index == i && c.target.index == n - 1;
    assert IsChordOf(data, arcs, c);
    assert r[|p|] == c;
    forall j | 0 <= j < n && Emits(data, i, j)
      ensures exists k :: 0 <= k < |r| && r[k].target.index == j
    {
      if j < n - 1 {
        var k :| 0 <= k < |p| && p[k].target.index == j;
        assert r[k] == p[k];
      }
    }
    forall k | 0 <= k < |r|
      ensures IsChordOf(data, arcs, r[k]) && r[k].source.index == i && r[k].target.index < n
    {
      if k < |p| {
        assert r[k] == p[k];
      }
    }
  }

  /** Passing over a cell `(i, n - 1)` that does not emit a chord. */
  lemma SkipCell(data: Matrix, arcs: seq<Arc>, i: nat, n: nat, p: seq<Chord>)
    requires Fits(data, arcs) && i < |data| && 0 < n <= |data| && !Emits(data, i, n - 1)
    requires RowShaped(data, arcs, i, n - 1, p)
    ensures RowShaped(data, arcs, i, n, p)
  {
  }

  lemma {:induction false} UpToFacts(data: Matrix, arcs: seq<Arc>, m: nat)
    requires Fits(data, arcs) && m <= |data|
    ensures UpToShaped(data, arcs, m, ChordsUpTo(data, arcs, m))
  {
    if m > 0 {
      UpToFacts(data, arcs, m - 1);
      RowFacts(data, arcs, m - 1, |data|);
      AppendRow(data, arcs, m, ChordsUpTo(data, arcs, m - 1), RowChords(data, arcs, m - 1, |data|));
    }
  }

  /** Appending row `m - 1`'s chords to those of the rows before it. */
  lemma AppendRow(data: Matrix, arcs: seq<Arc>, m: nat, p: seq<Chord>, r: seq<Chord>)
    requires Fits(data, arcs) && 0 < m <= |data|
    requires UpToShaped(data, arcs, m - 1, p) && RowShaped(data, arcs, m - 1, |data|, r)
    ensures UpToShaped(data, arcs, m, p + r)
  {
    var u := p + r;
    forall k | 0 <= k < |u|
      ensures IsChordOf(data, arcs, u[k]) && u[k].source.index < m
    {
      if k < |p| {
        assert u[k] == p[k];
      } else {
        assert u[k] == r[k - |p|];
      }
    }
    forall k, l | 0 <= k < l < |u|
      ensures RowMajor(u[k], u[l])
    {
      if l < |p| {
        assert u[k] == p[k] && u[l] == p[l];
      } else if k < |p| {
        assert u[k] == p[k] && u[l] == r[l - |p|];
      } else {
        assert u[k] == r[k - |p|] && u[l] == r[l - |p|];
      }
    }
    forall i, j | 0 <= i < m && 0 <= j < |data| && Emits(data, i, j)
      ensures exists k :: 0 <= k < |u| && u[k].source.index == i && u[k].target.index == j
    {
      if i < m - 1 {
        var k :| 0 <= k < |p| && p[k].source.index == i && p[k].target.index == j;
        assert u[k] == p[k];
      } else {
        var k :| 0 <= k < |r| && r[k].target.index == j;
        assert u[|p| + k] == r[k];
      }
    }
  }

  /** Prefix sums of a non-negative row grow by each cell and stay within
      the row total. */
  lemma PrefixFacts(row: seq<real>, c: nat)
    requires c < |row| && forall k :: 0 <= k < |row| ==> row[k] >= 0.0
    ensures 0.0 <= row[c] && 0.0 <= Seqs.SumReal(row[..c])
    ensures Seqs.SumReal(row[..c]) + row[c] == Seqs.SumReal(row[..c + 1]) <= Seqs.SumReal(row)
  {
    assert row[..c + 1][..c] == row[..c];
    Seqs.SumRealPrefixBound(row, c);
    Seqs.SumRealPrefixBound(row, c + 1);
  }

  /** Portions `p` then `v` of an arc, with `p + v` within the arc's
      value, stay within the arc. */
  lemma Within(arc: Arc, p: real, v: real)
    requires arc.value > 0.0 && arc.startAngle <= arc.endAngle
    requires 0.0 <= p && 0.0 <= v && p + v <= arc.value
    ensures arc.startAngle <= arc.startAngle + Portion(arc, p)
    ensures Portion(arc, p) <= Portion(arc, p) + Portion(arc, v)
    ensures arc.startAngle + Portion(arc, p) + Portion(arc, v) <= arc.endAngle
  {
    var span, t := arc.endAngle - arc.startAngle, arc.value;
    var a, b := p / t, v / t;
    QuotientNonNegative(p, t);
    QuotientNonNegative(v, t);
    QuotientNonNegative(t - (p + v), t);
    DivAdd(p, v, t);
    DivAdd(p + v, t - (p + v), t);
    assert (p + v) + (t - (p + v)) == t;
    assert t / t == 1.0;
    assert a + b <= 1.0;
    assert Portion(arc, p) == span * a && Portion(arc, v) == span * b;
    FractionOf(span, a);
    FractionOf(span, b);
    FractionOf(span, a + b);
    Distribute(span, a, b);
  }

  /** Portions `p` then `v` of an arc end no later than a portion `q`
      when `p + v <= q`. */
  lemma Before(arc: Arc, p: real, v: real, q: real)
    requires arc.value > 0.0 && arc.startAngle <= arc.endAngle && p + v <= q
    ensures Portion(arc, p) + Portion(arc, v) <= Portion(arc, q)
  {
    var span, t := arc.endAngle - arc.startAngle, arc.value;
    QuotientNonNegative(q - (p + v), t);
    DivAdd(p, v, t);
    DivAdd(p + v, q - (p + v), t);
    assert (p + v) + (q - (p + v)) == q;
    ScaleOrder(p / t + v / t, q / t, span);
    Distribute(span, p / t, v / t);
  }

  /** Arc `i` spans a non-negative angle, and its value is positive when
      its row has a chord, when the data are non-negative. */
  lemma SpanNonNegative(data: Matrix, arcs: seq<Arc>, i: nat)
    requires Laid(data, arcs) && NonNegative(data) && i < |data|
    ensures arcs[i].value == Seqs.SumReal(data[i]) >= 0.0
    ensures arcs[i].startAngle <= arcs[i].endAngle
    ensures GrandTotal(data) > 0.0
  {
    var totals := RowTotals(data);
    forall k | 0 <= k < |totals| ensures totals[k] >= 0.0 {
      Seqs.SumRealNonNegative(data[k]);
    }
    Seqs.SumRealNonNegative(totals);
    var t := GrandTotal(data);
    SpanFraction(arcs[i].value, t);
    QuotientNonNegative(arcs[i].value, t);
  }

  /** With non-negative flows, a chord's source sub-arc lies inside its
      row's group arc. */
  lemma SourceInside(data: Matrix, arcs: seq<Arc>, i: nat, j: nat)
    requires Laid(data, arcs) && Fits(data, arcs) && NonNegative(data)
    requires i < |data| && j < |data| && Emits(data, i, j)
    ensures arcs[i].startAngle <= ChordAt(data, arcs, i, j).source.startAngle
    ensures ChordAt(data, arcs, i, j).source.startAngle <= ChordAt(data, arcs, i, j).source.endAngle
    ensures ChordAt(data, arcs, i, j).source.endAngle <= arcs[i].endAngle
  {
    SpanNonNegative(data, arcs, i);
    PrefixFacts(data[i], j);
    Within(arcs[i], Seqs.SumReal(data[i][..j]), data[i][j]);
  }

  /** With non-negative flows, the source sub-arcs of one row follow the
      column order and do not overlap. */
  lemma SourcesOrdered(data: Matrix, arcs: seq<Arc>, i: nat, j: nat, j': nat)
    requires Laid(data, arcs) && Fits(data, arcs) && NonNegative(data)
    requires i < |data| && j < j' < |data| && Emits(data, i, j) && Emits(data, i, j')
    ensures ChordAt(data, arcs, i, j).source.endAngle <= ChordAt(data, arcs, i, j').source.startAngle
  {
    SpanNonNegative(data, arcs, i);
    var row := data[i];
    PrefixFacts(row, j);
    PrefixFacts(row, j');
    Seqs.SumRealPrefixBound(row[..j'], j + 1);
    assert row[..j'][..j + 1] == row[..j + 1];
    Before(arcs[i], Seqs.SumReal(row[..j]), row[j], Seqs.SumReal(row[..j']));
  }

  /** When the flow matrix is symmetric at the cell, the target sub-arc also
      lies inside its column's group arc. */
  lemma TargetInsideWhenSymmetric(data: Matrix, arcs: seq<Arc>, i: nat, j: nat)
    requires Laid(data, arcs) && Fits(data, arcs) && NonNegative(data)
    requires i < |data| && j < |data| && Emits(data, i, j) && data[i][j] == data[j][i]
    ensures arcs[j].startAngle <= ChordAt(data, arcs, i, j).target.startAngle
    ensures ChordAt(data, arcs, i, j).target.startAngle <= ChordAt(data, arcs, i, j).target.endAngle
    ensures ChordAt(data, arcs, i, j).target.endAngle <= arcs[j].endAngle
  {
    SpanNonNegative(data, arcs, j);
    PrefixFacts(data[j], i);
    Within(arcs[j], Seqs.SumReal(data[j][..i]), data[j][i]);
  }

  /** Without symmetry the target sub-arc can run past its group arc: with
      flows 2 from group 0 to group 1 and 1 back, the chord's target end is
      beyond the end of arc 1 (which is also the end of the circle). */
  lemma TargetOverflows(arcs: seq<Arc>)
    requires Laid([[0.0, 2.0], [1.0, 0.0]], arcs) && Fits([[0.0, 2.0], [1.0, 0.0]], arcs)
    ensures ChordAt([[0.0, 2.0], [1.0, 0.0]], arcs, 0, 1).target.endAngle > arcs[1].endAngle
  {
    var data: Matrix := [[0.0, 2.0], [1.0, 0.0]];
    assert data[1][..0] == [];
    assert Seqs.SumReal(data[1]) == 1.0 by {
      assert data[1][..1] == [1.0];
      assert [1.0][..0] == [];
    }
    assert arcs[1].value == 1.0;
    SpanNonNegative(data, arcs, 1);
    assert arcs[1].endAngle - arcs[1].startAngle > 0.0 by {
      Seqs.SumRealNonNegative(RowTotals(data));
      assert Span(1.0, GrandTotal(data)) == 2.0 * Pi / GrandTotal(data);
    }
  }
}
