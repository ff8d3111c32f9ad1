/** `ParallelCoordinates`: one vertical axis per dimension, one polyline per
    item; numeric axes span the column's range, categorical axes space the
    distinct values evenly; brushes keep only the lines inside every brushed
    extent. */
module ParallelCoordinates {
  import opened Options
  import opened JsMath
  import Seqs

  /** A cell: a number, some other text, or `undefined` for a missing key. */
  datatype Value = Num(x: real) | Str(s: string) | Undefined

  type Item = map<string, Value>

  datatype DimType = Number | Category

  datatype Dimension = Dimension(key: string, kind: DimType)

  /** One axis' scale; `categories` is `null` on numeric axes. */
  datatype Scale = Scale(min: real, max: real, kind: DimType, categories: Option<seq<Value>>)

  /** One vertex of a line: `M x,y` when `move`, `L x,y` otherwise. */
  datatype Vertex = Vertex(move: bool, x: real, y: real)

  /** The same padding on every side. */
  const Pad := 40.0

  function Get(item: Item, key: string): Value
  {
    if key in item then item[key] else Undefined
  }

  /** `data.map(d => d[key])`. */
  function Column(data: seq<Item>, key: string): seq<Value>
  {
    seq(|data|, i requires 0 <= i < |data| => Get(data[i], key))
  }

  predicate AllNumbers(vs: seq<Value>)
  {
    forall i :: 0 <= i < |vs| ==> vs[i].Num?
  }

  function Numbers(vs: seq<Value>): seq<real>
    requires AllNumbers(vs)
  {
    seq(|vs|, i requires 0 <= i < |vs| && AllNumbers(vs) => vs[i].x)
  }

  /** A numeric axis needs a non-empty, all-numeric column (otherwise
      `Math.min`/`Math.max` give an infinity or NaN). */
  predicate Scalable(data: seq<Item>, dim: Dimension)
  {
    dim.kind == Number ==> data != [] && AllNumbers(Column(data, dim.key))
  }

  /** The scale the effect stores for one dimension. */
  function ScaleOf(data: seq<Item>, dim: Dimension): Scale
    requires Scalable(data, dim)
  {
    var values := Column(data, dim.key);
    match dim.kind
    case Number => Scale(Seqs.MinReal(Numbers(values)), Seqs.MaxReal(Numbers(values)), Number, None)
    case Category => Scale(0.0, (|values| - 1) as real, Category, Some(Seqs.Dedup(values)))
  }

  /** A numeric axis spans exactly the column's smallest to largest value;
      a categorical one has its distinct values in order of first
      appearance, from 0 to one less than the row count. */
  lemma ScaleOfBounds(data: seq<Item>, dim: Dimension)
    requires Scalable(data, dim)
    ensures var sc := ScaleOf(data, dim);
            sc.kind == dim.kind
            && (dim.kind == Number ==>
                  sc.categories.None?
                  && (exists i :: 0 <= i < |data| && Get(data[i], dim.key) == Num(sc.min))
                  && (exists i :: 0 <= i < |data| && Get(data[i], dim.key) == Num(sc.max))
                  && forall i :: 0 <= i < |data| ==> Get(data[i], dim.key).Num? && sc.min <= Get(data[i], dim.key).x <= sc.max)
            && (dim.kind == Category ==>
                  sc.min == 0.0 && sc.max == (|data| - 1) as real
                  && sc.categories.Some?
                  && Seqs.Distinct(sc.categories.value)
                  && (forall v :: v in sc.categories.value <==> exists i :: 0 <= i < |data| && Get(data[i], dim.key) == v)
                  && forall a, b :: 0 <= a < b < |sc.categories.value| ==>
                       IndexOf(Column(data, dim.key), sc.categories.value[a]) < IndexOf(Column(data, dim.key), sc.categories.value[b]))
  {
    var values := Column(data, dim.key);
    if dim.kind == Number {
      var xs := Numbers(values);
      forall i | 0 <= i < |data| ensures Get(data[i], dim.key) == Num(xs[i]) {
        assert values[i] == Get(data[i], dim.key);
      }
      Seqs.MinRealIsMin(xs);
      Seqs.MaxRealIsMax(xs);
      var i :| 0 <= i < |xs| && xs[i] == Seqs.MinReal(xs);
      assert Get(data[i], dim.key) == Num(Seqs.MinReal(xs));
      var j :| 0 <= j < |xs| && xs[j] == Seqs.MaxReal(xs);
      assert Get(data[j], dim.key) == Num(Seqs.MaxReal(xs));
    } else {
      Seqs.DedupProperties(values);
      forall v ensures v in values <==> exists i :: 0 <= i < |data| && Get(data[i], dim.key) == v {
        if v in values {
          var i :| 0 <= i < |values| && values[i] == v;
          assert Get(data[i], dim.key) == v;
        }
        if exists i :: 0 <= i < |data| && Get(data[i], dim.key) == v {
          var i :| 0 <= i < |data| && Get(data[i], dim.key) == v;
          assert values[i] == v;
        }
      }
    }
  }

  /** `newScales` after the loop over `dims`: a later dimension with the
      same key overwrites an earlier one. */
  function Scales(data: seq<Item>, dims: seq<Dimension>): map<string, Scale>
    requires forall d :: d in dims ==> Scalable(data, d)
  {
    if dims == [] then map[]
    else Scales(data, dims[..|dims| - 1])[dims[|dims| - 1].key := ScaleOf(data, dims[|dims| - 1])]
  }

  /** Every dimension gets a scale and there are no others; with distinct
      keys each dimension's scale is its own. */
  lemma ScalesCover(data: seq<Item>, dims: seq<Dimension>)
    requires forall d :: d in dims ==> Scalable(data, d)
    ensures forall k :: k in Scales(data, dims) <==> exists i :: 0 <= i < |dims| && dims[i].key == k
    ensures (forall i, j :: 0 <= i < j < |dims| ==> dims[i].key != dims[j].key) ==>
              forall i :: 0 <= i < |dims| ==> Scales(data, dims)[dims[i].key] == ScaleOf(data, dims[i])
  {
    ScalesKeys(data, dims);
    if forall i, j :: 0 <= i < j < |dims| ==> dims[i].key != dims[j].key {
      ScalesOwn(data, dims);
    }
  }

  lemma {:induction false} ScalesKeys(data: seq<Item>, dims: seq<Dimension>)
    requires forall d :: d in dims ==> Scalable(data, d)
    ensures forall k :: k in Scales(data, dims) <==> exists i :: 0 <= i < |dims| && dims[i].key == k
  {
    if dims != [] {
      var init := dims[..|dims| - 1];
      ScalesKeys(data, init);
      assert Scales(data, dims) == Scales(data, init)[dims[|dims| - 1].key := ScaleOf(data, dims[|dims| - 1])];
      forall k ensures k in Scales(data, dims) <==> exists i :: 0 <= i < |dims| && dims[i].key == k {
        if k in Scales(data, dims) && k != dims[|dims| - 1].key {
          var i :| 0 <= i < |init| && init[i].key == k;
          assert dims[i].key == k;
        }
        if exists i :: 0 <= i < |dims| && dims[i].key == k {
          var i :| 0 <= i < |dims| && dims[i].key == k;
          if i < |init| {
            assert init[i].key == k;
          }
        }
      }
    }
  }

  lemma {:induction false} ScalesOwn(data: seq<Item>, dims: seq<Dimension>)
    requires forall d :: d in dims ==> Scalable(data, d)
    requires forall i, j :: 0 <= i < j < |dims| ==> dims[i].key != dims[j].key
    ensures forall i :: 0 <= i < |dims| ==> dims[i].key in Scales(data, dims)
    ensures forall i :: 0 <= i < |dims| ==> Scales(data, dims)[dims[i].key] == ScaleOf(data, dims[i])
  {
    if dims != [] {
      var init := dims[..|dims| - 1];
      var last := dims[|dims| - 1];
      ScalesOwn(data, init);
      forall i | 0 <= i < |dims|
        ensures dims[i].key in Scales(data, dims)
        ensures Scales(data, dims)[dims[i].key] == ScaleOf(data, dims[i])
      {
        if i < |init| {
          assert init[i] == dims[i];
          assert dims[i].key != last.key;
        }
      }
    }
  }

  // ------------------------------------------------------------ getY

  /** `getY` is a number: a numeric axis with a number on a scale of
      positive span, a categorical axis with at least two categories. */
  predicate Plottable(value: Value, dim: Dimension, scales: map<string, Scale>)
  {
    dim.key in scales ==>
      var sc := scales[dim.key];
      match dim.kind
      case Number => value.Num? && sc.max != sc.min
      case Category => sc.categories.Some? && |sc.categories.value| > 1
  }

  /** `getY`: the height of a value on its axis, 0 without a scale. */
  function GetY(value: Value, dim: Dimension, scales: map<string, Scale>, height: real): (y: real)
    requires Plottable(value, dim, scales)
    ensures dim.key !in scales ==> y == 0.0
  {
    if dim.key !in scales then 0.0
    else
      var sc := scales[dim.key];
      var available := height - Pad - Pad;
      match dim.kind
      case Number => Pad + available * (1.0 - (value.x - sc.min) / (sc.max - sc.min))
      case Category =>
        var index := IndexOf(sc.categories.value, value);
        Pad + (index as real / (|sc.categories.value| - 1) as real) * available
  }

  /** A numeric axis puts its minimum at the bottom and its maximum at the
      top, and larger values higher up (smaller y). */
  lemma NumberAxis(dim: Dimension, scales: map<string, Scale>, height: real, a: real, b: real)
    requires dim.kind == Number && dim.key in scales
    requires scales[dim.key].min < scales[dim.key].max && height >= Pad + Pad
    ensures GetY(Num(scales[dim.key].min), dim, scales, height) == height - Pad
    ensures GetY(Num(scales[dim.key].max), dim, scales, height) == Pad
    ensures a <= b ==> GetY(Num(b), dim, scales, height) <= GetY(Num(a), dim, scales, height)
  {
    var sc := scales[dim.key];
    var span := sc.max - sc.min;
    assert (sc.max - sc.min) / span == 1.0;
    if a <= b {
      assert (a - sc.min) / span <= (b - sc.min) / span;
      var available := height - Pad - Pad;
      assert available * (1.0 - (b - sc.min) / span) <= available * (1.0 - (a - sc.min) / span);
    }
  }

  /** A categorical axis spaces the categories evenly from the top: the
      `i`-th distinct value sits at `i / (count - 1)` of the way down, the
      first at the top and the last at the bottom. */
  lemma CategoryAxis(dim: Dimension, scales: map<string, Scale>, height: real, i: nat)
    requires dim.kind == Category && dim.key in scales
    requires var cats := scales[dim.key].categories;
             cats.Some? && |cats.value| > 1 && i < |cats.value| && Seqs.Distinct(cats.value)
    ensures var cats := scales[dim.key].categories.value;
            GetY(cats[i], dim, scales, height) == Pad + (i as real / (|cats| - 1) as real) * (height - Pad - Pad)
    ensures var cats := scales[dim.key].categories.value;
            GetY(cats[0], dim, scales, height) == Pad && GetY(cats[|cats| - 1], dim, scales, height) == height - Pad
  {
    var cats := scales[dim.key].categories.value;
    assert forall a, b :: 0 <= a < b < |cats| ==> cats[a] != cats[b];
    IndexOfUnique(cats, i);
    CategoryEnds(dim, scales, height);
  }

  lemma CategoryEnds(dim: Dimension, scales: map<string, Scale>, height: real)
    requires dim.kind == Category && dim.key in scales
    requires var cats := scales[dim.key].categories;
             cats.Some? && |cats.value| > 1 && Seqs.Distinct(cats.value)
    ensures var cats := scales[dim.key].categories.value;
            GetY(cats[0], dim, scales, height) == Pad && GetY(cats[|cats| - 1], dim, scales, height) == height - Pad
  {
    var cats := scales[dim.key].categories.value;
    assert IndexOf(cats, cats[0]) == 0;
    assert forall a, b :: 0 <= a < b < |cats| ==> cats[a] != cats[b];
    IndexOfUnique(cats, |cats| - 1);
    CategoryY(dim, scales, height, cats[0]);
    CategoryY(dim, scales, height, cats[|cats| - 1]);
    Ends(|cats| - 1, height - Pad - Pad);
  }

  /** `getY` on a categorical axis: the value's index of `count - 1`. */
  lemma CategoryY(dim: Dimension, scales: map<string, Scale>, height: real, v: Value)
    requires dim.kind == Category && dim.key in scales
    requires var cats := scales[dim.key].categories; cats.Some? && |cats.value| > 1
    ensures var cats := scales[dim.key].categories.value;
            GetY(v, dim, scales, height) == Pad + (IndexOf(cats, v) as real / (|cats| - 1) as real) * (height - Pad - Pad)
  {
  }

  lemma Ends(n: nat, available: real)
    requires n > 0
    ensures Pad + (0 as real / n as real) * available == Pad
    ensures Pad + (n as real / n as real) * available == Pad + available
  {
    assert n as real / n as real == 1.0;
  }

  // ------------------------------------------------------------ lines

  /** The distance between neighbouring axes. */
  function AxisWidth(width: real, count: nat): real
    requires count >= 2
  {
    (width - Pad - Pad) / (count - 1) as real
  }

  /** `getPath` as its vertex list: one vertex per dimension, on that
      dimension's axis. */
  function Line(item: Item, dims: seq<Dimension>, scales: map<string, Scale>, width: real, height: real): (line: seq<Vertex>)
    requires |dims| >= 2
    requires forall i :: 0 <= i < |dims| ==> Plottable(Get(item, dims[i].key), dims[i], scales)
    ensures |line| == |dims|
    ensures forall i :: 0 <= i < |dims| ==> line[i].move == (i == 0) && line[i].x == AxisX(width, |dims|, i)
  {
    seq(|dims|, i requires 0 <= i < |dims| && Plottable(Get(item, dims[i].key), dims[i], scales) =>
      Vertex(i == 0, AxisX(width, |dims|, i), GetY(Get(item, dims[i].key), dims[i], scales, height)))
  }

  /** The x of axis `i` of `count`. */
  function AxisX(width: real, count: nat, i: nat): real
    requires count >= 2
  {
    Pad + i as real * AxisWidth(width, count)
  }

  /** The axes stand one axis width apart, from the left padding to the
      right padding. */
  lemma AxisSpacing(width: real, count: nat)
    requires count >= 2
    ensures AxisX(width, count, 0) == Pad && AxisX(width, count, count - 1) == width - Pad
    ensures forall i :: 1 <= i < count ==> AxisX(width, count, i) == AxisX(width, count, i - 1) + AxisWidth(width, count)
  {
    var w := AxisWidth(width, count);
    forall i | 1 <= i < count ensures AxisX(width, count, i) == AxisX(width, count, i - 1) + w {
      Step(w, i);
    }
    LastAxis(width, count);
  }

  /** The last of `count` axes stands at the right padding. */
  lemma LastAxis(width: real, count: nat)
    requires count >= 2
    ensures Pad + (count - 1) as real * AxisWidth(width, count) == width - Pad
  {
    var n := (count - 1) as real;
    assert n * ((width - Pad - Pad) / n) == width - Pad - Pad;
  }

  /** Each vertex sits at its item's value on that axis. */
  lemma LineHeights(item: Item, dims: seq<Dimension>, scales: map<string, Scale>, width: real, height: real)
    requires |dims| >= 2
    requires forall i :: 0 <= i < |dims| ==> Plottable(Get(item, dims[i].key), dims[i], scales)
    ensures var line := Line(item, dims, scales, width, height);
            forall i :: 0 <= i < |dims| ==> line[i].y == GetY(Get(item, dims[i].key), dims[i], scales, height)
  {
  }

  /** The line moves to the first axis at the left padding, draws to each
      later axis one axis width further, and ends on the last axis at the
      right padding. */
  lemma LineShape(item: Item, dims: seq<Dimension>, scales: map<string, Scale>, width: real, height: real)
    requires |dims| >= 2
    requires forall i :: 0 <= i < |dims| ==> Plottable(Get(item, dims[i].key), dims[i], scales)
    ensures var line := Line(item, dims, scales, width, height);
            line[0].move && line[0].x == Pad
            && (forall i :: 1 <= i < |dims| ==> !line[i].move && line[i].x == line[i - 1].x + AxisWidth(width, |dims|))
            && line[|dims| - 1].x == width - Pad
  {
    AxisSpacing(width, |dims|);
  }

  lemma Step(w: real, i: nat)
    requires i >= 1
    ensures Pad + i as real * w == (Pad + (i - 1) as real * w) + w
  {
  }

  // ------------------------------------------------------------ brushing

  /** A brushed extent `[start, end]`. */
  datatype Extent = Extent(start: real, end: real)

  /** Every brushed key has a scale, with categories on categorical ones. */
  predicate Brushable(brushes: map<string, Extent>, scales: map<string, Scale>)
  {
    forall k :: k in brushes ==> k in scales && (scales[k].kind == Category ==> scales[k].categories.Some?)
  }

  /** One brush passes an item: the number, or the category's index,
      lies in the extent, ends included. A missing or non-numeric value on
      a numeric axis fails. */
  predicate Passes(value: Value, e: Extent, sc: Scale)
    requires sc.kind == Category ==> sc.categories.Some?
  {
    match sc.kind
    case Number => value.Num? && e.start <= value.x <= e.end
    case Category =>
      var index := IndexOf(sc.categories.value, value) as real;
      e.start <= index <= e.end
  }

  /** `isLineFiltered`: every brush passes the item. */
  predicate Shown(item: Item, brushes: map<string, Extent>, scales: map<string, Scale>)
    requires Brushable(brushes, scales)
  {
    forall k :: k in brushes ==> Passes(Get(item, k), brushes[k], scales[k])
  }

  /** With no brushes every line shows; brushing a key shows exactly the
      lines the other brushes show that also pass the new extent. */
  lemma BrushNarrows(item: Item, brushes: map<string, Extent>, scales: map<string, Scale>, key: string, e: Extent)
    requires Brushable(brushes, scales) && key in scales
    requires scales[key].kind == Category ==> scales[key].categories.Some?
    ensures Shown(item, map[], scales)
    ensures Brushable(brushes[key := e], scales)
    ensures Shown(item, brushes[key := e], scales)
            <==> Shown(item, brushes - {key}, scales) && Passes(Get(item, key), e, scales[key])
  {
    var b := brushes[key := e];
    if Shown(item, brushes - {key}, scales) && Passes(Get(item, key), e, scales[key]) {
      forall k | k in b ensures Passes(Get(item, k), b[k], scales[k]) {
        if k != key {
          assert k in brushes - {key};
        }
      }
    }
  }

  // ------------------------------------------------------------ the component

  class Chart {
    const data: seq<Item>
    const dimensions: seq<Dimension>
    const width: real
    const height: real
    var scales: map<string, Scale>
    var hovered: Option<Item>
    var selected: Option<Dimension>
    var brushes: map<string, Extent>

    constructor (data: seq<Item>, dimensions: seq<Dimension>, width: real, height: real)
      ensures this.data == data && this.dimensions == dimensions
      ensures this.width == width && this.height == height
      ensures scales == map[] && hovered == None && selected == None && brushes == map[]
    {
      this.data := data;
      this.dimensions := dimensions;
      this.width := width;
      this.height := height;
      scales := map[];
      hovered := None;
      selected := None;
      brushes := map[];
    }

    /** The scales effect: a scale per dimension, replacing the old ones. */
    method ComputeScales()
      requires forall d :: d in dimensions ==> Scalable(data, d)
      modifies this
      ensures scales == Scales(data, dimensions)
      ensures hovered == old(hovered) && selected == old(selected) && brushes == old(brushes)
    {
      var newScales: map<string, Scale> := map[];
      var i := 0;
      while i < |dimensions|
        invariant 0 <= i <= |dimensions|
        invariant newScales == Scales(data, dimensions[..i])
      {
        var dim := dimensions[i];
        newScales := newScales[dim.key := ScaleOf(data, dim)];
        assert dimensions[..i + 1][..i] == dimensions[..i];
        i := i + 1;
      }
      assert dimensions[..i] == dimensions;
      scales := newScales;
    }

    /** `handleMouseMove`: select the axis nearest the pointer when there is
        one, and hover the item. */
    method MouseMove(x: real, item: Item)
      requires |dimensions| >= 2 && width != Pad + Pad
      modifies this
      ensures hovered == Some(item)
      ensures scales == old(scales) && brushes == old(brushes)
      ensures var index := Round((x - Pad) / AxisWidth(width, |dimensions|));
              selected == if 0 <= index < |dimensions| then Some(dimensions[index]) else old(selected)
    {
      var axisWidth := AxisWidth(width, |dimensions|);
      var index := Round((x - Pad) / axisWidth);
      if 0 <= index < |dimensions| {
        selected := Some(dimensions[index]);
      }
      hovered := Some(item);
    }

    /** Leaving the chart clears the hover and the selection. */
    method MouseLeave()
      modifies this
      ensures hovered == None && selected == None
      ensures scales == old(scales) && brushes == old(brushes)
    {
      hovered := None;
      selected := None;
    }

    /** `handleBrush`: replace one key's extent, keep every other. */
    method Brush(dim: Dimension, e: Extent)
      modifies this
      ensures brushes == old(brushes)[dim.key := e]
      ensures scales == old(scales) && hovered == old(hovered) && selected == old(selected)
    {
      brushes := brushes[dim.key := e];
    }
  }

  /** The axis `MouseMove` selects is the one nearest the x it is given: its
      x is within half an axis width of that x. The source computes that x
      as `clientX` minus the left edge of the hovered path's bounding box;
      the model takes it as a parameter. */
  lemma NearestAxis(x: real, width: real, count: nat)
    requires count >= 2 && width > Pad + Pad
    ensures var w := AxisWidth(width, count);
            var index := Round((x - Pad) / w);
            x - w / 2.0 < Pad + index as real * w <= x + w / 2.0
  {
    var w := AxisWidth(width, count);
    var r := (x - Pad) / w;
    var index := Round(r);
    assert w > 0.0;
    assert r * w == x - Pad;
    ScaleBy(r - 0.5, index as real, w);
    ScaleBy(index as real, r + 0.5, w);
  }

  lemma ScaleBy(a: real, b: real, w: real)
    requires w > 0.0
    ensures a < b ==> a * w < b * w
    ensures a <= b ==> a * w <= b * w
  {
  }
}
