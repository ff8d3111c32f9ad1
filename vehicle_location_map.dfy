/** The marker data of `VehicleLocationMap`: the "Vehicle Location" text of
    each row is matched against `POINT \((-?\d+\.\d+) (-?\d+\.\d+)\)`, and
    up to 200 rows with a location become markers at `[lat, lng]`. */
module VehicleLocationMap {
  import opened Options
  import Seqs
  import Text
  import Vehicles

  /** A number the pattern `-?\d+\.\d+` matched: its sign, its whole digits
      and its fraction digits. */
  datatype Number = Number(negative: bool, whole: string, fraction: string)

  /** A marker's key: the row's "DOL Vehicle ID", or the count of markers
      collected before it when that field is falsy. */
  datatype MarkerId = VehicleId(text: string) | Counted(n: nat)

  datatype Marker = Marker(id: MarkerId, lat: real, lng: real,
                           make: Option<string>, model: Option<string>, year: Option<string>,
                           evType: Option<string>, city: Option<string>, county: Option<string>)

  /** A row whose location matched, with the two numbers read. */
  datatype Located = Located(row: Vehicles.Record, lat: real, lng: real)

  const SampleSize: nat := 200

  const Prefix := "POINT ("

  predicate WellFormed(n: Number)
  {
    |n.whole| > 0 && |n.fraction| > 0 && Text.AllDigits(n.whole) && Text.AllDigits(n.fraction)
  }

  /** The text the pattern matched for a number. */
  function Render(n: Number): string
  {
    (if n.negative then "-" else "") + n.whole + "." + n.fraction
  }

  /** `parseFloat` of a matched number, as an exact decimal. */
  function Value(n: Number): real
    requires WellFormed(n)
  {
    var v := Text.DecimalValue(n.whole, n.fraction);
    if n.negative then -v else v
  }

  // ------------------------------------------------------------ matching

  /** Where the run of digits starting at `p` ends (`\d*`, greedy). */
  function RunEnd(s: string, p: nat): (e: nat)
    requires p <= |s|
    ensures p <= e <= |s|
    ensures forall k :: p <= k < e ==> Text.IsDigit(s[k])
    ensures e < |s| ==> !Text.IsDigit(s[e])
    decreases |s| - p
  {
    if p < |s| && Text.IsDigit(s[p]) then RunEnd(s, p + 1) else p
  }

  /** `-?\d+\.\d+` at position `p`: the number and where it ends. The
      pattern is deterministic: the digit runs are maximal, since giving
      back a digit leaves a digit where `.` or what follows is needed. */
  function NumberAt(s: string, p: nat): (r: Option<(Number, nat)>)
    requires p <= |s|
    ensures r.Some? ==> WellFormed(r.value.0) && p < r.value.1 <= |s|
  {
    var negative := p < |s| && s[p] == '-';
    var q := if negative then p + 1 else p;
    var dot := RunEnd(s, q);
    if dot == q || dot >= |s| || s[dot] != '.' then None
    else
      var end := RunEnd(s, dot + 1);
      if end == dot + 1 then None
      else Some((Number(negative, s[q..dot], s[dot + 1..end]), end))
  }

  /** "POINT (" at position `p`. */
  predicate PrefixAt(s: string, p: nat)
  {
    p + |Prefix| <= |s| && s[p..p + |Prefix|] == Prefix
  }

  /** The whole pattern at position `p`: longitude, then latitude. */
  function MatchAt(s: string, p: nat): Option<(Number, Number)>
    requires p <= |s|
  {
    if !PrefixAt(s, p) then None
    else
      match NumberAt(s, p + |Prefix|)
      case None => None
      case Some((lng, e1)) =>
        if e1 >= |s| || s[e1] != ' ' then None
        else
          match NumberAt(s, e1 + 1)
          case None => None
          case Some((lat, e2)) => if e2 < |s| && s[e2] == ')' then Some((lng, lat)) else None
  }

  /** The outcome of the pattern at each position of `s`. */
  function Attempts(s: string): (r: seq<Option<(Number, Number)>>)
    ensures |r| == |s| + 1
  {
    seq(|s| + 1, q requires 0 <= q <= |s| => MatchAt(s, q))
  }

  /** `String.prototype.match`: the match at the first position where the
      pattern matches. */
  function Search(s: string): (r: Option<(Number, Number)>)
    ensures r.Some? ==> WellFormed(r.value.0) && WellFormed(r.value.1)
  {
    var q := FirstFound(Attempts(s), 0);
    if q <= |s| then MatchIsPoint(s, q); MatchAt(s, q) else None
  }

  /** The location of a row, as `(lat, lng)`: the second number is the
      latitude and the first the longitude. */
  function Location(text: string): Option<(real, real)>
  {
    match Search(text)
    case None => None
    case Some((lng, lat)) => Some((Value(lat), Value(lng)))
  }

  // ------------------------------------------------------------ match lemmas

  /** The text a match stands for. */
  function Point(lng: Number, lat: Number): string
  {
    Prefix + Render(lng) + " " + Render(lat) + ")"
  }

  lemma Slices(s: string, a: nat, b: nat, c: nat)
    requires a <= b <= c <= |s|
    ensures s[a..c] == s[a..b] + s[b..c]
  {
  }

  /** A number read at `p` is the text from `p` to its end. */
  lemma NumberText(s: string, p: nat)
    requires p <= |s| && NumberAt(s, p).Some?
    ensures s[p..NumberAt(s, p).value.1] == Render(NumberAt(s, p).value.0)
  {
    var negative := p < |s| && s[p] == '-';
    var q := if negative then p + 1 else p;
    var dot := RunEnd(s, q);
    var end := RunEnd(s, dot + 1);
    Slices(s, p, q, dot);
    Slices(s, p, dot, end);
    Slices(s, dot, dot + 1, end);
    assert s[dot..dot + 1] == ".";
    if negative {
      assert s[p..q] == "-";
    }
  }

  /** A match at `p` is the text `POINT (lng lat)` there. */
  lemma MatchIsPoint(s: string, p: nat)
    requires p <= |s| && MatchAt(s, p).Some?
    ensures var m := MatchAt(s, p).value;
            WellFormed(m.0) && WellFormed(m.1)
            && p + |Point(m.0, m.1)| <= |s| && s[p..p + |Point(m.0, m.1)|] == Point(m.0, m.1)
  {
    var lng, e1, lat, e2 := MatchAtSome(s, p);
    PointAt(s, p, lng, e1, lat, e2);
  }

  /** A match at `p` is made of the prefix, a number, a space, a number
      and `)`, at the positions returned. */
  lemma MatchAtSome(s: string, p: nat) returns (lng: Number, e1: nat, lat: Number, e2: nat)
    requires p <= |s| && MatchAt(s, p).Some?
    ensures MatchAt(s, p) == Some((lng, lat)) && PrefixAt(s, p)
    ensures NumberAt(s, p + |Prefix|) == Some((lng, e1)) && e1 < |s| && s[e1] == ' '
    ensures NumberAt(s, e1 + 1) == Some((lat, e2)) && e2 < |s| && s[e2] == ')'
  {
    lng, e1 := NumberAt(s, p + |Prefix|).value.0, NumberAt(s, p + |Prefix|).value.1;
    lat, e2 := NumberAt(s, e1 + 1).value.0, NumberAt(s, e1 + 1).value.1;
  }

  /** The prefix and the two numbers found, with their separators, spell
      the text of the point. */
  lemma PointAt(s: string, p: nat, lng: Number, e1: nat, lat: Number, e2: nat)
    requires PrefixAt(s, p)
    requires NumberAt(s, p + |Prefix|) == Some((lng, e1)) && e1 < |s| && s[e1] == ' '
    requires NumberAt(s, e1 + 1) == Some((lat, e2)) && e2 < |s| && s[e2] == ')'
    ensures WellFormed(lng) && WellFormed(lat)
    ensures p + |Point(lng, lat)| <= |s| && s[p..p + |Point(lng, lat)|] == Point(lng, lat)
  {
    NumberText(s, p + |Prefix|);
    NumberText(s, e1 + 1);
    PointText(s, p, lng, e1, lat, e2);
  }

  /** The pieces of a match, put together, are the text of the match. */
  lemma PointText(s: string, p: nat, lng: Number, e1: nat, lat: Number, e2: nat)
    requires p + |Prefix| <= e1 < e2 < |s| && s[p..p + |Prefix|] == Prefix
    requires s[p + |Prefix|..e1] == Render(lng) && s[e1] == ' '
    requires s[e1 + 1..e2] == Render(lat) && s[e2] == ')'
    ensures p + |Point(lng, lat)| == e2 + 1 <= |s|
    ensures s[p..p + |Point(lng, lat)|] == Point(lng, lat)
  {
    var start := p + |Prefix|;
    Slices(s, p, start, e1);
    Slices(s, p, e1, e1 + 1);
    Slices(s, p, e1 + 1, e2);
    Slices(s, p, e2, e2 + 1);
    assert s[e1..e1 + 1] == " " && s[e2..e2 + 1] == ")";
  }

  /** The run of digits from `q` ends at the first non-digit. */
  lemma {:induction false} RunEndAt(s: string, q: nat, e: nat)
    requires q <= e <= |s| && Text.AllDigits(s[q..e])
    requires e == |s| || !Text.IsDigit(s[e])
    ensures RunEnd(s, q) == e
    decreases e - q
  {
    if q < e {
      assert s[q] == s[q..e][0];
      assert s[q + 1..e] == s[q..e][1..];
      RunEndAt(s, q + 1, e);
    }
  }

  /** The text of a number at `p`, followed by no digit, is read back as
      that number. */
  lemma RenderedNumber(n: Number, s: string, p: nat)
    requires WellFormed(n) && p + |Render(n)| <= |s| && s[p..p + |Render(n)|] == Render(n)
    requires p + |Render(n)| == |s| || !Text.IsDigit(s[p + |Render(n)|])
    ensures NumberAt(s, p) == Some((n, p + |Render(n)|))
  {
    var q := if n.negative then p + 1 else p;
    var dot := q + |n.whole|;
    var end := dot + 1 + |n.fraction|;
    RenderedSlices(n, s, p);
    RunEndAt(s, q, dot);
    RunEndAt(s, dot + 1, end);
    NumberAtParts(s, p, q, dot, end);
  }

  /** Where a rendered number sits in `s`: its sign, digits and dot. */
  lemma RenderedSlices(n: Number, s: string, p: nat)
    requires WellFormed(n) && p + |Render(n)| <= |s| && s[p..p + |Render(n)|] == Render(n)
    ensures var q := if n.negative then p + 1 else p;
            var dot := q + |n.whole|;
            (p < |s| && s[p] == '-') == n.negative
            && s[q..dot] == n.whole && s[dot] == '.'
            && s[dot + 1..dot + 1 + |n.fraction|] == n.fraction
  {
    var q := if n.negative then p + 1 else p;
    var dot := q + |n.whole|;
    var end := dot + 1 + |n.fraction|;
    RenderParts(n);
    SliceOfSlice(s, p, Render(n), q, dot);
    SliceOfSlice(s, p, Render(n), dot + 1, end);
    assert s[dot] == Render(n)[dot - p];
    if !n.negative {
      assert s[p] == s[q..dot][0];
    } else {
      assert s[p] == Render(n)[0];
    }
  }

  /** `NumberAt` once its sign, dot and end are known. */
  lemma NumberAtParts(s: string, p: nat, q: nat, dot: nat, end: nat)
    requires p <= q <= |s| && q == (if p < |s| && s[p] == '-' then p + 1 else p)
    requires RunEnd(s, q) == dot && q < dot < |s| && s[dot] == '.'
    requires RunEnd(s, dot + 1) == end && dot + 1 < end
    ensures NumberAt(s, p) == Some((Number(q > p, s[q..dot], s[dot + 1..end]), end))
  {
  }

  /** The parts of a rendered number. */
  lemma RenderParts(n: Number)
    ensures var t := Render(n);
            var d := if n.negative then 1 else 0;
            |t| == d + |n.whole| + 1 + |n.fraction|
            && (n.negative ==> t[0] == '-')
            && t[d..d + |n.whole|] == n.whole && t[d + |n.whole|] == '.'
            && t[d + |n.whole| + 1..] == n.fraction
  {
    var sign := if n.negative then "-" else "";
    assert Render(n) == sign + n.whole + "." + n.fraction;
  }

  /** Inside a slice equal to `t`, a slice of `s` is the matching slice of `t`. */
  lemma SliceOfSlice(s: string, p: nat, t: string, a: nat, b: nat)
    requires p + |t| <= |s| && s[p..p + |t|] == t && p <= a <= b <= p + |t|
    ensures s[a..b] == t[a - p..b - p]
  {
    assert forall k :: a <= k < b ==> s[k] == s[p..p + |t|][k - p];
  }

  /** `MatchAt` once its two numbers and their ends are known. */
  lemma MatchAtParts(s: string, p: nat, lng: Number, e1: nat, lat: Number, e2: nat)
    requires PrefixAt(s, p)
    requires NumberAt(s, p + |Prefix|) == Some((lng, e1)) && e1 < |s| && s[e1] == ' '
    requires NumberAt(s, e1 + 1) == Some((lat, e2)) && e2 < |s| && s[e2] == ')'
    ensures MatchAt(s, p) == Some((lng, lat))
  {
  }

  /** The parts of the text of a match. */
  lemma PointParts(lng: Number, lat: Number)
    ensures var t := Point(lng, lat);
            var e1 := |Prefix| + |Render(lng)|;
            |t| == e1 + 1 + |Render(lat)| + 1
            && t[..|Prefix|] == Prefix && t[|Prefix|..e1] == Render(lng) && t[e1] == ' '
            && t[e1 + 1..e1 + 1 + |Render(lat)|] == Render(lat) && t[|t| - 1] == ')'
  {
    assert Point(lng, lat) == Prefix + Render(lng) + " " + Render(lat) + ")";
  }

  /** Conversely, the text `POINT (lng lat)` at `p` is a match there. */
  lemma PointMatches(s: string, p: nat, lng: Number, lat: Number)
    requires WellFormed(lng) && WellFormed(lat)
    requires p + |Point(lng, lat)| <= |s| && s[p..p + |Point(lng, lat)|] == Point(lng, lat)
    ensures MatchAt(s, p) == Some((lng, lat))
  {
    PointPieces(s, p, lng, lat);
    PiecesMatch(s, p, lng, p + |Prefix| + |Render(lng)|, lat, p + |Prefix| + |Render(lng)| + 1 + |Render(lat)|);
  }

  lemma PiecesMatch(s: string, p: nat, lng: Number, e1: nat, lat: Number, e2: nat)
    requires WellFormed(lng) && WellFormed(lat) && PrefixAt(s, p)
    requires e1 == p + |Prefix| + |Render(lng)| && e2 == e1 + 1 + |Render(lat)| && e2 < |s|
    requires s[p + |Prefix|..e1] == Render(lng) && s[e1] == ' '
    requires s[e1 + 1..e2] == Render(lat) && s[e2] == ')'
    ensures MatchAt(s, p) == Some((lng, lat))
  {
    RenderedNumber(lng, s, p + |Prefix|);
    RenderedNumber(lat, s, e1 + 1);
    MatchAtParts(s, p, lng, e1, lat, e2);
  }

  /** Where the pieces of `POINT (lng lat)` sit when it is found at `p`. */
  lemma PointPieces(s: string, p: nat, lng: Number, lat: Number)
    requires p + |Point(lng, lat)| <= |s| && s[p..p + |Point(lng, lat)|] == Point(lng, lat)
    ensures var start := p + |Prefix|;
            var e1 := start + |Render(lng)|;
            var e2 := e1 + 1 + |Render(lat)|;
            e2 < |s| && PrefixAt(s, p)
            && s[start..e1] == Render(lng) && s[e1] == ' '
            && s[e1 + 1..e2] == Render(lat) && s[e2] == ')'
  {
    var t := Point(lng, lat);
    var start := p + |Prefix|;
    var e1 := start + |Render(lng)|;
    var e2 := e1 + 1 + |Render(lat)|;
    PointParts(lng, lat);
    SliceOfSlice(s, p, t, p, start);
    SliceOfSlice(s, p, t, start, e1);
    SliceOfSlice(s, p, t, e1 + 1, e2);
    assert s[e1] == t[e1 - p] && s[e2] == t[e2 - p];
  }

  /** The position of the first match from `p` on, or the length when
      there is none. */
  function FirstFound<T>(xs: seq<Option<T>>, p: nat): (q: nat)
    requires p <= |xs|
    ensures p <= q <= |xs|
    ensures q < |xs| ==> xs[q].Some?
    ensures forall r :: p <= r < q ==> xs[r].None?
    decreases |xs| - p
  {
    if p == |xs| || xs[p].Some? then p else FirstFound(xs, p + 1)
  }

  /** A match needs a '.' in the text. */
  lemma MatchNeedsDot(s: string, q: nat)
    requires q <= |s| && MatchAt(s, q).Some?
    ensures exists k :: q <= k < |s| && s[k] == '.'
  {
    var start := q + |Prefix|;
    var negative := s[start] == '-';
    var dot := RunEnd(s, if negative then start + 1 else start);
    assert s[dot] == '.';
  }

  /** A text that never contains "POINT (" (for instance "POINT(1.5 2.5)",
      without the space) has no location. */
  lemma NoPrefixNoLocation(s: string)
    requires forall p :: 0 <= p <= |s| ==> !PrefixAt(s, p)
    ensures Location(s) == None
  {
    assert forall q :: 0 <= q <= |s| ==> Attempts(s)[q].None?;
  }

  /** A text with no '.' (whole numbers only, "POINT (1 2)") has no location. */
  lemma NoFractionNoLocation(s: string)
    requires forall k :: 0 <= k < |s| ==> s[k] != '.'
    ensures Location(s) == None
  {
    forall q | 0 <= q <= |s|
      ensures MatchAt(s, q).None?
    {
      if MatchAt(s, q).Some? {
        MatchNeedsDot(s, q);
      }
    }
    assert forall q :: 0 <= q <= |s| ==> Attempts(s)[q].None?;
  }

  /** The text at the head of a location is read in full: the first number
      is the longitude and the second the latitude. */
  lemma PointLocation(lng: Number, lat: Number, rest: string)
    requires WellFormed(lng) && WellFormed(lat)
    ensures Location(Point(lng, lat) + rest) == Some((Value(lat), Value(lng)))
  {
    var s := Point(lng, lat) + rest;
    assert s[0..|Point(lng, lat)|] == Point(lng, lat);
    PointMatches(s, 0, lng, lat);
    assert Attempts(s)[0].Some?;
  }

  /** The form the data set uses: the marker goes to latitude 47.610365,
      longitude -122.30839. */
  lemma ExampleLocation()
    ensures Location("POINT (-122.30839 47.610365)") == Some((47.610365, -122.30839))
  {
    var lng := Number(true, "122", "30839");
    var lat := Number(false, "47", "610365");
    ExampleText();
    PointLocation(lng, lat, "");
    ExampleValues();
  }

  lemma ExampleText()
    ensures Point(Number(true, "122", "30839"), Number(false, "47", "610365")) + ""
         == "POINT (-122.30839 47.610365)"
  {
  }

  lemma ExampleValues()
    ensures WellFormed(Number(true, "122", "30839")) && WellFormed(Number(false, "47", "610365"))
    ensures Value(Number(true, "122", "30839")) == -122.30839
    ensures Value(Number(false, "47", "610365")) == 47.610365
  {
    ExampleLongitude();
    ExampleLatitude();
  }

  lemma ExampleLongitude()
    ensures WellFormed(Number(true, "122", "30839")) && Value(Number(true, "122", "30839")) == -122.30839
  {
    assert Text.DigitsValue("122") == 122 by {
      assert "122"[..2] == "12" && "12"[..1] == "1" && "1"[..0] == "";
    }
    assert Text.DigitsValue("30839") == 30839 by {
      assert "30839"[..4] == "3083" && "3083"[..3] == "308" && "308"[..2] == "30";
      assert "30"[..1] == "3" && "3"[..0] == "";
    }
    assert Text.Pow10(5) == 100000;
  }

  lemma ExampleLatitude()
    ensures WellFormed(Number(false, "47", "610365")) && Value(Number(false, "47", "610365")) == 47.610365
  {
    assert Text.DigitsValue("47") == 47 by {
      assert "47"[..1] == "4" && "4"[..0] == "";
    }
    assert Text.DigitsValue("610365") == 610365 by {
      assert "610365"[..5] == "61036" && "61036"[..4] == "6103" && "6103"[..3] == "610";
      assert "610"[..2] == "61" && "61"[..1] == "6" && "6"[..0] == "";
    }
    assert Text.Pow10(6) == 1000000;
  }

  // ------------------------------------------------------------ sampling

  /** `if (item["Vehicle Location"])` and a match: the row and its location. */
  function LocateRow(r: Vehicles.Record): Option<Located>
  {
    var text := Vehicles.Field(r, "Vehicle Location");
    if Vehicles.Falsy(text) then None
    else
      match Location(text.value)
      case None => None
      case Some((lat, lng)) => Some(Located(r, lat, lng))
  }

  /** Every row with a location, in order. */
  function AllLocated(data: seq<Vehicles.Record>): (r: seq<Located>)
    ensures |r| <= |data|
  {
    if data == [] then []
    else
      var last := LocateRow(data[|data| - 1]);
      AllLocated(data[..|data| - 1]) + (if last.Some? then [last.value] else [])
  }

  /** The object pushed for the `n`-th located row. */
  function ToMarker(l: Located, n: nat): Marker
  {
    var dol := Vehicles.Field(l.row, "DOL Vehicle ID");
    Marker(if Vehicles.Falsy(dol) then Counted(n) else VehicleId(dol.value), l.lat, l.lng,
           Vehicles.Field(l.row, "Make"), Vehicles.Field(l.row, "Model"), Vehicles.Field(l.row, "Model Year"),
           Vehicles.Field(l.row, "Electric Vehicle Type"), Vehicles.Field(l.row, "City"), Vehicles.Field(l.row, "County"))
  }

  function Markers(ls: seq<Located>): (ms: seq<Marker>)
    ensures |ms| == |ls|
  {
    seq(|ls|, k requires 0 <= k < |ls| => ToMarker(ls[k], k))
  }

  lemma MarkersAppend(ls: seq<Located>, l: Located)
    ensures Markers(ls + [l]) == Markers(ls) + [ToMarker(l, |ls|)]
  {
  }

  /** The markers of the first 200 located rows. */
  function Sample(data: seq<Vehicles.Record>): seq<Marker>
  {
    Markers(Seqs.Take(AllLocated(data), SampleSize))
  }

  lemma {:induction false} AllLocatedAppend(a: seq<Vehicles.Record>, b: seq<Vehicles.Record>)
    ensures AllLocated(a + b) == AllLocated(a) + AllLocated(b)
    decreases |b|
  {
    if b == [] {
      assert a + b == a;
    } else {
      var init, last := b[..|b| - 1], LocateRow(b[|b| - 1]);
      var tail := if last.Some? then [last.value] else [];
      AllLocatedAppend(a, init);
      assert AllLocated(a + b) == AllLocated(a + init) + tail by {
        assert (a + b)[..|a + b| - 1] == a + init;
        assert (a + b)[|a + b| - 1] == b[|b| - 1];
      }
    }
  }

  /** The sample holds at most 200 markers, as many as there are located
      rows up to that bound, each at the `(lat, lng)` of its row in input
      order, with the row's "DOL Vehicle ID" or its own index as key. */
  lemma SampleShape(data: seq<Vehicles.Record>)
    ensures var s := Sample(data);
            var ls := AllLocated(data);
            |s| == (if |ls| < SampleSize then |ls| else SampleSize)
            && forall k :: 0 <= k < |s| ==>
                 s[k].lat == ls[k].lat && s[k].lng == ls[k].lng
                 && (s[k].id == Counted(k) <==> Vehicles.Falsy(Vehicles.Field(ls[k].row, "DOL Vehicle ID")))
  {
  }

  /** A row is located exactly when its "Vehicle Location" is non-empty and
      matches, and then at the numbers of the first match. */
  lemma {:induction false} LocatedRows(data: seq<Vehicles.Record>, l: Located)
    ensures l in AllLocated(data) <==> l.row in data && LocateRow(l.row) == Some(l)
  {
    if data != [] {
      var p := data[..|data| - 1];
      LocatedRows(p, l);
      assert data == p + [data[|data| - 1]];
    }
  }

  /** The scan stops once 200 markers are collected: rows after that point
      change nothing. */
  lemma LaterRowsIgnored(data: seq<Vehicles.Record>, rest: seq<Vehicles.Record>)
    requires |AllLocated(data)| >= SampleSize
    ensures Sample(data + rest) == Sample(data)
  {
    AllLocatedAppend(data, rest);
    assert Seqs.Take(AllLocated(data + rest), SampleSize) == Seqs.Take(AllLocated(data), SampleSize);
  }

  /** Rows without a location do not advance the count: appending one
      leaves the sample as it was. */
  lemma UnlocatedRowIgnored(data: seq<Vehicles.Record>, r: Vehicles.Record)
    requires LocateRow(r).None?
    ensures Sample(data + [r]) == Sample(data)
  {
    AllLocatedAppend(data, [r]);
    assert [r][..0] == [];
    assert AllLocated([r]) == [];
  }

  // ------------------------------------------------------------ the loop

  /** One more row scanned adds its location, if it has one. */
  lemma ScanStep(data: seq<Vehicles.Record>, i: nat)
    requires i < |data|
    ensures AllLocated(data[..i + 1])
            == AllLocated(data[..i]) + (if LocateRow(data[i]).Some? then [LocateRow(data[i]).value] else [])
  {
    assert data[..i + 1][..i] == data[..i];
  }

  /** Where the scan stops, at the end of the rows or with 200 markers, the
      rows scanned give the whole sample. */
  lemma ScanDone(data: seq<Vehicles.Record>, i: nat)
    requires i <= |data| && |AllLocated(data[..i])| <= SampleSize
    requires i == |data| || |AllLocated(data[..i])| == SampleSize
    ensures Sample(data) == Markers(AllLocated(data[..i]))
  {
    assert data[..i] + data[i..] == data;
    AllLocatedAppend(data[..i], data[i..]);
    assert AllLocated(data)[..|AllLocated(data[..i])|] == AllLocated(data[..i]);
  }

  /** The effect: with no rows nothing happens (the map stays loading);
      otherwise the rows are scanned until 200 markers are collected. */
  method ProcessData(data: seq<Vehicles.Record>) returns (mapData: Option<seq<Marker>>)
    ensures data == [] ==> mapData == None
    ensures data != [] ==> mapData == Some(Sample(data))
  {
    if |data| == 0 {
      return None;
    }
    var processed: seq<Marker> := [];
    var count := 0;
    var i := 0;
    while i < |data| && count < SampleSize
      invariant 0 <= i <= |data| && count == |processed| == |AllLocated(data[..i])| <= SampleSize
      invariant processed == Markers(AllLocated(data[..i]))
    {
      var located := LocateRow(data[i]);
      ScanStep(data, i);
      if located.Some? {
        var item := located.value;
        MarkersAppend(AllLocated(data[..i]), item);
        processed := processed + [ToMarker(item, count)];
        count := count + 1;
      }
      i := i + 1;
    }
    ScanDone(data, i);
    mapData := Some(processed);
  }
}
