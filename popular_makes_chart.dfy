/** Popular makes over the years: vehicles counted per make and model year,
    the five makes with the most vehicles, and one row per model year with
    each of those makes' count in that year. */
module PopularMakesChart {
  import opened JsObject
  import Seqs
  import Sorting
  import Text
  import opened Options
  import opened Vehicles

  const TopN: nat := 5

  /** One property of `makeYearData`: a make and its per-year counts. */
  datatype MakeYears = MakeYears(make: string, years: seq<Entry>)

  /** One element of `chartData`: the year and, for each top make in order,
      its count in that year. */
  datatype YearRow = YearRow(year: string, counts: seq<nat>)

  /** `Object.values(years).reduce((sum, count) => sum + count, 0)` lists
      the counts in property order; the sum does not depend on that order. */
  lemma ValuesSum(years: seq<Entry>)
    ensures Total(Entries(years)) == Total(years)
  {
    EntriesPermutation(years);
    TotalPermutation(Entries(years), years);
  }

  /** `{ make, count }` for every make, in the dictionary's own order. */
  function MakeTotals(acc: seq<MakeYears>): (t: seq<Entry>)
    ensures |t| == |acc|
    ensures forall i :: 0 <= i < |acc| ==> t[i] == Entry(acc[i].make, Total(acc[i].years))
  {
    seq(|acc|, i requires 0 <= i < |acc| => Entry(acc[i].make, Total(acc[i].years)))
  }

  /** Where make `m` sits in `makeYearData`, if it is there. */
  function FindMake(acc: seq<MakeYears>, m: string): Option<nat>
  {
    Find(MakeTotals(acc), m)
  }

  /** One step of the reduce: `acc[make]` is created empty if missing, then
      `acc[make][year] = (acc[make][year] || 0) + 1`. */
  function AddVehicle(acc: seq<MakeYears>, make: string, year: string): seq<MakeYears>
  {
    match FindMake(acc, make)
    case Some(i) => acc[i := MakeYears(make, Bump(acc[i].years, year))]
    case None => acc + [MakeYears(make, Bump([], year))]
  }

  /** `makeYearData` after the reduce over `data`. */
  function Grouped(data: seq<Record>): seq<MakeYears>
  {
    if data == [] then []
    else
      var r := data[|data| - 1];
      AddVehicle(Grouped(data[..|data| - 1]), Key(r, "Make"), Key(r, "Model Year"))
  }

  /** The reduce, updating the nested dictionary in place. */
  method GroupByMakeYear(data: seq<Record>) returns (acc: seq<MakeYears>)
    ensures acc == Grouped(data)
  {
    acc := [];
    for i := 0 to |data|
      invariant acc == Grouped(data[..i])
    {
      var make, year := Key(data[i], "Make"), Key(data[i], "Model Year");
      var j := LookUpMake(acc, make);
      GroupedStep(data, i);
      AddVehicleAt(acc, make, year, j);
      if j < |acc| {
        acc := acc[j := MakeYears(make, Bump(acc[j].years, year))];
      } else {
        acc := acc + [MakeYears(make, Bump([], year))];
      }
    }
    assert data[..|data|] == data;
  }

  lemma GroupedStep(data: seq<Record>, i: nat)
    requires i < |data|
    ensures Grouped(data[..i + 1]) == AddVehicle(Grouped(data[..i]), Key(data[i], "Make"), Key(data[i], "Model Year"))
  {
    assert data[..i + 1][..i] == data[..i];
  }

  /** The property lookup `acc[make]`: the position of `make`, or `|acc|`. */
  method LookUpMake(acc: seq<MakeYears>, make: string) returns (j: nat)
    ensures j <= |acc|
    ensures FindMake(acc, make) == if j < |acc| then Some(j) else None
  {
    j := 0;
    while j < |acc| && acc[j].make != make
      invariant 0 <= j <= |acc|
      invariant forall m :: 0 <= m < j ==> acc[m].make != make
    {
      j := j + 1;
    }
    FindAt(MakeTotals(acc), make, j);
  }

  /** `makeYearData[make]?.[year] || 0`. */
  function Cell(acc: seq<MakeYears>, m: string, y: string): nat
  {
    match FindMake(acc, m)
    case Some(i) => CountOf(acc[i].years, y)
    case None => 0
  }

  /** The number of records with make `m` and model year `y`. */
  function PairCount(data: seq<Record>, m: string, y: string): nat
  {
    if data == [] then 0
    else
      var r := data[|data| - 1];
      PairCount(data[..|data| - 1], m, y) + (if Key(r, "Make") == m && Key(r, "Model Year") == y then 1 else 0)
  }

  /** `PairCount` of make `m` for each year of `ys`. */
  function PairCounts(data: seq<Record>, m: string, ys: seq<string>): (cs: seq<int>)
    ensures |cs| == |ys|
    ensures forall i :: 0 <= i < |ys| ==> cs[i] == PairCount(data, m, ys[i])
  {
    if ys == [] then [] else PairCounts(data, m, ys[..|ys| - 1]) + [PairCount(data, m, ys[|ys| - 1])]
  }

  /** `[...new Set(data.map(v => v["Model Year"]))].sort()`. */
  function AllYears(data: seq<Record>): seq<string>
  {
    Sorting.SortBy(Seqs.Dedup(Column(data, "Model Year")), Text.StrLe)
  }

  /** `yearData[make] = …` for every top make. */
  function Cells(acc: seq<MakeYears>, makes: seq<string>, y: string): (cs: seq<nat>)
    ensures |cs| == |makes|
    ensures forall j :: 0 <= j < |makes| ==> cs[j] == Cell(acc, makes[j], y)
  {
    seq(|makes|, j requires 0 <= j < |makes| => Cell(acc, makes[j], y))
  }

  /** The counts of the `j`-th top make, one per row. */
  function ColumnOf(rows: seq<YearRow>, j: nat): (cs: seq<int>)
    requires forall i :: 0 <= i < |rows| ==> j < |rows[i].counts|
    ensures |cs| == |rows|
    ensures forall i :: 0 <= i < |rows| ==> cs[i] == rows[i].counts[j]
  {
    seq(|rows|, i requires 0 <= i < |rows| => rows[i].counts[j])
  }

  /** The `allYears.map` building one row per year with its `forEach` over
      the top makes. */
  method YearRows(acc: seq<MakeYears>, topMakes: seq<string>, allYears: seq<string>)
    returns (rows: seq<YearRow>)
    ensures |rows| == |allYears|
    ensures forall i :: 0 <= i < |rows| ==> rows[i] == YearRow(allYears[i], Cells(acc, topMakes, allYears[i]))
  {
    rows := [];
    for i := 0 to |allYears|
      invariant |rows| == i
      invariant forall k :: 0 <= k < i ==> rows[k] == YearRow(allYears[k], Cells(acc, topMakes, allYears[k]))
    {
      var year := allYears[i];
      var counts := YearCells(acc, topMakes, year);
      rows := rows + [YearRow(year, counts)];
    }
  }

  /** The inner `forEach`: `yearData[make]` for each top make in turn. */
  method YearCells(acc: seq<MakeYears>, topMakes: seq<string>, year: string) returns (counts: seq<nat>)
    ensures counts == Cells(acc, topMakes, year)
  {
    counts := [];
    for j := 0 to |topMakes|
      invariant |counts| == j
      invariant forall k :: 0 <= k < j ==> counts[k] == Cell(acc, topMakes[k], year)
    {
      counts := counts + [Cell(acc, topMakes[j], year)];
    }
  }

  /** The whole component body: group, rank the makes, list the years and
      build the rows. `topMakes` are the five makes with the most vehicles in
      non-increasing order, no omitted make outnumbers a kept one, and every
      cell is the count of its make in its year, so each make's column adds
      up to that make's total. */
  method ChartData(data: seq<Record>) returns (topMakes: seq<string>, rows: seq<YearRow>)
    ensures topMakes == KeysOf(TopCounts(Column(data, "Make"), TopN))
    ensures |topMakes| <= TopN && Seqs.Distinct(topMakes)
    ensures forall i, j :: 0 <= i < j < |topMakes| ==>
      Seqs.Occurrences(Column(data, "Make"), topMakes[i]) >= Seqs.Occurrences(Column(data, "Make"), topMakes[j])
    ensures forall m :: m in Column(data, "Make") && m !in topMakes ==>
      |topMakes| == TopN
      && Seqs.Occurrences(Column(data, "Make"), m) <= Seqs.Occurrences(Column(data, "Make"), topMakes[TopN - 1])
    ensures |rows| == |AllYears(data)|
    ensures forall i :: 0 <= i < |rows| ==> rows[i].year == AllYears(data)[i] && |rows[i].counts| == |topMakes|
    ensures forall i, j :: 0 <= i < |rows| && 0 <= j < |topMakes| ==>
      rows[i].counts[j] == PairCount(data, topMakes[j], rows[i].year)
    ensures forall j :: 0 <= j < |topMakes| ==>
      Seqs.SumInt(ColumnOf(rows, j)) == Seqs.Occurrences(Column(data, "Make"), topMakes[j])
  {
    var acc := GroupByMakeYear(data);
    var makeCount := Seqs.Take(Sorting.SortBy(Entries(MakeTotals(acc)), ByCountDesc), TopN);
    topMakes := KeysOf(makeCount);
    var allYears := Sorting.SortBy(Seqs.Dedup(Column(data, "Model Year")), Text.StrLe);
    rows := YearRows(acc, topMakes, allYears);

    GroupedTotals(data);
    TopMakesProperties(data);
    RowsMeaning(data, topMakes, rows);
  }

  /** The top makes: at most five, distinct, in non-increasing total order,
      and no omitted make has more vehicles than the last kept one. */
  lemma TopMakesProperties(data: seq<Record>)
    ensures var makes := Column(data, "Make"); var top := KeysOf(TopCounts(makes, TopN));
      && |top| <= TopN && Seqs.Distinct(top)
      && (forall i, j :: 0 <= i < j < |top| ==>
            Seqs.Occurrences(makes, top[i]) >= Seqs.Occurrences(makes, top[j]))
      && (forall m :: m in makes && m !in top ==>
            |top| == TopN && Seqs.Occurrences(makes, m) <= Seqs.Occurrences(makes, top[TopN - 1]))
  {
    TopCountsProperties(Column(data, "Make"), TopN);
  }

  /** Rows built from `makeYearData` over `allYears` hold, for every top make,
      its count in that year, and each make's column sums to its total. */
  lemma RowsMeaning(data: seq<Record>, topMakes: seq<string>, rows: seq<YearRow>)
    requires |rows| == |AllYears(data)|
    requires forall i :: 0 <= i < |rows| ==> |rows[i].counts| == |topMakes|
    requires forall i :: 0 <= i < |rows| ==>
      rows[i] == YearRow(AllYears(data)[i], Cells(Grouped(data), topMakes, AllYears(data)[i]))
    ensures forall i, j :: 0 <= i < |rows| && 0 <= j < |topMakes| ==>
      rows[i].counts[j] == PairCount(data, topMakes[j], rows[i].year)
    ensures forall j :: 0 <= j < |topMakes| ==>
      Seqs.SumInt(ColumnOf(rows, j)) == Seqs.Occurrences(Column(data, "Make"), topMakes[j])
  {
    forall i, j | 0 <= i < |rows| && 0 <= j < |topMakes|
      ensures rows[i].counts[j] == PairCount(data, topMakes[j], rows[i].year)
    {
      GroupedCell(data, topMakes[j], rows[i].year);
    }
    AllYearsProperties(data);
    var allYears := AllYears(data);
    forall j | 0 <= j < |topMakes|
      ensures Seqs.SumInt(ColumnOf(rows, j)) == Seqs.Occurrences(Column(data, "Make"), topMakes[j])
    {
      assert ColumnOf(rows, j) == PairCounts(data, topMakes[j], allYears);
      assert forall i :: 0 <= i < |data| ==> Key(data[i], "Model Year") in Column(data, "Model Year");
      PairCountsSum(data, topMakes[j], allYears);
    }
  }

  lemma {:induction false} FindUpdated(d: seq<Entry>, i: nat, e: Entry, k: string)
    requires i < |d| && e.key == d[i].key
    ensures Find(d[i := e], k) == Find(d, k)
  {
    var d' := d[i := e];
    match Find(d, k)
    case Some(j) => FindAt(d', k, j);
    case None => FindAt(d', k, |d'|);
  }

  lemma {:induction false} FindExtended(d: seq<Entry>, e: Entry, k: string)
    ensures Find(d + [e], k) == if k == e.key && k !in KeysOf(d) then Some(|d|) else Find(d, k)
  {
    var d' := d + [e];
    match Find(d, k)
    case Some(j) => FindAt(d', k, j);
    case None =>
      if k == e.key {
        FindAt(d', k, |d|);
      } else {
        FindAt(d', k, |d'|);
      }
  }

  /** Adding one vehicle to `makeYearData` adds one to its make's total,
      exactly as counting its make alone would. */
  lemma AddVehicleTotals(acc: seq<MakeYears>, m: string, y: string)
    ensures MakeTotals(AddVehicle(acc, m, y)) == Bump(MakeTotals(acc), m)
  {
    var t := MakeTotals(acc);
    var f := Find(t, m);
    if f.Some? {
      var i := f.value;
      var e := MakeYears(m, Bump(acc[i].years, y));
      AddVehicleAt(acc, m, y, i);
      BumpAt(t, m, i);
      TotalBump(acc[i].years, y);
      TotalsUpdated(acc, i, e);
      assert Entry(e.make, Total(e.years)) == Entry(m, t[i].count + 1);
      calc {
        MakeTotals(AddVehicle(acc, m, y));
        MakeTotals(acc[i := e]);
        t[i := Entry(m, t[i].count + 1)];
        Bump(t, m);
      }
    } else {
      var e := MakeYears(m, Bump([], y));
      AddVehicleAt(acc, m, y, |acc|);
      BumpAt(t, m, |t|);
      TotalBump([], y);
      TotalsExtended(acc, e);
      assert Entry(e.make, Total(e.years)) == Entry(m, 1);
      calc {
        MakeTotals(AddVehicle(acc, m, y));
        MakeTotals(acc + [e]);
        t + [Entry(m, 1)];
        Bump(t, m);
      }
    }
  }

  /** `AddVehicle` when `make` is found at `j`, or missing when `j == |acc|`. */
  lemma AddVehicleAt(acc: seq<MakeYears>, make: string, year: string, j: nat)
    requires j <= |acc| && FindMake(acc, make) == if j < |acc| then Some(j) else None
    ensures AddVehicle(acc, make, year)
      == if j < |acc| then acc[j := MakeYears(make, Bump(acc[j].years, year))]
         else acc + [MakeYears(make, Bump([], year))]
  {
  }

  lemma TotalsUpdated(acc: seq<MakeYears>, i: nat, e: MakeYears)
    requires i < |acc|
    ensures MakeTotals(acc[i := e]) == MakeTotals(acc)[i := Entry(e.make, Total(e.years))]
  {
  }

  lemma TotalsExtended(acc: seq<MakeYears>, e: MakeYears)
    ensures MakeTotals(acc + [e]) == MakeTotals(acc) + [Entry(e.make, Total(e.years))]
  {
  }

  /** The make totals of `makeYearData` are the per-make counts, in the
      same order. */
  lemma {:induction false} GroupedTotals(data: seq<Record>)
    ensures MakeTotals(Grouped(data)) == Tallied(Column(data, "Make"))
  {
    if data != [] {
      var p := data[..|data| - 1];
      var r := data[|data| - 1];
      GroupedTotals(p);
      AddVehicleTotals(Grouped(p), Key(r, "Make"), Key(r, "Model Year"));
      var ms := Column(data, "Make");
      assert ms[..|ms| - 1] == Column(p, "Make");
    }
  }

  /** Adding one vehicle raises exactly its own (make, year) cell by one. */
  lemma AddVehicleCell(acc: seq<MakeYears>, m0: string, y0: string, m: string, y: string)
    ensures Cell(AddVehicle(acc, m0, y0), m, y)
      == Cell(acc, m, y) + (if m == m0 && y == y0 then 1 else 0)
  {
    var f := FindMake(acc, m0);
    if f.Some? {
      var i := f.value;
      assert AddVehicle(acc, m0, y0) == acc[i := MakeYears(m0, Bump(acc[i].years, y0))];
      CellUpdated(acc, i, m0, y0, m, y);
    } else {
      assert AddVehicle(acc, m0, y0) == acc + [MakeYears(m0, Bump([], y0))];
      CellExtended(acc, m0, y0, m, y);
    }
  }

  /** A vehicle of a make already present raises only its own cell. */
  lemma CellUpdated(acc: seq<MakeYears>, i: nat, m0: string, y0: string, m: string, y: string)
    requires i < |acc| && FindMake(acc, m0) == Some(i)
    ensures Cell(acc[i := MakeYears(m0, Bump(acc[i].years, y0))], m, y)
      == Cell(acc, m, y) + (if m == m0 && y == y0 then 1 else 0)
  {
    var t := MakeTotals(acc);
    var acc' := acc[i := MakeYears(m0, Bump(acc[i].years, y0))];
    var t' := MakeTotals(acc');
    assert t' == t[i := t'[i]];
    FindUpdated(t, i, t'[i], m);
    if m == m0 {
      CountOfBump(acc[i].years, y0, y);
    }
  }

  /** A vehicle of a new make adds that make with only its own cell set. */
  lemma CellExtended(acc: seq<MakeYears>, m0: string, y0: string, m: string, y: string)
    requires FindMake(acc, m0) == None
    ensures Cell(acc + [MakeYears(m0, Bump([], y0))], m, y)
      == Cell(acc, m, y) + (if m == m0 && y == y0 then 1 else 0)
  {
    var t := MakeTotals(acc);
    var acc' := acc + [MakeYears(m0, Bump([], y0))];
    var t' := MakeTotals(acc');
    assert t' == t + [t'[|t|]];
    FindExtended(t, t'[|t|], m);
    if m == m0 {
      CountOfBump([], y0, y);
    }
  }

  /** Every cell of `makeYearData` counts the records with its make and year. */
  lemma {:induction false} GroupedCell(data: seq<Record>, m: string, y: string)
    ensures Cell(Grouped(data), m, y) == PairCount(data, m, y)
  {
    if data != [] {
      var p := data[..|data| - 1];
      var r := data[|data| - 1];
      GroupedCell(p, m, y);
      AddVehicleCell(Grouped(p), Key(r, "Make"), Key(r, "Model Year"), m, y);
    }
  }

  /** `allYears` is strictly ascending in string order and holds exactly the
      model years of the records. */
  lemma {:induction false} AllYearsProperties(data: seq<Record>)
    ensures Sorting.SortedBy(AllYears(data), Text.StrLe)
    ensures Seqs.Distinct(AllYears(data))
    ensures forall y :: y in AllYears(data) <==> y in Column(data, "Model Year")
  {
    var ds := Seqs.Dedup(Column(data, "Model Year"));
    Text.StrLeTotalPreorder();
    Sorting.SortSorted(ds, Text.StrLe);
    Seqs.DedupProperties(Column(data, "Model Year"));
    Sorting.SortDistinct(ds, Text.StrLe);
    Sorting.SortPermutation(ds, Text.StrLe);
    forall y ensures y in AllYears(data) <==> y in ds {
      assert y in AllYears(data) <==> y in multiset(AllYears(data));
      assert y in ds <==> y in multiset(ds);
    }
  }

  /** One more record of make `m` raises the cell of its own year by one;
      with distinct years that is one cell. */
  lemma PairCountsBump(data: seq<Record>, m: string, ys: seq<string>, k: nat)
    requires data != [] && Seqs.Distinct(ys)
    requires k < |ys| && ys[k] == Key(data[|data| - 1], "Model Year")
    requires Key(data[|data| - 1], "Make") == m
    ensures var before := PairCounts(data[..|data| - 1], m, ys);
      PairCounts(data, m, ys) == before[k := before[k] + 1]
  {
  }

  /** A record of another make changes no cell of `m`. */
  lemma PairCountsSame(data: seq<Record>, m: string, ys: seq<string>)
    requires data != []
    requires Key(data[|data| - 1], "Make") != m
    ensures PairCounts(data, m, ys) == PairCounts(data[..|data| - 1], m, ys)
  {
  }

  /** One more record adds one to the sum of make `m`'s cells if it has
      that make, and nothing otherwise. */
  lemma PairCountsSumStep(data: seq<Record>, m: string, ys: seq<string>)
    requires data != [] && Seqs.Distinct(ys)
    requires Key(data[|data| - 1], "Model Year") in ys
    ensures Seqs.SumInt(PairCounts(data, m, ys))
      == Seqs.SumInt(PairCounts(data[..|data| - 1], m, ys))
         + (if Key(data[|data| - 1], "Make") == m then 1 else 0)
  {
    var r := data[|data| - 1];
    var before := PairCounts(data[..|data| - 1], m, ys);
    if Key(r, "Make") == m {
      var k :| 0 <= k < |ys| && ys[k] == Key(r, "Model Year");
      var after := before[k := before[k] + 1];
      PairCountsBump(data, m, ys, k);
      assert PairCounts(data, m, ys) == after;
      Seqs.SumIntUpdate(before, k, before[k] + 1);
    } else {
      PairCountsSame(data, m, ys);
    }
  }

  /** Summed over a list of distinct years that holds every record's year,
      the cells of make `m` count every record of that make once. */
  lemma {:induction false} PairCountsSum(data: seq<Record>, m: string, ys: seq<string>)
    requires Seqs.Distinct(ys)
    requires forall i :: 0 <= i < |data| ==> Key(data[i], "Model Year") in ys
    ensures Seqs.SumInt(PairCounts(data, m, ys)) == Seqs.Occurrences(Column(data, "Make"), m)
  {
    if data == [] {
      Seqs.SumIntBounds(PairCounts(data, m, ys), 0, 0);
    } else {
      var p := data[..|data| - 1];
      var r := data[|data| - 1];
      assert Seqs.Occurrences(Column(data, "Make"), m)
        == Seqs.Occurrences(Column(p, "Make"), m) + (if Key(r, "Make") == m then 1 else 0);
      assert Seqs.SumInt(PairCounts(p, m, ys)) == Seqs.Occurrences(Column(p, "Make"), m) by {
        assert forall i :: 0 <= i < |p| ==> Key(p[i], "Model Year") in ys;
        PairCountsSum(p, m, ys);
      }
      assert Key(data[|data| - 1], "Model Year") in ys;
      PairCountsSumStep(data, m, ys);
    }
  }

  /** The make totals add up to the number of records. */
  lemma {:induction false} MakeTotalsSum(data: seq<Record>)
    ensures Total(MakeTotals(Grouped(data))) == |data|
  {
    GroupedTotals(data);
    TalliedSum(Column(data, "Make"));
  }
}
