/** EV adoption over time: per-year counts in ascending year order, with the
    running total of vehicles up to and including each year. */
module TrendsChart {
  import opened JsObject
  import Sorting
  import Seqs
  import Text
  import opened Vehicles

  /** One point of the cumulative line. */
  datatype Point = Point(year: string, count: nat, cumulative: nat)

  /** Every row's "Model Year" is decimal digits, so `a.year - b.year`
      compares numbers. Otherwise the difference can be `NaN` and the
      order of the sort is up to the engine. */
  predicate DigitYears(data: seq<Record>)
  {
    forall i :: 0 <= i < |data| ==> Text.AllDigits(Key(data[i], "Model Year"))
  }

  /** The year rows: counts sorted by ascending numeric year. */
  function YearRows(data: seq<Record>): seq<Entry>
  {
    SortedTally(Column(data, "Model Year"), ByNumericKey)
  }

  /** The running total up to and including row `i`. */
  function Cumulative(rows: seq<Entry>, i: nat): nat
    requires i < |rows|
  {
    Total(rows[..i + 1])
  }

  /** The years and counts of the points, as rows. */
  function YearCounts(points: seq<Point>): seq<Entry>
  {
    seq(|points|, i requires 0 <= i < |points| => Entry(points[i].year, points[i].count))
  }

  /** The reduce, the sort, and the `cumulativeCount +=` map. Whatever the
      years, the points hold each year once with its count, each point's
      running total is that of the points up to it, and the last is the
      number of records; with digit years the points follow the rows in
      ascending year order. */
  method CumulativeData(data: seq<Record>) returns (points: seq<Point>)
    ensures var rows := YearCounts(points);
      && multiset(rows) == multiset(Entries(Tallied(Column(data, "Model Year"))))
      && (forall i :: 0 <= i < |points| ==> points[i].cumulative == Cumulative(rows, i))
      && (|points| > 0 ==> points[|points| - 1].cumulative == |data|)
    ensures DigitYears(data) ==> YearCounts(points) == YearRows(data)
  {
    var acc := Tally(Column(data, "Model Year"));
    var rows := Sorting.SortBy(Entries(acc), ByNumericKey);
    points := Accumulate(rows);
    assert YearCounts(points) == rows;
    Sorting.SortPermutation(Entries(acc), ByNumericKey);
    CumulativeRises(data);
  }

  /** The `map` that adds each count to `cumulativeCount`. */
  method Accumulate(rows: seq<Entry>) returns (points: seq<Point>)
    ensures |points| == |rows|
    ensures forall i :: 0 <= i < |points| ==>
      points[i] == Point(rows[i].key, rows[i].count, Cumulative(rows, i))
  {
    var cumulativeCount := 0;
    points := [];
    for i := 0 to |rows|
      invariant |points| == i
      invariant cumulativeCount == Total(rows[..i])
      invariant forall m :: 0 <= m < i ==> points[m] == Point(rows[m].key, rows[m].count, Cumulative(rows, m))
    {
      assert rows[..i + 1][..i] == rows[..i];
      cumulativeCount := cumulativeCount + rows[i].count;
      points := points + [Point(rows[i].key, rows[i].count, cumulativeCount)];
    }
  }

  /** Running totals of positive counts: the first is the first count, each
      later one adds its row's count, they rise strictly and end at the total. */
  lemma {:induction false} RunningTotals(rows: seq<Entry>)
    requires forall m :: 0 <= m < |rows| ==> rows[m].count >= 1
    ensures |rows| > 0 ==> Cumulative(rows, 0) == rows[0].count
    ensures forall i :: 0 < i < |rows| ==> Cumulative(rows, i) == Cumulative(rows, i - 1) + rows[i].count
    ensures forall i, j :: 0 <= i < j < |rows| ==> Cumulative(rows, i) < Cumulative(rows, j)
    ensures |rows| > 0 ==> Cumulative(rows, |rows| - 1) == Total(rows)
  {
    forall i | 0 < i < |rows| ensures Cumulative(rows, i) == Cumulative(rows, i - 1) + rows[i].count {
      assert rows[..i + 1][..i] == rows[..i];
    }
    forall i, j | 0 <= i < j < |rows| ensures Cumulative(rows, i) < Cumulative(rows, j) {
      PrefixTotalsRise(rows, i, j);
    }
    if |rows| > 0 {
      assert rows[..|rows|] == rows;
      assert rows[..1][..0] == [];
      assert Total(rows[..1]) == Total(rows[..1][..0]) + rows[0].count;
    }
  }

  lemma {:induction false} PrefixTotalsRise(rows: seq<Entry>, i: nat, j: nat)
    requires i < j < |rows|
    requires forall m :: 0 <= m < |rows| ==> rows[m].count >= 1
    ensures Cumulative(rows, i) < Cumulative(rows, j)
    decreases j - i
  {
    assert rows[..j + 1][..j] == rows[..j];
    if i + 1 < j {
      PrefixTotalsRise(rows, i, j - 1);
    }
  }

  /** The years ascend and the cumulative line rises strictly to the number
      of rows. */
  lemma {:induction false} CumulativeRises(data: seq<Record>)
    ensures var rows := YearRows(data);
      && (forall i, j :: 0 <= i < j < |rows| ==> KeyNumber(rows[i].key) <= KeyNumber(rows[j].key))
      && (forall i, j :: 0 <= i < j < |rows| ==> Cumulative(rows, i) < Cumulative(rows, j))
      && (|rows| > 0 ==> Cumulative(rows, |rows| - 1) == |data|)
  {
    var rows := YearRows(data);
    OrdersTotal();
    SortedTallyProperties(Column(data, "Model Year"), ByNumericKey);
    RunningTotals(rows);
  }
}
