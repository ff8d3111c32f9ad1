/** Top cities: the ten cities with the most vehicles, each bar drawn as a
    percentage of the largest count. */
module CityChart {
  import opened JsObject
  import Seqs
  import Sorting
  import opened Vehicles

  const TopN: nat := 10

  /** The reduce into `cityData`, the sort by descending count and
      `slice(0, 10)`. */
  method ChartData(data: seq<Record>) returns (rows: seq<Entry>)
    ensures |rows| <= TopN
    ensures forall i, j :: 0 <= i < j < |rows| ==> rows[i].count >= rows[j].count
    ensures Seqs.Distinct(KeysOf(rows))
    ensures forall i :: 0 <= i < |rows| ==>
      rows[i].key in Column(data, "City")
      && rows[i].count == Seqs.Occurrences(Column(data, "City"), rows[i].key) >= 1
    ensures forall c :: c in Column(data, "City") && c !in KeysOf(rows) ==>
      |rows| == TopN && Seqs.Occurrences(Column(data, "City"), c) <= rows[TopN - 1].count
  {
    var cities := Column(data, "City");
    var acc := Tally(cities);
    rows := Seqs.Take(Sorting.SortBy(Entries(acc), ByCountDesc), TopN);
    TopCountsProperties(cities, TopN);
  }

  /** `Math.max(...chartData.map(item => item.count))`. */
  function MaxCount(rows: seq<Entry>): int
    requires rows != []
  {
    Seqs.MaxInt(Counts(rows))
  }

  function Counts(rows: seq<Entry>): (cs: seq<int>)
    ensures |cs| == |rows|
    ensures forall i :: 0 <= i < |rows| ==> cs[i] == rows[i].count
  {
    seq(|rows|, i requires 0 <= i < |rows| => rows[i].count)
  }

  /** `(item.count / maxCount) * 100`, the bar width in percent. */
  function Percent(count: nat, maxCount: nat): real
    requires maxCount > 0
  {
    count as real / maxCount as real * 100.0
  }

  /** On rows sorted by descending count, the largest count is the first. */
  lemma MaxCountFirst(rows: seq<Entry>)
    requires rows != []
    requires forall i, j :: 0 <= i < j < |rows| ==> rows[i].count >= rows[j].count
    ensures MaxCount(rows) == rows[0].count
  {
    var cs := Counts(rows);
    Seqs.MaxIntIsMax(cs);
    var j :| 0 <= j < |cs| && cs[j] == Seqs.MaxInt(cs);
    assert j == 0 || rows[0].count >= rows[j].count;
  }

  /** With the maximum taken as the first count, the first bar is 100% and
      every bar with a positive count lies in (0, 100]. */
  lemma PercentBounds(rows: seq<Entry>)
    requires rows != []
    requires forall i, j :: 0 <= i < j < |rows| ==> rows[i].count >= rows[j].count
    requires forall i :: 0 <= i < |rows| ==> rows[i].count >= 1
    ensures MaxCount(rows) == rows[0].count
    ensures Percent(rows[0].count, rows[0].count) == 100.0
    ensures forall i :: 0 <= i < |rows| ==>
      0.0 < Percent(rows[i].count, rows[0].count) <= 100.0
  {
    MaxCountFirst(rows);
    forall i | 0 <= i < |rows| ensures 0.0 < Percent(rows[i].count, rows[0].count) <= 100.0 {
      Ratio(rows[i].count as real, rows[0].count as real);
    }
  }

  lemma Ratio(c: real, m: real)
    requires 0.0 < c <= m
    ensures 0.0 < c / m <= 1.0
  {
    assert c / m * m == c;
  }
}
