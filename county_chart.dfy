/** EVs by county: the ten counties with the most vehicles. */
module CountyChart {
  import opened JsObject
  import Seqs
  import Sorting
  import opened Vehicles

  const TopN: nat := 10

  /** The reduce into `countyData`, the sort by descending count and
      `slice(0, 10)`. */
  method ChartData(data: seq<Record>) returns (rows: seq<Entry>)
    ensures |rows| <= TopN
    ensures forall i, j :: 0 <= i < j < |rows| ==> rows[i].count >= rows[j].count
    ensures Seqs.Distinct(KeysOf(rows))
    ensures forall i :: 0 <= i < |rows| ==>
      rows[i].key in Column(data, "County")
      && rows[i].count == Seqs.Occurrences(Column(data, "County"), rows[i].key) >= 1
    ensures forall c :: c in Column(data, "County") && c !in KeysOf(rows) ==>
      |rows| == TopN && Seqs.Occurrences(Column(data, "County"), c) <= rows[TopN - 1].count
    ensures |Seqs.Dedup(Column(data, "County"))| <= TopN ==> Total(rows) == |data|
  {
    var counties := Column(data, "County");
    var acc := Tally(counties);
    rows := Seqs.Take(Sorting.SortBy(Entries(acc), ByCountDesc), TopN);
    TopCountsProperties(counties, TopN);
  }
}
