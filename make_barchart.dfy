/** EVs by manufacturer: every make with its count, most frequent first. */
module MakeBarchart {
  import opened JsObject
  import Sorting
  import Seqs
  import opened Vehicles

  /** The reduce into `makeData`, then `Object.entries`, `map` and the sort
      by descending count; nothing is cut off. */
  method ChartData(data: seq<Record>) returns (rows: seq<Entry>)
    ensures forall i, j :: 0 <= i < j < |rows| ==> rows[i].count >= rows[j].count
    ensures Seqs.Distinct(KeysOf(rows))
    ensures forall m :: m in KeysOf(rows) <==> m in Column(data, "Make")
    ensures forall i :: 0 <= i < |rows| ==>
      rows[i].count == Seqs.Occurrences(Column(data, "Make"), rows[i].key) >= 1
    ensures Total(rows) == |data|
  {
    var makes := Column(data, "Make");
    var acc := Tally(makes);
    rows := Sorting.SortBy(Entries(acc), ByCountDesc);
    OrdersTotal();
    SortedTallyProperties(makes, ByCountDesc);
  }
}
