/** EVs by model year: one row per distinct "Model Year" with its count,
    in ascending numeric year order. */
module ModelYearChart {
  import opened JsObject
  import Sorting
  import Seqs
  import Text
  import opened Vehicles

  /** Every row's "Model Year" is decimal digits, so `a.year - b.year`
      compares numbers ("" converts to 0, as `Number("")` does). Any other
      year, such as the "undefined" of a record without the column, makes
      the difference `NaN`, and the order of the sort is then up to the
      engine: the model sorts such a year as 0. */
  predicate DigitYears(data: seq<Record>)
  {
    forall i :: 0 <= i < |data| ==> Text.AllDigits(Key(data[i], "Model Year"))
  }

  /** The reduce into `yearData`, then `Object.entries`, `map` and the sort
      by ascending year. Every record is counted, whatever its year; the
      ascending order is promised when every year is digits. */
  method ChartData(data: seq<Record>) returns (rows: seq<Entry>)
    ensures DigitYears(data) ==> forall i, j :: 0 <= i < j < |rows| ==>
      KeyNumber(rows[i].key) <= KeyNumber(rows[j].key)
    ensures Seqs.Distinct(KeysOf(rows))
    ensures forall y :: y in KeysOf(rows) <==> exists i :: 0 <= i < |data| && Key(data[i], "Model Year") == y
    ensures forall i :: 0 <= i < |rows| ==>
      rows[i].count == Seqs.Occurrences(Column(data, "Model Year"), rows[i].key) >= 1
    ensures Total(rows) == |data|
  {
    var years := Column(data, "Model Year");
    var acc := Tally(years);
    rows := Sorting.SortBy(Entries(acc), ByNumericKey);
    YearRowsFacts(data, rows);
  }

  /** The sorted tally of the years is in ascending numeric order and
      counts each year of `data` once. */
  lemma {:induction false} YearRowsFacts(data: seq<Record>, rows: seq<Entry>)
    requires rows == SortedTally(Column(data, "Model Year"), ByNumericKey)
    ensures forall i, j :: 0 <= i < j < |rows| ==>
      KeyNumber(rows[i].key) <= KeyNumber(rows[j].key)
    ensures Seqs.Distinct(KeysOf(rows))
    ensures forall y :: y in KeysOf(rows) <==> exists i :: 0 <= i < |data| && Key(data[i], "Model Year") == y
    ensures forall i :: 0 <= i < |rows| ==>
      rows[i].count == Seqs.Occurrences(Column(data, "Model Year"), rows[i].key) >= 1
    ensures Total(rows) == |data|
  {
    var years := Column(data, "Model Year");
    OrdersTotal();
    SortedTallyProperties(years, ByNumericKey);
    forall y ensures y in years <==> exists i :: 0 <= i < |data| && Key(data[i], "Model Year") == y {
      if y in years {
        var i :| 0 <= i < |years| && years[i] == y;
      }
    }
  }
}
