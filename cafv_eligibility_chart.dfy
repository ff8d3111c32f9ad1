/** Clean Alternative Fuel Vehicle eligibility: vehicles counted by their
    eligibility text, a missing one counted as "Unknown", the long
    "eligible" text shortened, largest slice first. */
module CafvEligibilityChart {
  import opened JsObject
  import Seqs
  import Sorting
  import opened Options
  import opened Vehicles

  const EligibilityColumn := "Clean Alternative Fuel Vehicle (CAFV) Eligibility"
  const EligibleText := "Clean Alternative Fuel Vehicle Eligible"

  /** `vehicle[column] || "Unknown"`. */
  function Label(r: Record): (l: string)
    ensures Falsy(Field(r, EligibilityColumn)) ==> l == "Unknown"
    ensures !Falsy(Field(r, EligibilityColumn)) ==> l == r[EligibilityColumn]
  {
    var v := Field(r, EligibilityColumn);
    if Falsy(v) then "Unknown" else v.value
  }

  function Labels(data: seq<Record>): (ls: seq<string>)
    ensures |ls| == |data|
    ensures forall i :: 0 <= i < |data| ==> ls[i] == Label(data[i])
  {
    if data == [] then [] else Labels(data[..|data| - 1]) + [Label(data[|data| - 1])]
  }

  /** The display name: the long eligible text becomes "Eligible"; every
      other name, "Not Eligible" included, is kept. */
  function Rename(name: string): string
  {
    if name == EligibleText then "Eligible" else name
  }

  /** The chart rows for non-empty data: counts by raw label, renamed, sorted
      by descending value. */
  function Eligibility(data: seq<Record>): seq<Entry>
  {
    Sorting.SortBy(Relabel(Entries(Tallied(Labels(data))), Rename), ByCountDesc)
  }

  /** The component's `chartData` state and the effect that recomputes it. */
  class EligibilityChart {
    var chartData: seq<Entry>

    constructor()
      ensures chartData == []
    {
      chartData := [];
    }

    /** The effect body: nothing happens for missing or empty data. */
    method Refresh(data: Option<seq<Record>>)
      modifies this
      ensures data.Some? && data.value != [] ==> chartData == Eligibility(data.value)
      ensures data.None? || data.value == [] ==> chartData == old(chartData)
    {
      if data.Some? && |data.value| > 0 {
        var acc := Tally(Labels(data.value));
        var formatted := Relabel(Entries(acc), Rename);
        formatted := Sorting.SortBy(formatted, ByCountDesc);
        chartData := formatted;
      }
    }
  }

  /** The rows are sorted by non-increasing value; every raw label has its
      own row under its display name with its number of records (renaming
      merges nothing, so there is one row per distinct raw label), and the
      values add up to the number of records. */
  lemma EligibilityProperties(data: seq<Record>)
    ensures var rows := Eligibility(data); var labels := Labels(data);
      && (forall i, j :: 0 <= i < j < |rows| ==> rows[i].count >= rows[j].count)
      && |rows| == |Seqs.Dedup(labels)|
      && (forall l :: l in labels ==> Entry(Rename(l), Seqs.Occurrences(labels, l)) in rows)
      && Total(rows) == |data|
  {
    var labels := Labels(data);
    var r := Relabel(Entries(Tallied(labels)), Rename);
    RelabeledTally(labels, Rename);
    OrdersTotal();
    Sorting.SortSorted(r, ByCountDesc);
    Sorting.SortMembers(r, ByCountDesc);
    Sorting.SortPermutation(r, ByCountDesc);
    TotalPermutation(r, Eligibility(data));
  }

  /** Records with no eligibility text are counted under "Unknown". */
  lemma UnknownCounted(data: seq<Record>, i: nat)
    requires i < |data| && Falsy(Field(data[i], EligibilityColumn))
    ensures Entry("Unknown", Seqs.Occurrences(Labels(data), "Unknown")) in Eligibility(data)
  {
    assert Labels(data)[i] == "Unknown";
    EligibilityProperties(data);
  }
}
