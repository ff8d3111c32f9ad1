/** A row of the Electric Vehicle Population data set. The rows are parsed
    from CSV with a header line and no type conversion, so every field is a
    string; a column a row lacks reads as `undefined`. */
module Vehicles {
  import opened Options
  import Text

  type Record = map<string, string>

  /** `vehicle[name]`: the text, or `None` for `undefined`. */
  function Field(r: Record, name: string): Option<string>
  {
    if name in r then Some(r[name]) else None
  }

  /** `vehicle[name]` used as an object key or in a template: `undefined`
      turns into the text "undefined". */
  function Key(r: Record, name: string): (k: string)
    ensures name in r ==> k == r[name]
    ensures name !in r ==> k == "undefined"
  {
    match Field(r, name)
    case Some(v) => v
    case None => "undefined"
  }

  /** A falsy field: `undefined` or the empty string. */
  predicate Falsy(v: Option<string>)
  {
    v.None? || v.value == ""
  }

  /** The values of one column, row by row. */
  function Column(data: seq<Record>, name: string): (ks: seq<string>)
    ensures |ks| == |data|
    ensures forall i :: 0 <= i < |data| ==> ks[i] == Key(data[i], name)
  {
    if data == [] then [] else Column(data[..|data| - 1], name) + [Key(data[|data| - 1], name)]
  }

  /** `parseInt(vehicle["Electric Range"])`; `None` is `NaN`. */
  function RangeOf(r: Record): Option<int>
  {
    Text.ParseInt(Key(r, "Electric Range"))
  }

  /** `!isNaN(range) && range > 0`. */
  predicate HasRange(r: Record)
  {
    RangeOf(r).Some? && RangeOf(r).value > 0
  }

  /** A row without the column is dropped: `parseInt(undefined)` is `NaN`. */
  lemma MissingRangeDropped(r: Record)
    requires "Electric Range" !in r
    ensures !HasRange(r)
  {
    var u := "undefined";
    assert Text.TrimStart(u) == u;
    assert Text.LeadingRun(u, Text.IsDigit) == [];
  }

  /** The rows that pass the range filter, in order. */
  function WithRange(data: seq<Record>): (kept: seq<Record>)
    ensures |kept| <= |data|
    ensures forall i :: 0 <= i < |kept| ==> HasRange(kept[i]) && kept[i] in data
  {
    if data == [] then []
    else WithRange(data[..|data| - 1]) + (if HasRange(data[|data| - 1]) then [data[|data| - 1]] else [])
  }

  /** The parsed ranges of the rows that pass the filter, in order. */
  function Ranges(data: seq<Record>): (rs: seq<int>)
    ensures |rs| == |WithRange(data)|
    ensures forall i :: 0 <= i < |rs| ==> rs[i] > 0
  {
    if data == [] then []
    else Ranges(data[..|data| - 1]) + (if HasRange(data[|data| - 1]) then [RangeOf(data[|data| - 1]).value] else [])
  }

  /** Exactly the rows with a positive range are kept, and the ranges are
      theirs, in the same order. */
  lemma {:induction false} RangesOfKept(data: seq<Record>)
    ensures forall i :: 0 <= i < |Ranges(data)| ==>
      Ranges(data)[i] == RangeOf(WithRange(data)[i]).value
    ensures forall r :: r in data && HasRange(r) ==> r in WithRange(data)
  {
    if data != [] {
      var p := data[..|data| - 1];
      RangesOfKept(p);
      assert data == p + [data[|data| - 1]];
    }
  }
}
