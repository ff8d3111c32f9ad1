/** EV types: vehicles counted by "Electric Vehicle Type", each type shown
    without its trailing abbreviation such as " (BEV)". */
module EvTypeChart {
  import opened JsObject
  import Seqs
  import opened Vehicles

  predicate IsUpper(c: char) { 'A' <= c <= 'Z' }

  /** The number of upper-case letters at the end of `s`. */
  function UpperTail(s: string): (n: nat)
    ensures n <= |s|
    ensures forall i :: |s| - n <= i < |s| ==> IsUpper(s[i])
    ensures n < |s| ==> !IsUpper(s[|s| - n - 1])
  {
    if s != [] && IsUpper(s[|s| - 1]) then UpperTail(s[..|s| - 1]) + 1 else 0
  }

  /** `type.replace(/ \([A-Z]+\)$/, '')`: a trailing space, parenthesis, one
      or more capitals and a closing parenthesis are removed. The result is a
      prefix of the input, and it is shorter only when that suffix was there. */
  function StripCode(s: string): (r: string)
    ensures |r| <= |s| && r == s[..|r|]
    ensures r != s ==>
      && |r| + 4 <= |s|
      && s[|r|] == ' ' && s[|r| + 1] == '(' && s[|s| - 1] == ')'
      && forall i :: |r| + 2 <= i < |s| - 1 ==> IsUpper(s[i])
  {
    if |s| >= 4 && s[|s| - 1] == ')' then
      var n := UpperTail(s[..|s| - 1]);
      var start := |s| - 1 - n;
      if n >= 1 && start >= 2 && s[start - 2] == ' ' && s[start - 1] == '(' then s[..start - 2] else s
    else s
  }

  lemma {:induction false} UpperTailOf(q: string, u: string)
    requires q == [] || !IsUpper(q[|q| - 1])
    requires forall i :: 0 <= i < |u| ==> IsUpper(u[i])
    ensures UpperTail(q + u) == |u|
  {
    if u != [] {
      assert (q + u)[..|q + u| - 1] == q + u[..|u| - 1];
      UpperTailOf(q, u[..|u| - 1]);
    } else {
      assert q + u == q;
    }
  }

  /** Whenever the type ends in " (" + capitals + ")", exactly that suffix is
      removed, and only the last one: "X (A) (B)" becomes "X (A)". */
  lemma StripCodeOf(p: string, u: string)
    requires |u| >= 1 && forall i :: 0 <= i < |u| ==> IsUpper(u[i])
    ensures StripCode(p + " (" + u + ")") == p
  {
    var s := p + " (" + u + ")";
    assert s[..|s| - 1] == (p + " (") + u;
    UpperTailOf(p + " (", u);
  }

  /** The counting reduce, then `Object.entries(...).map(...)`: one row per
      distinct type in the dictionary's own order, named without the code. */
  method ChartData(data: seq<Record>) returns (rows: seq<Entry>)
    ensures |rows| == |Seqs.Dedup(Column(data, "Electric Vehicle Type"))|
    ensures var types := Column(data, "Electric Vehicle Type"); var e := Entries(Tallied(types));
      |rows| == |e| && forall i :: 0 <= i < |rows| ==>
        e[i].key in types && rows[i] == Entry(StripCode(e[i].key), Seqs.Occurrences(types, e[i].key))
    ensures var types := Column(data, "Electric Vehicle Type");
      forall t :: t in types ==> Entry(StripCode(t), Seqs.Occurrences(types, t)) in rows
    ensures Total(rows) == |data|
  {
    var types := Column(data, "Electric Vehicle Type");
    var acc := Tally(types);
    rows := Relabel(Entries(acc), StripCode);
    RelabeledTally(types, StripCode);
  }
}
