/** Correlation matrix: for every pair of variables (the keys of the first
    record), Pearson's coefficient when both columns start with a number,
    Cramér's V over a contingency table otherwise, and exactly 1 on the
    diagonal. Square roots are kept symbolic: a coefficient is returned as
    the numbers it would take the root of. */
module MatrixPlot {
  import Seqs
  import JsObject
  import opened Options
  import Geometry

  /** A field value: a JavaScript number (with the text it prints as), or
      any other value, with its text and what `d3.mean` and the subtraction
      make of it (`None` for `NaN`). A missing field is `undefined`. `null`
      has no encoding: `d3.mean` skips it, but `null - xMean` reads it as 0.
      Parsed CSV text never holds `null`. */
  datatype Value = Num(n: real, text: string) | Other(text: string, number: Option<real>)
  {
    /** What arithmetic (`-`, and the numeric coercion of `d3.sum` and
        `d3.mean`) sees: `None` where it sees `NaN`. */
    function AsNumber(): Option<real>
    {
      match this
      case Num(n, _) => Some(n)
      case Other(_, number) => number
    }
  }

  const Undefined: Value := Other("undefined", None)

  type Row = map<string, Value>

  function Get(r: Row, key: string): Value
  {
    if key in r then r[key] else Undefined
  }

  /** `data.map((d) => d[key])`. */
  function ColumnOf(data: seq<Row>, key: string): (c: seq<Value>)
    ensures |c| == |data| && forall i :: 0 <= i < |data| ==> c[i] == Get(data[i], key)
  {
    seq(|data|, i requires 0 <= i < |data| => Get(data[i], key))
  }

  /** A matrix entry. `Pearson(p, q)` stands for `p / Math.sqrt(q)`,
      `CramersV(q)` for `Math.sqrt(q)`; `DivisionByZero` is the `NaN` or
      `Infinity` of a division by `x.length * 0`. */
  datatype Coefficient =
    | Exact(value: real)
    | Pearson(numerator: real, radicand: real)
    | CramersV(radicand: real)
    | DivisionByZero

  // ---------------------------------------------------------------- Pearson

  /** The values `d3.mean` and `d3.sum` keep: those that coerce to a number. */
  function Numbers(x: seq<Value>): seq<real>
  {
    if x == [] then []
    else Numbers(x[..|x| - 1]) + match x[|x| - 1].AsNumber() case Some(v) => [v] case None => []
  }

  /** `d3.mean(x)`. */
  function Mean(x: seq<Value>): real
    requires Numbers(x) != []
  {
    Seqs.SumReal(Numbers(x)) / |Numbers(x)| as real
  }

  /** The terms `(xi - xMean) * (y[i] - yMean)` that are numbers. */
  function CrossTerms(x: seq<Value>, y: seq<Value>, xMean: real, yMean: real): seq<real>
    requires |x| == |y|
  {
    if x == [] then []
    else
      var n := |x| - 1;
      CrossTerms(x[..n], y[..n], xMean, yMean) + CrossTerm(x[n], y[n], xMean, yMean)
  }

  /** The term of one pair, if both of its values are numbers. */
  function CrossTerm(a: Value, b: Value, xMean: real, yMean: real): seq<real>
  {
    if a.AsNumber().Some? && b.AsNumber().Some?
    then [(a.AsNumber().value - xMean) * (b.AsNumber().value - yMean)]
    else []
  }

  /** The terms `Math.pow(xi - xMean, 2)` that are numbers. */
  function SquareTerms(x: seq<Value>, xMean: real): seq<real>
  {
    if x == [] then []
    else
      var n := |x| - 1;
      SquareTerms(x[..n], xMean)
        + match x[n].AsNumber()
          case Some(v) => [Squared(v - xMean)]
          case None => []
  }

  /** `d3.sum(x.map((xi) => Math.pow(xi - xMean, 2)))`. */
  function SumSquares(x: seq<Value>): real
    requires Numbers(x) != []
  {
    Seqs.SumReal(SquareTerms(x, Mean(x)))
  }

  /** The Pearson branch of `computeCorrelation`: 0 when the product of the
      sums of squares is 0 (so that its root, the denominator, is 0),
      otherwise the numerator over the root of that product. */
  function PearsonOf(x: seq<Value>, y: seq<Value>): Coefficient
    requires |x| == |y| && Numbers(x) != [] && Numbers(y) != []
  {
    Quotient(Seqs.SumReal(CrossTerms(x, y, Mean(x), Mean(y))), SumSquares(x), SumSquares(y))
  }

  /** `denominator === 0 ? 0 : numerator / denominator` with the denominator
      `Math.sqrt(sx * sy)`. */
  function Quotient(numerator: real, sx: real, sy: real): Coefficient
  {
    var radicand := sx * sy;
    if radicand == 0.0 then Exact(0.0) else Pearson(numerator, radicand)
  }

  // ------------------------------------------------------------ Cramér's V

  /** The contingency-table key `${xi}-${yi}`. */
  function Key(a: Value, b: Value): string
  {
    a.text + "-" + b.text
  }

  function PairKeys(x: seq<Value>, y: seq<Value>): (ks: seq<string>)
    requires |x| == |y|
    ensures |ks| == |x| && forall i :: 0 <= i < |x| ==> ks[i] == Key(x[i], y[i])
  {
    seq(|x|, i requires 0 <= i < |x| => Key(x[i], y[i]))
  }

  /** `expected`: the count of `a` in `x` times the count of `b` in `y`,
      over `x.length`. */
  function Expected(x: seq<Value>, y: seq<Value>, a: Value, b: Value): real
    requires |x| > 0
  {
    (Seqs.Occurrences(x, a) * Seqs.Occurrences(y, b)) as real / |x| as real
  }

  /** One cell's contribution: `(observed - expected)² / expected` when
      `expected > 0`, else nothing. `observed` is what the table holds
      under the cell's key. */
  function Term(x: seq<Value>, y: seq<Value>, a: Value, b: Value): real
    requires |x| == |y| > 0
  {
    Contribution(Seqs.Occurrences(PairKeys(x, y), Key(a, b)) as real, Expected(x, y, a, b))
  }

  /** `(observed - expected)² / expected` when `expected > 0`, else 0. */
  function Contribution(observed: real, expected: real): (r: real)
    ensures r >= 0.0
  {
    if expected > 0.0 then
      Geometry.QuotientNonNegative(Squared(observed - expected), expected);
      Squared(observed - expected) / expected
    else 0.0
  }

  /** `Math.pow(d, 2)`. */
  function Squared(d: real): (r: real)
    ensures r >= 0.0
  {
    d * d
  }

  /** The contributions of the cells `(a, b)` for `b` in `ys`. */
  function RowChi(x: seq<Value>, y: seq<Value>, a: Value, ys: seq<Value>): real
    requires |x| == |y| > 0
  {
    if ys == [] then 0.0 else RowChi(x, y, a, ys[..|ys| - 1]) + Term(x, y, a, ys[|ys| - 1])
  }

  /** `chiSquare` over the cells `xs × ys`, row by row. */
  function ChiSquare(x: seq<Value>, y: seq<Value>, xs: seq<Value>, ys: seq<Value>): real
    requires |x| == |y| > 0
  {
    if xs == [] then 0.0 else ChiSquare(x, y, xs[..|xs| - 1], ys) + RowChi(x, y, xs[|xs| - 1], ys)
  }

  /** `computeCramersV`: the root of chi-square over `x.length` times one
      less than the smaller number of categories; with a single category on
      either side that divisor is 0. */
  function CramersVOf(x: seq<Value>, y: seq<Value>): Coefficient
    requires |x| == |y| > 0
  {
    CategoriesPresent(x);
    CategoriesPresent(y);
    Root(ChiSquare(x, y, Seqs.Dedup(x), Seqs.Dedup(y)), |x|, |Seqs.Dedup(x)|, |Seqs.Dedup(y)|)
  }

  /** `Math.sqrt(chiSquare / (n * (minDimension - 1)))` for `n` values with
      `xCount` and `yCount` categories. */
  function Root(chiSquare: real, n: nat, xCount: nat, yCount: nat): Coefficient
    requires n > 0 && xCount >= 1 && yCount >= 1
  {
    var minDimension := if xCount < yCount then xCount else yCount;
    if minDimension == 1 then DivisionByZero
    else CramersV(chiSquare / (n * (minDimension - 1)) as real)
  }

  lemma RowChiStep(x: seq<Value>, y: seq<Value>, a: Value, ys: seq<Value>, b: nat)
    requires |x| == |y| > 0 && b < |ys|
    ensures RowChi(x, y, a, ys[..b + 1]) == RowChi(x, y, a, ys[..b]) + Term(x, y, a, ys[b])
  {
    assert ys[..b + 1][..b] == ys[..b];
  }

  lemma ChiSquareStep(x: seq<Value>, y: seq<Value>, xs: seq<Value>, ys: seq<Value>, a: nat)
    requires |x| == |y| > 0 && a < |xs|
    ensures ChiSquare(x, y, xs[..a + 1], ys) == ChiSquare(x, y, xs[..a], ys) + RowChi(x, y, xs[a], ys)
  {
    assert xs[..a + 1][..a] == xs[..a];
  }

  lemma CategoriesPresent(x: seq<Value>)
    requires x != []
    ensures |Seqs.Dedup(x)| >= 1
  {
    Seqs.DedupProperties(x);
    assert x[0] in Seqs.Dedup(x);
  }

  /** `computeCramersV`: count the key of every index into the table, then
      add up the chi-square contributions of every pair of categories. */
  method ComputeCramersV(x: seq<Value>, y: seq<Value>) returns (r: Coefficient)
    requires |x| == |y| > 0
    ensures r == CramersVOf(x, y)
  {
    var contingencyTable := JsObject.Tally(PairKeys(x, y));
    var xCategories, yCategories := Seqs.Dedup(x), Seqs.Dedup(y);
    var chiSquare := 0.0;
    for a := 0 to |xCategories|
      invariant chiSquare == ChiSquare(x, y, xCategories[..a], yCategories)
    {
      chiSquare := AddRowTerms(x, y, contingencyTable, chiSquare, xCategories[a], yCategories);
      ChiSquareStep(x, y, xCategories, yCategories, a);
    }
    assert xCategories[..|xCategories|] == xCategories;
    CategoriesPresent(x);
    CategoriesPresent(y);
    r := Root(chiSquare, |x|, |xCategories|, |yCategories|);
  }

  /** The inner loop of `computeCramersV`: add the contribution of every
      cell `(xCat, yCat)` to the running chi-square. */
  method AddRowTerms(x: seq<Value>, y: seq<Value>, contingencyTable: seq<JsObject.Entry>,
                     chiSquare: real, xCat: Value, yCategories: seq<Value>) returns (next: real)
    requires |x| == |y| > 0 && contingencyTable == JsObject.Tallied(PairKeys(x, y))
    ensures next == chiSquare + RowChi(x, y, xCat, yCategories)
  {
    next := chiSquare;
    for b := 0 to |yCategories|
      invariant next == chiSquare + RowChi(x, y, xCat, yCategories[..b])
    {
      var yCat := yCategories[b];
      var observed := JsObject.CountOf(contingencyTable, Key(xCat, yCat)) as real;
      var expected := Expected(x, y, xCat, yCat);
      TermOfTable(x, y, contingencyTable, xCat, yCat);
      RowChiStep(x, y, xCat, yCategories, b);
      ghost var prev := next;
      if expected > 0.0 {
        next := next + Squared(observed - expected) / expected;
      }
      ContributionAdded(prev, observed, expected, next);
    }
    assert yCategories[..|yCategories|] == yCategories;
  }

  /** Adding the term only when `expected > 0` adds its contribution. */
  lemma ContributionAdded(prev: real, observed: real, expected: real, next: real)
    requires next == if expected > 0.0 then prev + Squared(observed - expected) / expected else prev
    ensures next == prev + Contribution(observed, expected)
  {
  }

  /** A cell's term read from the counted table. */
  lemma TermOfTable(x: seq<Value>, y: seq<Value>, contingencyTable: seq<JsObject.Entry>, a: Value, b: Value)
    requires |x| == |y| > 0 && contingencyTable == JsObject.Tallied(PairKeys(x, y))
    ensures Term(x, y, a, b) == Contribution(JsObject.CountOf(contingencyTable, Key(a, b)) as real, Expected(x, y, a, b))
  {
    JsObject.TalliedCountOf(PairKeys(x, y), Key(a, b));
  }

  // ------------------------------------------------------------ the matrix

  /** `computeCorrelation`: 0 for empty columns, the Pearson branch when
      both first elements are numbers, Cramér's V otherwise. */
  function CorrelationOf(x: seq<Value>, y: seq<Value>): Coefficient
    requires |x| == |y|
  {
    if |x| == 0 then Exact(0.0)
    else if x[0].Num? && y[0].Num? then
      NumbersNonEmpty(x);
      NumbersNonEmpty(y);
      PearsonOf(x, y)
    else CramersVOf(x, y)
  }

  method ComputeCorrelation(x: seq<Value>, y: seq<Value>) returns (r: Coefficient)
    requires |x| == |y|
    ensures r == CorrelationOf(x, y)
  {
    var n := |x|;
    if n == 0 {
      return Exact(0.0);
    }
    if x[0].Num? && y[0].Num? {
      NumbersNonEmpty(x);
      NumbersNonEmpty(y);
      r := PearsonOf(x, y);
    } else {
      r := ComputeCramersV(x, y);
    }
  }

  /** A column whose first value is a number has a number for `d3.mean`. */
  lemma {:induction false} NumbersNonEmpty(x: seq<Value>)
    requires x != [] && x[0].Num?
    ensures Numbers(x) != []
  {
    if |x| > 1 {
      assert x[..|x| - 1][0] == x[0];
      NumbersNonEmpty(x[..|x| - 1]);
    }
  }

  datatype Cell = Cell(variable: string, correlation: Coefficient)

  datatype MatrixRow = MatrixRow(variable: string, correlations: seq<Cell>)

  /** `correlationMatrix[i][j]`: 1 on the diagonal, the correlation of the
      two columns elsewhere. */
  function Coefficients(data: seq<Row>, variables: seq<string>, i: nat, j: nat): Coefficient
    requires i < |variables| && j < |variables|
  {
    if i == j then Exact(1.0)
    else CorrelationOf(ColumnOf(data, variables[i]), ColumnOf(data, variables[j]))
  }

  /** The matrix handed to `setMatrix`: one row per variable, one cell per
      variable in each row. */
  function Matrix(data: seq<Row>, variables: seq<string>): (m: seq<MatrixRow>)
    ensures |m| == |variables|
  {
    seq(|variables|, i requires 0 <= i < |variables| =>
      MatrixRow(variables[i], Cells(variables, CoefficientRow(data, variables, i))))
  }

  /** `correlationMatrix[i]`. */
  function CoefficientRow(data: seq<Row>, variables: seq<string>, i: nat): (r: seq<Coefficient>)
    requires i < |variables|
    ensures |r| == |variables|
  {
    seq(|variables|, j requires 0 <= j < |variables| => Coefficients(data, variables, i, j))
  }

  /** `variables.map((v, j) => ({ variable: v, correlation: row[j] }))`. */
  function Cells(variables: seq<string>, row: seq<Coefficient>): (r: seq<Cell>)
    requires |row| == |variables|
    ensures |r| == |variables|
  {
    seq(|variables|, j requires 0 <= j < |variables| => Cell(variables[j], row[j]))
  }

  /** `variables` is `Object.keys(record)`: each key once. */
  ghost predicate KeysOf(record: Row, variables: seq<string>)
  {
    && (forall v :: v in variables <==> v in record)
    && forall i, j :: 0 <= i < j < |variables| ==> variables[i] != variables[j]
  }

  /** `computeMatrix`: `Object.keys(data[0])` throws on an empty array;
      otherwise the nested loops fill `correlationMatrix`, which is then
      shaped into rows. */
  method ComputeMatrix(data: seq<Row>, variables: seq<string>) returns (r: Option<seq<MatrixRow>>)
    requires data != [] ==> KeysOf(data[0], variables)
    ensures r.None? <==> data == []
    ensures r.Some? ==> r.value == Matrix(data, variables)
  {
    if data == [] {
      return None;
    }
    var correlationMatrix: seq<seq<Coefficient>> := [];
    for i := 0 to |variables|
      invariant |correlationMatrix| == i
      invariant forall k :: 0 <= k < i ==> correlationMatrix[k] == CoefficientRow(data, variables, k)
    {
      var row := CorrelationRow(data, variables, i);
      correlationMatrix := correlationMatrix + [row];
    }
    var m := seq(|variables|, i requires 0 <= i < |variables| =>
      MatrixRow(variables[i], Cells(variables, correlationMatrix[i])));
    assert m == Matrix(data, variables);
    return Some(m);
  }

  /** The inner loop of `computeMatrix`: row `i` of `correlationMatrix`. */
  method CorrelationRow(data: seq<Row>, variables: seq<string>, i: nat) returns (row: seq<Coefficient>)
    requires i < |variables|
    ensures row == CoefficientRow(data, variables, i)
  {
    ghost var want := CoefficientRow(data, variables, i);
    row := [];
    for j := 0 to |variables|
      invariant row == want[..j]
    {
      var c := ComputeCoefficient(data, variables, i, j);
      row := row + [c];
      assert want[..j + 1] == want[..j] + [want[j]];
    }
    assert want[..|variables|] == want;
  }

  /** `correlationMatrix[i][j]`: 1 on the diagonal, else
      `computeCorrelation` of the two columns. */
  method ComputeCoefficient(data: seq<Row>, variables: seq<string>, i: nat, j: nat) returns (c: Coefficient)
    requires i < |variables| && j < |variables|
    ensures c == CoefficientRow(data, variables, i)[j]
  {
    if i == j {
      c := Exact(1.0);
    } else {
      c := ComputeCorrelation(ColumnOf(data, variables[i]), ColumnOf(data, variables[j]));
    }
  }

  // ------------------------------------------------------------ properties

  /** The matrix is square, names the variables in order along both axes,
      has exactly 1 on its diagonal and, between two columns that both start
      with a number, the same entry on both sides of the diagonal. */
  lemma MatrixShape(data: seq<Row>, variables: seq<string>, i: nat, j: nat)
    requires i < |variables| && j < |variables|
    ensures Matrix(data, variables)[i].variable == variables[i]
    ensures |Matrix(data, variables)[i].correlations| == |variables|
    ensures Matrix(data, variables)[i].correlations[j].variable == variables[j]
    ensures i == j ==> Matrix(data, variables)[i].correlations[j].correlation == Exact(1.0)
    ensures data != [] && Get(data[0], variables[i]).Num? && Get(data[0], variables[j]).Num? ==>
      Matrix(data, variables)[i].correlations[j].correlation == Matrix(data, variables)[j].correlations[i].correlation
  {
    var x, y := ColumnOf(data, variables[i]), ColumnOf(data, variables[j]);
    if i != j && data != [] && x[0].Num? && y[0].Num? {
      NumbersNonEmpty(x);
      NumbersNonEmpty(y);
      PearsonSymmetric(x, y);
    }
  }

  /** The Pearson branch gives the same result with its arguments swapped. */
  lemma PearsonSymmetric(x: seq<Value>, y: seq<Value>)
    requires |x| == |y| && Numbers(x) != [] && Numbers(y) != []
    ensures PearsonOf(x, y) == PearsonOf(y, x)
  {
    CrossTermsSwap(x, y, Mean(x), Mean(y));
    QuotientSwap(Seqs.SumReal(CrossTerms(x, y, Mean(x), Mean(y))), SumSquares(x), SumSquares(y));
  }

  lemma {:induction false} CrossTermsSwap(x: seq<Value>, y: seq<Value>, xMean: real, yMean: real)
    requires |x| == |y|
    ensures CrossTerms(x, y, xMean, yMean) == CrossTerms(y, x, yMean, xMean)
  {
    if x != [] {
      var n := |x| - 1;
      CrossTermsSwap(x[..n], y[..n], xMean, yMean);
      CrossTermSwap(x[n], y[n], xMean, yMean);
    }
  }

  lemma CrossTermSwap(a: Value, b: Value, xMean: real, yMean: real)
    ensures CrossTerm(a, b, xMean, yMean) == CrossTerm(b, a, yMean, xMean)
  {
    if a.AsNumber().Some? && b.AsNumber().Some? {
      var u, v := a.AsNumber().value, b.AsNumber().value;
      assert (u - xMean) * (v - yMean) == (v - yMean) * (u - xMean);
    }
  }

  /** The product under the root is never negative, so the denominator is 0
      exactly when the product is; a `Pearson` entry has a positive radicand. */
  lemma PearsonRadicand(x: seq<Value>, y: seq<Value>)
    requires |x| == |y| && Numbers(x) != [] && Numbers(y) != []
    ensures SumSquares(x) * SumSquares(y) >= 0.0
    ensures PearsonOf(x, y).Pearson? ==> PearsonOf(x, y).radicand > 0.0
  {
    SquaresNonNegative(x, Mean(x));
    SquaresNonNegative(y, Mean(y));
    QuotientRadicand(Seqs.SumReal(CrossTerms(x, y, Mean(x), Mean(y))), SumSquares(x), SumSquares(y));
  }

  lemma QuotientRadicand(numerator: real, sx: real, sy: real)
    requires sx >= 0.0 && sy >= 0.0
    ensures sx * sy >= 0.0
    ensures Quotient(numerator, sx, sy).Pearson? ==> Quotient(numerator, sx, sy).radicand > 0.0
  {
    ProductNonNegative(sx, sy);
  }

  lemma QuotientSwap(numerator: real, sx: real, sy: real)
    ensures Quotient(numerator, sx, sy) == Quotient(numerator, sy, sx)
  {
    assert sx * sy == sy * sx;
  }

  lemma ProductNonNegative(a: real, b: real)
    requires a >= 0.0 && b >= 0.0
    ensures a * b >= 0.0
  {
  }

  lemma {:induction false} SquaresNonNegative(x: seq<Value>, m: real)
    ensures Seqs.SumReal(SquareTerms(x, m)) >= 0.0
  {
    if x != [] {
      var n := |x| - 1;
      SquaresNonNegative(x[..n], m);
      var p := SquareTerms(x[..n], m);
      match x[n].AsNumber()
      case Some(v) =>
        Seqs.SumRealAppend(p, [Squared(v - m)]);
        assert [Squared(v - m)][..0] == [];
      case None =>
        assert SquareTerms(x, m) == p + [];
        assert p + [] == p;
    }
  }

  /** The contingency table's counts add up to `x.length`. */
  lemma ContingencyTotal(x: seq<Value>, y: seq<Value>)
    requires |x| == |y|
    ensures JsObject.Total(JsObject.Tallied(PairKeys(x, y))) == |x|
  {
    JsObject.TalliedSum(PairKeys(x, y));
  }

  /** Every pair of categories has a positive expected count, so the
      `expected > 0` guard never skips a cell. */
  lemma ExpectedPositive(x: seq<Value>, y: seq<Value>, a: Value, b: Value)
    requires |x| == |y| > 0 && a in x && b in y
    ensures Expected(x, y, a, b) > 0.0
  {
    Seqs.OccurrencesPositive(x, a);
    Seqs.OccurrencesPositive(y, b);
    var p := Seqs.Occurrences(x, a) * Seqs.Occurrences(y, b);
    assert p >= 1;
  }

  /** Chi-square is a sum of non-negative contributions. */
  lemma {:induction false} ChiSquareNonNegative(x: seq<Value>, y: seq<Value>, xs: seq<Value>, ys: seq<Value>)
    requires |x| == |y| > 0
    ensures ChiSquare(x, y, xs, ys) >= 0.0
  {
    if xs != [] {
      ChiSquareNonNegative(x, y, xs[..|xs| - 1], ys);
      RowChiNonNegative(x, y, xs[|xs| - 1], ys);
    }
  }

  lemma {:induction false} RowChiNonNegative(x: seq<Value>, y: seq<Value>, a: Value, ys: seq<Value>)
    requires |x| == |y| > 0
    ensures RowChi(x, y, a, ys) >= 0.0
  {
    if ys != [] {
      RowChiNonNegative(x, y, a, ys[..|ys| - 1]);
    }
  }

  /** A Cramér's V result takes the root of a non-negative number. */
  lemma CramersVRadicand(x: seq<Value>, y: seq<Value>)
    requires |x| == |y| > 0
    ensures CramersVOf(x, y).CramersV? ==> CramersVOf(x, y).radicand >= 0.0
  {
    ChiSquareNonNegative(x, y, Seqs.Dedup(x), Seqs.Dedup(y));
    CategoriesPresent(x);
    CategoriesPresent(y);
    RootRadicand(ChiSquare(x, y, Seqs.Dedup(x), Seqs.Dedup(y)), |x|, |Seqs.Dedup(x)|, |Seqs.Dedup(y)|);
  }

  lemma RootRadicand(chiSquare: real, n: nat, xCount: nat, yCount: nat)
    requires n > 0 && xCount >= 1 && yCount >= 1 && chiSquare >= 0.0
    ensures Root(chiSquare, n, xCount, yCount).CramersV? ==> Root(chiSquare, n, xCount, yCount).radicand >= 0.0
  {
    var minDimension := if xCount < yCount then xCount else yCount;
    if minDimension > 1 {
      var d := (n * (minDimension - 1)) as real;
      assert d > 0.0;
      assert chiSquare / d * d == chiSquare;
    }
  }

  /** With a single category on either side there is no guard: the
      divisor `x.length * (minDimension - 1)` is 0. */
  lemma SingleCategory(x: seq<Value>, y: seq<Value>)
    requires |x| == |y| > 0
    requires (forall i :: 0 <= i < |x| ==> x[i] == x[0]) || (forall i :: 0 <= i < |y| ==> y[i] == y[0])
    ensures CramersVOf(x, y) == DivisionByZero
  {
    CategoriesPresent(x);
    CategoriesPresent(y);
    if forall i :: 0 <= i < |x| ==> x[i] == x[0] {
      SingleDedup(x);
    } else {
      SingleDedup(y);
    }
  }

  lemma SingleDedup(x: seq<Value>)
    requires x != [] && forall i :: 0 <= i < |x| ==> x[i] == x[0]
    ensures |Seqs.Dedup(x)| == 1
  {
    Seqs.DedupProperties(x);
    var d := Seqs.Dedup(x);
    assert x[0] in d;
    forall k | 0 <= k < |d| ensures d[k] == x[0] {
      assert d[k] in x;
    }
  }
}
