/** `DataTable`: a click on a column header sets the sort; the rows are
    sorted on a copy by that column, and the sorted rows are shown one page
    at a time behind Previous/Next buttons. */
module DataTable {
  import opened Options
  import Sorting
  import Text

  /** A row: column key to cell text. */
  type Row = map<string, string>

  datatype Direction = Asc | Desc

  /** `sortConfig`; `None` is the initial `key: null`. */
  datatype SortConfig = SortConfig(key: Option<string>, direction: Direction)

  // ------------------------------------------------------------ sorting

  /** The update `handleSort` passes to `setSortConfig`: the clicked key,
      descending exactly when it was already the key and ascending. */
  function NextSort(prev: SortConfig, key: string): (c: SortConfig)
  {
    SortConfig(Some(key), if prev.key == Some(key) && prev.direction == Asc then Desc else Asc)
  }

  /** A click on another column sorts ascending; clicks on the same column
      alternate the direction. */
  lemma ClicksAlternate(prev: SortConfig, key: string, other: string)
    requires other != key
    ensures NextSort(prev, key).key == Some(key)
    ensures prev.key != Some(key) ==> NextSort(prev, key).direction == Asc
    ensures NextSort(NextSort(prev, key), key).direction != NextSort(prev, key).direction
    ensures NextSort(NextSort(prev, key), other) == SortConfig(Some(other), Asc)
  {
  }

  /** `a < b` on strings: code-unit order, strict. */
  predicate StrLt(a: string, b: string)
  {
    Text.StrLe(a, b) && a != b
  }

  /** `a[key] < b[key]`; a missing cell is `undefined`, which compares
      false with everything. */
  predicate Less(a: Row, b: Row, key: string)
  {
    key in a && key in b && StrLt(a[key], b[key])
  }

  /** The comparator passed to `sort`. */
  function Compare(a: Row, b: Row, key: string, dir: Direction): int
  {
    if Less(a, b, key) then (if dir == Asc then -1 else 1)
    else if Less(b, a, key) then (if dir == Asc then 1 else -1)
    else 0
  }

  /** "`a` may stay before `b`": the comparator says not greater. */
  function NotAfter(key: string, dir: Direction): (Row, Row) -> bool
  {
    (a: Row, b: Row) => Compare(a, b, key, dir) <= 0
  }

  /** `sortedData`: the rows as given while there is no key (null or the
      empty string), otherwise a sorted copy. */
  function SortedRows(data: seq<Row>, config: SortConfig): seq<Row>
  {
    if config.key.None? || config.key.value == "" then data
    else Sorting.SortBy(data, NotAfter(config.key.value, config.direction))
  }

  /** The cell text, "" where the row lacks the column. */
  function Cell(r: Row, key: string): string
  {
    if key in r then r[key] else ""
  }

  /** The intended order on the column: ascending or descending text. */
  function KeyOrder(key: string, dir: Direction): (Row, Row) -> bool
  {
    (a: Row, b: Row) => if dir == Asc then Text.StrLe(Cell(a, key), Cell(b, key)) else Text.StrLe(Cell(b, key), Cell(a, key))
  }

  lemma KeyOrderTotal(key: string, dir: Direction)
    ensures Sorting.TotalPreorder(KeyOrder(key, dir))
  {
    Text.StrLeTotalPreorder();
    forall a: Row, b: Row ensures KeyOrder(key, dir)(a, b) || KeyOrder(key, dir)(b, a) {
      Text.StrLeTotal(Cell(a, key), Cell(b, key));
    }
    forall a: Row, b: Row, c: Row | KeyOrder(key, dir)(a, b) && KeyOrder(key, dir)(b, c)
      ensures KeyOrder(key, dir)(a, c)
    {
      if dir == Asc {
        Text.StrLeTransitive(Cell(a, key), Cell(b, key), Cell(c, key));
      } else {
        Text.StrLeTransitive(Cell(c, key), Cell(b, key), Cell(a, key));
      }
    }
  }

  /** Not greater is at most: `!(b < a)` exactly when `a <= b`. */
  lemma NotLessIsAtMost(a: string, b: string)
    ensures !StrLt(b, a) <==> Text.StrLe(a, b)
  {
    Text.StrLeTotal(a, b);
    Text.StrLeTotal(a, a);
    if Text.StrLe(a, b) && Text.StrLe(b, a) {
      Text.StrLeAntisymmetric(a, b);
    }
  }

  /** On rows that have the column, the comparator is the intended order. */
  lemma ComparatorIsKeyOrder(a: Row, b: Row, key: string, dir: Direction)
    requires key in a && key in b
    ensures NotAfter(key, dir)(a, b) == KeyOrder(key, dir)(a, b)
  {
    NotLessIsAtMost(a[key], b[key]);
    NotLessIsAtMost(b[key], a[key]);
  }

  /** With a key every row has, `sortedData` is a permutation of the rows,
      ordered by the column in the chosen direction, and rows with equal
      cells keep their input order. */
  lemma SortedRowsOrdered(data: seq<Row>, key: string, dir: Direction)
    requires key != "" && forall r :: r in data ==> key in r
    ensures var s := SortedRows(data, SortConfig(Some(key), dir));
            multiset(s) == multiset(data)
            && Sorting.SortedBy(s, KeyOrder(key, dir))
            && forall p :: Sorting.EqualTo(s, p, KeyOrder(key, dir)) == Sorting.EqualTo(data, p, KeyOrder(key, dir))
  {
    forall a, b | a in data && b in data
      ensures NotAfter(key, dir)(a, b) == KeyOrder(key, dir)(a, b)
    {
      ComparatorIsKeyOrder(a, b, key, dir);
    }
    Sorting.SortAgree(data, NotAfter(key, dir), KeyOrder(key, dir));
    Sorting.SortPermutation(data, KeyOrder(key, dir));
    KeyOrderTotal(key, dir);
    Sorting.SortSorted(data, KeyOrder(key, dir));
    forall p ensures Sorting.EqualTo(Sorting.SortBy(data, KeyOrder(key, dir)), p, KeyOrder(key, dir))
                  == Sorting.EqualTo(data, p, KeyOrder(key, dir))
    {
      Sorting.SortStable(data, p, KeyOrder(key, dir));
    }
  }

  /** Whatever the key, the rows shown are the rows given, reordered. */
  lemma SortedRowsPermutation(data: seq<Row>, config: SortConfig)
    ensures multiset(SortedRows(data, config)) == multiset(data)
    ensures config.key.None? || config.key.value == "" ==> SortedRows(data, config) == data
  {
    if config.key.Some? && config.key.value != "" {
      Sorting.SortPermutation(data, NotAfter(config.key.value, config.direction));
    }
  }

  // ------------------------------------------------------------ paging

  /** `Math.ceil(n / pageSize)`. */
  function TotalPages(n: nat, pageSize: nat): nat
    requires pageSize > 0
  {
    (n + pageSize - 1) / pageSize
  }

  /** The page count is the least number of pages that hold every row. */
  lemma TotalPagesIsCeiling(n: nat, pageSize: nat)
    requires pageSize > 0
    ensures TotalPages(n, pageSize) * pageSize >= n
    ensures n > 0 ==> (TotalPages(n, pageSize) - 1) * pageSize < n
    ensures TotalPages(n, pageSize) == 0 <==> n == 0
  {
    var t := TotalPages(n, pageSize);
    var r := (n + pageSize - 1) % pageSize;
    assert n + pageSize - 1 == t * pageSize + r;
  }

  /** A `slice` bound: negative counts from the end, then clamped. */
  function Bound(i: int, len: nat): (b: nat)
    ensures b <= len
  {
    if i < 0 then (if len + i < 0 then 0 else len + i) else if i > len then len else i
  }

  /** `Array.prototype.slice(start, end)`. */
  function JsSlice<T>(s: seq<T>, start: int, end: int): seq<T>
  {
    var a, b := Bound(start, |s|), Bound(end, |s|);
    if a < b then s[a..b] else []
  }

  /** `paginatedData` of page `page`. */
  function Page<T>(s: seq<T>, page: int, pageSize: nat): seq<T>
  {
    JsSlice(s, (page - 1) * pageSize, page * pageSize)
  }

  function Min(a: int, b: int): int
  {
    if a < b then a else b
  }

  /** A window `[lo, hi)` with non-negative bounds is the clamped slice. */
  lemma Window<T>(s: seq<T>, lo: nat, hi: nat)
    requires lo <= hi
    ensures JsSlice(s, lo, hi) == s[Min(lo, |s|)..Min(hi, |s|)]
    ensures |JsSlice(s, lo, hi)| <= hi - lo
    ensures lo < |s| && lo < hi ==> |JsSlice(s, lo, hi)| > 0
  {
  }

  lemma MulMono(a: nat, b: nat, c: nat)
    requires a <= b
    ensures a * c <= b * c
  {
  }

  /** Page `p` (from 1) shows the rows `(p - 1) * pageSize` up to
      `p * pageSize`, at most `pageSize` of them; page 0 shows none. */
  lemma PageContents<T>(s: seq<T>, page: nat, pageSize: nat)
    requires pageSize > 0
    ensures page >= 1 ==> Page(s, page, pageSize)
                          == s[Min((page - 1) * pageSize, |s|)..Min(page * pageSize, |s|)]
    ensures |Page(s, page, pageSize)| <= pageSize
    ensures page == 0 ==> Page(s, page, pageSize) == []
  {
    if page >= 1 {
      var lo: nat, hi: nat := (page - 1) * pageSize, page * pageSize;
      assert hi == lo + pageSize;
      Window(s, lo, hi);
    }
  }

  /** Every page from 1 to the count shows at least one row. */
  lemma PageNonEmpty<T>(s: seq<T>, page: nat, pageSize: nat)
    requires pageSize > 0 && 1 <= page <= TotalPages(|s|, pageSize)
    ensures |Page(s, page, pageSize)| > 0
  {
    var lo: nat, hi: nat := (page - 1) * pageSize, page * pageSize;
    assert hi == lo + pageSize;
    var t := TotalPages(|s|, pageSize);
    TotalPagesIsCeiling(|s|, pageSize);
    assert |s| > 0;
    MulMono(page - 1, t - 1, pageSize);
    assert lo < |s|;
    Window(s, lo, hi);
    assert Page(s, page, pageSize) == JsSlice(s, lo, hi);
  }

  /** The pages 1 to `m`, one after another. */
  function Pages<T>(s: seq<T>, pageSize: nat, m: nat): seq<T>
  {
    if m == 0 then [] else Pages(s, pageSize, m - 1) + Page(s, m, pageSize)
  }

  lemma {:induction false} PagesPrefix<T>(s: seq<T>, pageSize: nat, m: nat)
    requires pageSize > 0
    ensures Pages(s, pageSize, m) == s[..Min(m * pageSize, |s|)]
  {
    if m > 0 {
      PagesPrefix(s, pageSize, m - 1);
      var lo: nat, hi: nat := (m - 1) * pageSize, m * pageSize;
      assert hi == lo + pageSize;
      Window(s, lo, hi);
      assert Page(s, m, pageSize) == JsSlice(s, lo, hi);
      assert s[..Min(hi, |s|)] == s[..Min(lo, |s|)] + s[Min(lo, |s|)..Min(hi, |s|)];
    }
  }

  /** Paging loses and repeats no row: pages 1 to the count, read in
      order, are all the rows. */
  lemma PagesCover<T>(s: seq<T>, pageSize: nat)
    requires pageSize > 0
    ensures Pages(s, pageSize, TotalPages(|s|, pageSize)) == s
  {
    PagesPrefix(s, pageSize, TotalPages(|s|, pageSize));
    TotalPagesIsCeiling(|s|, pageSize);
  }

  // ------------------------------------------------------------ the component

  /** The component's state: its props and its two pieces of state. */
  class Table {
    const data: seq<Row>
    const pageSize: nat
    const sortable: bool
    var currentPage: int
    var sortConfig: SortConfig

    /** The page stays between 1 and the count; with no rows it is 0 or 1
        (Next on an empty table sets it to the count, 0). */
    predicate Valid()
      reads this
    {
      pageSize > 0
      && if data == [] then 0 <= currentPage <= 1 else 1 <= currentPage <= TotalPages(|data|, pageSize)
    }

    constructor (data: seq<Row>, pageSize: nat, sortable: bool)
      requires pageSize > 0
      ensures Valid()
      ensures this.data == data && this.pageSize == pageSize && this.sortable == sortable
      ensures currentPage == 1 && sortConfig == SortConfig(None, Asc)
    {
      this.data := data;
      this.pageSize := pageSize;
      this.sortable := sortable;
      currentPage := 1;
      sortConfig := SortConfig(None, Asc);
      new;
      TotalPagesIsCeiling(|data|, pageSize);
    }

    function SortedData(): seq<Row>
      reads this
    {
      SortedRows(data, sortConfig)
    }

    function PaginatedData(): seq<Row>
      reads this
    {
      Page(SortedData(), currentPage, pageSize)
    }

    /** `handleSort`: nothing when the table is not sortable. */
    method HandleSort(key: string)
      requires Valid()
      modifies this
      ensures Valid() && currentPage == old(currentPage)
      ensures sortable ==> sortConfig == NextSort(old(sortConfig), key)
      ensures !sortable ==> sortConfig == old(sortConfig)
    {
      if !sortable {
        return;
      }
      sortConfig := NextSort(sortConfig, key);
    }

    /** The Previous button: `Math.max(prev - 1, 1)`. */
    method Previous()
      requires Valid()
      modifies this
      ensures Valid() && sortConfig == old(sortConfig)
      ensures currentPage == if old(currentPage) - 1 > 1 then old(currentPage) - 1 else 1
    {
      var prev := currentPage;
      currentPage := if prev - 1 > 1 then prev - 1 else 1;
      TotalPagesIsCeiling(|data|, pageSize);
    }

    /** The Next button: `Math.min(prev + 1, totalPages)`. */
    method Next()
      requires Valid()
      modifies this
      ensures Valid() && sortConfig == old(sortConfig)
      ensures currentPage == Min(old(currentPage) + 1, TotalPages(|data|, pageSize))
      ensures data == [] ==> currentPage == 0
    {
      var prev := currentPage;
      var totalPages := TotalPages(|data|, pageSize);
      currentPage := Min(prev + 1, totalPages);
      TotalPagesIsCeiling(|data|, pageSize);
    }
  }
}
