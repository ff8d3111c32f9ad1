/** The calendar layout of `CalendarHeatmap`: the days of one year walked
    one at a time, collected into weeks (a new week on each Sunday) and the
    weeks into months (a new month on each 1st). */
module CalendarHeatmap {

  // ------------------------------------------------------------ dates

  /** A calendar date; `month` counts from 0, as `getMonth()` does. */
  datatype Date = Date(year: int, month: nat, day: nat)

  /** One day of the layout: its date and the value shown for it. */
  datatype Cell = Cell(date: Date, value: real)

  /** A closed month: its label and its weeks. */
  datatype MonthBlock = MonthBlock(month: int, weeks: seq<seq<Cell>>)

  /** The loop's state: the closed months, the weeks of the month in
      progress and the week in progress. */
  datatype Layout = Layout(months: seq<MonthBlock>, month: seq<seq<Cell>>, week: seq<Cell>)

  /** `new Date(year, 0, 1)` reads the years 0 to 99 as 1900 to 1999. */
  function FullYear(year: int): int
  {
    if 0 <= year <= 99 then 1900 + year else year
  }

  /** The Gregorian leap-year rule. */
  predicate Leap(y: int)
  {
    y % 4 == 0 && (y % 100 != 0 || y % 400 == 0)
  }

  function DaysIn(y: int, m: nat): (n: nat)
    requires m < 12
    ensures 28 <= n <= 31
    ensures m == 1 ==> (n == 29 <==> Leap(y))
  {
    if m == 1 then (if Leap(y) then 29 else 28)
    else if m == 3 || m == 5 || m == 8 || m == 10 then 30
    else 31
  }

  predicate Valid(d: Date)
  {
    d.month < 12 && 1 <= d.day <= DaysIn(d.year, d.month)
  }

  /** The number of days of year `y` before month `m`. */
  function MonthStart(y: int, m: nat): nat
    requires m <= 12
  {
    if m == 0 then 0 else MonthStart(y, m - 1) + DaysIn(y, m - 1)
  }

  /** The position of a date in its year, counting 1 January as 0. */
  function Ordinal(d: Date): nat
    requires Valid(d)
  {
    MonthStart(d.year, d.month) + d.day - 1
  }

  /** The weekday of 1 January (0 = Sunday) in the proleptic Gregorian
      calendar, by Gauss's rule. */
  function NewYearWeekday(y: int): (w: nat)
    ensures w < 7
  {
    (1 + 5 * ((y - 1) % 4) + 4 * ((y - 1) % 100) + 6 * ((y - 1) % 400)) % 7
  }

  /** `getDay()`: 0 = Sunday. */
  function Weekday(d: Date): (w: nat)
    requires Valid(d)
    ensures w < 7
  {
    (NewYearWeekday(d.year) + Ordinal(d)) % 7
  }

  /** `setDate(getDate() + 1)`: the following day, across a month or a
      year end. */
  function NextDay(d: Date): (r: Date)
    requires Valid(d)
    ensures Valid(r)
  {
    if d.day < DaysIn(d.year, d.month) then d.(day := d.day + 1)
    else if d.month < 11 then Date(d.year, d.month + 1, 1)
    else Date(d.year + 1, 0, 1)
  }

  /** `currentDate <= endDate` on two midnights. */
  predicate AtMost(d: Date, e: Date)
  {
    d.year < e.year || (d.year == e.year && (d.month < e.month || (d.month == e.month && d.day <= e.day)))
  }

  /** The dates of the months before `m` of year `y`, in order. */
  function Dates(y: int, m: nat): (r: seq<Date>)
    requires m <= 12
    ensures |r| == MonthStart(y, m)
  {
    if m == 0 then []
    else Dates(y, m - 1) + seq(DaysIn(y, m - 1), k requires 0 <= k => Date(y, m - 1, k + 1))
  }

  function YearDates(y: int): seq<Date>
  {
    Dates(y, 12)
  }

  /** `data[key] || 0`: the data entry for a date, 0 when there is none. */
  function ValueOf(data: map<Date, real>, d: Date): real
  {
    if d in data then data[d] else 0.0
  }

  /** The cells the loop produces, one per day of the year. */
  function YearCells(y: int, data: map<Date, real>): (r: seq<Cell>)
    ensures |r| == |YearDates(y)|
  {
    var ds := YearDates(y);
    seq(|ds|, k requires 0 <= k < |ds| => Cell(ds[k], ValueOf(data, ds[k])))
  }

  // ------------------------------------------------------------ date lemmas

  lemma {:induction false} MonthStartGrows(y: int, m: nat, m': nat)
    requires m <= m' <= 12
    ensures MonthStart(y, m) <= MonthStart(y, m')
  {
    if m < m' {
      MonthStartGrows(y, m, m' - 1);
    }
  }

  /** Entry `k` of the dates is a valid date of the year whose ordinal is `k`. */
  lemma {:induction false} DatesAt(y: int, m: nat, k: nat)
    requires m <= 12 && k < |Dates(y, m)|
    ensures Valid(Dates(y, m)[k]) && Dates(y, m)[k].year == y && Dates(y, m)[k].month < m
    ensures Ordinal(Dates(y, m)[k]) == k
  {
    if k < MonthStart(y, m - 1) {
      DatesAt(y, m - 1, k);
    }
  }

  /** Every valid date of the year is listed, at its ordinal. */
  lemma {:induction false} DatesFind(y: int, m: nat, d: Date)
    requires m <= 12 && Valid(d) && d.year == y && d.month < m
    ensures Ordinal(d) < |Dates(y, m)| && Dates(y, m)[Ordinal(d)] == d
  {
    if d.month < m - 1 {
      DatesFind(y, m - 1, d);
      MonthStartGrows(y, d.month + 1, m - 1);
    }
  }

  /** The year lists every date from 1 January to 31 December exactly
      once: entry `k` has ordinal `k`, and every date of the year is in it. */
  lemma YearListsEachDay(y: int, d: Date)
    ensures d in YearDates(y) <==> Valid(d) && d.year == y
    ensures Valid(d) && d.year == y ==> Ordinal(d) < |YearDates(y)| && YearDates(y)[Ordinal(d)] == d
  {
    if d in YearDates(y) {
      var k :| 0 <= k < |YearDates(y)| && YearDates(y)[k] == d;
      DatesAt(y, 12, k);
    }
    if Valid(d) && d.year == y {
      DatesFind(y, 12, d);
    }
  }

  lemma YearLength(y: int)
    ensures |YearDates(y)| == if Leap(y) then 366 else 365
  {
    assert MonthStart(y, 1) == 31;
    assert MonthStart(y, 2) == 31 + DaysIn(y, 1);
    assert MonthStart(y, 3) == MonthStart(y, 2) + 31;
    assert MonthStart(y, 4) == MonthStart(y, 3) + 30;
    assert MonthStart(y, 5) == MonthStart(y, 4) + 31;
    assert MonthStart(y, 6) == MonthStart(y, 5) + 30;
    assert MonthStart(y, 7) == MonthStart(y, 6) + 31;
    assert MonthStart(y, 8) == MonthStart(y, 7) + 31;
    assert MonthStart(y, 9) == MonthStart(y, 8) + 30;
    assert MonthStart(y, 10) == MonthStart(y, 9) + 31;
    assert MonthStart(y, 11) == MonthStart(y, 10) + 30;
    assert MonthStart(y, 12) == MonthStart(y, 11) + 31;
  }

  /** Inside the year, the next day is the next ordinal and the next weekday. */
  lemma NextDayAdvances(d: Date)
    requires Valid(d) && !(d.month == 11 && d.day == 31)
    ensures NextDay(d).year == d.year && Ordinal(NextDay(d)) == Ordinal(d) + 1
    ensures Weekday(NextDay(d)) == (Weekday(d) + 1) % 7
  {
  }

  /** The dates are in order: each is the day after the one before. */
  lemma YearInOrder(y: int, k: nat)
    requires k + 1 < |YearDates(y)|
    ensures Valid(YearDates(y)[k])
    ensures YearDates(y)[k + 1] == NextDay(YearDates(y)[k])
  {
    var d := YearDates(y)[k];
    DatesAt(y, 12, k);
    if d.month == 11 && d.day == 31 {
      assert false;
    }
    NextDayAdvances(d);
    DatesFind(y, 12, NextDay(d));
  }

  /** The first date is 1 January and the last 31 December, after which
      the loop's date is past the end. */
  lemma YearEnds(y: int)
    ensures |YearDates(y)| > 0 && YearDates(y)[0] == Date(y, 0, 1)
    ensures YearDates(y)[|YearDates(y)| - 1] == Date(y, 11, 31)
    ensures !AtMost(NextDay(Date(y, 11, 31)), Date(y, 11, 31))
  {
    YearLength(y);
    DatesFind(y, 12, Date(y, 0, 1));
    DatesFind(y, 12, Date(y, 11, 31));
  }

  // ------------------------------------------------------------ the layout

  /** One iteration of the loop: close the week on a Sunday, close the
      month (labelled `getMonth() - 1`) on a 1st, then add the day. */
  function Visit(st: Layout, c: Cell): Layout
    requires Valid(c.date)
  {
    var st1 := if Weekday(c.date) == 0 && |st.week| > 0 then Layout(st.months, st.month + [st.week], []) else st;
    var st2 := if c.date.day == 1 && |st1.month| > 0
      then Layout(st1.months + [MonthBlock(c.date.month as int - 1, st1.month)], [], st1.week)
      else st1;
    st2.(week := st2.week + [c])
  }

  predicate AllValid(cs: seq<Cell>)
  {
    forall k :: 0 <= k < |cs| ==> Valid(cs[k].date)
  }

  /** The loop run over `cs`. */
  function Run(cs: seq<Cell>): Layout
    requires AllValid(cs)
  {
    if cs == [] then Layout([], [], []) else Visit(Run(cs[..|cs| - 1]), cs[|cs| - 1])
  }

  /** After the loop: the last week into the month, the last month
      labelled 11. */
  function Finish(st: Layout): seq<MonthBlock>
  {
    var month := if |st.week| > 0 then st.month + [st.week] else st.month;
    if |month| > 0 then st.months + [MonthBlock(11, month)] else st.months
  }

  /** The month layout of `year` as the effect computes it. */
  function CalendarLayout(year: int, data: map<Date, real>): seq<MonthBlock>
  {
    var cells := YearCells(FullYear(year), data);
    CellsValid(FullYear(year), data);
    Finish(Run(cells))
  }

  lemma CellsValid(y: int, data: map<Date, real>)
    ensures AllValid(YearCells(y, data))
  {
    forall k | 0 <= k < |YearCells(y, data)|
      ensures Valid(YearCells(y, data)[k].date)
    {
      DatesAt(y, 12, k);
    }
  }

  // ------------------------------------------------------------ flattening

  function FlatWeeks(ws: seq<seq<Cell>>): seq<Cell>
  {
    if ws == [] then [] else FlatWeeks(ws[..|ws| - 1]) + ws[|ws| - 1]
  }

  function FlatMonths(ms: seq<MonthBlock>): seq<Cell>
  {
    if ms == [] then [] else FlatMonths(ms[..|ms| - 1]) + FlatWeeks(ms[|ms| - 1].weeks)
  }

  /** Everything the state holds, in order. */
  function Flat(st: Layout): seq<Cell>
  {
    FlatMonths(st.months) + FlatWeeks(st.month) + st.week
  }

  lemma VisitAppends(st: Layout, c: Cell)
    requires Valid(c.date)
    ensures Flat(Visit(st, c)) == Flat(st) + [c]
  {
    StepAppends(st, c, Weekday(c.date) == 0, c.date.day == 1, c.date.month as int - 1);
  }

  /** `Visit` with its two conditions as given: the new day lands at the end. */
  lemma StepAppends(st: Layout, c: Cell, sunday: bool, first: bool, m: int)
    ensures var st1 := if sunday && |st.week| > 0 then Layout(st.months, st.month + [st.week], []) else st;
            var st2 := if first && |st1.month| > 0 then Layout(st1.months + [MonthBlock(m, st1.month)], [], st1.week) else st1;
            Flat(st2.(week := st2.week + [c])) == Flat(st) + [c]
  {
    var st1 := if sunday && |st.week| > 0 then Layout(st.months, st.month + [st.week], []) else st;
    if sunday && |st.week| > 0 {
      CloseWeekFlat(st);
    }
    var st2 := if first && |st1.month| > 0 then Layout(st1.months + [MonthBlock(m, st1.month)], [], st1.week) else st1;
    if first && |st1.month| > 0 {
      CloseMonthFlat(st1, m);
    }
    assert Flat(st2.(week := st2.week + [c])) == Flat(st2) + [c];
  }

  /** Closing the week moves its days into the month and keeps their order. */
  lemma CloseWeekFlat(st: Layout)
    ensures Flat(Layout(st.months, st.month + [st.week], [])) == Flat(st)
  {
    assert FlatWeeks(st.month + [st.week]) == FlatWeeks(st.month) + st.week;
  }

  /** Closing the month moves its weeks into the list of months. */
  lemma CloseMonthFlat(st: Layout, m: int)
    ensures Flat(Layout(st.months + [MonthBlock(m, st.month)], [], st.week)) == Flat(st)
  {
    var ms := st.months + [MonthBlock(m, st.month)];
    assert ms[..|ms| - 1] == st.months;
    assert FlatMonths(ms) == FlatMonths(st.months) + FlatWeeks(st.month);
    assert FlatWeeks([]) == [];
  }

  /** The loop loses no day and repeats none: its state holds the days
      visited, in order. */
  lemma {:induction false} RunKeepsDays(cs: seq<Cell>)
    requires AllValid(cs)
    ensures Flat(Run(cs)) == cs
  {
    if cs != [] {
      var p, c := cs[..|cs| - 1], cs[|cs| - 1];
      assert AllValid(p);
      RunKeepsDays(p);
      assert Run(cs) == Visit(Run(p), c);
      VisitAppends(Run(p), c);
      assert p + [c] == cs;
    }
  }

  lemma FinishKeepsDays(st: Layout)
    ensures FlatMonths(Finish(st)) == Flat(st)
  {
    var month := if |st.week| > 0 then st.month + [st.week] else st.month;
    assert FlatWeeks(st.month + [st.week]) == FlatWeeks(st.month) + st.week;
    if |month| > 0 {
      var ms := st.months + [MonthBlock(11, month)];
      assert ms[..|ms| - 1] == st.months;
    }
  }

  // ------------------------------------------------------------ week shape

  /** Consecutive days, none a Sunday except perhaps the first. */
  predicate Shaped(w: seq<Cell>)
  {
    AllValid(w)
    && forall k :: 0 < k < |w| ==> Weekday(w[k].date) != 0 && Weekday(w[k].date) == (Weekday(w[k - 1].date) + 1) % 7
  }

  predicate Week(w: seq<Cell>)
  {
    w != [] && Shaped(w)
  }

  lemma {:induction false} ShapedCount(w: seq<Cell>, k: nat)
    requires Shaped(w) && k < |w|
    ensures Weekday(w[k].date) == Weekday(w[0].date) + k
  {
    if k > 0 {
      ShapedCount(w, k - 1);
    }
  }

  /** A week never spans more than seven days. */
  lemma ShapedShort(w: seq<Cell>)
    requires Shaped(w)
    ensures |w| <= 7
  {
    if |w| > 7 {
      ShapedCount(w, 7);
    }
  }

  predicate WeeksShaped(ws: seq<seq<Cell>>)
  {
    forall i :: 0 <= i < |ws| ==> Week(ws[i])
  }

  /** Every week of every closed month is a week, and month `i` is
      labelled `i`. */
  predicate Closed(ms: seq<MonthBlock>)
  {
    forall i :: 0 <= i < |ms| ==> ms[i].month == i && WeeksShaped(ms[i].weeks)
  }

  /** The weeks of `ws` from index `from` on each begin on a Sunday. */
  predicate SundayFrom(ws: seq<seq<Cell>>, from: nat)
  {
    forall j :: from <= j < |ws| ==> ws[j] != [] && Valid(ws[j][0].date) && Weekday(ws[j][0].date) == 0
  }

  /** Every week of the months begins on a Sunday, except the first week
      of the first month, which begins on 1 January. */
  predicate SundayMonths(ms: seq<MonthBlock>)
  {
    forall i :: 0 <= i < |ms| ==> SundayFrom(ms[i].weeks, if i == 0 then 1 else 0)
  }

  /** What holds after the loop has visited 1 January up to `last`. */
  predicate Progress(st: Layout, last: Cell)
  {
    Closed(st.months) && WeeksShaped(st.month) && Week(st.week)
    && st.week[|st.week| - 1] == last
    && |st.months| == last.date.month
    && (st.month == [] ==> |st.week| >= last.date.day)
    && SundayMonths(st.months)
    && SundayFrom(st.month, if st.months == [] then 1 else 0)
    && ((st.months == [] && st.month == []) || Weekday(st.week[0].date) == 0)
  }

  lemma FirstVisit(c: Cell)
    requires c.date.month == 0 && c.date.day == 1 && Valid(c.date)
    ensures Progress(Visit(Layout([], [], []), c), c)
  {
  }

  lemma ShapedPush(ws: seq<seq<Cell>>, w: seq<Cell>)
    requires WeeksShaped(ws) && Week(w)
    ensures WeeksShaped(ws + [w])
  {
  }

  lemma ClosedPush(ms: seq<MonthBlock>, b: MonthBlock)
    requires Closed(ms) && b.month == |ms| && WeeksShaped(b.weeks)
    ensures Closed(ms + [b])
  {
  }

  lemma SundayPush(ws: seq<seq<Cell>>, w: seq<Cell>, from: nat)
    requires SundayFrom(ws, from) && w != [] && Valid(w[0].date)
    requires |ws| >= from ==> Weekday(w[0].date) == 0
    ensures SundayFrom(ws + [w], from)
  {
  }

  lemma SundayMonthsPush(ms: seq<MonthBlock>, b: MonthBlock)
    requires SundayMonths(ms) && SundayFrom(b.weeks, if ms == [] then 1 else 0)
    ensures SundayMonths(ms + [b])
  {
  }

  lemma WeekExtend(w: seq<Cell>, c: Cell)
    requires Week(w) && Valid(c.date) && Weekday(c.date) != 0
    requires Weekday(c.date) == (Weekday(w[|w| - 1].date) + 1) % 7
    ensures Week(w + [c])
  {
  }

  lemma VisitProgress(st: Layout, c: Cell)
    requires st.week != [] && Progress(st, st.week[|st.week| - 1])
    requires var p := st.week[|st.week| - 1].date;
             !(p.month == 11 && p.day == 31) && c.date == NextDay(p)
    ensures Progress(Visit(st, c), c)
  {
    var p := st.week[|st.week| - 1].date;
    NextDayAdvances(p);
    ShapedShort(st.week);
    var st1 := st;
    if Weekday(c.date) == 0 {
      ShapedPush(st.month, st.week);
      SundayPush(st.month, st.week, if st.months == [] then 1 else 0);
      st1 := Layout(st.months, st.month + [st.week], []);
    }
    var st2 := st1;
    if c.date.day == 1 {
      assert st.month != [];
      ClosedPush(st1.months, MonthBlock(c.date.month as int - 1, st1.month));
      SundayMonthsPush(st1.months, MonthBlock(c.date.month as int - 1, st1.month));
      st2 := Layout(st1.months + [MonthBlock(c.date.month as int - 1, st1.month)], [], st1.week);
    }
    if st2.week != [] {
      WeekExtend(st2.week, c);
    }
    assert Visit(st, c) == st2.(week := st2.week + [c]);
  }

  /** Consecutive cells of the year are consecutive days, the earlier
      one not 31 December. */
  lemma CellsInOrder(y: int, data: map<Date, real>, k: nat)
    requires k + 1 < |YearCells(y, data)|
    ensures Valid(YearCells(y, data)[k].date)
    ensures !(YearCells(y, data)[k].date.month == 11 && YearCells(y, data)[k].date.day == 31)
    ensures YearCells(y, data)[k + 1].date == NextDay(YearCells(y, data)[k].date)
  {
    YearInOrder(y, k);
    DatesAt(y, 12, k);
    var d := YearDates(y)[k];
    if d.month == 11 && d.day == 31 {
      assert false;
    }
  }

  /** One more cell is one more visit. */
  lemma RunExtend(cs: seq<Cell>, n: nat)
    requires AllValid(cs) && n < |cs|
    ensures AllValid(cs[..n]) && AllValid(cs[..n + 1])
    ensures Run(cs[..n + 1]) == Visit(Run(cs[..n]), cs[n])
  {
    assert cs[..n + 1][..n] == cs[..n];
  }

  /** What holds after the loop has visited the first `n` days. */
  lemma {:induction false} RunProgress(y: int, data: map<Date, real>, n: nat)
    requires 0 < n <= |YearCells(y, data)|
    ensures AllValid(YearCells(y, data)[..n])
    ensures Progress(Run(YearCells(y, data)[..n]), YearCells(y, data)[n - 1])
  {
    var cells := YearCells(y, data);
    CellsValid(y, data);
    RunExtend(cells, n - 1);
    if n == 1 {
      YearEnds(y);
      FirstVisit(cells[0]);
    } else {
      RunProgress(y, data, n - 1);
      CellsInOrder(y, data, n - 2);
      VisitProgress(Run(cells[..n - 1]), cells[n - 1]);
    }
  }

  /** The layout's promise: twelve months labelled 0 to 11 in order, each
      week 1 to 7 consecutive days of which only the first can be a Sunday,
      every week but the year's first beginning on a Sunday, and all weeks
      together list every day of the year once, in order, each with its
      value. */
  lemma LayoutShape(year: int, data: map<Date, real>)
    ensures var layout := CalendarLayout(year, data);
            |layout| == 12 && Closed(layout)
            && (forall i, j | 0 <= i < 12 && 0 <= j < |layout[i].weeks| && (i, j) != (0, 0) ::
                  layout[i].weeks[j] != [] && Valid(layout[i].weeks[j][0].date) && Weekday(layout[i].weeks[j][0].date) == 0)
            && FlatMonths(layout) == YearCells(FullYear(year), data)
  {
    var y := FullYear(year);
    var cells := YearCells(y, data);
    CellsValid(y, data);
    YearEnds(y);
    RunProgress(y, data, |cells|);
    assert cells[..|cells|] == cells;
    var st := Run(cells);
    assert WeeksShaped(st.month + [st.week]);
    SundayPush(st.month, st.week, if st.months == [] then 1 else 0);
    SundayMonthsPush(st.months, MonthBlock(11, st.month + [st.week]));
    RunKeepsDays(cells);
    FinishKeepsDays(st);
  }

  /** Each week of the layout spans one to seven days. */
  lemma WeekLength(year: int, data: map<Date, real>, i: nat, j: nat)
    requires i < |CalendarLayout(year, data)| && j < |CalendarLayout(year, data)[i].weeks|
    ensures 1 <= |CalendarLayout(year, data)[i].weeks[j]| <= 7
  {
    LayoutShape(year, data);
    ShapedShort(CalendarLayout(year, data)[i].weeks[j]);
  }

  /** The week in progress is not closed at a month boundary: when the 1st
      of a month after January is not a Sunday, the week in progress after
      it also holds the day before, the last of the previous month, while
      the previous month has been closed. */
  lemma TrailingDaysJoin(y: int, data: map<Date, real>, n: nat)
    requires 0 < n < |YearCells(y, data)|
    requires YearCells(y, data)[n].date.day == 1
    requires Valid(YearCells(y, data)[n].date) && Weekday(YearCells(y, data)[n].date) != 0
    ensures AllValid(YearCells(y, data)[..n + 1])
    ensures var st := Run(YearCells(y, data)[..n + 1]);
            |st.week| >= 2 && st.week[|st.week| - 2] == YearCells(y, data)[n - 1]
            && YearCells(y, data)[n - 1].date.month + 1 == YearCells(y, data)[n].date.month
            && |st.months| == YearCells(y, data)[n].date.month
  {
    var cells := YearCells(y, data);
    CellsValid(y, data);
    RunExtend(cells, n);
    RunProgress(y, data, n);
    RunProgress(y, data, n + 1);
    WeekKept(Run(cells[..n]), cells[n]);
    YearInOrder(y, n - 1);
    assert cells[n - 1].date == YearDates(y)[n - 1] && cells[n].date == YearDates(y)[n];
  }

  /** A day that is not a Sunday joins the week in progress. */
  lemma WeekKept(st: Layout, c: Cell)
    requires Valid(c.date) && Weekday(c.date) != 0
    ensures Visit(st, c).week == st.week + [c]
  {
  }

  // ------------------------------------------------------------ the loop

  /** One iteration of the loop's body on the current date. */
  method VisitDay(months: seq<MonthBlock>, currentMonth: seq<seq<Cell>>, currentWeek: seq<Cell>,
                  currentDate: Date, data: map<Date, real>)
    returns (months': seq<MonthBlock>, currentMonth': seq<seq<Cell>>, currentWeek': seq<Cell>)
    requires Valid(currentDate)
    ensures Layout(months', currentMonth', currentWeek')
         == Visit(Layout(months, currentMonth, currentWeek), Cell(currentDate, ValueOf(data, currentDate)))
  {
    months', currentMonth', currentWeek' := months, currentMonth, currentWeek;
    if Weekday(currentDate) == 0 && |currentWeek'| > 0 {
      currentMonth' := currentMonth' + [currentWeek'];
      currentWeek' := [];
    }
    if currentDate.day == 1 && |currentMonth'| > 0 {
      months' := months' + [MonthBlock(currentDate.month as int - 1, currentMonth')];
      currentMonth' := [];
    }
    currentWeek' := currentWeek' + [Cell(currentDate, ValueOf(data, currentDate))];
  }

  /** The calendar-layout effect. */
  method ComputeLayout(year: int, data: map<Date, real>) returns (months: seq<MonthBlock>)
    ensures months == CalendarLayout(year, data)
  {
    var y := FullYear(year);
    ghost var cells := YearCells(y, data);
    CellsValid(y, data);
    YearEnds(y);
    var endDate := Date(y, 11, 31);
    var currentDate := Date(y, 0, 1);
    months := [];
    var currentMonth: seq<seq<Cell>> := [];
    var currentWeek: seq<Cell> := [];
    ghost var n := 0;
    while AtMost(currentDate, endDate)
      invariant n <= |cells| && Valid(currentDate)
      invariant n < |cells| ==> currentDate == cells[n].date
      invariant n == |cells| ==> currentDate == NextDay(endDate)
      invariant AllValid(cells[..n])
      invariant Layout(months, currentMonth, currentWeek) == Run(cells[..n])
      decreases |cells| - n
    {
      if n == |cells| {
        assert false;
      }
      RunExtend(cells, n);
      months, currentMonth, currentWeek := VisitDay(months, currentMonth, currentWeek, currentDate, data);
      if n + 1 < |cells| {
        CellsInOrder(y, data, n);
      }
      currentDate := NextDay(currentDate);
      n := n + 1;
    }
    if n < |cells| {
      DatesAt(y, 12, n);
      assert false;
    }
    assert cells[..n] == cells;
    months := FinishMonths(months, currentMonth, currentWeek);
  }

  /** After the loop: the last week into the month, the last month into
      the list. */
  method FinishMonths(months: seq<MonthBlock>, currentMonth: seq<seq<Cell>>, currentWeek: seq<Cell>)
    returns (months': seq<MonthBlock>)
    ensures months' == Finish(Layout(months, currentMonth, currentWeek))
  {
    months' := months;
    var month := currentMonth;
    if |currentWeek| > 0 {
      month := month + [currentWeek];
    }
    if |month| > 0 {
      months' := months' + [MonthBlock(11, month)];
    }
  }
}
