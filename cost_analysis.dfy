/**
 * The analysis engine (`CostAnalysisService`): the calendar windows derived
 * from today's date, the comparisons built over them from the store's
 * range queries, the day-by-day pairing of this month with last month, and
 * the per-service / per-account comparison grid. The engine's only state,
 * the `IncludeCredits` toggle (true by default), is a parameter here, and so
 * is today's date.
 */
module CostAnalysis {
  import opened Calendar
  import opened Collections
  import opened Text
  import opened Models
  import opened CostStore

  // ---------------------------------------------------------------------
  // Windows

  /** An inclusive range of days, as passed to the store's range queries. */
  datatype Window = Window(from: Date, until: Date)

  /** Months counted from the start of the calendar: consecutive months differ by one. */
  function MonthIndex(d: Date): int {
    Year(d) * 12 + Month(d)
  }

  /** The number of days a window covers. */
  function Length(w: Window): int {
    w.until - w.from + 1
  }

  /** A window that starts on the 1st of a month and ends in that month. */
  predicate WithinOneMonth(w: Window) {
    Day(w.from) == 1 && w.until < w.from + DaysInMonth(Year(w.from), Month(w.from))
  }

  /** Month to date: the 1st of this month through today. */
  function MonthToDateWindow(today: Date): (w: Window)
    ensures w.until == today && w.from <= today && Length(w) == Day(today)
    ensures Day(w.from) == 1 && MonthIndex(w.from) == MonthIndex(today)
    ensures WithinOneMonth(w)
  {
    Window(MonthStart(today), today)
  }

  /** The whole of last month: its 1st through the day before this month's 1st. */
  function LastMonthWindow(today: Date): (w: Window)
    ensures Day(w.from) == 1 && MonthIndex(w.from) + 1 == MonthIndex(today)
    ensures Length(w) == DaysInMonth(Year(w.from), Month(w.from))
    ensures w.until + 1 == MonthToDateWindow(today).from
    ensures WithinOneMonth(w)
  {
    var thisMonthStart := MonthStart(today);
    PreviousMonthAdjacent(thisMonthStart);
    Window(AddMonths(thisMonthStart, -1), thisMonthStart - 1)
  }

  /** The whole of the month before last, which ends the day before last month starts. */
  function MonthBeforeLastWindow(today: Date): (w: Window)
    ensures Day(w.from) == 1 && MonthIndex(w.from) + 2 == MonthIndex(today)
    ensures Length(w) == DaysInMonth(Year(w.from), Month(w.from))
    ensures w.until + 1 == LastMonthWindow(today).from
  {
    var lastMonthStart := LastMonthWindow(today).from;
    PreviousMonthAdjacent(lastMonthStart);
    Window(AddMonths(lastMonthStart, -1), lastMonthStart - 1)
  }

  /**
   * Last month to the same day: last month's 1st through today's day of the
   * month, cut back to last month's length when last month is shorter, so
   * the end is always a day of last month.
   */
  function LastMonthToDateWindow(today: Date): (w: Window)
    ensures w.from == LastMonthWindow(today).from
    ensures w.from <= w.until <= LastMonthWindow(today).until
    ensures MonthIndex(w.until) == MonthIndex(w.from)
    ensures Day(w.until) == Min(Day(today), DaysInMonth(Year(w.from), Month(w.from)))
    ensures Length(w) == Day(w.until)
  {
    var lastMonth := LastMonthWindow(today);
    var day := Min(Day(today), DaysInMonth(Year(lastMonth.from), Month(lastMonth.from)));
    // The date with last month's year and month and day `day` (see `DateInMonth`).
    MonthPrefix(lastMonth, day);
    Window(lastMonth.from, lastMonth.from + day - 1)
  }

  /** The first `day` days of a whole month stay inside it and end on its day `day`. */
  lemma {:induction false} MonthPrefix(month: Window, day: int)
    requires Day(month.from) == 1 && Length(month) == DaysInMonth(Year(month.from), Month(month.from))
    requires 1 <= day <= Length(month)
    ensures month.from <= month.from + day - 1 <= month.until
    ensures MonthIndex(month.from + day - 1) == MonthIndex(month.from)
    ensures Day(month.from + day - 1) == day
  {
    DayWithinMonth(month.from, day - 1);
  }

  /** The rolling 30 days: yesterday and the 29 days before it. */
  function Rolling30Window(today: Date): (w: Window)
    ensures w.until + 1 == today && Length(w) == 30
  {
    var yesterday := today - 1;
    Window(yesterday - 29, yesterday)
  }

  /** The 30 days immediately before the rolling window, with no gap and no overlap. */
  function Previous30Window(today: Date): (w: Window)
    ensures w.until + 1 == Rolling30Window(today).from && Length(w) == 30
  {
    var previousEnd := Rolling30Window(today).from - 1;
    Window(previousEnd - 29, previousEnd)
  }

  // ---------------------------------------------------------------------
  // Comparisons

  /**
   * The percentage change from `previous` to `current`; when `previous` is
   * zero it is 100 for any non-zero `current` and 0 otherwise.
   */
  function PercentChange(current: real, previous: real): (pct: real)
    ensures previous != 0.0 ==> pct * previous == (current - previous) * 100.0
    ensures previous == 0.0 ==> (pct == 100.0 <==> current != 0.0) && (pct == 0.0 <==> current == 0.0)
  {
    if previous != 0.0 then ((current - previous) / previous) * 100.0
    else if current != 0.0 then 100.0
    else 0.0
  }

  /** Against a positive base the percentage is non-negative exactly when the value did not fall. */
  lemma {:induction false} PercentChangeSign(current: real, previous: real)
    ensures previous > 0.0 ==> (PercentChange(current, previous) >= 0.0 <==> current >= previous)
    ensures previous > 0.0 ==> (PercentChange(current, previous) > 0.0 <==> current > previous)
    ensures previous < 0.0 ==> (PercentChange(current, previous) >= 0.0 <==> current <= previous)
    ensures previous == 0.0 ==> PercentChange(current, previous) >= 0.0
  {
    var pct := PercentChange(current, previous);
    if previous != 0.0 {
      assert pct * previous == (current - previous) * 100.0;
      if previous > 0.0 {
        assert pct >= 0.0 ==> pct * previous >= 0.0;
        assert pct < 0.0 ==> pct * previous < 0.0;
      } else {
        assert pct >= 0.0 ==> pct * previous <= 0.0;
        assert pct < 0.0 ==> pct * previous > 0.0;
      }
      assert pct > 0.0 && previous > 0.0 ==> pct * previous > 0.0;
      assert pct <= 0.0 && previous > 0.0 ==> pct * previous <= 0.0;
    }
  }

  /** `CreateComparison`: the two totals, their difference and its percentage. */
  function CreateComparison(periodLabel: ComparisonLabel, current: real, previous: real): (r: CostComparison)
    ensures r.periodLabel == periodLabel && r.currentPeriod == current && r.previousPeriod == previous
    ensures r.previousPeriod + r.difference == r.currentPeriod
    ensures r.percentageChange == PercentChange(current, previous)
  {
    CostComparison(periodLabel, current, previous, current - previous, PercentChange(current, previous))
  }

  /** The total the store reports for a window. */
  function WindowTotal(facts: Facts, w: Window, includeCredits: bool): real {
    TotalForDateRange(facts, w.from, w.until, includeCredits)
  }

  /** This month to date against last month to the same day. */
  function MonthToDateComparison(facts: Facts, today: Date, includeCredits: bool): (r: CostComparison)
    ensures r.periodLabel == MonthToDate
    ensures r.currentPeriod == WindowTotal(facts, MonthToDateWindow(today), includeCredits)
    ensures r.previousPeriod == WindowTotal(facts, LastMonthToDateWindow(today), includeCredits)
    ensures r.difference == r.currentPeriod - r.previousPeriod
    ensures r.percentageChange == PercentChange(r.currentPeriod, r.previousPeriod)
  {
    CreateComparison(MonthToDate,
      WindowTotal(facts, MonthToDateWindow(today), includeCredits),
      WindowTotal(facts, LastMonthToDateWindow(today), includeCredits))
  }

  /** The whole of last month against the whole of the month before it, labelled with both months. */
  function FullMonthComparison(facts: Facts, today: Date, includeCredits: bool): (r: CostComparison)
    ensures r.periodLabel == MonthVersusMonth(Month(LastMonthWindow(today).from), Month(MonthBeforeLastWindow(today).from))
    ensures r.currentPeriod == WindowTotal(facts, LastMonthWindow(today), includeCredits)
    ensures r.previousPeriod == WindowTotal(facts, MonthBeforeLastWindow(today), includeCredits)
    ensures r.difference == r.currentPeriod - r.previousPeriod
    ensures r.percentageChange == PercentChange(r.currentPeriod, r.previousPeriod)
  {
    var last, before := LastMonthWindow(today), MonthBeforeLastWindow(today);
    CreateComparison(MonthVersusMonth(Month(last.from), Month(before.from)),
      WindowTotal(facts, last, includeCredits),
      WindowTotal(facts, before, includeCredits))
  }

  /**
   * `GetCreditsSummary`: the credits of this month to date and of the whole
   * of last month. It takes no credits toggle: credits are reported whether
   * or not the totals include them.
   */
  function CreditsSummary(facts: Facts, today: Date): (r: (real, real))
    ensures r.0 >= 0.0 && r.1 >= 0.0
    ensures r.0 == CreditsForDateRange(facts, MonthToDateWindow(today).from, today)
    ensures r.1 == CreditsForDateRange(facts, LastMonthWindow(today).from, LastMonthWindow(today).until)
  {
    var mtd, last := MonthToDateWindow(today), LastMonthWindow(today);
    (CreditsForDateRange(facts, mtd.from, mtd.until), CreditsForDateRange(facts, last.from, last.until))
  }

  // ---------------------------------------------------------------------
  // Day by day

  /**
   * `ToDictionary(x => key(x.Date), x => x.Total)`: each day's total under
   * its key. A later day with the same key replaces an earlier one, which
   * never happens for the days of one month keyed by day of the month.
   */
  function TotalsByKey(days: seq<(Date, real)>, key: Date -> int): map<int, real> {
    if days == [] then map[]
    else
      var last := days[|days| - 1];
      TotalsByKey(days[..|days| - 1], key)[key(last.0) := last.1]
  }

  /** Every key is the key of some listed day. */
  lemma {:induction false} TotalsByKeyListed(days: seq<(Date, real)>, key: Date -> int, k: int)
    requires k in TotalsByKey(days, key)
    ensures exists i :: 0 <= i < |days| && key(days[i].0) == k
  {
    if days != [] {
      var last := days[|days| - 1];
      if key(last.0) != k {
        var init := days[..|days| - 1];
        TotalsByKeyListed(init, key, k);
        var i :| 0 <= i < |init| && key(init[i].0) == k;
        assert days[i] == init[i];
      }
    }
  }

  /** The daily totals keyed by day of the month (`ToDictionary(x => x.Date.Day, ...)`). */
  function DayOfMonthTotals(days: seq<(Date, real)>): (m: map<int, real>)
    ensures forall k :: k in m ==> 1 <= k
  {
    DayKeysPositive(days);
    TotalsByKey(days, Day)
  }

  lemma {:induction false} DayKeysPositive(days: seq<(Date, real)>)
    ensures forall k :: k in TotalsByKey(days, Day) ==> 1 <= k
  {
    forall k | k in TotalsByKey(days, Day) ensures 1 <= k {
      TotalsByKeyListed(days, Day, k);
      var i :| 0 <= i < |days| && Day(days[i].0) == k;
    }
  }

  /** `GetValueOrDefault(key, 0)`. */
  function ValueOrZero<K>(m: map<K, real>, k: K): (v: real)
    ensures k in m ==> v == m[k]
    ensures k !in m ==> v == 0.0
  {
    if k in m then m[k] else 0.0
  }

  /** `Keys.DefaultIfEmpty(0).Max()`: the largest key, or 0 when there is none. */
  function MaxKey(m: map<int, real>): (r: int)
    ensures m == map[] ==> r == 0
    ensures m != map[] ==> r in m && forall k :: k in m ==> k <= r
  {
    if m.Keys == {} then
      assert m == map[];
      0
    else
      DateGreaterIsStrictTotalOrder();
      Minimum(m.Keys, DateGreater)
  }

  function Max(a: int, b: int): (r: int)
    ensures r >= a && r >= b && (r == a || r == b)
  {
    if a >= b then a else b
  }

  /** One day's pair: the two totals, their difference and its percentage. */
  function DayRow(day: int, thisMonth: map<int, real>, lastMonth: map<int, real>): (r: DayComparison)
    ensures r.dayOfMonth == day
    ensures r.thisMonth == ValueOrZero(thisMonth, day) && r.lastMonth == ValueOrZero(lastMonth, day)
    ensures r.lastMonth + r.difference == r.thisMonth
    ensures r.percentageChange == PercentChange(r.thisMonth, r.lastMonth)
  {
    var t, l := ValueOrZero(thisMonth, day), ValueOrZero(lastMonth, day);
    DayComparison(day, t, l, t - l, PercentChange(t, l))
  }

  /** The daily totals of a window, by day of the month. */
  function MonthByDay(facts: Facts, w: Window, includeCredits: bool): map<int, real> {
    DayOfMonthTotals(DailyTotals(facts, w.from, w.until, includeCredits))
  }

  /**
   * Days 1, 2, ... up to the largest day of the month either map has, each
   * pairing the two months' values for that day, zero where a map has none.
   */
  function DayPairs(thisMonth: map<int, real>, lastMonth: map<int, real>): (rows: seq<DayComparison>)
    requires forall k :: k in thisMonth ==> 1 <= k
    requires forall k :: k in lastMonth ==> 1 <= k
    ensures |rows| == Max(MaxKey(thisMonth), MaxKey(lastMonth))
    ensures forall i :: 0 <= i < |rows| ==> rows[i] == DayRow(i + 1, thisMonth, lastMonth)
  {
    var maxDay := Max(MaxKey(thisMonth), MaxKey(lastMonth));
    seq(maxDay, i requires 0 <= i < maxDay => DayRow(i + 1, thisMonth, lastMonth))
  }

  /**
   * `GetDayByDayComparison`: days 1, 2, ... up to the last day of the month
   * that has data in either month, each pairing this month's total with
   * last month's, zero where a month has no data for that day.
   */
  function DayByDayComparison(facts: Facts, today: Date, includeCredits: bool): (rows: seq<DayComparison>)
    ensures PairsDailySums(rows,
      WindowRows(facts, MonthToDateWindow(today), includeCredits), MonthToDateWindow(today).from,
      WindowRows(facts, LastMonthWindow(today), includeCredits), LastMonthWindow(today).from)
    ensures var thisMonth, lastMonth := MonthToDateWindow(today), LastMonthWindow(today);
      && (forall d :: d in DatesOf(WindowRows(facts, thisMonth, includeCredits)) ==> d - thisMonth.from < |rows|)
      && (forall d :: d in DatesOf(WindowRows(facts, lastMonth, includeCredits)) ==> d - lastMonth.from < |rows|)
    ensures rows == [] <==>
      DatesOf(WindowRows(facts, MonthToDateWindow(today), includeCredits)) == {}
      && DatesOf(WindowRows(facts, LastMonthWindow(today), includeCredits)) == {}
  {
    var thisMonth, lastMonth := MonthToDateWindow(today), LastMonthWindow(today);
    DayByDayRows(facts, thisMonth, lastMonth, includeCredits);
    DayByDayCoversDays(facts, thisMonth, lastMonth, includeCredits);
    DayByDayEmpty(facts, thisMonth, lastMonth, includeCredits);
    DayByDayOver(facts, thisMonth, lastMonth, includeCredits)
  }

  /**
   * Row i is day i + 1 of both months: it pairs the total of `thisRows` dated
   * `thisFrom + i` with the total of `lastRows` dated `lastFrom + i` (zero
   * where none are), with their difference and the percentage-change rule.
   */
  predicate PairsDailySums(rows: seq<DayComparison>, thisRows: seq<DailyCost>, thisFrom: Date, lastRows: seq<DailyCost>, lastFrom: Date) {
    forall i :: 0 <= i < |rows| ==>
      && rows[i].dayOfMonth == i + 1
      && rows[i].thisMonth == SumWhere(thisRows, CostOf, DateOf, thisFrom + i)
      && rows[i].lastMonth == SumWhere(lastRows, CostOf, DateOf, lastFrom + i)
      && rows[i].difference == rows[i].thisMonth - rows[i].lastMonth
      && rows[i].percentageChange == PercentChange(rows[i].thisMonth, rows[i].lastMonth)
  }

  /** The day-by-day pairing of the daily totals of two windows. */
  function DayByDayOver(facts: Facts, thisMonth: Window, lastMonth: Window, includeCredits: bool): seq<DayComparison> {
    DayPairs(MonthByDay(facts, thisMonth, includeCredits), MonthByDay(facts, lastMonth, includeCredits))
  }

  /** The rows the store's range query returns for a window. */
  function WindowRows(facts: Facts, w: Window, includeCredits: bool): seq<DailyCost> {
    CostsForDateRange(facts, w.from, w.until, includeCredits)
  }

  /** Inside a window within one month, a date falls on its offset from the 1st plus one. */
  lemma {:induction false} DayInWindow(w: Window, d: Date)
    requires WithinOneMonth(w)
    requires w.from <= d <= w.until
    ensures Day(d) == d - w.from + 1
  {
    DayWithinMonth(w.from, d - w.from);
  }

  /** Each listed day's key is its offset from the window's 1st plus one. */
  ghost predicate KeyOffsets(w: Window, days: seq<(Date, real)>, key: Date -> int) {
    forall j :: 0 <= j < |days| ==> key(days[j].0) == days[j].0 - w.from + 1
  }

  /** Inside one month, the day of the month is such a key. */
  lemma {:induction false} OffsetsInWindow(w: Window, days: seq<(Date, real)>)
    requires WithinOneMonth(w)
    requires forall j :: 0 <= j < |days| ==> w.from <= days[j].0 <= w.until
    ensures KeyOffsets(w, days, Day)
  {
    forall j | 0 <= j < |days| ensures Day(days[j].0) == days[j].0 - w.from + 1 {
      DayInWindow(w, days[j].0);
    }
  }

  /**
   * Listed in ascending order and keyed by offset, each day is found under
   * its key with its own total: no later day replaces it.
   */
  lemma {:induction false} TotalsByKeyAt(w: Window, days: seq<(Date, real)>, key: Date -> int, i: int)
    requires KeyOffsets(w, days, key)
    requires DatesAscending(days)
    requires 0 <= i < |days|
    ensures days[i].0 - w.from + 1 in TotalsByKey(days, key)
    ensures TotalsByKey(days, key)[days[i].0 - w.from + 1] == days[i].1
  {
    var last := days[|days| - 1];
    assert key(last.0) == last.0 - w.from + 1;
    if i < |days| - 1 {
      var init := days[..|days| - 1];
      assert KeyOffsets(w, init, key) by {
        forall j | 0 <= j < |init| ensures key(init[j].0) == init[j].0 - w.from + 1 {
          assert init[j] == days[j];
        }
      }
      assert init[i] == days[i];
      TotalsByKeyAt(w, init, key, i);
      assert days[i].0 < last.0;
    }
  }

  /** `days` is what `DailyTotals` makes of `rows` over the window `w`. */
  ghost predicate DailyTotalsOver(w: Window, rows: seq<DailyCost>, days: seq<(Date, real)>) {
    && (forall i :: 0 <= i < |days| ==> w.from <= days[i].0 <= w.until)
    && DatesAscending(days)
    && (forall i :: 0 <= i < |days| ==> days[i].0 in DatesOf(rows))
    && (forall d :: d in DatesOf(rows) ==> exists i :: 0 <= i < |days| && days[i].0 == d)
    && (forall i :: 0 <= i < |days| ==> days[i].1 == SumWhere(rows, CostOf, DateOf, days[i].0))
  }

  lemma {:induction false} DailyTotalsIsOver(facts: Facts, w: Window, includeCredits: bool)
    ensures DailyTotalsOver(w, WindowRows(facts, w, includeCredits), DailyTotals(facts, w.from, w.until, includeCredits))
  {
    DailyTotalsInRange(facts, w.from, w.until, includeCredits);
    AscendingFromPairs(DailyTotals(facts, w.from, w.until, includeCredits));
  }

  /** Strictly ascending dates, stated from the last entry back. */
  ghost predicate DatesAscending(days: seq<(Date, real)>) {
    days == []
    || (&& DatesAscending(days[..|days| - 1])
        && forall i :: 0 <= i < |days| - 1 ==> days[i].0 < days[|days| - 1].0)
  }

  lemma {:induction false} AscendingFromPairs(days: seq<(Date, real)>)
    requires forall i, j :: 0 <= i < j < |days| ==> days[i].0 < days[j].0
    ensures DatesAscending(days)
  {
    if days != [] {
      var init := days[..|days| - 1];
      forall i, j | 0 <= i < j < |init| ensures init[i].0 < init[j].0 {
        assert init[i] == days[i] && init[j] == days[j];
      }
      AscendingFromPairs(init);
    }
  }

  /**
   * `m` holds, under the number k, the total of the rows dated k - 1 days
   * after the window's 1st, and holds nothing else.
   */
  ghost predicate DayEntries(w: Window, rows: seq<DailyCost>, m: map<int, real>) {
    DayKeys(w, rows, m) && DayValues(w, rows, m)
  }

  /** The keys of `m` are the numbers k whose date, k - 1 days after the window's 1st, has rows. */
  ghost predicate DayKeys(w: Window, rows: seq<DailyCost>, m: map<int, real>) {
    forall k :: k in m <==> w.from + k - 1 in DatesOf(rows)
  }

  /** Each entry of `m` is the total of the rows on its date. */
  ghost predicate DayValues(w: Window, rows: seq<DailyCost>, m: map<int, real>) {
    forall k :: k in m ==> m[k] == SumWhere(rows, CostOf, DateOf, w.from + k - 1)
  }

  /** A key is the offset of some listed date, so of a day with rows. */
  lemma {:induction false} KeyIsDayWithRows(w: Window, rows: seq<DailyCost>, days: seq<(Date, real)>, key: Date -> int, k: int)
    requires KeyOffsets(w, days, key)
    requires forall i :: 0 <= i < |days| ==> days[i].0 in DatesOf(rows)
    requires k in TotalsByKey(days, key)
    ensures w.from + k - 1 in DatesOf(rows)
  {
    TotalsByKeyListed(days, key, k);
    var i :| 0 <= i < |days| && key(days[i].0) == k;
    assert days[i].0 == w.from + k - 1;
    assert days[i].0 in DatesOf(rows);
  }

  /** A day with rows is found under its offset key, with that day's total. */
  lemma {:induction false} DayWithRowsIsKeyed(w: Window, rows: seq<DailyCost>, days: seq<(Date, real)>, key: Date -> int, k: int)
    requires KeyOffsets(w, days, key) && DailyTotalsOver(w, rows, days)
    requires w.from + k - 1 in DatesOf(rows)
    ensures k in TotalsByKey(days, key)
    ensures TotalsByKey(days, key)[k] == SumWhere(rows, CostOf, DateOf, w.from + k - 1)
  {
    var d := w.from + k - 1;
    assert exists i :: 0 <= i < |days| && days[i].0 == d;
    var i :| 0 <= i < |days| && days[i].0 == d;
    TotalsByKeyAt(w, days, key, i);
  }

  /** Every key is the offset of a day with rows. */
  lemma {:induction false} KeysAreDaysWithRows(w: Window, rows: seq<DailyCost>, days: seq<(Date, real)>, key: Date -> int)
    requires KeyOffsets(w, days, key)
    requires forall i :: 0 <= i < |days| ==> days[i].0 in DatesOf(rows)
    ensures forall k :: k in TotalsByKey(days, key) ==> w.from + k - 1 in DatesOf(rows)
  {
    forall k | k in TotalsByKey(days, key) ensures w.from + k - 1 in DatesOf(rows) {
      KeyIsDayWithRows(w, rows, days, key, k);
    }
  }

  /** The offset of every day with rows is a key. */
  lemma {:induction false} DaysWithRowsAreKeys(w: Window, rows: seq<DailyCost>, days: seq<(Date, real)>, key: Date -> int)
    requires KeyOffsets(w, days, key) && DailyTotalsOver(w, rows, days)
    ensures forall k :: w.from + k - 1 in DatesOf(rows) ==> k in TotalsByKey(days, key)
  {
    forall k | w.from + k - 1 in DatesOf(rows) ensures k in TotalsByKey(days, key) {
      DayWithRowsIsKeyed(w, rows, days, key, k);
    }
  }

  /** The two directions together say the keys are exactly those offsets. */
  lemma {:induction false} BothWaysDayKeys(w: Window, rows: seq<DailyCost>, m: map<int, real>)
    requires forall k :: k in m ==> w.from + k - 1 in DatesOf(rows)
    requires forall k :: w.from + k - 1 in DatesOf(rows) ==> k in m
    ensures DayKeys(w, rows, m)
  {
  }

  /** Each key holds the total of the rows on its day. */
  lemma {:induction false} TotalsByKeyValues(w: Window, rows: seq<DailyCost>, days: seq<(Date, real)>, key: Date -> int)
    requires KeyOffsets(w, days, key) && DailyTotalsOver(w, rows, days)
    ensures DayValues(w, rows, TotalsByKey(days, key))
  {
    forall k | k in TotalsByKey(days, key)
      ensures TotalsByKey(days, key)[k] == SumWhere(rows, CostOf, DateOf, w.from + k - 1)
    {
      KeyIsDayWithRows(w, rows, days, key, k);
      DayWithRowsIsKeyed(w, rows, days, key, k);
    }
  }

  /** Keyed by day of the month, the daily totals of a window inside one month are exactly the days with rows and their totals. */
  lemma {:induction false} DayOfMonthTotalsEntries(w: Window, rows: seq<DailyCost>, days: seq<(Date, real)>)
    requires WithinOneMonth(w) && DailyTotalsOver(w, rows, days)
    ensures DayEntries(w, rows, DayOfMonthTotals(days))
  {
    OffsetsInWindow(w, days);
    TotalsByKeyEntries(w, rows, days, Day);
    assert DayOfMonthTotals(days) == TotalsByKey(days, Day);
  }

  /** Keyed by offset, the daily totals are exactly the days with rows and their totals. */
  lemma {:induction false} TotalsByKeyEntries(w: Window, rows: seq<DailyCost>, days: seq<(Date, real)>, key: Date -> int)
    requires KeyOffsets(w, days, key) && DailyTotalsOver(w, rows, days)
    ensures DayEntries(w, rows, TotalsByKey(days, key))
  {
    KeysAreDaysWithRows(w, rows, days, key);
    DaysWithRowsAreKeys(w, rows, days, key);
    BothWaysDayKeys(w, rows, TotalsByKey(days, key));
    TotalsByKeyValues(w, rows, days, key);
  }

  /** Read with a default of zero, an entry is the total of the rows on its day, zero for a day without rows. */
  lemma {:induction false} DayEntryValue(w: Window, rows: seq<DailyCost>, m: map<int, real>, k: int)
    requires DayEntries(w, rows, m)
    ensures ValueOrZero(m, k) == SumWhere(rows, CostOf, DateOf, w.from + k - 1)
  {
    var d := w.from + k - 1;
    if k !in m {
      forall c | c in rows ensures DateOf(c) != d {
        assert c.date in DatesOf(rows);
      }
      SumWhereAbsent(rows, CostOf, DateOf, d);
    }
  }

  /** Each paired row carries the two months' totals for its day, zero for a month without rows that day. */
  lemma {:induction false} PairedRowValues(
    wThis: Window, thisRows: seq<DailyCost>, mThis: map<int, real>,
    wLast: Window, lastRows: seq<DailyCost>, mLast: map<int, real>)
    requires DayEntries(wThis, thisRows, mThis) && DayEntries(wLast, lastRows, mLast)
    requires forall k :: k in mThis ==> 1 <= k
    requires forall k :: k in mLast ==> 1 <= k
    ensures var rows := DayPairs(mThis, mLast);
      forall i :: 0 <= i < |rows| ==>
        && rows[i].dayOfMonth == i + 1
        && rows[i].thisMonth == SumWhere(thisRows, CostOf, DateOf, wThis.from + i)
        && rows[i].lastMonth == SumWhere(lastRows, CostOf, DateOf, wLast.from + i)
        && rows[i].difference == rows[i].thisMonth - rows[i].lastMonth
        && rows[i].percentageChange == PercentChange(rows[i].thisMonth, rows[i].lastMonth)
  {
    var rows := DayPairs(mThis, mLast);
    forall i | 0 <= i < |rows|
      ensures rows[i].thisMonth == SumWhere(thisRows, CostOf, DateOf, wThis.from + i)
      ensures rows[i].lastMonth == SumWhere(lastRows, CostOf, DateOf, wLast.from + i)
    {
      DayEntryValue(wThis, thisRows, mThis, i + 1);
      DayEntryValue(wLast, lastRows, mLast, i + 1);
    }
  }

  /** Every day with rows in a month has a row. */
  lemma {:induction false} PairedRowsCoverDays(
    w: Window, rows: seq<DailyCost>, m: map<int, real>, other: map<int, real>, n: int)
    requires DayEntries(w, rows, m)
    requires n == Max(MaxKey(m), MaxKey(other))
    ensures forall d :: d in DatesOf(rows) ==> d - w.from < n
  {
    forall d | d in DatesOf(rows) ensures d - w.from < n {
      var k := d - w.from + 1;
      assert w.from + k - 1 == d;
      assert k in m;
    }
  }

  /** A day-entry map is empty exactly when the window has no rows. */
  lemma {:induction false} NoDayEntries(w: Window, rows: seq<DailyCost>, m: map<int, real>)
    requires DayEntries(w, rows, m)
    ensures m == map[] <==> DatesOf(rows) == {}
  {
    if m != map[] {
      var k := MaxKey(m);
      assert w.from + k - 1 in DatesOf(rows);
    }
    if DatesOf(rows) != {} {
      var d :| d in DatesOf(rows);
      var k := d - w.from + 1;
      assert w.from + k - 1 == d;
      assert k in m;
    }
  }

  /** With keys from 1 up, the larger of the two largest keys is 0 exactly when both maps are empty. */
  lemma {:induction false} NoKeysNoMaxDay(a: map<int, real>, b: map<int, real>)
    requires forall k :: k in a ==> 1 <= k
    requires forall k :: k in b ==> 1 <= k
    ensures Max(MaxKey(a), MaxKey(b)) == 0 <==> a == map[] && b == map[]
  {
    if a != map[] {
      assert MaxKey(a) in a;
    }
    if b != map[] {
      assert MaxKey(b) in b;
    }
  }

  /** There are no rows exactly when neither month has any. */
  lemma {:induction false} NoPairedRows(
    wThis: Window, thisRows: seq<DailyCost>, mThis: map<int, real>,
    wLast: Window, lastRows: seq<DailyCost>, mLast: map<int, real>)
    requires DayEntries(wThis, thisRows, mThis) && DayEntries(wLast, lastRows, mLast)
    requires forall k :: k in mThis ==> 1 <= k
    requires forall k :: k in mLast ==> 1 <= k
    ensures Max(MaxKey(mThis), MaxKey(mLast)) == 0 <==> DatesOf(thisRows) == {} && DatesOf(lastRows) == {}
  {
    NoDayEntries(wThis, thisRows, mThis);
    NoDayEntries(wLast, lastRows, mLast);
    NoKeysNoMaxDay(mThis, mLast);
  }

  /** Keyed by day of the month, the daily totals of a window inside one month are exactly its days with rows. */
  lemma {:induction false} MonthByDayEntries(facts: Facts, w: Window, includeCredits: bool)
    requires WithinOneMonth(w)
    ensures DayEntries(w, WindowRows(facts, w, includeCredits), MonthByDay(facts, w, includeCredits))
  {
    DailyTotalsIsOver(facts, w, includeCredits);
    DayOfMonthTotalsEntries(w, WindowRows(facts, w, includeCredits), DailyTotals(facts, w.from, w.until, includeCredits));
  }

  /**
   * The day-by-day comparison of two windows that each lie within one month,
   * read against the stored facts: row i is day i + 1, pairing the total of
   * the first window's rows dated on that day with the total of the second
   * window's rows dated on that day, zero where there are none.
   */
  lemma {:induction false} DayByDayRows(facts: Facts, thisMonth: Window, lastMonth: Window, includeCredits: bool)
    requires WithinOneMonth(thisMonth) && WithinOneMonth(lastMonth)
    ensures PairsDailySums(DayByDayOver(facts, thisMonth, lastMonth, includeCredits),
      WindowRows(facts, thisMonth, includeCredits), thisMonth.from, WindowRows(facts, lastMonth, includeCredits), lastMonth.from)
  {
    var thisRows, lastRows := WindowRows(facts, thisMonth, includeCredits), WindowRows(facts, lastMonth, includeCredits);
    var mThis, mLast := MonthByDay(facts, thisMonth, includeCredits), MonthByDay(facts, lastMonth, includeCredits);
    MonthByDayEntries(facts, thisMonth, includeCredits);
    MonthByDayEntries(facts, lastMonth, includeCredits);
    PairedRowValues(thisMonth, thisRows, mThis, lastMonth, lastRows, mLast);
  }

  /** Every day with data in either window has a row of the day-by-day comparison. */
  lemma {:induction false} DayByDayCoversDays(facts: Facts, thisMonth: Window, lastMonth: Window, includeCredits: bool)
    requires WithinOneMonth(thisMonth) && WithinOneMonth(lastMonth)
    ensures var n := |DayByDayOver(facts, thisMonth, lastMonth, includeCredits)|;
      && (forall d :: d in DatesOf(WindowRows(facts, thisMonth, includeCredits)) ==> d - thisMonth.from < n)
      && (forall d :: d in DatesOf(WindowRows(facts, lastMonth, includeCredits)) ==> d - lastMonth.from < n)
  {
    var mThis, mLast := MonthByDay(facts, thisMonth, includeCredits), MonthByDay(facts, lastMonth, includeCredits);
    MonthByDayEntries(facts, thisMonth, includeCredits);
    MonthByDayEntries(facts, lastMonth, includeCredits);
    var n := Max(MaxKey(mThis), MaxKey(mLast));
    PairedRowsCoverDays(thisMonth, WindowRows(facts, thisMonth, includeCredits), mThis, mLast, n);
    PairedRowsCoverDays(lastMonth, WindowRows(facts, lastMonth, includeCredits), mLast, mThis, n);
  }

  /**
   * The last row of the day-by-day comparison is a day of the month keyed in
   * one of the windows, so (by `MonthByDayEntries`) a day with data.
   */
  lemma {:induction false} DayByDayLastRow(facts: Facts, thisMonth: Window, lastMonth: Window, includeCredits: bool)
    requires WithinOneMonth(thisMonth) && WithinOneMonth(lastMonth)
    ensures var n := |DayByDayOver(facts, thisMonth, lastMonth, includeCredits)|;
      n > 0 ==> n in MonthByDay(facts, thisMonth, includeCredits) || n in MonthByDay(facts, lastMonth, includeCredits)
  {
  }

  /** The day-by-day comparison has no rows exactly when neither window has data. */
  lemma {:induction false} DayByDayEmpty(facts: Facts, thisMonth: Window, lastMonth: Window, includeCredits: bool)
    requires WithinOneMonth(thisMonth) && WithinOneMonth(lastMonth)
    ensures DayByDayOver(facts, thisMonth, lastMonth, includeCredits) == []
      <==> DatesOf(WindowRows(facts, thisMonth, includeCredits)) == {} && DatesOf(WindowRows(facts, lastMonth, includeCredits)) == {}
  {
    MonthByDayEntries(facts, thisMonth, includeCredits);
    MonthByDayEntries(facts, lastMonth, includeCredits);
    NoPairedRows(
      thisMonth, WindowRows(facts, thisMonth, includeCredits), MonthByDay(facts, thisMonth, includeCredits),
      lastMonth, WindowRows(facts, lastMonth, includeCredits), MonthByDay(facts, lastMonth, includeCredits));
  }

  /** `GetDayByDayComparison` pairs this month to date with the whole of last month, both inside one month. */
  lemma {:induction false} DayByDayWindows(facts: Facts, today: Date, includeCredits: bool)
    ensures WithinOneMonth(MonthToDateWindow(today)) && WithinOneMonth(LastMonthWindow(today))
    ensures DayByDayComparison(facts, today, includeCredits)
      == DayByDayOver(facts, MonthToDateWindow(today), LastMonthWindow(today), includeCredits)
  {
  }

  // ---------------------------------------------------------------------
  // Per service and per account

  function ServiceOf(c: DailyCost): string {
    c.service
  }

  function AccountNameOf(c: DailyCost): string {
    c.accountName
  }

  /** What `GetCostsByGrouping` groups by: the service, or the account's name (not its id). */
  function GroupingKey(byService: bool): (key: DailyCost -> string)
    ensures forall c :: key(c) == if byService then c.service else c.accountName
  {
    if byService then ServiceOf else AccountNameOf
  }

  /** The names the rows are grouped under. */
  function NamesOf(rows: seq<DailyCost>, key: DailyCost -> string): set<string> {
    set c | c in rows :: key(c)
  }

  /**
   * `GroupBy(key).ToDictionary(g => g.Key, g => g.Sum(c => c.Cost))`: one
   * entry for each name some row carries, holding the total cost of the rows
   * that carry it.
   */
  function GroupTotals(rows: seq<DailyCost>, key: DailyCost -> string): (m: map<string, real>)
    ensures m.Keys == NamesOf(rows, key)
    ensures forall n :: n in m ==> m[n] == SumWhere(rows, CostOf, key, n)
  {
    if rows == [] then map[]
    else
      var rest := GroupTotals(rows[1..], key);
      var n := key(rows[0]);
      assert forall c :: c in rows <==> c == rows[0] || c in rows[1..];
      if n !in rest then
        forall c | c in rows[1..] ensures key(c) != n {
          assert key(c) in NamesOf(rows[1..], key);
        }
        SumWhereAbsent(rows[1..], CostOf, key, n);
        rest[n := rows[0].cost + ValueOrZero(rest, n)]
      else
        rest[n := rows[0].cost + ValueOrZero(rest, n)]
  }

  /**
   * `GetCostsByGrouping`: a window's rows, totalled per service or per account
   * name. Read with a default of zero, each name's entry is the total cost of
   * the rows carrying it, and the entries add up to the window's total.
   */
  function CostsByGrouping(facts: Facts, w: Window, includeCredits: bool, byService: bool): (m: map<string, real>)
    ensures m.Keys == NamesOf(WindowRows(facts, w, includeCredits), GroupingKey(byService))
    ensures forall n :: ValueOrZero(m, n) == SumWhere(WindowRows(facts, w, includeCredits), CostOf, GroupingKey(byService), n)
    ensures SumOfValues(m) == WindowTotal(facts, w, includeCredits)
  {
    var rows, key := WindowRows(facts, w, includeCredits), GroupingKey(byService);
    assert forall n :: ValueOrZero(GroupTotals(rows, key), n) == SumWhere(rows, CostOf, key, n) by {
      forall n ensures ValueOrZero(GroupTotals(rows, key), n) == SumWhere(rows, CostOf, key, n) {
        GroupValue(rows, key, n);
      }
    }
    GroupTotalsAddUp(rows, key);
    GroupTotals(rows, key)
  }

  /** Added up over distinct names, group totals are the per-name sums. */
  lemma {:induction false} SumOfKeysIsSumOfGroups(m: map<string, real>, rows: seq<DailyCost>, key: DailyCost -> string, ks: seq<string>)
    requires forall n :: n in ks ==> n in m && m[n] == SumWhere(rows, CostOf, key, n)
    ensures SumOfKeys(m, ks) == SumOfGroups(rows, CostOf, key, ks)
  {
    if ks != [] {
      assert ks[0] in ks;
      assert forall n :: n in ks[1..] ==> n in ks;
      SumOfKeysIsSumOfGroups(m, rows, key, ks[1..]);
    }
  }

  /** Grouping loses nothing and counts nothing twice: the group totals add up to the total cost of the rows. */
  lemma {:induction false} GroupTotalsAddUp(rows: seq<DailyCost>, key: DailyCost -> string)
    ensures SumOfValues(GroupTotals(rows, key)) == Sum(rows, CostOf)
  {
    var m := GroupTotals(rows, key);
    StrLessIsStrictTotalOrder();
    var ks := SortSet(m.Keys, StrLess);
    SumOfKeysIsSumOfGroups(m, rows, key, ks);
    AscendingDistinct(ks, StrLess);
    forall c | c in rows ensures key(c) in ks {
      assert key(c) in NamesOf(rows, key);
    }
    SumByGroups(rows, CostOf, key, ks);
  }

  /** One name's line of the comparison grid, from its four window totals. */
  function SummaryRow(name: string, mtd: real, lastSameDay: real, lastFull: real, prevFull: real): (s: ServiceAccountSummary)
    ensures s.name == name
    ensures s.mtdCost == mtd && s.lastMonthSameDayCost == lastSameDay
    ensures s.lastFullMonthCost == lastFull && s.previousFullMonthCost == prevFull
    ensures s.mtdDifferencePercent == PercentChange(mtd, lastSameDay)
    ensures s.fullMonthDifferencePercent == PercentChange(lastFull, prevFull)
    ensures s.mtdIsUp <==> mtd >= lastSameDay
    ensures s.fullMonthIsUp <==> lastFull >= prevFull
  {
    ServiceAccountSummary(
      name, mtd, lastSameDay, PercentChange(mtd, lastSameDay), mtd >= lastSameDay,
      lastFull, prevFull, PercentChange(lastFull, prevFull), lastFull >= prevFull)
  }

  /** The four groupings the grid compares. */
  datatype Groupings = Groupings(
    mtd: map<string, real>,
    lastSameDay: map<string, real>,
    lastFull: map<string, real>,
    prevFull: map<string, real>)

  function AllNames(g: Groupings): set<string> {
    g.mtd.Keys + g.lastSameDay.Keys + g.lastFull.Keys + g.prevFull.Keys
  }

  /**
   * The grid over four groupings: one line per name in the union of their
   * names, in ascending order, each reading zero where a grouping lacks the
   * name.
   */
  function CompareGroupings(g: Groupings): (rows: seq<ServiceAccountSummary>)
    ensures |rows| == |AllNames(g)|
    ensures forall i :: 0 <= i < |rows| ==> rows[i].name in AllNames(g)
    ensures forall i, j :: 0 <= i < j < |rows| ==> StrLess(rows[i].name, rows[j].name)
    ensures forall i :: 0 <= i < |rows| ==> rows[i] == SummaryRow(rows[i].name,
      ValueOrZero(g.mtd, rows[i].name), ValueOrZero(g.lastSameDay, rows[i].name),
      ValueOrZero(g.lastFull, rows[i].name), ValueOrZero(g.prevFull, rows[i].name))
  {
    GridFor(g, AllNames(g))
  }

  /** The grid lines of the names `names`, in ascending order, with their four values. */
  function GridFor(g: Groupings, names: set<string>): (rows: seq<ServiceAccountSummary>)
    ensures |rows| == |names|
    ensures forall i :: 0 <= i < |rows| ==> rows[i].name in names
    ensures forall i, j :: 0 <= i < j < |rows| ==> StrLess(rows[i].name, rows[j].name)
    ensures forall i :: 0 <= i < |rows| ==> rows[i] == SummaryRow(rows[i].name,
      ValueOrZero(g.mtd, rows[i].name), ValueOrZero(g.lastSameDay, rows[i].name),
      ValueOrZero(g.lastFull, rows[i].name), ValueOrZero(g.prevFull, rows[i].name))
  {
    var sorted := SortedStrings(names);
    seq(|sorted|, i requires 0 <= i < |sorted| =>
      SummaryRow(sorted[i],
        ValueOrZero(g.mtd, sorted[i]), ValueOrZero(g.lastSameDay, sorted[i]),
        ValueOrZero(g.lastFull, sorted[i]), ValueOrZero(g.prevFull, sorted[i])))
  }

  /** Every name of the four groupings has a line on the grid, and only one. */
  lemma {:induction false} EveryNameOnce(g: Groupings, n: string)
    requires n in AllNames(g)
    ensures exists i :: 0 <= i < |CompareGroupings(g)| && CompareGroupings(g)[i].name == n
    ensures forall i, j ::
      (0 <= i < |CompareGroupings(g)| && 0 <= j < |CompareGroupings(g)|
       && CompareGroupings(g)[i].name == n && CompareGroupings(g)[j].name == n) ==> i == j
  {
    var names := AllNames(g);
    assert CompareGroupings(g) == GridFor(g, names);
    GridNameOnce(g, names, n);
  }

  lemma {:induction false} GridNameOnce(g: Groupings, names: set<string>, n: string)
    requires n in names
    ensures exists i :: 0 <= i < |GridFor(g, names)| && GridFor(g, names)[i].name == n
    ensures forall i, j ::
      (0 <= i < |GridFor(g, names)| && 0 <= j < |GridFor(g, names)|
       && GridFor(g, names)[i].name == n && GridFor(g, names)[j].name == n) ==> i == j
  {
    var rows := GridFor(g, names);
    var sorted := SortedStrings(names);
    assert |rows| == |sorted|;
    assert forall i :: 0 <= i < |rows| ==> rows[i].name == sorted[i];
    var i :| 0 <= i < |sorted| && sorted[i] == n;
    assert rows[i].name == n;
    forall i, j | 0 <= i < |rows| && 0 <= j < |rows| && rows[i].name == n && rows[j].name == n ensures i == j {
      if i < j {
        StrLessIrreflexive(n);
      } else if j < i {
        StrLessIrreflexive(n);
      }
    }
  }

  /**
   * The four groupings of `GetServiceAccountComparison`: month to date, last
   * month to the same day, the rolling 30 days and the 30 days before. The
   * names they hold are those carried by a row of any of the four windows.
   */
  function ComparisonGroupings(facts: Facts, today: Date, includeCredits: bool, byService: bool): (g: Groupings)
    ensures var key := GroupingKey(byService);
      AllNames(g) == NamesOf(WindowRows(facts, MonthToDateWindow(today), includeCredits), key)
        + NamesOf(WindowRows(facts, LastMonthToDateWindow(today), includeCredits), key)
        + NamesOf(WindowRows(facts, Rolling30Window(today), includeCredits), key)
        + NamesOf(WindowRows(facts, Previous30Window(today), includeCredits), key)
  {
    Groupings(
      CostsByGrouping(facts, MonthToDateWindow(today), includeCredits, byService),
      CostsByGrouping(facts, LastMonthToDateWindow(today), includeCredits, byService),
      CostsByGrouping(facts, Rolling30Window(today), includeCredits, byService),
      CostsByGrouping(facts, Previous30Window(today), includeCredits, byService))
  }

  /**
   * `GetServiceAccountComparison`: per service (or per account name), this
   * month to date against last month to the same day, and the rolling 30
   * days against the 30 before them.
   */
  function ServiceAccountComparison(facts: Facts, today: Date, includeCredits: bool, byService: bool): (rows: seq<ServiceAccountSummary>)
    ensures var key := GroupingKey(byService);
      var names := NamesOf(WindowRows(facts, MonthToDateWindow(today), includeCredits), key)
        + NamesOf(WindowRows(facts, LastMonthToDateWindow(today), includeCredits), key)
        + NamesOf(WindowRows(facts, Rolling30Window(today), includeCredits), key)
        + NamesOf(WindowRows(facts, Previous30Window(today), includeCredits), key);
      && |rows| == |names|
      && (forall i :: 0 <= i < |rows| ==> rows[i].name in names)
    ensures forall i, j :: 0 <= i < j < |rows| ==> StrLess(rows[i].name, rows[j].name)
    ensures var key := GroupingKey(byService);
      forall i :: 0 <= i < |rows| ==> rows[i] == SummaryRow(rows[i].name,
        SumWhere(WindowRows(facts, MonthToDateWindow(today), includeCredits), CostOf, key, rows[i].name),
        SumWhere(WindowRows(facts, LastMonthToDateWindow(today), includeCredits), CostOf, key, rows[i].name),
        SumWhere(WindowRows(facts, Rolling30Window(today), includeCredits), CostOf, key, rows[i].name),
        SumWhere(WindowRows(facts, Previous30Window(today), includeCredits), CostOf, key, rows[i].name))
  {
    CompareGroupings(ComparisonGroupings(facts, today, includeCredits, byService))
  }

  /** Read with a default of zero, a group total is the total cost of the rows carrying the name, zero for a name no row carries. */
  lemma {:induction false} GroupValue(rows: seq<DailyCost>, key: DailyCost -> string, n: string)
    ensures ValueOrZero(GroupTotals(rows, key), n) == SumWhere(rows, CostOf, key, n)
  {
    if n !in GroupTotals(rows, key) {
      forall c | c in rows ensures key(c) != n {
        assert key(c) in NamesOf(rows, key);
      }
      SumWhereAbsent(rows, CostOf, key, n);
    }
  }

  function MtdCostOf(s: ServiceAccountSummary): real {
    s.mtdCost
  }

  /** `GetServiceComparison`: the per-service grid, largest month-to-date cost first. */
  function ServiceComparison(facts: Facts, today: Date, includeCredits: bool): (rows: seq<ServiceAccountSummary>)
    ensures multiset(rows) == multiset(ServiceAccountComparison(facts, today, includeCredits, true))
    ensures NonIncreasing(rows, MtdCostOf)
  {
    SortDescending(ServiceAccountComparison(facts, today, includeCredits, true), MtdCostOf)
  }

  /** `GetAccountComparison`: the per-account-name grid, largest month-to-date cost first. */
  function AccountComparison(facts: Facts, today: Date, includeCredits: bool): (rows: seq<ServiceAccountSummary>)
    ensures multiset(rows) == multiset(ServiceAccountComparison(facts, today, includeCredits, false))
    ensures NonIncreasing(rows, MtdCostOf)
  {
    SortDescending(ServiceAccountComparison(facts, today, includeCredits, false), MtdCostOf)
  }

  /** On the grid, a line's arrow points up exactly when its percentage is not negative, wherever a percentage is shown. */
  lemma {:induction false} ArrowsAgreeWithPercentages(s: ServiceAccountSummary)
    requires s.mtdDifferencePercent == PercentChange(s.mtdCost, s.lastMonthSameDayCost)
    requires s.mtdIsUp <==> s.mtdCost >= s.lastMonthSameDayCost
    requires s.fullMonthDifferencePercent == PercentChange(s.lastFullMonthCost, s.previousFullMonthCost)
    requires s.fullMonthIsUp <==> s.lastFullMonthCost >= s.previousFullMonthCost
    ensures var r := FromSummary(s);
      && (r.mtdDiffPercent.SignedPercent? ==> (r.mtdDirection == UpArrow <==> r.mtdDiffPercent.percent >= 0.0))
      && (r.fullDiffPercent.SignedPercent? ==> (r.fullDirection == UpArrow <==> r.fullDiffPercent.percent >= 0.0))
  {
    PercentChangeSign(s.mtdCost, s.lastMonthSameDayCost);
    PercentChangeSign(s.lastFullMonthCost, s.previousFullMonthCost);
  }

  /** `GetAccountSummariesThisMonth`: the store's account summaries over this month to date. */
  method AccountSummariesThisMonth(repo: CostRepository, today: Date, includeCredits: bool)
    returns (summaries: seq<AccountSummary>)
    ensures summaries == AccountSummaries(ServiceTotals(repo.facts, MonthToDateWindow(today).from, today, includeCredits))
  {
    var w := MonthToDateWindow(today);
    summaries := repo.GetAccountSummaries(w.from, w.until, includeCredits);
  }

  /** `GetAccountSummariesLastMonth`: the store's account summaries over the whole of last month. */
  method AccountSummariesLastMonth(repo: CostRepository, today: Date, includeCredits: bool)
    returns (summaries: seq<AccountSummary>)
    ensures summaries == AccountSummaries(ServiceTotals(repo.facts, LastMonthWindow(today).from, LastMonthWindow(today).until, includeCredits))
  {
    var w := LastMonthWindow(today);
    summaries := repo.GetAccountSummaries(w.from, w.until, includeCredits);
  }
}
