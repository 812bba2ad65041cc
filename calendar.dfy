/**
 * Calendar days as day numbers, with the proleptic Gregorian civil
 * conversion that `DateOnly` performs: day 0 is 0001-01-01 (the value of
 * `DateOnly.DayNumber`), `AddDays` is integer addition, and year, month and
 * day are recovered by `ToCivil`.
 */
module Calendar {

  /** A calendar day, counted in days from 0001-01-01. */
  type Date = int

  /** Year, month (1..12) and day of month of a date. */
  datatype Civil = Civil(year: int, month: int, day: int)

  /** Number of days in one 400-year Gregorian cycle. */
  const DaysPer400Years := 146097

  function Min(a: int, b: int): (r: int)
    ensures r <= a && r <= b && (r == a || r == b)
  {
    if a <= b then a else b
  }

  /** Leap years are those divisible by 4, except centuries not divisible by 400. */
  predicate IsLeapYear(y: int) {
    y % 4 == 0 && (y % 100 != 0 || y % 400 == 0)
  }

  function DaysInYear(y: int): (r: int)
    ensures r == 365 || r == 366
    ensures r == 366 <==> IsLeapYear(y)
  {
    if IsLeapYear(y) then 366 else 365
  }

  function DaysInMonth(y: int, m: int): (r: int)
    requires 1 <= m <= 12
    ensures 28 <= r <= 31
    ensures r == 29 <==> m == 2 && IsLeapYear(y)
  {
    if m == 2 then (if IsLeapYear(y) then 29 else 28)
    else if m == 4 || m == 6 || m == 9 || m == 11 then 30
    else 31
  }

  predicate ValidCivil(c: Civil) {
    1 <= c.month <= 12 && 1 <= c.day <= DaysInMonth(c.year, c.month)
  }

  /** Days from 0001-01-01 to January 1 of year `y` (negative before year 1). */
  function DaysBeforeYear(y: int): int {
    var x := y - 1;
    365 * x + x / 4 - x / 100 + x / 400
  }

  /** Days from January 1 to the first day of month `m` of year `y`; month 13 stands for the next January. */
  function DaysBeforeMonth(y: int, m: int): int
    requires 1 <= m <= 13
  {
    var common :=
      if m == 1 then 0 else if m == 2 then 31 else if m == 3 then 59
      else if m == 4 then 90 else if m == 5 then 120 else if m == 6 then 151
      else if m == 7 then 181 else if m == 8 then 212 else if m == 9 then 243
      else if m == 10 then 273 else if m == 11 then 304 else if m == 12 then 334
      else 365;
    if m > 2 && IsLeapYear(y) then common + 1 else common
  }

  function FromCivil(c: Civil): Date
    requires 1 <= c.month <= 12
  {
    DaysBeforeYear(c.year) + DaysBeforeMonth(c.year, c.month) + c.day - 1
  }

  lemma {:induction false} DaysBeforeNextMonth(y: int, m: int)
    requires 1 <= m <= 12
    ensures DaysBeforeMonth(y, m + 1) == DaysBeforeMonth(y, m) + DaysInMonth(y, m)
    ensures DaysBeforeMonth(y, 13) == DaysInYear(y)
  {
  }

  lemma {:induction false} DaysBeforeNextYear(y: int)
    ensures DaysBeforeYear(y + 1) == DaysBeforeYear(y) + DaysInYear(y)
  {
    var x := y - 1;
    assert y / 4 == x / 4 + (if y % 4 == 0 then 1 else 0);
    assert y / 100 == x / 100 + (if y % 100 == 0 then 1 else 0);
    assert y / 400 == x / 400 + (if y % 400 == 0 then 1 else 0);
  }

  /** Adding whole multiples of `d` moves the quotient by that many and keeps the remainder. */
  lemma {:induction false} DivModShift(x: int, d: int, q: int)
    requires d > 0
    ensures (x + d * q) / d == x / d + q
    ensures (x + d * q) % d == x % d
  {
    DivModUnique(x + d * q, d, x / d + q, x % d);
  }

  /** Quotient and remainder are the only pair with a remainder in [0, d). */
  lemma {:induction false} DivModUnique(a: int, d: int, k: int, r: int)
    requires d > 0 && 0 <= r < d && a == d * k + r
    ensures a / d == k && a % d == r
  {
    var t := a / d - k;
    assert d * t == r - a % d;
    MultipleBounds(d, t);
  }

  /** A non-zero multiple of a positive `d` is at least `d` away from zero. */
  lemma {:induction false} MultipleBounds(d: int, t: int)
    requires d > 0
    ensures t >= 1 ==> d * t >= d
    ensures t <= -1 ==> d * t <= -d
  {
  }

  /** The calendar repeats every 400 years. */
  lemma {:induction false} FourHundredYearCycle(y: int, q: int)
    ensures DaysBeforeYear(y + 400 * q) == DaysBeforeYear(y) + DaysPer400Years * q
    ensures IsLeapYear(y + 400 * q) == IsLeapYear(y)
  {
    var x := y - 1;
    DivModShift(x, 4, 100 * q);
    DivModShift(x, 100, 4 * q);
    DivModShift(x, 400, q);
    DivModShift(y, 4, 100 * q);
    DivModShift(y, 100, 4 * q);
    DivModShift(y, 400, q);
  }

  /** The year of a 400-year cycle (1..400) in which day `r` of the cycle falls, searched upwards from `y`. */
  function YearInCycle(r: int, y: int): (res: int)
    requires 1 <= y <= 400 && DaysBeforeYear(y) <= r < DaysPer400Years
    ensures y <= res <= 400
    ensures DaysBeforeYear(res) <= r < DaysBeforeYear(res + 1)
    decreases 400 - y
  {
    DaysBeforeNextYear(y);
    if r < DaysBeforeYear(y + 1) then y else YearInCycle(r, y + 1)
  }

  /** The month (searched upwards from `m`) in which day `doy` (0-based) of year `y` falls. */
  function MonthInYear(y: int, doy: int, m: int): (res: int)
    requires 1 <= m <= 12 && DaysBeforeMonth(y, m) <= doy < DaysInYear(y)
    ensures m <= res <= 12
    ensures DaysBeforeMonth(y, res) <= doy < DaysBeforeMonth(y, res + 1)
    decreases 12 - m
  {
    DaysBeforeNextMonth(y, m);
    if doy < DaysBeforeMonth(y, m + 1) then m else MonthInYear(y, doy, m + 1)
  }

  /** The same month and day `q` cycles of 400 years away is a valid date exactly `q` cycles of days away. */
  lemma {:induction false} ShiftByCycles(c: Civil, c': Civil, q: int)
    requires ValidCivil(c)
    requires c'.year == c.year + 400 * q && c'.month == c.month && c'.day == c.day
    ensures ValidCivil(c') && FromCivil(c') == FromCivil(c) + DaysPer400Years * q
  {
    FourHundredYearCycle(c.year, q);
  }

  /** Year (1..400), month and day of day `r` of the first 400-year cycle. */
  function CivilInCycle(r: int): (c: Civil)
    requires 0 <= r < DaysPer400Years
    ensures ValidCivil(c) && FromCivil(c) == r
  {
    var y := YearInCycle(r, 1);
    var doy := r - DaysBeforeYear(y);
    DaysBeforeNextYear(y);
    var m := MonthInYear(y, doy, 1);
    DaysBeforeNextMonth(y, m);
    Civil(y, m, doy - DaysBeforeMonth(y, m) + 1)
  }

  /** Year, month and day of a date; the inverse of `FromCivil`. */
  function ToCivil(n: Date): (c: Civil)
    ensures ValidCivil(c) && FromCivil(c) == n
    decreases if n < 0 then DaysPer400Years - n else n
  {
    if n < 0 then
      var c := ToCivil(n + DaysPer400Years);
      ShiftByCycles(c, Civil(c.year - 400, c.month, c.day), -1);
      Civil(c.year - 400, c.month, c.day)
    else if n >= DaysPer400Years then
      var c := ToCivil(n - DaysPer400Years);
      ShiftByCycles(c, Civil(c.year + 400, c.month, c.day), 1);
      Civil(c.year + 400, c.month, c.day)
    else
      CivilInCycle(n)
  }

  function Year(d: Date): int { ToCivil(d).year }
  function Month(d: Date): int { ToCivil(d).month }
  function Day(d: Date): int { ToCivil(d).day }

  /** Lexicographic order on (year, month, day). */
  predicate CivilBefore(a: Civil, b: Civil) {
    a.year < b.year
    || (a.year == b.year && a.month < b.month)
    || (a.year == b.year && a.month == b.month && a.day < b.day)
  }

  lemma {:induction false} DaysBeforeYearMonotone(a: int, b: int)
    requires a <= b
    ensures DaysBeforeYear(a) + 365 * (b - a) <= DaysBeforeYear(b)
    decreases b - a
  {
    if a < b {
      DaysBeforeYearMonotone(a, b - 1);
      DaysBeforeNextYear(b - 1);
    }
  }

  /** A valid date lies inside its year: before the first day of the next. */
  lemma {:induction false} CivilWithinYear(c: Civil)
    requires ValidCivil(c)
    ensures DaysBeforeYear(c.year) <= FromCivil(c) < DaysBeforeYear(c.year + 1)
  {
    DaysBeforeNextMonth(c.year, c.month);
    DaysBeforeNextMonth(c.year, 12);
    DaysBeforeNextYear(c.year);
  }

  lemma {:induction false} FromCivilStrictlyMonotone(a: Civil, b: Civil)
    requires ValidCivil(a) && ValidCivil(b) && CivilBefore(a, b)
    ensures FromCivil(a) < FromCivil(b)
  {
    if a.year < b.year {
      CivilWithinYear(a);
      CivilWithinYear(b);
      DaysBeforeYearMonotone(a.year + 1, b.year);
    } else if a.month < b.month {
      DaysBeforeNextMonth(a.year, a.month);
    }
  }

  lemma {:induction false} FromCivilInjective(a: Civil, b: Civil)
    requires ValidCivil(a) && ValidCivil(b) && FromCivil(a) == FromCivil(b)
    ensures a == b
  {
    if CivilBefore(a, b) {
      FromCivilStrictlyMonotone(a, b);
    } else if CivilBefore(b, a) {
      FromCivilStrictlyMonotone(b, a);
    }
  }

  /** Converting a valid civil date to a day number and back gives it unchanged. */
  lemma {:induction false} ToCivilFromCivil(c: Civil)
    requires ValidCivil(c)
    ensures ToCivil(FromCivil(c)) == c
  {
    FromCivilInjective(ToCivil(FromCivil(c)), c);
  }

  /** The first day of the month that contains `d`. */
  function MonthStart(d: Date): (r: Date)
    ensures r <= d && d - r == Day(d) - 1
    ensures ToCivil(r) == Civil(Year(d), Month(d), 1)
  {
    ToCivilFromCivil(Civil(Year(d), Month(d), 1));
    FromCivil(Civil(Year(d), Month(d), 1))
  }

  /**
   * `DateOnly.AddMonths`: moves `d` by `k` calendar months, keeping its day
   * of month but clamping it to the length of the month reached.
   */
  function AddMonths(d: Date, k: int): (r: Date)
    ensures Year(r) * 12 + Month(r) == Year(d) * 12 + Month(d) + k
    ensures Day(r) == Min(Day(d), DaysInMonth(Year(r), Month(r)))
  {
    var c := ToCivil(d);
    var t := c.year * 12 + (c.month - 1) + k;
    var y, m := t / 12, t % 12 + 1;
    var res := Civil(y, m, Min(c.day, DaysInMonth(y, m)));
    ToCivilFromCivil(res);
    FromCivil(res)
  }

  /** The days `s`, `s + 1`, ... of a month starting at `s` carry day numbers 1, 2, ... of that month. */
  lemma {:induction false} DayWithinMonth(s: Date, k: int)
    requires Day(s) == 1 && 0 <= k < DaysInMonth(Year(s), Month(s))
    ensures ToCivil(s + k) == Civil(Year(s), Month(s), k + 1)
  {
    var c0 := ToCivil(s);
    var c := Civil(c0.year, c0.month, k + 1);
    assert FromCivil(c) == FromCivil(c0) + k;
    ToCivilFromCivil(c);
  }

  /** Day `day` of the month that starts at `s` is the date `day - 1` days after `s`. */
  lemma {:induction false} DateInMonth(s: Date, day: int)
    requires Day(s) == 1 && 1 <= day <= DaysInMonth(Year(s), Month(s))
    ensures FromCivil(Civil(Year(s), Month(s), day)) == s + day - 1
    ensures ToCivil(s + day - 1) == Civil(Year(s), Month(s), day)
  {
    DayWithinMonth(s, day - 1);
  }

  /** The first days of two consecutive months are the length of the earlier month apart. */
  lemma {:induction false} ConsecutiveMonthStarts(cp: Civil, c: Civil)
    requires ValidCivil(c) && ValidCivil(cp) && c.day == 1 && cp.day == 1
    requires cp.year * 12 + cp.month + 1 == c.year * 12 + c.month
    ensures FromCivil(cp) + DaysInMonth(cp.year, cp.month) == FromCivil(c)
  {
    if c.month == 1 {
      assert cp.year == c.year - 1 && cp.month == 12;
      DaysBeforeNextMonth(cp.year, 12);
      DaysBeforeNextYear(cp.year);
    } else {
      assert cp.year == c.year && cp.month == c.month - 1;
      DaysBeforeNextMonth(cp.year, cp.month);
    }
  }

  /**
   * One month back from a month start is the start of the previous month,
   * and that month ends on the day before `s`: the two months are adjacent.
   */
  lemma {:induction false} PreviousMonthAdjacent(s: Date)
    requires Day(s) == 1
    ensures var p := AddMonths(s, -1);
      && Day(p) == 1
      && Year(p) * 12 + Month(p) + 1 == Year(s) * 12 + Month(s)
      && p + DaysInMonth(Year(p), Month(p)) == s
  {
    var p := AddMonths(s, -1);
    ConsecutiveMonthStarts(ToCivil(p), ToCivil(s));
  }
}
