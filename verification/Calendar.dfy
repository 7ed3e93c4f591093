/** The proleptic Gregorian calendar (ISO 8601:2004, section 3.2.1) and the closed form that
    turns a date into days since 1970-01-01. */
module Calendar {
  import opened Common

  datatype Date = Date(year: int, month: int, day: int)

  predicate IsLeap(y: int) {
    y % 4 == 0 && (y % 100 != 0 || y % 400 == 0)
  }

  function DaysInYear(y: int): (n: int)
    ensures 365 <= n <= 366
  {
    if IsLeap(y) then 366 else 365
  }

  function DaysInMonth(y: int, m: int): (n: int)
    ensures 28 <= n <= 31
  {
    if m == 2 then (if IsLeap(y) then 29 else 28)
    else if m == 4 || m == 6 || m == 9 || m == 11 then 30
    else 31
  }

  predicate Valid(date: Date) {
    1 <= date.month <= 12 && 1 <= date.day <= DaysInMonth(date.year, date.month)
  }

  /** Days from 1970-01-01 to the first of January of `y`, one year after the other. */
  function DaysBeforeYear(y: int): int
    decreases if y >= 1970 then y - 1970 else 1970 - y
  {
    if y == 1970 then 0
    else if y > 1970 then DaysBeforeYear(y - 1) + DaysInYear(y - 1)
    else DaysBeforeYear(y + 1) - DaysInYear(y)
  }

  function DaysBeforeMonth(y: int, m: int): int
    requires 1 <= m <= 12
  {
    if m == 1 then 0 else DaysBeforeMonth(y, m - 1) + DaysInMonth(y, m - 1)
  }

  /** The day count by definition: whole years, then whole months, then days. */
  function DayCount(date: Date): int
    requires Valid(date)
  {
    DaysBeforeYear(date.year) + DaysBeforeMonth(date.year, date.month) + date.day - 1
  }

  /** The closed form, with its branches. */
  function DaysFromCivil(year: int, m: int, d: int): int {
    var y := if m <= 2 then year - 1 else year;
    var era := TruncDiv(if y >= 0 then y else y - 399, 400);
    var yoe := y - era * 400;
    var doy := (153 * (m + (if m > 2 then -3 else 9)) + 2) / 5 + d - 1;
    var doe := yoe * 365 + yoe / 4 - yoe / 100 + doy;
    era * 146097 + doe - 719468
  }

  /** Days of the years before the March-based year `y`, counted in whole Gregorian rules. */
  function MarchDays(y: int): int { 365 * y + y / 4 - y / 100 + y / 400 }

  lemma EraForm(y: int)
    ensures var era := TruncDiv(if y >= 0 then y else y - 399, 400);
            var yoe := y - era * 400;
            era == y / 400 && 0 <= yoe < 400 &&
            era * 146097 + yoe * 365 + yoe / 4 - yoe / 100 == MarchDays(y)
  {
    var era := TruncDiv(if y >= 0 then y else y - 399, 400);
    assert era == y / 400;
    var yoe := y - era * 400;
    assert y / 4 == 100 * era + yoe / 4;
    assert y / 100 == 4 * era + yoe / 100;
  }

  lemma YearStep(y: int)
    ensures MarchDays(y) - MarchDays(y - 1) == DaysInYear(y)
  {
    assert y / 4 - (y - 1) / 4 == if y % 4 == 0 then 1 else 0;
    assert y / 100 - (y - 1) / 100 == if y % 100 == 0 then 1 else 0;
    assert y / 400 - (y - 1) / 400 == if y % 400 == 0 then 1 else 0;
  }

  lemma {:induction false} YearsSumUp(y: int)
    ensures DaysBeforeYear(y) == MarchDays(y - 1) + 306 - 719468
    decreases if y >= 1970 then y - 1970 else 1970 - y
  {
    if y > 1970 {
      YearsSumUp(y - 1);
      YearStep(y - 1);
    } else if y < 1970 {
      YearsSumUp(y + 1);
      YearStep(y);
    }
  }

  /** Where in a March-based year each month begins. */
  lemma MonthsSumUp(y: int, m: int)
    requires 1 <= m <= 12
    ensures m <= 2 ==> (153 * (m + 9) + 2) / 5 == 306 + DaysBeforeMonth(y, m)
    ensures m > 2 ==> (153 * (m - 3) + 2) / 5 + DaysInYear(y) - 306 == DaysBeforeMonth(y, m)
  {
    assert DaysBeforeMonth(y, 2) == 31;
    var feb := DaysInMonth(y, 2);
    assert DaysBeforeMonth(y, 3) == 31 + feb;
    assert DaysBeforeMonth(y, 4) == 62 + feb;
    assert DaysBeforeMonth(y, 5) == 92 + feb;
    assert DaysBeforeMonth(y, 6) == 123 + feb;
    assert DaysBeforeMonth(y, 7) == 153 + feb;
    assert DaysBeforeMonth(y, 8) == 184 + feb;
    assert DaysBeforeMonth(y, 9) == 215 + feb;
    assert DaysBeforeMonth(y, 10) == 245 + feb;
    assert DaysBeforeMonth(y, 11) == 276 + feb;
    assert DaysBeforeMonth(y, 12) == 306 + feb;
  }

  /** For every date of the calendar, of any year, the closed form is the day count. */
  lemma ClosedFormIsDayCount(date: Date)
    requires Valid(date)
    ensures DaysFromCivil(date.year, date.month, date.day) == DayCount(date)
  {
    var (y, m) := (date.year, date.month);
    EraForm(if m <= 2 then y - 1 else y);
    YearsSumUp(y);
    YearStep(y);
    MonthsSumUp(y, m);
  }

  function NextDay(date: Date): (next: Date)
    requires Valid(date)
    ensures Valid(next)
  {
    if date.day < DaysInMonth(date.year, date.month) then date.(day := date.day + 1)
    else if date.month < 12 then Date(date.year, date.month + 1, 1)
    else Date(date.year + 1, 1, 1)
  }

  lemma OneMoreDay(date: Date)
    requires Valid(date)
    ensures DayCount(NextDay(date)) == DayCount(date) + 1
  {
    MonthsSumUp(date.year, date.month);
    assert DaysBeforeYear(date.year + 1) == DaysBeforeYear(date.year) + DaysInYear(date.year);
  }

  predicate Before(a: Date, b: Date) {
    a.year < b.year || (a.year == b.year && (a.month < b.month || (a.month == b.month && a.day < b.day)))
  }

  lemma {:induction false} YearsGrow(a: int, b: int)
    requires a < b
    ensures DaysBeforeYear(a) + DaysInYear(a) <= DaysBeforeYear(b)
    decreases b - a
  {
    assert DaysBeforeYear(b) == DaysBeforeYear(b - 1) + DaysInYear(b - 1);
    if a < b - 1 { YearsGrow(a, b - 1); }
  }

  lemma {:induction false} MonthsGrow(y: int, a: int, b: int)
    requires 1 <= a < b <= 12
    ensures DaysBeforeMonth(y, a) + DaysInMonth(y, a) <= DaysBeforeMonth(y, b)
    decreases b - a
  {
    if a < b - 1 { MonthsGrow(y, a, b - 1); }
  }

  lemma MonthFitsYear(y: int, m: int)
    requires 1 <= m <= 12
    ensures 0 <= DaysBeforeMonth(y, m) <= DaysInYear(y) - DaysInMonth(y, m)
  {
    MonthsSumUp(y, m);
    if m < 12 {
      MonthsGrow(y, m, 12);
      MonthsSumUp(y, 12);
    }
  }

  /** The day count orders dates as the calendar does, so no two dates share a count. */
  lemma CountsAreOrdered(a: Date, b: Date)
    requires Valid(a) && Valid(b)
    ensures Before(a, b) <==> DayCount(a) < DayCount(b)
    ensures a == b <==> DayCount(a) == DayCount(b)
  {
    if Before(a, b) {
      BeforeMeansLess(a, b);
    } else if a != b {
      BeforeMeansLess(b, a);
    }
  }

  lemma BeforeMeansLess(a: Date, b: Date)
    requires Valid(a) && Valid(b) && Before(a, b)
    ensures DayCount(a) < DayCount(b)
  {
    if a.year < b.year {
      YearsGrow(a.year, b.year);
      MonthFitsYear(a.year, a.month);
      MonthFitsYear(b.year, b.month);
    } else if a.month < b.month {
      MonthsGrow(a.year, a.month, b.month);
    }
  }

  /** The date `days` days after 1970-01-01. */
  function DateOf(days: nat): (date: Date)
    ensures Valid(date) && DayCount(date) == days
  {
    if days == 0 then Date(1970, 1, 1)
    else
      OneMoreDay(DateOf(days - 1));
      NextDay(DateOf(days - 1))
  }
}
