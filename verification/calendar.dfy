/** The proleptic Gregorian calendar in UTC, as Go's time package keeps it. Days and seconds are counted from
  the first of January of year 0; leap years follow appendix C of RFC 3339. */
module Calendar {
  const SECONDS_PER_DAY := 86400

  datatype Date = Date(year: int, month: int, day: int)

  datatype Civil = Civil(date: Date, hour: int, minute: int, second: int)

  predicate IsLeap(year: int) {
    year % 4 == 0 && (year % 100 != 0 || year % 400 == 0)
  }

  function DaysInMonth(year: int, month: int): int {
    if month == 2 then (if IsLeap(year) then 29 else 28)
    else if month in {4, 6, 9, 11} then 30
    else 31
  }

  function DaysInYear(year: int): int {
    if IsLeap(year) then 366 else 365
  }

  predicate ValidDate(d: Date) {
    1 <= d.month <= 12 && 1 <= d.day <= DaysInMonth(d.year, d.month)
  }

  predicate ValidCivil(c: Civil) {
    ValidDate(c.date) && 0 <= c.hour < 24 && 0 <= c.minute < 60 && 0 <= c.second < 60
  }

  function DaysBeforeYear(year: int): int {
    365 * year + (year + 3) / 4 - (year + 99) / 100 + (year + 399) / 400
  }

  function DaysBeforeMonth(year: int, month: int): int
    requires 1 <= month <= 13
    decreases month
  {
    if month == 1 then 0 else DaysBeforeMonth(year, month - 1) + DaysInMonth(year, month - 1)
  }

  function DayNumber(d: Date): int
    requires 1 <= d.month <= 12
  {
    DaysBeforeYear(d.year) + DaysBeforeMonth(d.year, d.month) + d.day - 1
  }

  /** How many multiples of 4, of 100 and of 400 a year adds. */
  lemma FourStep(year: int)
    ensures (year + 4) / 4 == (year + 3) / 4 + if year % 4 == 0 then 1 else 0
  {
  }

  lemma HundredStep(year: int)
    ensures (year + 100) / 100 == (year + 99) / 100 + if year % 100 == 0 then 1 else 0
    ensures year % 100 == 0 ==> year % 4 == 0
  {
    assert year == 100 * (year / 100) + year % 100;
    assert year % 100 == 0 ==> year == 4 * (25 * (year / 100));
  }

  lemma FourHundredStep(year: int)
    ensures (year + 400) / 400 == (year + 399) / 400 + if year % 400 == 0 then 1 else 0
    ensures year % 400 == 0 ==> year % 100 == 0
  {
    assert year == 400 * (year / 400) + year % 400;
    assert year % 400 == 0 ==> year == 100 * (4 * (year / 400));
  }

  lemma YearStep(year: int)
    ensures DaysBeforeYear(year + 1) == DaysBeforeYear(year) + DaysInYear(year)
  {
    FourStep(year);
    HundredStep(year);
    FourHundredStep(year);
  }

  lemma MonthsFillYear(year: int)
    ensures DaysBeforeMonth(year, 13) == DaysInYear(year)
  {
    assert DaysBeforeMonth(year, 4) == 59 + 31 + if IsLeap(year) then 1 else 0;
    assert DaysBeforeMonth(year, 7) == DaysBeforeMonth(year, 4) + 91;
    assert DaysBeforeMonth(year, 10) == DaysBeforeMonth(year, 7) + 92;
  }

  lemma {:induction false} YearsIncrease(a: int, b: int)
    requires a <= b
    ensures DaysBeforeYear(b) >= DaysBeforeYear(a) + 365 * (b - a)
    decreases b - a
  {
    if a < b {
      YearsIncrease(a, b - 1);
      YearStep(b - 1);
    }
  }

  lemma {:induction false} MonthsIncrease(year: int, a: int, b: int)
    requires 1 <= a <= b <= 13
    ensures DaysBeforeMonth(year, b) >= DaysBeforeMonth(year, a) + 28 * (b - a)
    decreases b - a
  {
    if a < b {
      MonthsIncrease(year, a, b - 1);
    }
  }

  /** Months but February have 31 and 30 days in turn, starting over in August; and a date that everyone knows. */
  lemma MonthLengths(year: int, month: int)
    requires 1 <= month <= 12
    ensures month != 2 ==> DaysInMonth(year, month) == 30 + (month + month / 8) % 2
    ensures month == 2 ==> DaysInMonth(year, month) == 28 + DaysInYear(year) - 365
    ensures DayNumber(Date(1970, 1, 1)) == 719528
  {
  }

  /** The calendar day after `d`. */
  function Tomorrow(d: Date): Date {
    if d.day < DaysInMonth(d.year, d.month) then d.(day := d.day + 1)
    else if d.month < 12 then Date(d.year, d.month + 1, 1)
    else Date(d.year + 1, 1, 1)
  }

  /** Day numbers count calendar days one by one. */
  lemma DayNumberCounts(d: Date)
    requires ValidDate(d)
    ensures ValidDate(Tomorrow(d)) && DayNumber(Tomorrow(d)) == DayNumber(d) + 1
    ensures DayNumber(Date(0, 1, 1)) == 0
  {
    YearStep(d.year);
    MonthsFillYear(d.year);
  }

  lemma DayWithinYear(d: Date)
    requires ValidDate(d)
    ensures DaysBeforeYear(d.year) <= DayNumber(d) < DaysBeforeYear(d.year + 1)
  {
    MonthsIncrease(d.year, 1, d.month);
    MonthsIncrease(d.year, d.month + 1, 13);
    MonthsFillYear(d.year);
    YearStep(d.year);
  }

  function FindYear(day: int, from: int): (year: int)
    requires DaysBeforeYear(from) <= day
    ensures DaysBeforeYear(year) <= day < DaysBeforeYear(year + 1)
    decreases day - DaysBeforeYear(from)
  {
    YearStep(from);
    if day < DaysBeforeYear(from + 1) then from else FindYear(day, from + 1)
  }

  function FindMonth(year: int, dayOfYear: int, from: int): (month: int)
    requires 1 <= from <= 12 && DaysBeforeMonth(year, from) <= dayOfYear < DaysBeforeMonth(year, 13)
    ensures 1 <= month <= 12
    ensures DaysBeforeMonth(year, month) <= dayOfYear < DaysBeforeMonth(year, month + 1)
    decreases 12 - from
  {
    if from == 12 || dayOfYear < DaysBeforeMonth(year, from + 1) then from
    else FindMonth(year, dayOfYear, from + 1)
  }

  function YearOfDay(day: int): (year: int)
    ensures DaysBeforeYear(year) <= day < DaysBeforeYear(year + 1)
  {
    if day < 0 then
      YearsIncrease(day, 0);
      FindYear(day, day)
    else FindYear(day, 0)
  }

  /** The date a day number stands for. */
  function DateOfDay(day: int): (d: Date)
    ensures ValidDate(d) && DayNumber(d) == day
  {
    var year := YearOfDay(day);
    var dayOfYear := day - DaysBeforeYear(year);
    MonthsFillYear(year);
    YearStep(year);
    var month := FindMonth(year, dayOfYear, 1);
    Date(year, month, dayOfYear - DaysBeforeMonth(year, month) + 1)
  }

  predicate DateLess(a: Date, b: Date) {
    a.year < b.year || (a.year == b.year && (a.month < b.month || (a.month == b.month && a.day < b.day)))
  }

  lemma LaterDateLaterDay(a: Date, b: Date)
    requires ValidDate(a) && ValidDate(b) && DateLess(a, b)
    ensures DayNumber(a) < DayNumber(b)
  {
    hide DaysBeforeYear, IsLeap;
    if a.year < b.year {
      DayWithinYear(a);
      DayWithinYear(b);
      YearsIncrease(a.year + 1, b.year);
    } else if a.month < b.month {
      MonthsIncrease(a.year, a.month + 1, b.month);
    }
  }

  /** Calendar order is day order, so a valid date is determined by its day number. */
  lemma DateOrder(a: Date, b: Date)
    requires ValidDate(a) && ValidDate(b)
    ensures DateLess(a, b) <==> DayNumber(a) < DayNumber(b)
    ensures a == b <==> DayNumber(a) == DayNumber(b)
  {
    if DateLess(a, b) {
      LaterDateLaterDay(a, b);
    } else if DateLess(b, a) {
      LaterDateLaterDay(b, a);
    }
  }

  function SecondOf(c: Civil): int
    requires 1 <= c.date.month <= 12
  {
    DayNumber(c.date) * SECONDS_PER_DAY + c.hour * 3600 + c.minute * 60 + c.second
  }

  lemma ClockParts(second: int, rest: int)
    requires rest == second % SECONDS_PER_DAY
    ensures 0 <= rest / 3600 < 24 && 0 <= rest % 3600 / 60 < 60 && 0 <= rest % 60 < 60
    ensures rest == rest / 3600 * 3600 + rest % 3600 / 60 * 60 + rest % 60
    ensures second == second / SECONDS_PER_DAY * SECONDS_PER_DAY + rest
  {
    var minutes := rest / 60;
    assert rest == 60 * minutes + rest % 60 && minutes == 60 * (minutes / 60) + minutes % 60;
  }

  /** The UTC calendar reading of a second. */
  function CivilOf(second: int): (c: Civil)
    ensures ValidCivil(c) && SecondOf(c) == second
  {
    var rest := second % SECONDS_PER_DAY;
    ClockParts(second, rest);
    hide DaysBeforeYear, IsLeap;
    Civil(DateOfDay(second / SECONDS_PER_DAY), rest / 3600, rest % 3600 / 60, rest % 60)
  }

  predicate CivilLess(a: Civil, b: Civil) {
    DateLess(a.date, b.date) ||
    (a.date == b.date && (a.hour < b.hour || (a.hour == b.hour &&
      (a.minute < b.minute || (a.minute == b.minute && a.second < b.second)))))
  }

  lemma CivilOrder(a: Civil, b: Civil)
    requires ValidCivil(a) && ValidCivil(b)
    ensures CivilLess(a, b) <==> SecondOf(a) < SecondOf(b)
    ensures a == b <==> SecondOf(a) == SecondOf(b)
  {
    DateOrder(a.date, b.date);
  }

  /** Reading the clock back is exact. */
  lemma CivilRoundTrip(c: Civil)
    requires ValidCivil(c)
    ensures CivilOf(SecondOf(c)) == c
  {
    CivilOrder(CivilOf(SecondOf(c)), c);
  }
}
