/** Proleptic Gregorian calendar on integer day numbers.
    Day 0 is 1970-01-01; a day number plays the role of a JS Date
    reduced to its calendar day. */
module Calendar {

  datatype Date = Date(year: int, month: int, day: int)

  predicate IsLeapYear(y: int) {
    y % 4 == 0 && (y % 100 != 0 || y % 400 == 0)
  }

  function YearLength(y: int): int {
    if IsLeapYear(y) then 366 else 365
  }

  /** Number of leap years among the years 0 .. y - 1 (negative for y <= 0). */
  function LeapYearsBefore(y: int): int {
    (y - 1) / 4 - (y - 1) / 100 + (y - 1) / 400
  }

  /** Day number of January 1 of year y. */
  function DaysBeforeYear(y: int): int {
    365 * (y - 1970) + LeapYearsBefore(y) - LeapYearsBefore(1970)
  }

  /** Days from January 1 to the first day of month m; m == 13 gives the year length. */
  function DaysBeforeMonth(y: int, m: int): int
    requires 1 <= m <= 13
  {
    var common := [0, 31, 59, 90, 120, 151, 181, 212, 243, 273, 304, 334, 365][m - 1];
    if m > 2 && IsLeapYear(y) then common + 1 else common
  }

  function DaysInMonth(y: int, m: int): (n: int)
    requires 1 <= m <= 12
    ensures 28 <= n <= 31
    ensures n == DaysBeforeMonth(y, m + 1) - DaysBeforeMonth(y, m)
  {
    if m == 2 then (if IsLeapYear(y) then 29 else 28)
    else if m == 4 || m == 6 || m == 9 || m == 11 then 30
    else 31
  }

  predicate ValidDate(d: Date) {
    1 <= d.month <= 12 && 1 <= d.day <= DaysInMonth(d.year, d.month)
  }

  /** Day number of year y, month m, day d. Like JS MakeDay, a day of month
      outside 1 .. DaysInMonth counts on from the first of the month, so
      February 29 of a common year is March 1. */
  function DaysFromCivil(y: int, m: int, d: int): (n: int)
    requires 1 <= m <= 12
    ensures 1 <= d <= DaysInMonth(y, m) ==> DaysBeforeYear(y) <= n < DaysBeforeYear(y + 1)
  {
    YearStep(y);
    MonthEndInYear(y, m);
    DaysBeforeYear(y) + DaysBeforeMonth(y, m) + d - 1
  }

  /** JS getDay: 0 is Sunday; day 0 (1970-01-01) was a Thursday. */
  function Weekday(n: int): (w: int)
    ensures 0 <= w < 7
  {
    (n + 4) % 7
  }

  /** Each of y / 4, y / 100, y / 400 grows by one exactly at a multiple. */
  lemma DivSteps(y: int)
    ensures y / 4 - (y - 1) / 4 == if y % 4 == 0 then 1 else 0
    ensures y / 100 - (y - 1) / 100 == if y % 100 == 0 then 1 else 0
    ensures y / 400 - (y - 1) / 400 == if y % 400 == 0 then 1 else 0
  {
  }

  lemma YearStep(y: int)
    ensures DaysBeforeYear(y + 1) == DaysBeforeYear(y) + YearLength(y)
  {
    DivSteps(y);
  }

  lemma {:induction false} YearsIncrease(a: int, b: int)
    requires a <= b
    ensures DaysBeforeYear(a) + 365 * (b - a) <= DaysBeforeYear(b)
    ensures DaysBeforeYear(b) <= DaysBeforeYear(a) + 366 * (b - a)
    decreases b - a
  {
    if a < b {
      YearStep(a);
      YearsIncrease(a + 1, b);
    }
  }

  /** Every 400 years hold exactly 146097 days. */
  lemma YearCycle(y: int, c: int)
    ensures DaysBeforeYear(y + 400 * c) == DaysBeforeYear(y) + 146097 * c
  {
    var x := y - 1;
    assert (x + 400 * c) / 4 == x / 4 + 100 * c;
    assert (x + 400 * c) / 100 == x / 100 + 4 * c;
    assert (x + 400 * c) / 400 == x / 400 + c;
  }

  /** The year containing day n, searched upwards from a year that starts no later than n. */
  function YearFrom(n: int, y: int): (r: int)
    requires DaysBeforeYear(y) <= n
    ensures y <= r
    ensures DaysBeforeYear(r) <= n < DaysBeforeYear(r + 1)
    decreases n - DaysBeforeYear(y)
  {
    YearStep(y);
    if n < DaysBeforeYear(y + 1) then y else YearFrom(n, y + 1)
  }

  function YearOf(n: int): (y: int)
    ensures DaysBeforeYear(y) <= n < DaysBeforeYear(y + 1)
  {
    var cycles, rest := n / 146097, n % 146097;
    var guess := 1970 + 400 * cycles + rest / 366;
    YearCycle(1970 + rest / 366, cycles);
    YearsIncrease(1970, 1970 + rest / 366);
    YearFrom(n, guess)
  }

  /** The month of year y holding day-of-year doy, searched upwards from month m. */
  function MonthFrom(y: int, doy: int, m: int): (r: int)
    requires 1 <= m <= 12
    requires DaysBeforeMonth(y, m) <= doy < YearLength(y)
    ensures m <= r <= 12
    ensures DaysBeforeMonth(y, r) <= doy < DaysBeforeMonth(y, r + 1)
    decreases 12 - m
  {
    if doy < DaysBeforeMonth(y, m + 1) then m else MonthFrom(y, doy, m + 1)
  }

  /** The calendar date of day n (JS getFullYear, getMonth + 1, getDate). */
  function CivilFromDays(n: int): (d: Date)
    ensures ValidDate(d)
    ensures DaysFromCivil(d.year, d.month, d.day) == n
  {
    var y := YearOf(n);
    YearStep(y);
    var doy := n - DaysBeforeYear(y);
    var m := MonthFrom(y, doy, 1);
    Date(y, m, doy - DaysBeforeMonth(y, m) + 1)
  }

  lemma MonthsIncrease(y: int, a: int, b: int)
    requires 1 <= a < b <= 13
    ensures DaysBeforeMonth(y, a) < DaysBeforeMonth(y, b)
  {
  }

  /** Every month ends by the end of its year. */
  lemma MonthEndInYear(y: int, m: int)
    requires 1 <= m <= 12
    ensures DaysBeforeMonth(y, m + 1) <= DaysBeforeMonth(y, 13)
  {
    if m < 12 {
      MonthsIncrease(y, m + 1, 13);
    }
  }

  /** A valid date lies inside its own year and its own month. */
  lemma DateInYear(d: Date)
    requires ValidDate(d)
    ensures DaysBeforeYear(d.year) <= DaysFromCivil(d.year, d.month, d.day) < DaysBeforeYear(d.year + 1)
  {
    YearStep(d.year);
    if d.month < 12 {
      MonthsIncrease(d.year, d.month + 1, 13);
    }
  }

  lemma SameYear(n: int, a: int, b: int)
    requires DaysBeforeYear(a) <= n < DaysBeforeYear(a + 1)
    requires DaysBeforeYear(b) <= n < DaysBeforeYear(b + 1)
    ensures a == b
  {
    if a < b {
      YearsIncrease(a + 1, b);
    } else if b < a {
      YearsIncrease(b + 1, a);
    }
  }

  lemma SameMonth(y: int, doy: int, a: int, b: int)
    requires 1 <= a <= 12 && 1 <= b <= 12
    requires DaysBeforeMonth(y, a) <= doy < DaysBeforeMonth(y, a + 1)
    requires DaysBeforeMonth(y, b) <= doy < DaysBeforeMonth(y, b + 1)
    ensures a == b
  {
    if a < b {
      MonthsIncrease(y, a + 1, b + 0);
    } else if b < a {
      MonthsIncrease(y, b + 1, a);
    }
  }

  /** Day numbers and valid calendar dates are in one-to-one correspondence. */
  lemma CivilRoundTrip(d: Date)
    requires ValidDate(d)
    ensures CivilFromDays(DaysFromCivil(d.year, d.month, d.day)) == d
  {
    var n := DaysFromCivil(d.year, d.month, d.day);
    var c := CivilFromDays(n);
    DateInYear(d);
    DateInYear(c);
    SameYear(n, c.year, d.year);
    var doy := n - DaysBeforeYear(d.year);
    SameMonth(d.year, doy, c.month, d.month);
  }

  lemma WeekdayShift(n: int, k: int)
    ensures Weekday(n + k) == (Weekday(n) + k) % 7
  {
  }

  /** Two days with the same weekday lie a whole number of weeks apart. */
  lemma SameWeekdayWeeks(d: int, t: int)
    requires Weekday(d) == Weekday(t)
    ensures (t - d) % 7 == 0
  {
    assert t + 4 == (d + 4) + (t - d);
    WeekdayShift(d, t - d);
  }

  /** A day in the year before t's year lies between 1 and 731 days before t. */
  lemma YearBeforeDistance(d: int, t: int)
    requires YearOf(d) == YearOf(t) - 1
    ensures 0 < t - d < 732
  {
    YearStep(YearOf(d));
    YearStep(YearOf(t));
  }

  /** JS setDate(x): same year and month, day of month x (overflow rolls on). */
  function SetDate(n: int, x: int): (m: int)
    ensures m == n + (x - CivilFromDays(n).day)
  {
    var c := CivilFromDays(n);
    DaysFromCivil(c.year, c.month, x)
  }

  /** JS setFullYear(y): same month and day of month in year y (Feb 29 may roll to Mar 1). */
  function SetFullYear(n: int, y: int): (m: int)
    ensures y == CivilFromDays(n).year ==> m == n
    ensures y == CivilFromDays(n).year - 1 ==> 365 <= n - m <= 366
  {
    var c := CivilFromDays(n);
    YearBeforeDays(n, c);
    DaysFromCivil(y, c.month, c.day)
  }

  /** The same month and day of month one year earlier lies 365 or 366 days back. */
  lemma YearBeforeDays(n: int, c: Date)
    requires ValidDate(c) && n == DaysFromCivil(c.year, c.month, c.day)
    ensures 365 <= n - DaysFromCivil(c.year - 1, c.month, c.day) <= 366
  {
    YearStep(c.year - 1);
  }

  /** setDate(getDate() + k) moves a date k days. */
  lemma SetDateMoves(n: int, k: int)
    ensures SetDate(n, CivilFromDays(n).day + k) == n + k
  {
  }

  /** setFullYear(getFullYear() - 1) moves a date back 365 or 366 days. */
  lemma YearEarlierDistance(n: int)
    ensures var c := CivilFromDays(n);
      var m := SetFullYear(n, c.year - 1);
      n - m == 365 || n - m == 366
  {
    var c := CivilFromDays(n);
    YearStep(c.year - 1);
  }
}
