/**
 * The proleptic Gregorian calendar, as chrono's `NaiveDate` and ECMAScript's
 * `Date` (section 21.4.1 of ECMA-262) use it: day numbers, civil dates,
 * week days and the millisecond time line.
 *
 * Day number 0 is 0000-01-01; 1970-01-01 is day `UnixEpochDay`.
 */
module Civil {

  predicate IsLeap(y: int) {
    y % 4 == 0 && (y % 100 != 0 || y % 400 == 0)
  }

  function DaysInMonth(y: int, m: int): (n: int)
    requires 1 <= m <= 12
    ensures 28 <= n <= 31
  {
    if m == 2 then (if IsLeap(y) then 29 else 28)
    else if m == 4 || m == 6 || m == 9 || m == 11 then 30
    else 31
  }

  /** Days of the year `y` before the first of month `m`; month 13 stands for the end of the year. */
  function DaysBeforeMonth(y: int, m: int): nat
    requires 1 <= m <= 13
  {
    var common :=
      if m == 1 then 0 else if m == 2 then 31 else if m == 3 then 59 else if m == 4 then 90
      else if m == 5 then 120 else if m == 6 then 151 else if m == 7 then 181
      else if m == 8 then 212 else if m == 9 then 243 else if m == 10 then 273
      else if m == 11 then 304 else if m == 12 then 334 else 365;
    common + if m > 2 && IsLeap(y) then 1 else 0
  }

  /** Each month adds its own length. */
  lemma DaysBeforeMonthStep(y: int, m: int)
    requires 1 <= m <= 12
    ensures DaysBeforeMonth(y, m + 1) == DaysBeforeMonth(y, m) + DaysInMonth(y, m)
  {
  }

  function DaysInYear(y: int): int {
    if IsLeap(y) then 366 else 365
  }

  lemma DaysBeforeYearEnd(y: int)
    ensures DaysBeforeMonth(y, 13) == DaysInYear(y)
  {
  }

  /** The number of leap years in [0, y) for y >= 0, and minus that of [y, 0) otherwise. */
  function LeapsBefore(y: int): int {
    (y + 3) / 4 - (y + 99) / 100 + (y + 399) / 400
  }

  /** Day number of the first of January of year `y`. */
  function DaysBeforeYear(y: int): int {
    365 * y + LeapsBefore(y)
  }

  lemma DaysBeforeNextYear(y: int)
    ensures DaysBeforeYear(y + 1) == DaysBeforeYear(y) + DaysInYear(y)
  {
    QuotientStep4(y);
    QuotientStep100(y);
    QuotientStep400(y);
    LeapDivisors(y);
  }

  lemma QuotientStep4(y: int)
    ensures (y + 4) / 4 - (y + 3) / 4 == if y % 4 == 0 then 1 else 0
  {
  }

  lemma QuotientStep100(y: int)
    ensures (y + 100) / 100 - (y + 99) / 100 == if y % 100 == 0 then 1 else 0
  {
  }

  lemma QuotientStep400(y: int)
    ensures (y + 400) / 400 - (y + 399) / 400 == if y % 400 == 0 then 1 else 0
  {
  }

  lemma LeapDivisors(y: int)
    ensures y % 400 == 0 ==> y % 100 == 0
    ensures y % 100 == 0 ==> y % 4 == 0
  {
    if y % 400 == 0 {
      assert y == 400 * (y / 400);
      assert y == 100 * (4 * (y / 400));
    }
    if y % 100 == 0 {
      assert y == 100 * (y / 100);
      assert y == 4 * (25 * (y / 100));
    }
  }

  lemma DaysBeforeYearBounds(y: int)
    ensures 146097 * y - 400 <= 400 * DaysBeforeYear(y) <= 146097 * y + 700
  {
  }

  lemma {:induction false} DaysBeforeYearMono(a: int, b: int)
    requires a <= b
    ensures DaysBeforeYear(a) <= DaysBeforeYear(b)
    decreases b - a
  {
    if a < b {
      DaysBeforeNextYear(b - 1);
      DaysBeforeYearMono(a, b - 1);
    }
  }

  datatype Date = Date(year: int, month: int, day: int)

  predicate ValidDate(d: Date) {
    1 <= d.month <= 12 && 1 <= d.day <= DaysInMonth(d.year, d.month)
  }

  /** The day number of a civil date. */
  function DayNumber(d: Date): int
    requires ValidDate(d)
  {
    DaysBeforeYear(d.year) + DaysBeforeMonth(d.year, d.month) + d.day - 1
  }

  /** The year that holds day number `n`. */
  function YearOf(n: int): (y: int)
    ensures DaysBeforeYear(y) <= n < DaysBeforeYear(y + 1)
  {
    var y0 := (400 * n) / 146097;
    DaysBeforeYearBounds(y0 - 1);
    DaysBeforeYearBounds(y0);
    DaysBeforeYearBounds(y0 + 1);
    DaysBeforeYearBounds(y0 + 2);
    if n < DaysBeforeYear(y0) then y0 - 1
    else if n >= DaysBeforeYear(y0 + 1) then y0 + 1
    else y0
  }

  /** The month of year `y` holding day `doy` (0-based) of that year, searching from month `m`. */
  function MonthFrom(y: int, doy: int, m: int): (r: int)
    requires 1 <= m <= 12
    requires DaysBeforeMonth(y, m) <= doy < DaysInYear(y)
    ensures m <= r <= 12
    ensures DaysBeforeMonth(y, r) <= doy < DaysBeforeMonth(y, r + 1)
    decreases 12 - m
  {
    DaysBeforeYearEnd(y);
    if m == 12 || doy < DaysBeforeMonth(y, m + 1) then m else MonthFrom(y, doy, m + 1)
  }

  /** The civil date of day number `n`, found from its year and then its month. */
  function DateOfDay(n: int): (d: Date)
    ensures ValidDate(d) && DayNumber(d) == n
  {
    var y := YearOf(n);
    DaysBeforeNextYear(y);
    var doy := n - DaysBeforeYear(y);
    var m := MonthFrom(y, doy, 1);
    DaysBeforeMonthStep(y, m);
    Date(y, m, doy - DaysBeforeMonth(y, m) + 1)
  }

  /**
   * The civil date of day number `n`: the one valid date with that day
   * number (it exists by `DateOfDay` and is unique by `DayNumberInjective`).
   */
  function CivilOf(n: int): (d: Date)
    ensures ValidDate(d) && DayNumber(d) == n
  {
    DateExists(n);
    DayNumberOneToOne();
    var d :| ValidDate(d) && DayNumber(d) == n;
    d
  }

  lemma DateExists(n: int)
    ensures exists d: Date :: ValidDate(d) && DayNumber(d) == n
  {
    var d := DateOfDay(n);
  }

  lemma DayNumberOneToOne()
    ensures forall d: Date, e: Date :: ValidDate(d) && ValidDate(e) && DayNumber(d) == DayNumber(e) ==> d == e
  {
    forall d: Date, e: Date | ValidDate(d) && ValidDate(e) && DayNumber(d) == DayNumber(e) ensures d == e {
      DayNumberInjective(d, e);
    }
  }

  lemma {:induction false} DaysBeforeMonthMono(y: int, a: int, b: int)
    requires 1 <= a <= b <= 13
    ensures DaysBeforeMonth(y, a) <= DaysBeforeMonth(y, b)
    decreases b - a
  {
    if a < b {
      DaysBeforeMonthStep(y, b - 1);
      DaysBeforeMonthMono(y, a, b - 1);
    }
  }

  /** The day number of a valid date lies in its year. */
  lemma YearPlace(d: Date)
    requires ValidDate(d)
    ensures DaysBeforeYear(d.year) <= DayNumber(d) < DaysBeforeYear(d.year + 1)
  {
    MonthPlace(d);
    DaysBeforeYearEnd(d.year);
    DaysBeforeNextYear(d.year);
    DaysBeforeMonthMono(d.year, d.month + 1, 13);
  }

  /** Within its year, the day number of a valid date lies in its month. */
  lemma MonthPlace(d: Date)
    requires ValidDate(d)
    ensures DaysBeforeMonth(d.year, d.month) <= DayNumber(d) - DaysBeforeYear(d.year) < DaysBeforeMonth(d.year, d.month + 1)
  {
    DaysBeforeMonthStep(d.year, d.month);
  }

  lemma YearUnique(n: int, a: int, b: int)
    requires DaysBeforeYear(a) <= n < DaysBeforeYear(a + 1)
    requires DaysBeforeYear(b) <= n < DaysBeforeYear(b + 1)
    ensures a == b
  {
    if a < b {
      DaysBeforeYearMono(a + 1, b);
    } else if b < a {
      DaysBeforeYearMono(b + 1, a);
    }
  }

  lemma MonthUnique(y: int, doy: int, a: int, b: int)
    requires 1 <= a <= 12 && 1 <= b <= 12
    requires DaysBeforeMonth(y, a) <= doy < DaysBeforeMonth(y, a + 1)
    requires DaysBeforeMonth(y, b) <= doy < DaysBeforeMonth(y, b + 1)
    ensures a == b
  {
    if a < b {
      DaysBeforeMonthMono(y, a + 1, b);
    } else if b < a {
      DaysBeforeMonthMono(y, b + 1, a);
    }
  }

  /** Distinct valid dates have distinct day numbers. */
  lemma DayNumberInjective(d: Date, e: Date)
    requires ValidDate(d) && ValidDate(e) && DayNumber(d) == DayNumber(e)
    ensures d == e
  {
    SameYear(d, e);
    SameMonth(d, e);
  }

  lemma SameYear(d: Date, e: Date)
    requires ValidDate(d) && ValidDate(e) && DayNumber(d) == DayNumber(e)
    ensures d.year == e.year
  {
    YearPlace(d);
    YearPlace(e);
    YearUnique(DayNumber(d), d.year, e.year);
  }

  lemma SameMonth(d: Date, e: Date)
    requires ValidDate(d) && ValidDate(e) && DayNumber(d) == DayNumber(e) && d.year == e.year
    ensures d.month == e.month
  {
    MonthPlace(d);
    MonthPlace(e);
    MonthUnique(d.year, DayNumber(d) - DaysBeforeYear(d.year), d.month, e.month);
  }

  /** `CivilOf` inverts `DayNumber`. */
  lemma CivilOfDayNumber(d: Date)
    requires ValidDate(d)
    ensures CivilOf(DayNumber(d)) == d
  {
    DayNumberInjective(d, CivilOf(DayNumber(d)));
  }

  /** The civil date after a valid date: the next day of the month, else the first of the next month or year. */
  function NextDate(d: Date): (e: Date)
    requires ValidDate(d)
    ensures ValidDate(e)
  {
    if d.day < DaysInMonth(d.year, d.month) then Date(d.year, d.month, d.day + 1)
    else if d.month < 12 then Date(d.year, d.month + 1, 1)
    else Date(d.year + 1, 1, 1)
  }

  lemma NextDateNumber(d: Date)
    requires ValidDate(d)
    ensures DayNumber(NextDate(d)) == DayNumber(d) + 1
  {
    if d.day == DaysInMonth(d.year, d.month) {
      DaysBeforeMonthStep(d.year, d.month);
      if d.month == 12 {
        DaysBeforeYearEnd(d.year);
        DaysBeforeNextYear(d.year);
      }
    }
  }

  /** Day numbers and civil dates advance together. */
  lemma NextDay(d: Date)
    requires ValidDate(d)
    ensures CivilOf(DayNumber(d) + 1) == NextDate(d)
  {
    NextDateNumber(d);
    CivilOfDayNumber(NextDate(d));
  }

  /** Day number of 1970-01-01, the origin of Unix time and of ECMAScript time values. */
  const UnixEpochDay: int := 719528

  lemma UnixEpochDayIsJan1970()
    ensures ValidDate(Date(1970, 1, 1)) && DayNumber(Date(1970, 1, 1)) == UnixEpochDay
  {
  }

  const MsPerDay: int := 86_400_000
  const MsPerHour: int := 3_600_000
  const MsPerMinute: int := 60_000

  /** Day of the week of day number `n`, Sunday = 0 as `Date.prototype.getDay` counts. */
  function Weekday(n: int): (w: int)
    ensures 0 <= w < 7
  {
    (n + 6) % 7
  }

  /** Week days repeat every seven days and advance by one each day. */
  lemma WeekdayStep(n: int)
    ensures Weekday(n + 7) == Weekday(n)
    ensures Weekday(n + 1) == (Weekday(n) + 1) % 7
  {
  }

  lemma WeekdayOfEpoch()
    ensures Weekday(UnixEpochDay) == 4 // a Thursday
  {
  }

  /**
   * ECMAScript `MakeDay(year, month, date)` for a 0-based month that may lie
   * outside 0..11: the day number (from 0000-01-01) of the `date`-th day
   * counted from the first of that month, where out-of-range months carry into years.
   */
  function MakeDay(year: int, month0: int, date: int): int {
    var y := year + month0 / 12;
    var m := month0 % 12;
    DayNumber(Date(y, m + 1, 1)) + date - 1
  }

  /** For an in-range month and day, `MakeDay` is the day number of that civil date. */
  lemma MakeDayInRange(year: int, month0: int, date: int)
    requires 0 <= month0 < 12 && 1 <= date <= DaysInMonth(year, month0 + 1)
    ensures MakeDay(year, month0, date) == DayNumber(Date(year, month0 + 1, date))
  {
    assert month0 / 12 == 0 && month0 % 12 == month0;
  }

  /** Out-of-range days roll over: `MakeDay` moves along the day line one for one. */
  lemma MakeDayShift(year: int, month0: int, date: int, k: int)
    ensures MakeDay(year, month0, date + k) == MakeDay(year, month0, date) + k
  {
  }

  /** ECMAScript day-of-time-value: `floor(t / msPerDay)` as a day number from 0000-01-01. */
  function DayOfTime(t: int): int {
    UnixEpochDay + t / MsPerDay
  }

  /** Milliseconds since local midnight. */
  function TimeWithinDay(t: int): (ms: int)
    ensures 0 <= ms < MsPerDay
    ensures (DayOfTime(t) - UnixEpochDay) * MsPerDay + ms == t
  {
    t % MsPerDay
  }
}
