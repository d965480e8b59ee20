/**
 * The proleptic Gregorian calendar of Python's `datetime.date`: dates of the
 * years 1..9999, their day ordinal (0001-01-01 is day 1), the weekday with
 * Monday = 0, adding a number of days (`date + timedelta`) and adding a
 * number of months with the day clamped to the month's length
 * (`dateutil.relativedelta(months=n)`).
 */
module Calendar {
  import opened Wrappers

  const MinYear := 1
  const MaxYear := 9999

  datatype Date = Date(year: int, month: int, day: int)

  const FirstDate := Date(MinYear, 1, 1)
  const LastDate := Date(MaxYear, 12, 31)

  /** Ordinal of LastDate (`date.max.toordinal()`). */
  const MaxOrdinal := 3652059

  predicate IsLeapYear(y: int) {
    y % 4 == 0 && (y % 100 != 0 || y % 400 == 0)
  }

  function DaysInYear(y: int): int {
    if IsLeapYear(y) then 366 else 365
  }

  function DaysInMonth(y: int, m: int): (n: int)
    requires 1 <= m <= 12
    ensures 28 <= n <= 31
  {
    if m == 2 then (if IsLeapYear(y) then 29 else 28)
    else if m == 4 || m == 6 || m == 9 || m == 11 then 30
    else 31
  }

  predicate ValidDate(d: Date) {
    MinYear <= d.year <= MaxYear && 1 <= d.month <= 12 && 1 <= d.day <= DaysInMonth(d.year, d.month)
  }

  /** Days in the years before year y, counted one year at a time. */
  function DaysBeforeYear(y: int): int
    requires y >= 1
    decreases y
  {
    if y == 1 then 0 else DaysBeforeYear(y - 1) + DaysInYear(y - 1)
  }

  /** Days in the months of year y before month m. */
  function DaysBeforeMonth(y: int, m: int): int
    requires 1 <= m <= 12
  {
    [0, 31, 59, 90, 120, 151, 181, 212, 243, 273, 304, 334][m - 1]
      + (if m > 2 && IsLeapYear(y) then 1 else 0)
  }

  /** `date.toordinal()`: 0001-01-01 is day 1. */
  function Ordinal(d: Date): int
    requires ValidDate(d)
  {
    DaysBeforeYear(d.year) + DaysBeforeMonth(d.year, d.month) + d.day
  }

  /** `date.weekday()`: Monday is 0, Sunday is 6. */
  function Weekday(d: Date): (w: int)
    requires ValidDate(d)
    ensures 0 <= w <= 6
  {
    (Ordinal(d) + 6) % 7
  }

  /** Monday to Friday. */
  predicate IsBusinessDay(d: Date)
    requires ValidDate(d)
  {
    Weekday(d) < 5
  }

  /** How the quotients by 4, 100 and 400 change from y - 1 to y. */
  lemma QuotientStep(y: int)
    requires y >= 1
    ensures y / 4 == (y - 1) / 4 + (if y % 4 == 0 then 1 else 0)
    ensures y / 100 == (y - 1) / 100 + (if y % 100 == 0 then 1 else 0)
    ensures y / 400 == (y - 1) / 400 + (if y % 400 == 0 then 1 else 0)
  {
  }

  lemma Divisibility(y: int)
    ensures y % 100 == 0 ==> y % 4 == 0
    ensures y % 400 == 0 ==> y % 100 == 0
  {
    if y % 100 == 0 {
      var q := y / 100;
      assert y == 4 * (25 * q);
    }
    if y % 400 == 0 {
      var q := y / 400;
      assert y == 100 * (4 * q);
    }
  }

  /**
   * The year-by-year count is the closed formula of Python's `datetime`
   * module (`_days_before_year`): 365 days a year plus one for every fourth
   * year, except centuries not divisible by 400.
   */
  lemma {:induction false} DaysBeforeYearFormula(y: int)
    requires y >= 1
    ensures var p := y - 1; DaysBeforeYear(y) == p * 365 + p / 4 - p / 100 + p / 400
    decreases y
  {
    if y > 1 {
      DaysBeforeYearFormula(y - 1);
      QuotientStep(y - 1);
      Divisibility(y - 1);
    }
  }

  lemma {:induction false} DaysBeforeYearMonotone(a: int, b: int)
    requires 1 <= a <= b
    ensures DaysBeforeYear(a) <= DaysBeforeYear(b)
    decreases b
  {
    if a < b {
      DaysBeforeYearMonotone(a, b - 1);
    }
  }

  lemma MonthStep(y: int, m: int)
    requires 1 <= m <= 12
    ensures m < 12 ==> DaysBeforeMonth(y, m) + DaysInMonth(y, m) == DaysBeforeMonth(y, m + 1)
    ensures m == 12 ==> DaysBeforeMonth(y, m) + DaysInMonth(y, m) == DaysInYear(y)
  {
  }

  /** Every valid date lies between FirstDate and LastDate on the ordinal line. */
  lemma OrdinalBounds(d: Date)
    requires ValidDate(d)
    ensures 1 <= Ordinal(d) <= MaxOrdinal
  {
    MonthStep(d.year, d.month);
    assert DaysBeforeMonth(d.year, d.month) + d.day <= DaysInYear(d.year) by {
      if d.month < 12 {
        MonthStep(d.year, 12);
        assert DaysBeforeMonth(d.year, d.month + 1) <= DaysBeforeMonth(d.year, 12);
      }
    }
    DaysBeforeYearMonotone(1, d.year);
    assert DaysBeforeYear(d.year + 1) == DaysBeforeYear(d.year) + DaysInYear(d.year);
    DaysBeforeYearBound(d.year + 1);
  }

  /** The day after d. */
  function NextDay(d: Date): (e: Date)
    requires ValidDate(d) && d != LastDate
    ensures ValidDate(e) && Ordinal(e) == Ordinal(d) + 1
  {
    MonthStep(d.year, d.month);
    if d.day < DaysInMonth(d.year, d.month) then Date(d.year, d.month, d.day + 1)
    else if d.month < 12 then Date(d.year, d.month + 1, 1)
    else Date(d.year + 1, 1, 1)
  }

  /** The day before d. */
  function PrevDay(d: Date): (e: Date)
    requires ValidDate(d) && d != FirstDate
    ensures ValidDate(e) && Ordinal(e) == Ordinal(d) - 1
  {
    if d.day > 1 then Date(d.year, d.month, d.day - 1)
    else if d.month > 1 then
      MonthStep(d.year, d.month - 1);
      Date(d.year, d.month - 1, DaysInMonth(d.year, d.month - 1))
    else
      OrdinalAtYearEnd(Date(d.year - 1, 12, 31));
      Date(d.year - 1, 12, 31)
  }

  /** n days after d, one day at a time; None once a step would pass 9999-12-31. */
  function Forward(d: Date, n: nat): (r: Option<Date>)
    requires ValidDate(d)
    ensures r.Some? ==> ValidDate(r.value)
    decreases n
  {
    if n == 0 then Some(d)
    else if d == LastDate then None
    else Forward(NextDay(d), n - 1)
  }

  /** n days before d, one day at a time; None once a step would pass 0001-01-01. */
  function Backward(d: Date, n: nat): (r: Option<Date>)
    requires ValidDate(d)
    ensures r.Some? ==> ValidDate(r.value)
    decreases n
  {
    if n == 0 then Some(d)
    else if d == FirstDate then None
    else Backward(PrevDay(d), n - 1)
  }

  /** The last day of a year closes the count of days up to that year's end. */
  lemma OrdinalAtYearEnd(d: Date)
    requires ValidDate(d) && d.month == 12 && d.day == 31
    ensures Ordinal(d) == DaysBeforeYear(d.year + 1)
  {
  }

  /** `date.max.toordinal()` is MaxOrdinal. */
  lemma LastOrdinal(d: Date)
    requires d == LastDate
    ensures Ordinal(d) == MaxOrdinal
  {
    OrdinalAtYearEnd(d);
    DaysBeforeYearFormula(d.year + 1);
  }

  /** No year up to 9999 starts after MaxOrdinal days. */
  lemma DaysBeforeYearBound(y: int)
    requires 1 <= y <= MaxYear + 1
    ensures DaysBeforeYear(y) <= MaxOrdinal
  {
    var last := LastDate;
    LastOrdinal(last);
    OrdinalAtYearEnd(last);
    DaysBeforeYearMonotone(y, last.year + 1);
  }

  /** Walking forward adds n to the ordinal, and fails exactly past MaxOrdinal. */
  lemma {:induction false} ForwardOrdinal(d: Date, n: nat)
    requires ValidDate(d)
    ensures Forward(d, n).Some? <==> Ordinal(d) + n <= MaxOrdinal
    ensures Forward(d, n).Some? ==> Ordinal(Forward(d, n).value) == Ordinal(d) + n
    decreases n
  {
    if n == 0 {
      OrdinalBounds(d);
    } else if d == LastDate {
      LastOrdinal(d);
    } else {
      ForwardOrdinal(NextDay(d), n - 1);
    }
  }

  /** Walking backward subtracts n from the ordinal, and fails exactly below 1. */
  lemma {:induction false} BackwardOrdinal(d: Date, n: nat)
    requires ValidDate(d)
    ensures Backward(d, n).Some? <==> 1 <= Ordinal(d) - n
    ensures Backward(d, n).Some? ==> Ordinal(Backward(d, n).value) == Ordinal(d) - n
    decreases n
  {
    if n == 0 {
      OrdinalBounds(d);
    } else if d == FirstDate {
    } else {
      BackwardOrdinal(PrevDay(d), n - 1);
    }
  }

  /**
   * `d + timedelta(days=n)` (what `d + relativedelta(days=n)` does): the date
   * whose ordinal is n more than d's, or None where Python raises
   * OverflowError because that ordinal is outside 0001-01-01..9999-12-31.
   */
  function AddDays(d: Date, n: int): (r: Option<Date>)
    requires ValidDate(d)
    ensures r.Some? <==> 1 <= Ordinal(d) + n <= MaxOrdinal
    ensures r.Some? ==> ValidDate(r.value) && Ordinal(r.value) == Ordinal(d) + n
  {
    OrdinalBounds(d);
    if n >= 0 then
      ForwardOrdinal(d, n); Forward(d, n)
    else
      BackwardOrdinal(d, -n); Backward(d, -n)
  }

  /** Months counted from the start of year 0: orders (year, month) pairs. */
  function MonthIndex(d: Date): int {
    d.year * 12 + d.month - 1
  }

  /**
   * `d + relativedelta(months=n)` for n >= 0: relativedelta first splits n
   * into n / 12 years and n % 12 months, carries a month past December into
   * the next year and clamps the day to the length of the target month.
   * None where the target year is past 9999 (`replace` raises ValueError).
   */
  function AddMonths(d: Date, n: nat): (r: Option<Date>)
    requires ValidDate(d)
    ensures r.Some? <==> MonthIndex(d) + n < (MaxYear + 1) * 12
    ensures r.Some? ==> ValidDate(r.value) && MonthIndex(r.value) == MonthIndex(d) + n
    ensures r.Some? ==> r.value.day == if d.day <= DaysInMonth(r.value.year, r.value.month)
                                       then d.day else DaysInMonth(r.value.year, r.value.month)
  {
    var years, months := n / 12, n % 12;
    var y0, m0 := d.year + years, d.month + months;
    var y, m := if m0 > 12 then y0 + 1 else y0, if m0 > 12 then m0 - 12 else m0;
    if y > MaxYear then None
    else
      var lastDay := DaysInMonth(y, m);
      Some(Date(y, m, if d.day <= lastDay then d.day else lastDay))
  }

  /** Stepping forward one day never moves to an earlier month. */
  lemma NextDayMonth(d: Date)
    requires ValidDate(d) && d != LastDate
    ensures MonthIndex(d) <= MonthIndex(NextDay(d)) <= MonthIndex(d) + 1
  {
  }

  /** Walking forward never reaches an earlier month. */
  lemma {:induction false} ForwardMonthMonotone(d: Date, n: nat)
    requires ValidDate(d) && Forward(d, n).Some?
    ensures MonthIndex(d) <= MonthIndex(Forward(d, n).value)
    decreases n
  {
    if n > 0 {
      NextDayMonth(d);
      ForwardMonthMonotone(NextDay(d), n - 1);
    }
  }

  /** A non-negative number of days lands in the same month or a later one. */
  lemma AddDaysMonthMonotone(d: Date, n: int)
    requires ValidDate(d) && n >= 0 && AddDays(d, n).Some?
    ensures MonthIndex(d) <= MonthIndex(AddDays(d, n).value)
  {
    ForwardMonthMonotone(d, n);
  }

  /** Consecutive days of one month have consecutive weekdays. */
  lemma WeekdayStep(y: int, m: int, k: int)
    requires ValidDate(Date(y, m, k)) && ValidDate(Date(y, m, k + 1))
    ensures Weekday(Date(y, m, k + 1)) == (Weekday(Date(y, m, k)) + 1) % 7
  {
    var a := Ordinal(Date(y, m, k)) + 6;
    assert Ordinal(Date(y, m, k + 1)) + 6 == a + 1;
    ModSevenStep(a);
  }

  lemma ModSevenStep(a: int)
    ensures (a + 1) % 7 == (a % 7 + 1) % 7
  {
  }

  /** One of the first three days of every month is a business day. */
  lemma {:induction false} BusinessDayWithinThree(y: int, m: int)
    requires MinYear <= y <= MaxYear && 1 <= m <= 12
    ensures IsBusinessDay(Date(y, m, 1)) || IsBusinessDay(Date(y, m, 2)) || IsBusinessDay(Date(y, m, 3))
  {
    WeekdayStep(y, m, 1);
    WeekdayStep(y, m, 2);
    ThreeWeekdays(Weekday(Date(y, m, 1)), Weekday(Date(y, m, 2)), Weekday(Date(y, m, 3)));
  }

  /** Of three consecutive weekdays at most two fall on Saturday and Sunday. */
  lemma ThreeWeekdays(a: int, b: int, c: int)
    requires 0 <= a <= 6 && b == (a + 1) % 7 && c == (b + 1) % 7
    ensures a < 5 || b < 5 || c < 5
  {
  }
}
