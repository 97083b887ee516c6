/**
 * Proleptic Gregorian date-times with second precision, as Python's `datetime`
 * represents them: years 1 to 9999, field-by-field comparison, and addition of
 * an hour or a day that fails (OverflowError) when the result would leave that
 * year range.
 *
 * `TotalSeconds` places every valid date-time on one timeline (seconds since
 * 0001-01-01T00:00:00, the same day count as `date.toordinal`). It is the
 * independent reference against which comparison and the successor functions
 * are proved.
 */
module Calendar {

  const MinYear := 1
  const MaxYear := 9999

  datatype Option<T> = None | Some(value: T)

  datatype DateTime = DateTime(year: int, month: int, day: int, hour: int, minute: int, second: int)

  predicate IsLeap(year: int) {
    year % 4 == 0 && (year % 100 != 0 || year % 400 == 0)
  }

  function DaysInYear(year: int): int {
    if IsLeap(year) then 366 else 365
  }

  function DaysInMonth(year: int, month: int): (n: int)
    requires 1 <= month <= 12
    ensures 28 <= n <= 31
    ensures month == 2 <==> n < 30
  {
    if month == 2 then (if IsLeap(year) then 29 else 28)
    else if month == 4 || month == 6 || month == 9 || month == 11 then 30
    else 31
  }

  /** The values a Python `datetime` (without microseconds) can hold. */
  predicate Valid(d: DateTime) {
    && MinYear <= d.year <= MaxYear
    && 1 <= d.month <= 12
    && 1 <= d.day <= DaysInMonth(d.year, d.month)
    && 0 <= d.hour < 24
    && 0 <= d.minute < 60
    && 0 <= d.second < 60
  }

  /** Python's `<` on datetimes: the first field that differs decides. */
  predicate Less(a: DateTime, b: DateTime) {
    if a.year != b.year then a.year < b.year
    else if a.month != b.month then a.month < b.month
    else if a.day != b.day then a.day < b.day
    else if a.hour != b.hour then a.hour < b.hour
    else if a.minute != b.minute then a.minute < b.minute
    else a.second < b.second
  }

  /** Python's `<=` on datetimes. */
  predicate LessEq(a: DateTime, b: DateTime) {
    Less(a, b) || a == b
  }

  // ---------------------------------------------------------------------------
  // The reference timeline

  /** Days in the years before `year`, in closed form. */
  function DaysBeforeYear(year: int): int
    requires year >= 1
  {
    var y := year - 1;
    y * 365 + y / 4 - y / 100 + y / 400
  }

  /** Days in the months of `year` before `month` (`month == 13` gives the whole year). */
  function DaysBeforeMonth(year: int, month: int): (n: int)
    requires 1 <= month <= 13
    ensures 28 * (month - 1) <= n <= 31 * (month - 1)
  {
    if month == 1 then 0 else DaysBeforeMonth(year, month - 1) + DaysInMonth(year, month - 1)
  }

  /** The day count of `d`'s date; 0001-01-01 is day 1. */
  function DayNumber(d: DateTime): int
    requires Valid(d)
  {
    DaysBeforeYear(d.year) + DaysBeforeMonth(d.year, d.month) + d.day
  }

  function SecondOfDay(d: DateTime): int {
    d.hour * 3600 + d.minute * 60 + d.second
  }

  /** Seconds elapsed from 0001-01-01T00:00:00 to `d`. */
  function TotalSeconds(d: DateTime): int
    requires Valid(d)
  {
    (DayNumber(d) - 1) * 86400 + SecondOfDay(d)
  }

  lemma YearLength(year: int)
    requires year >= 1
    ensures DaysBeforeYear(year + 1) == DaysBeforeYear(year) + DaysInYear(year)
  {
    var y := year - 1;
    assert year / 4 - y / 4 == if year % 4 == 0 then 1 else 0;
    assert year / 100 - y / 100 == if year % 100 == 0 then 1 else 0;
    assert year / 400 - y / 400 == if year % 400 == 0 then 1 else 0;
  }

  lemma {:induction false} YearsAccumulate(y1: int, y2: int)
    requires 1 <= y1 < y2
    ensures DaysBeforeYear(y1) + DaysInYear(y1) <= DaysBeforeYear(y2)
    decreases y2 - y1
  {
    YearLength(y1);
    if y1 + 1 < y2 {
      YearsAccumulate(y1 + 1, y2);
    }
  }

  lemma MonthsFillYear(year: int)
    ensures DaysBeforeMonth(year, 13) == DaysInYear(year)
  {
    var feb := DaysInMonth(year, 2);
    assert DaysBeforeMonth(year, 2) == 31;
    assert DaysBeforeMonth(year, 3) == 31 + feb;
    assert DaysBeforeMonth(year, 4) == 62 + feb;
    assert DaysBeforeMonth(year, 5) == 92 + feb;
    assert DaysBeforeMonth(year, 6) == 123 + feb;
    assert DaysBeforeMonth(year, 7) == 153 + feb;
    assert DaysBeforeMonth(year, 8) == 184 + feb;
    assert DaysBeforeMonth(year, 9) == 215 + feb;
    assert DaysBeforeMonth(year, 10) == 245 + feb;
    assert DaysBeforeMonth(year, 11) == 276 + feb;
    assert DaysBeforeMonth(year, 12) == 306 + feb;
    assert DaysBeforeMonth(year, 13) == 337 + feb;
  }

  lemma {:induction false} MonthsAccumulate(year: int, m1: int, m2: int)
    requires 1 <= m1 < m2 <= 13
    ensures DaysBeforeMonth(year, m1) + DaysInMonth(year, m1) <= DaysBeforeMonth(year, m2)
    decreases m2
  {
    if m1 + 1 < m2 {
      MonthsAccumulate(year, m1, m2 - 1);
    }
  }

  /** A date's day count stays below the first day of the following year. */
  lemma DayNumberWithinYear(d: DateTime)
    requires Valid(d)
    ensures DaysBeforeYear(d.year) < DayNumber(d) <= DaysBeforeYear(d.year) + DaysInYear(d.year)
  {
    MonthsAccumulate(d.year, d.month, 13);
    MonthsFillYear(d.year);
  }

  lemma LessIsEarlier(a: DateTime, b: DateTime)
    requires Valid(a) && Valid(b) && Less(a, b)
    ensures TotalSeconds(a) < TotalSeconds(b)
  {
    if a.year != b.year {
      DayNumberWithinYear(a);
      DayNumberWithinYear(b);
      YearsAccumulate(a.year, b.year);
    } else if a.month != b.month {
      MonthsAccumulate(a.year, a.month, b.month);
    }
  }

  /** Python's field-by-field comparison is comparison on the timeline. */
  lemma OrderMatchesTimeline(a: DateTime, b: DateTime)
    requires Valid(a) && Valid(b)
    ensures Less(a, b) <==> TotalSeconds(a) < TotalSeconds(b)
    ensures LessEq(a, b) <==> TotalSeconds(a) <= TotalSeconds(b)
    ensures a == b <==> TotalSeconds(a) == TotalSeconds(b)
  {
    if Less(a, b) {
      LessIsEarlier(a, b);
    } else if Less(b, a) {
      LessIsEarlier(b, a);
    }
  }

  lemma LessTransitive(a: DateTime, b: DateTime, c: DateTime)
    requires Less(a, b) && Less(b, c)
    ensures Less(a, c)
  {
  }

  lemma LessEqTransitive(a: DateTime, b: DateTime, c: DateTime)
    requires LessEq(a, b) && LessEq(b, c)
    ensures LessEq(a, c)
  {
    if a != b && b != c {
      LessTransitive(a, b, c);
    }
  }

  // ---------------------------------------------------------------------------
  // Successors (`date + timedelta(...)` and the first of the next month)

  /**
   * `d + timedelta(days=1)`: the same time on the next calendar day, or None
   * where Python raises OverflowError (the day after 9999-12-31).
   */
  function AddDay(d: DateTime): (r: Option<DateTime>)
    requires Valid(d)
    ensures r.None? <==> d.year == MaxYear && d.month == 12 && d.day == 31
    ensures r.Some? ==> Valid(r.value) && Less(d, r.value) && SecondOfDay(r.value) == SecondOfDay(d)
  {
    if d.day < DaysInMonth(d.year, d.month) then
      Some(d.(day := d.day + 1))
    else if d.month < 12 then
      Some(d.(month := d.month + 1, day := 1))
    else if d.year < MaxYear then
      Some(d.(year := d.year + 1, month := 1, day := 1))
    else
      None
  }

  /** The next calendar day is exactly 86400 seconds later on the timeline. */
  lemma AddDayIsOneDayLater(d: DateTime)
    requires Valid(d) && AddDay(d).Some?
    ensures TotalSeconds(AddDay(d).value) == TotalSeconds(d) + 86400
  {
    if d.day == DaysInMonth(d.year, d.month) && d.month == 12 {
      MonthsFillYear(d.year);
      YearLength(d.year);
    }
  }

  /**
   * `d + timedelta(hours=1)`, or None where Python raises OverflowError (from
   * 9999-12-31T23:00:00 on).
   */
  function AddHour(d: DateTime): (r: Option<DateTime>)
    requires Valid(d)
    ensures r.None? <==> d.year == MaxYear && d.month == 12 && d.day == 31 && d.hour == 23
    ensures r.Some? ==> Valid(r.value) && Less(d, r.value)
    ensures r.Some? ==> r.value.minute == d.minute && r.value.second == d.second
  {
    if d.hour < 23 then
      Some(d.(hour := d.hour + 1))
    else
      match AddDay(d)
      case None => None
      case Some(next) => Some(next.(hour := 0))
  }

  /** One hour later is exactly 3600 seconds later on the timeline. */
  lemma AddHourIsOneHourLater(d: DateTime)
    requires Valid(d) && AddHour(d).Some?
    ensures TotalSeconds(AddHour(d).value) == TotalSeconds(d) + 3600
  {
    if d.hour == 23 {
      AddDayIsOneDayLater(d);
    }
  }

  /**
   * `datetime(next_year, next_month, 1)` with `next_month = month % 12 + 1` and
   * `next_year = year + month // 12`, or None where Python raises ValueError
   * because the year would be 10000.
   */
  function NextMonthStart(d: DateTime): (r: Option<DateTime>)
    requires Valid(d)
    ensures r.None? <==> d.year == MaxYear && d.month == 12
    ensures r.Some? && d.month < 12 ==> r.value == DateTime(d.year, d.month + 1, 1, 0, 0, 0)
    ensures r.Some? && d.month == 12 ==> r.value == DateTime(d.year + 1, 1, 1, 0, 0, 0)
    ensures r.Some? ==> Valid(r.value) && Less(d, r.value)
  {
    var nextMonth := d.month % 12 + 1;
    var nextYear := d.year + d.month / 12;
    if nextYear <= MaxYear then Some(DateTime(nextYear, nextMonth, 1, 0, 0, 0)) else None
  }
}
