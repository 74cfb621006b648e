/**
 * The clock's timestamps: a naive local date and time as Python's `datetime`
 * holds it (proleptic Gregorian calendar, no time zone), to the minute, and
 * the one-hour shifts `+ timedelta(hours=1)` and `- timedelta(hours=1)`.
 */
module Timestamps {

  datatype DateTime = DateTime(year: int, month: int, day: int, hour: int, minute: int)

  predicate IsLeapYear(year: int)
  {
    year % 4 == 0 && (year % 100 != 0 || year % 400 == 0)
  }

  function DaysInMonth(year: int, month: int): (n: int)
    requires 1 <= month <= 12
    ensures 28 <= n <= 31
  {
    if month == 2 then (if IsLeapYear(year) then 29 else 28)
    else if month == 4 || month == 6 || month == 9 || month == 11 then 30
    else 31
  }

  function DaysInYear(year: int): int
  {
    if IsLeapYear(year) then 366 else 365
  }

  /** The field ranges `datetime` enforces on construction. */
  predicate Valid(t: DateTime)
  {
    && 1 <= t.month <= 12
    && 1 <= t.day <= DaysInMonth(t.year, t.month)
    && 0 <= t.hour < 24
    && 0 <= t.minute < 60
  }

  /** Minutes since midnight, what `strftime("%H:%M")` renders. */
  function TimeOfDay(t: DateTime): (m: int)
    requires Valid(t)
    ensures 0 <= m < 1440
  {
    t.hour * 60 + t.minute
  }

  /** Days from 0001-01-01 to January 1st of `year`. */
  function DaysBeforeYear(year: int): int
  {
    var y := year - 1;
    y * 365 + y / 4 - y / 100 + y / 400
  }

  /** Days from January 1st of `year` to the first day of `month`. */
  function DaysBeforeMonth(year: int, month: int): int
    requires 1 <= month <= 13
  {
    if month == 1 then 0 else DaysBeforeMonth(year, month - 1) + DaysInMonth(year, month - 1)
  }

  /**
   * Minutes since 0001-01-01 00:00: the scale on which `timedelta` arithmetic
   * is plain addition.
   */
  function Ordinal(t: DateTime): int
    requires Valid(t)
  {
    ((DaysBeforeYear(t.year) + DaysBeforeMonth(t.year, t.month) + t.day - 1) * 24 + t.hour) * 60 + t.minute
  }

  /** `t + timedelta(hours=1)`. */
  function NextHour(t: DateTime): (r: DateTime)
    requires Valid(t)
    ensures Valid(r)
  {
    if t.hour < 23 then t.(hour := t.hour + 1)
    else if t.day < DaysInMonth(t.year, t.month) then t.(day := t.day + 1, hour := 0)
    else if t.month < 12 then t.(month := t.month + 1, day := 1, hour := 0)
    else DateTime(t.year + 1, 1, 1, 0, t.minute)
  }

  /** `t - timedelta(hours=1)`. */
  function PrevHour(t: DateTime): (r: DateTime)
    requires Valid(t)
    ensures Valid(r)
  {
    if t.hour > 0 then t.(hour := t.hour - 1)
    else if t.day > 1 then t.(day := t.day - 1, hour := 23)
    else if t.month > 1 then t.(month := t.month - 1, day := DaysInMonth(t.year, t.month - 1), hour := 23)
    else DateTime(t.year - 1, 12, 31, 23, t.minute)
  }

  lemma YearLength(year: int)
    ensures DaysBeforeYear(year + 1) == DaysBeforeYear(year) + DaysInYear(year)
  {
    FloorSteps(year - 1);
    DivisorChain(year);
  }

  /** A multiple of 400 is a multiple of 100, and a multiple of 100 a multiple of 4. */
  lemma DivisorChain(x: int)
    ensures x % 100 == 0 ==> x % 4 == 0
    ensures x % 400 == 0 ==> x % 100 == 0
  {
    if x % 100 == 0 {
      assert x == 4 * (25 * (x / 100));
    }
    if x % 400 == 0 {
      assert x == 100 * (4 * (x / 400));
    }
  }

  /** How the three leap-year quotients grow from one year to the next. */
  lemma FloorSteps(y: int)
    ensures (y + 1) / 4 == y / 4 + (if (y + 1) % 4 == 0 then 1 else 0)
    ensures (y + 1) / 100 == y / 100 + (if (y + 1) % 100 == 0 then 1 else 0)
    ensures (y + 1) / 400 == y / 400 + (if (y + 1) % 400 == 0 then 1 else 0)
  {
  }

  lemma MonthsFillYear(year: int)
    ensures DaysBeforeMonth(year, 13) == DaysInYear(year)
  {
    var feb := DaysInMonth(year, 2);
    assert DaysBeforeMonth(year, 2) == 31;
    assert DaysBeforeMonth(year, 3) == 31 + feb;
    assert DaysBeforeMonth(year, 4) == 62 + feb;
    assert DaysBeforeMonth(year, 5) == 92 + feb;
    assert DaysBeforeMonth(year, 6) == 123 + feb;
    assert DaysBeforeMonth(year, 7) == 153 + feb;
    assert DaysBeforeMonth(year, 8) == 184 + feb;
    assert DaysBeforeMonth(year, 9) == 215 + feb;
    assert DaysBeforeMonth(year, 10) == 245 + feb;
    assert DaysBeforeMonth(year, 11) == 276 + feb;
    assert DaysBeforeMonth(year, 12) == 306 + feb;
    assert DaysBeforeMonth(year, 13) == 337 + feb;
  }

  /** One hour later is exactly sixty minutes later, across day, month and year ends. */
  lemma NextHourAddsAnHour(t: DateTime)
    requires Valid(t)
    ensures Ordinal(NextHour(t)) == Ordinal(t) + 60
    ensures TimeOfDay(NextHour(t)) == (TimeOfDay(t) + 60) % 1440
  {
    var r := NextHour(t);
    if t.hour < 23 {
    } else if t.day < DaysInMonth(t.year, t.month) {
      assert r.day == t.day + 1 && r.hour == 0;
    } else if t.month < 12 {
      assert DaysBeforeMonth(t.year, t.month + 1) == DaysBeforeMonth(t.year, t.month) + DaysInMonth(t.year, t.month);
    } else {
      YearLength(t.year);
      MonthsFillYear(t.year);
      assert DaysBeforeMonth(t.year, 13) == DaysBeforeMonth(t.year, 12) + 31;
      assert DaysBeforeYear(r.year) + DaysBeforeMonth(r.year, 1) + r.day - 1 ==
        DaysBeforeYear(t.year) + DaysBeforeMonth(t.year, 12) + t.day;
    }
  }

  /** One hour earlier is exactly sixty minutes earlier. */
  lemma PrevHourSubtractsAnHour(t: DateTime)
    requires Valid(t)
    ensures Ordinal(PrevHour(t)) == Ordinal(t) - 60
    ensures TimeOfDay(PrevHour(t)) == (TimeOfDay(t) + 1380) % 1440
  {
    NextHourAddsAnHour(PrevHour(t));
    ShiftsAreInverse(t);
  }

  /** Going forward an hour and back again (or back and forward) returns the same timestamp. */
  lemma ShiftsAreInverse(t: DateTime)
    requires Valid(t)
    ensures PrevHour(NextHour(t)) == t
    ensures NextHour(PrevHour(t)) == t
  {
  }
}
