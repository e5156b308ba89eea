/**
 * Instants, calendar days and the proleptic Gregorian civil date.
 *
 * An instant is a whole number of seconds on the device's local clock (one
 * fixed time zone), so the local calendar day of an instant is its floor
 * division by the length of a day, and day number 0 is 1970-01-01.
 */
module Calendar {

  type Instant = int

  const SecondsPerDay: int := 86400

  /** The local calendar day an instant falls on. */
  function DayOf(t: Instant): int {
    t / SecondsPerDay
  }

  /** The first instant of a calendar day. */
  function DayStart(day: int): Instant {
    day * SecondsPerDay
  }

  lemma DayOfDayStart(day: int)
    ensures DayOf(DayStart(day)) == day
  {
  }

  /** An instant lies in the days a..b-1 exactly when it lies between their day starts. */
  lemma DayRange(t: Instant, a: int, b: int)
    ensures DayStart(a) <= t < DayStart(b) <==> a <= DayOf(t) < b
  {
  }

  datatype Date = Date(year: int, month: int, day: int)

  predicate IsLeapYear(y: int) {
    y % 4 == 0 && (y % 100 != 0 || y % 400 == 0)
  }

  function DaysInMonth(y: int, m: int): int {
    if m == 2 then (if IsLeapYear(y) then 29 else 28)
    else if m == 4 || m == 6 || m == 9 || m == 11 then 30
    else 31
  }

  predicate ValidDate(c: Date) {
    1 <= c.month <= 12 && 1 <= c.day <= DaysInMonth(c.year, c.month)
  }

  function NextDay(c: Date): Date {
    if c.day < DaysInMonth(c.year, c.month) then Date(c.year, c.month, c.day + 1)
    else if c.month < 12 then Date(c.year, c.month + 1, 1)
    else Date(c.year + 1, 1, 1)
  }

  function PrevDay(c: Date): Date {
    if c.day > 1 then Date(c.year, c.month, c.day - 1)
    else if c.month > 1 then Date(c.year, c.month - 1, DaysInMonth(c.year, c.month - 1))
    else Date(c.year - 1, 12, 31)
  }

  /** Chronological order of civil dates. */
  predicate Before(a: Date, b: Date) {
    a.year < b.year ||
    (a.year == b.year && (a.month < b.month || (a.month == b.month && a.day < b.day)))
  }

  const Epoch: Date := Date(1970, 1, 1)

  /** The civil date of a day number, counted from 1970-01-01 one day at a time. */
  function CivilFromDays(z: int): Date
    decreases if z >= 0 then z else -z
  {
    if z == 0 then Epoch
    else if z > 0 then NextDay(CivilFromDays(z - 1))
    else PrevDay(CivilFromDays(z + 1))
  }

  lemma NextDayValid(c: Date)
    requires ValidDate(c)
    ensures ValidDate(NextDay(c)) && Before(c, NextDay(c)) && PrevDay(NextDay(c)) == c
  {
  }

  lemma PrevDayValid(c: Date)
    requires ValidDate(c)
    ensures ValidDate(PrevDay(c)) && NextDay(PrevDay(c)) == c
  {
  }

  /** Every day number names a real date. */
  lemma {:induction false} CivilValid(z: int)
    ensures ValidDate(CivilFromDays(z))
    decreases if z >= 0 then z else -z
  {
    if z > 0 {
      CivilValid(z - 1);
      NextDayValid(CivilFromDays(z - 1));
    } else if z < 0 {
      CivilValid(z + 1);
      PrevDayValid(CivilFromDays(z + 1));
    }
  }

  /** Moving one day forward moves the civil date to its next day, on both sides of the epoch. */
  lemma {:induction false} CivilSucc(z: int)
    ensures CivilFromDays(z + 1) == NextDay(CivilFromDays(z))
  {
    if z < 0 {
      CivilValid(z + 1);
      PrevDayValid(CivilFromDays(z + 1));
    }
  }

  lemma {:induction false} CivilIncreasing(a: int, b: int)
    requires a < b
    ensures Before(CivilFromDays(a), CivilFromDays(b))
    decreases b - a
  {
    CivilSucc(b - 1);
    CivilValid(b - 1);
    NextDayValid(CivilFromDays(b - 1));
    if a < b - 1 {
      CivilIncreasing(a, b - 1);
    }
  }

  /** Distinct days have distinct civil dates. */
  lemma CivilInjective(a: int, b: int)
    ensures CivilFromDays(a) == CivilFromDays(b) <==> a == b
  {
    if a < b {
      CivilIncreasing(a, b);
    } else if b < a {
      CivilIncreasing(b, a);
    }
  }
}
