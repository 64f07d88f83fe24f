/**
  Local calendar days as a browser `Date` exposes them through
  getFullYear/getMonth/getDate, with the proleptic Gregorian rollover that
  `setDate(getDate() + i)` performs. Time zones and parsing are not modelled:
  an instant is already its local date plus the milliseconds since local midnight.
 */
module Calendar {

  /** A calendar day; `month` counts 1..12 (JavaScript's getMonth is this minus one). */
  datatype Date = Date(year: int, month: int, day: int)

  /** A moment in local time: its calendar day and the time of day in milliseconds. */
  datatype Instant = Instant(date: Date, millis: nat)

  predicate IsLeapYear(y: int) {
    (y % 4 == 0 && y % 100 != 0) || y % 400 == 0
  }

  function DaysInMonth(y: int, m: int): (n: int)
    ensures 28 <= n <= 31
    ensures m == 2 ==> (n == 29 <==> IsLeapYear(y))
  {
    if m == 2 then (if IsLeapYear(y) then 29 else 28)
    else if m == 4 || m == 6 || m == 9 || m == 11 then 30
    else 31
  }

  predicate ValidDate(d: Date) {
    1 <= d.month <= 12 && 1 <= d.day <= DaysInMonth(d.year, d.month)
  }

  /** Calendar order: by year, then month, then day. */
  predicate Before(a: Date, b: Date) {
    a.year < b.year ||
    (a.year == b.year && a.month < b.month) ||
    (a.year == b.year && a.month == b.month && a.day < b.day)
  }

  lemma BeforeTransitive(a: Date, b: Date, c: Date)
    requires Before(a, b) && Before(b, c)
    ensures Before(a, c)
  {
  }

  /** The following calendar day, rolling over month and year ends. */
  function NextDay(d: Date): (r: Date)
    ensures Before(d, r)
    ensures ValidDate(d) ==> ValidDate(r)
    ensures ValidDate(d) ==> forall e :: Before(d, e) && Before(e, r) ==> !ValidDate(e)
  {
    if d.day < DaysInMonth(d.year, d.month) then Date(d.year, d.month, d.day + 1)
    else if d.month < 12 then Date(d.year, d.month + 1, 1)
    else Date(d.year + 1, 1, 1)
  }

  /** The day `n` days after `d`, as `setDate(getDate() + n)` yields at midnight. */
  function AddDays(d: Date, n: nat): (r: Date)
    ensures n > 0 ==> Before(d, r)
  {
    if n == 0 then d else NextDay(AddDays(d, n - 1))
  }

  /** Adding days walks strictly forward through the calendar. */
  lemma {:induction false} AddDaysAscending(d: Date, i: nat, j: nat)
    requires i < j
    ensures Before(AddDays(d, i), AddDays(d, j))
  {
    if j > i + 1 {
      AddDaysAscending(d, i, j - 1);
      BeforeTransitive(AddDays(d, i), AddDays(d, j - 1), AddDays(d, j));
    }
  }

  /** Adding days to a real calendar day gives a real calendar day. */
  lemma {:induction false} AddDaysValid(d: Date, n: nat)
    requires ValidDate(d)
    ensures ValidDate(AddDays(d, n))
  {
    if n > 0 {
      AddDaysValid(d, n - 1);
    }
  }

  /** Different offsets give different days. */
  lemma AddDaysInjective(d: Date, i: nat, j: nat)
    requires AddDays(d, i) == AddDays(d, j)
    ensures i == j
  {
    if i < j {
      AddDaysAscending(d, i, j);
    } else if j < i {
      AddDaysAscending(d, j, i);
    }
  }

  /** `isSameDay(a, b)` (app.js): same year, month and day of month. */
  predicate IsSameDay(a: Instant, b: Instant)
    ensures IsSameDay(a, b) <==> a.date == b.date
  {
    a.date.year == b.date.year && a.date.month == b.date.month && a.date.day == b.date.day
  }

  /** `start.setHours(0, 0, 0, 0)`: the same day at midnight. */
  function StartOfDay(t: Instant): (r: Instant)
    ensures IsSameDay(r, t) && r.millis == 0
  {
    Instant(t.date, 0)
  }
}
