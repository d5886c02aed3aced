/**
 * utils/dateUtils.ts and the calendar every other module uses.
 *
 * A JavaScript `Date` is an instant: milliseconds since 1970-01-01T00:00:00Z. This model
 * fixes ONE calendar for both the UTC accessors (`toISOString`) and the local ones
 * (`getDay`, `getDate`, `setHours`, ...): local time is taken to be UTC, with no daylight
 * saving. Under that calendar a day is a plain integer day number, and the `YYYY-MM-DD`
 * key that the source cuts out of `toISOString()` (the full-date of RFC 3339 section 5.6)
 * is that day number.
 */
module DateUtils {

  /** Milliseconds since the epoch, as `Date.prototype.getTime()` returns them. */
  type Instant = int

  /** A calendar day as a day number (0 is 1970-01-01); stands for a `YYYY-MM-DD` string. */
  type DateKey = int

  const MsPerHour: int := 3600000
  const MsPerDay: int := 86400000

  /** The calendar day of an instant (`toISOString().split('T')[0]`). */
  function DayOf(t: Instant): DateKey {
    t / MsPerDay
  }

  /** Milliseconds elapsed since the instant's midnight. */
  function TimeOfDay(t: Instant): int {
    t % MsPerDay
  }

  /** `getDay()` of any instant on day `d`: 0 is Sunday; 1970-01-01 was a Thursday. */
  function Weekday(d: DateKey): (w: int)
    ensures 0 <= w < 7
  {
    (d + 4) % 7
  }

  function WeekdayOf(t: Instant): int {
    Weekday(DayOf(t))
  }

  /** The instant `k` days after midnight of day `d`, plus `ms` milliseconds, splits back into `d + k` and `ms`. */
  lemma DaySplit(d: DateKey, ms: int)
    requires 0 <= ms < MsPerDay
    ensures DayOf(d * MsPerDay + ms) == d
    ensures TimeOfDay(d * MsPerDay + ms) == ms
  {
    var t := d * MsPerDay + ms;
    var q, r := t / MsPerDay, t % MsPerDay;
    assert t == q * MsPerDay + r && 0 <= r < MsPerDay;
    assert (q - d) * MsPerDay == ms - r;
  }

  /** Every instant is its day's midnight plus its time of day. */
  lemma {:induction false} Decompose(t: Instant)
    ensures t == DayOf(t) * MsPerDay + TimeOfDay(t)
    ensures 0 <= TimeOfDay(t) < MsPerDay
  {
  }

  /** `startOfDay`: the same calendar day at 00:00:00.000. */
  function StartOfDay(t: Instant): (r: Instant)
    ensures DayOf(r) == DayOf(t) && TimeOfDay(r) == 0
    ensures r <= t < r + MsPerDay
  {
    Decompose(t);
    DaySplit(DayOf(t), 0);
    DayOf(t) * MsPerDay
  }

  /** `endOfDay`: the same calendar day at 23:59:59.999. */
  function EndOfDay(t: Instant): (r: Instant)
    ensures DayOf(r) == DayOf(t) && TimeOfDay(r) == MsPerDay - 1
    ensures t <= r && r == StartOfDay(t) + MsPerDay - 1
  {
    Decompose(t);
    DaySplit(DayOf(t), MsPerDay - 1);
    DayOf(t) * MsPerDay + MsPerDay - 1
  }

  /** `addDays`: `setDate(getDate() + days)` moves the calendar day and keeps the time of day. */
  function AddDays(t: Instant, days: int): (r: Instant)
    ensures DayOf(r) == DayOf(t) + days
    ensures TimeOfDay(r) == TimeOfDay(t)
  {
    Decompose(t);
    DaySplit(DayOf(t) + days, TimeOfDay(t));
    t + days * MsPerDay
  }

  /** `addHours`: `setHours(getHours() + hours)`. */
  function AddHours(t: Instant, hours: int): (r: Instant)
    ensures r - t == hours * MsPerHour
  {
    t + hours * MsPerHour
  }

  /** Going forward `n` days and back `n` days returns the same instant; 0 days is no move. */
  lemma {:induction false} AddDaysInverse(t: Instant, n: int)
    ensures AddDays(AddDays(t, n), -n) == t
    ensures AddDays(t, 0) == t
  {
  }

  /** A day is 24 hours: `addHours(d, 24 * n)` and `addDays(d, n)` agree. */
  lemma {:induction false} HoursMakeDays(t: Instant, n: int)
    ensures AddHours(t, 24 * n) == AddDays(t, n)
  {
  }

  /** `startOfDay(d) <= d <= endOfDay(d)`, and both bounds keep the day. */
  lemma {:induction false} DayBounds(t: Instant)
    ensures StartOfDay(t) <= t <= EndOfDay(t)
    ensures DayOf(StartOfDay(t)) == DayOf(t) == DayOf(EndOfDay(t))
  {
  }

  /**
   * `getWeekDates`: steps back `getDay()` days to the week's Sunday (`setDate(getDate() - day)`),
   * then collects that day and the six following ones, all at the input's time of day.
   */
  method WeekDates(date: Instant) returns (dates: seq<Instant>)
    ensures |dates| == 7
    ensures Weekday(DayOf(dates[0])) == 0
    ensures forall i :: 0 <= i < 7 ==> DayOf(dates[i]) == DayOf(dates[0]) + i
    ensures forall i :: 0 <= i < 7 ==> TimeOfDay(dates[i]) == TimeOfDay(date)
    ensures dates[WeekdayOf(date)] == date
  {
    var day := WeekdayOf(date);
    var weekStart := AddDays(date, -day);
    dates := [];
    for i := 0 to 7
      invariant |dates| == i
      invariant forall k :: 0 <= k < i ==> dates[k] == AddDays(weekStart, k)
    {
      dates := dates + [AddDays(weekStart, i)];
    }
    assert Weekday(DayOf(dates[0])) == 0 by {
      assert DayOf(weekStart) == DayOf(date) - day;
    }
    assert dates[day] == date by {
      Decompose(date);
      Decompose(dates[day]);
    }
  }

  /** Whole weeks do not move the weekday. */
  lemma {:induction false} WeekdayPeriodic(d: DateKey, k: int)
    ensures Weekday(d + 7 * k) == Weekday(d)
  {
    DivUnique(d + 4 + 7 * k, 7, (d + 4) / 7 + k, Weekday(d));
  }

  /** Within any seven consecutive days from `d` there is a day with each weekday `w`. */
  lemma NextWeekday(d: DateKey, w: int) returns (e: DateKey)
    requires 0 <= w < 7
    ensures d <= e < d + 7 && Weekday(e) == w
  {
    var k := (w - Weekday(d) + 7) % 7;
    e := d + k;
    var q := (d + 4) / 7;
    assert d + 4 == 7 * q + Weekday(d);
    if Weekday(d) <= w {
      DivUnique(e + 4, 7, q, w);
    } else {
      DivUnique(e + 4, 7, q + 1, w);
    }
  }

  // ---------------------------------------------------------------------------------
  // The Gregorian calendar, months numbered 0..11 as `Date` numbers them.

  /** The leap-year rule of RFC 3339 Appendix C. */
  predicate IsLeapYear(y: int) {
    y % 4 == 0 && (y % 100 != 0 || y % 400 == 0)
  }

  function DaysInMonth(y: int, m: int): (n: int)
    requires 0 <= m < 12
    ensures 28 <= n <= 31
    ensures m == 1 ==> (n == 29 <==> IsLeapYear(y))
  {
    if m == 1 then (if IsLeapYear(y) then 29 else 28)
    else if m == 3 || m == 5 || m == 8 || m == 10 then 30
    else 31
  }

  /** Days in the months of year `y` before month `m`. */
  function DaysBeforeMonth(y: int, m: int): int
    requires 0 <= m < 12
  {
    [0, 31, 59, 90, 120, 151, 181, 212, 243, 273, 304, 334][m]
      + (if m >= 2 && IsLeapYear(y) then 1 else 0)
  }

  /** Leap years among 1..y (negative counts for y < 0, so that differences stay right). */
  function LeapsThrough(y: int): int {
    y / 4 - y / 100 + y / 400
  }

  /** Days from 1970-01-01 to January 1 of year `y`. */
  function DaysBeforeYear(y: int): int {
    365 * (y - 1970) + LeapsThrough(y - 1) - LeapsThrough(1969)
  }

  /** The day number of day `d` (1-based; 0 or past the end roll over) of month `m` of year `y`. */
  function DayNumber(y: int, m: int, d: int): DateKey
    requires 0 <= m < 12
  {
    DaysBeforeYear(y) + DaysBeforeMonth(y, m) + d - 1
  }

  /** One step of `y / k`: it goes up by one exactly when `k` divides `y`. */
  lemma DivStep(y: int, k: int)
    requires k > 0
    ensures y / k - (y - 1) / k == if y % k == 0 then 1 else 0
  {
    var q, r := (y - 1) / k, (y - 1) % k;
    assert y - 1 == q * k + r && 0 <= r < k;
    if r == k - 1 {
      assert y == (q + 1) * k + 0;
      DivUnique(y, k, q + 1, 0);
    } else {
      assert y == q * k + (r + 1);
      DivUnique(y, k, q, r + 1);
    }
  }

  lemma DivUnique(x: int, k: int, q: int, r: int)
    requires k > 0 && 0 <= r < k && x == q * k + r
    ensures x / k == q && x % k == r
  {
    var q', r' := x / k, x % k;
    assert x == q' * k + r' && 0 <= r' < k;
    var d := q' - q;
    assert d * k == r - r' by {
      assert q' * k - q * k == d * k;
    }
    if d >= 1 {
      MulAtLeast(d, k);
    } else if d <= -1 {
      MulAtLeast(-d, k);
    }
  }

  lemma {:induction false} MulAtLeast(a: int, k: int)
    requires a >= 1 && k > 0
    ensures a * k >= k
    decreases a
  {
    if a > 1 {
      MulAtLeast(a - 1, k);
      assert a * k == (a - 1) * k + k;
    }
  }

  /** The year after `y` starts 365 days later, or 366 when `y` is a leap year. */
  lemma {:induction false} YearLength(y: int)
    ensures DaysBeforeYear(y + 1) - DaysBeforeYear(y) == if IsLeapYear(y) then 366 else 365
  {
    DivStep(y, 4);
    DivStep(y, 100);
    DivStep(y, 400);
    if y % 400 == 0 {
      DivUnique(y, 100, (y / 400) * 4, 0);
    }
    if y % 100 == 0 {
      DivUnique(y, 4, (y / 100) * 25, 0);
    }
  }

  /** JavaScript's `new Date(y, ...)` reads a year 0..99 as 1900..1999. */
  function FullYear(year: int): int {
    if 0 <= year <= 99 then 1900 + year else year
  }

  /** `new Date(year, month, day)` at local midnight; out-of-range months roll into other years. */
  function LocalDate(year: int, month: int, day: int): Instant {
    DayNumber(FullYear(year) + month / 12, month % 12, day) * MsPerDay
  }

  /** The number of days of the (normalised) month that `new Date(year, month, 1)` falls in. */
  function MonthLength(year: int, month: int): (n: int)
    ensures 28 <= n <= 31
  {
    DaysInMonth(FullYear(year) + month / 12, month % 12)
  }

  /**
   * `new Date(year, month + 1, 0)`, the source's `lastDay`, is the `MonthLength(year, month)`-th day
   * of `month`: its `getDate()` is the month's length.
   */
  lemma {:induction false} DayZeroIsLastDay(year: int, month: int)
    ensures LocalDate(year, month + 1, 0) == LocalDate(year, month, MonthLength(year, month))
  {
    var y, m := FullYear(year) + month / 12, month % 12;
    MonthEnd(y, m);
    if m == 11 {
      DivUnique(month + 1, 12, month / 12 + 1, 0);
    } else {
      DivUnique(month + 1, 12, month / 12, m + 1);
    }
  }

  /** Day 0 of a month is the last day of the month before it. */
  lemma MonthEnd(y: int, m: int)
    requires 0 <= m < 12
    ensures m == 11 ==> DayNumber(y + 1, 0, 0) == DayNumber(y, 11, DaysInMonth(y, 11))
    ensures m < 11 ==> DayNumber(y, m + 1, 0) == DayNumber(y, m, DaysInMonth(y, m))
  {
    if m == 11 {
      YearLength(y);
    }
  }

  /**
   * `getMonthDates`: the days 1..N of the month at local midnight, in order, where N is
   * `lastDay.getDate()`, the month's length (see DayZeroIsLastDay).
   */
  method MonthDates(year: int, month: int) returns (dates: seq<Instant>)
    ensures |dates| == MonthLength(year, month)
    ensures forall i :: 0 <= i < |dates| ==> dates[i] == LocalDate(year, month, i + 1)
    ensures forall i :: 0 <= i < |dates| ==> TimeOfDay(dates[i]) == 0
    ensures forall i :: 0 < i < |dates| ==> dates[i] == AddDays(dates[i - 1], 1)
  {
    DayZeroIsLastDay(year, month);
    var last := MonthLength(year, month);
    dates := [];
    for d := 1 to last + 1
      invariant |dates| == d - 1
      invariant forall i :: 0 <= i < |dates| ==> dates[i] == LocalDate(year, month, i + 1)
    {
      dates := dates + [LocalDate(year, month, d)];
    }
    forall i | 0 <= i < |dates| ensures TimeOfDay(dates[i]) == 0 {
      DaySplit(DayNumber(FullYear(year) + month / 12, month % 12, i + 1), 0);
    }
  }
}
