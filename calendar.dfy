/**
 * The proleptic Gregorian calendar of Python's naive `datetime`: the
 * `calendar.monthrange` day counts, `date.weekday()`, and `timedelta`
 * arithmetic (whole days of 86400 seconds, no leap seconds, no offsets).
 *
 * Instants are ordered by `SecondsOf`, the number of seconds since
 * 0001-01-01T00:00:00, built from `Ordinal` (Python's `date.toordinal()`).
 */
module Calendar {

  datatype Date = Date(year: int, month: int, day: int)

  datatype DateTime = DateTime(year: int, month: int, day: int, hour: int, minute: int, second: int)

  predicate IsLeap(y: int)
  {
    y % 4 == 0 && (y % 100 != 0 || y % 400 == 0)
  }

  function YearLength(y: int): int
  {
    if IsLeap(y) then 366 else 365
  }

  /** The second component of `calendar.monthrange(y, m)` (for a month number 1 to 12). */
  function DaysInMonth(y: int, m: int): (n: int)
    ensures 28 <= n <= 31
    ensures n == 29 <==> m == 2 && IsLeap(y)
    ensures n == 28 <==> m == 2 && !IsLeap(y)
  {
    if m == 2 then (if IsLeap(y) then 29 else 28)
    else if m == 4 || m == 6 || m == 9 || m == 11 then 30
    else 31
  }

  /** Days of the year `y` that precede the first of month `m`. */
  function DaysBeforeMonth(y: int, m: int): (n: int)
    ensures 0 <= n
  {
    if m <= 1 then 0 else DaysBeforeMonth(y, m - 1) + DaysInMonth(y, m - 1)
  }

  /** Days from 0001-01-01 up to the first of January of year `y`. */
  function DaysBeforeYear(y: int): (n: int)
    ensures y >= 1 ==> 365 * (y - 1) <= n <= 366 * (y - 1)
  {
    if y <= 1 then 0 else DaysBeforeYear(y - 1) + YearLength(y - 1)
  }

  predicate ValidDate(d: Date)
  {
    d.year >= 1 && 1 <= d.month <= 12 && 1 <= d.day <= DaysInMonth(d.year, d.month)
  }

  /** Python's `date.toordinal()`: 0001-01-01 is day 1. */
  function Ordinal(d: Date): int
  {
    DaysBeforeYear(d.year) + DaysBeforeMonth(d.year, d.month) + d.day
  }

  /** Python's `date.weekday()`: Monday is 0 and Sunday is 6. */
  function Weekday(d: Date): (w: int)
    ensures 0 <= w < 7
  {
    (Ordinal(d) + 6) % 7
  }

  /** The recursive count agrees with the cumulative month table `datetime` keeps. */
  lemma {:induction false} DaysBeforeMonthTable(y: int, m: int)
    requires 1 <= m <= 12
    ensures DaysBeforeMonth(y, m)
      == [0, 31, 59, 90, 120, 151, 181, 212, 243, 273, 304, 334][m - 1] + (if m > 2 && IsLeap(y) then 1 else 0)
  {
    if m > 1 {
      DaysBeforeMonthTable(y, m - 1);
    }
  }

  /** The twelve months make up the year. */
  lemma MonthsMakeYear(y: int)
    ensures DaysBeforeMonth(y, 12) + DaysInMonth(y, 12) == YearLength(y)
  {
    DaysBeforeMonthTable(y, 12);
  }

  /** `y / k` grows by one exactly when `y` is a multiple of `k`. */
  lemma DivStep(y: int, k: int)
    requires k > 0
    ensures y / k - (y - 1) / k == if y % k == 0 then 1 else 0
  {
    var q, r := (y - 1) / k, (y - 1) % k;
    assert y - 1 == q * k + r && 0 <= r < k;
    if r + 1 < k {
      DivModUnique(y, k, q, r + 1);
    } else {
      assert y == (q + 1) * k;
      DivModUnique(y, k, q + 1, 0);
    }
  }

  lemma DivModUnique(x: int, k: int, q: int, r: int)
    requires k > 0 && x == q * k + r && 0 <= r < k
    ensures x / k == q && x % k == r
  {
    var q', r' := x / k, x % k;
    assert x == q' * k + r' && 0 <= r' < k;
    assert (q - q') * k == r' - r;
    if q' < q {
      AtLeastOneMultiple(q - q', k);
    } else if q < q' {
      AtLeastOneMultiple(q' - q, k);
    }
  }

  lemma AtLeastOneMultiple(a: int, k: int)
    requires a >= 1 && k > 0
    ensures a * k >= k
  {
    assert a * k == (a - 1) * k + k;
  }

  /** Python's `_days_before_year(y + 1)`: the days of the `y` whole years before year `y + 1`. */
  function ClosedDaysBefore(y: int): int
  {
    y * 365 + y / 4 - y / 100 + y / 400
  }

  /** One more year adds that year's length to the closed form. */
  lemma ClosedFormStep(n: int)
    requires n >= 1
    ensures ClosedDaysBefore(n) == ClosedDaysBefore(n - 1) + YearLength(n)
  {
    DivStep(n, 4);
    DivStep(n, 100);
    DivStep(n, 400);
    if n % 400 == 0 {
      DivModUnique(n, 100, 4 * (n / 400), 0);
    }
    if n % 100 == 0 {
      DivModUnique(n, 4, 25 * (n / 100), 0);
    }
  }

  /** The year-by-year count agrees with the closed form `datetime` uses (`_days_before_year`). */
  lemma {:induction false} DaysBeforeYearClosedForm(y: int)
    requires y >= 1
    ensures DaysBeforeYear(y) == ClosedDaysBefore(y - 1)
  {
    if y > 1 {
      DaysBeforeYearClosedForm(y - 1);
      ClosedFormStep(y - 1);
    }
  }

  /** The day after `d`, carrying into the next month and year. */
  function NextDate(d: Date): (r: Date)
    requires ValidDate(d)
    ensures ValidDate(r) && Ordinal(r) == Ordinal(d) + 1
  {
    if d.day < DaysInMonth(d.year, d.month) then Date(d.year, d.month, d.day + 1)
    else if d.month < 12 then Date(d.year, d.month + 1, 1)
    else MonthsMakeYear(d.year); Date(d.year + 1, 1, 1)
  }

  /** 2020-01-01 was a Wednesday, which `date.weekday()` numbers 2. */
  lemma NewYear2020(d: Date)
    requires d == Date(2020, 1, 1)
    ensures Weekday(d) == 2
  {
    DaysBeforeYearClosedForm(d.year);
    assert ClosedDaysBefore(d.year - 1) == 737424;
    assert Ordinal(d) == 737425;
  }

  /** The next day is the next weekday, Sunday wrapping round to Monday. */
  lemma WeekdayOfNextDate(d: Date)
    requires ValidDate(d)
    ensures Weekday(NextDate(d)) == (Weekday(d) + 1) % 7
  {
    CountOn(Ordinal(d) + 6, 7);
  }

  /** Counting one on round a cycle of `k`. */
  lemma CountOn(x: int, k: int)
    requires k > 0
    ensures (x + 1) % k == (x % k + 1) % k
  {
    var q, r := x / k, x % k;
    if r + 1 < k {
      DivModUnique(x + 1, k, q, r + 1);
      DivModUnique(r + 1, k, 0, r + 1);
    } else {
      DivModUnique(x + 1, k, q + 1, 0);
      DivModUnique(r + 1, k, 1, 0);
    }
  }

  /** Lexicographic order of (year, month, day). */
  predicate DateBefore(a: Date, b: Date)
  {
    a.year < b.year
    || (a.year == b.year && (a.month < b.month || (a.month == b.month && a.day < b.day)))
  }

  lemma {:induction false} YearsGrow(y1: int, y2: int)
    requires 1 <= y1 <= y2
    ensures DaysBeforeYear(y2) >= DaysBeforeYear(y1) + 365 * (y2 - y1)
    decreases y2 - y1
  {
    if y1 < y2 {
      YearsGrow(y1, y2 - 1);
    }
  }

  lemma {:induction false} MonthsGrow(y: int, m1: int, m2: int)
    requires 1 <= m1 < m2 <= 12
    ensures DaysBeforeMonth(y, m1) + DaysInMonth(y, m1) <= DaysBeforeMonth(y, m2)
  {
    if m1 + 1 < m2 {
      MonthsGrow(y, m1, m2 - 1);
    }
  }

  /** A later calendar date has a larger ordinal. */
  lemma OrdinalMonotone(a: Date, b: Date)
    requires ValidDate(a) && ValidDate(b) && DateBefore(a, b)
    ensures Ordinal(a) < Ordinal(b)
  {
    if a.year < b.year {
      EarlierYear(a, b);
    } else if a.month < b.month {
      MonthsGrow(a.year, a.month, b.month);
    }
  }

  /** A date of an earlier year has a smaller ordinal. */
  lemma EarlierYear(a: Date, b: Date)
    requires ValidDate(a) && ValidDate(b) && a.year < b.year
    ensures Ordinal(a) < Ordinal(b)
  {
    if a.month < 12 {
      MonthsGrow(a.year, a.month, 12);
    }
    MonthsMakeYear(a.year);
    assert DaysBeforeYear(a.year + 1) == DaysBeforeYear(a.year) + YearLength(a.year);
    YearsGrow(a.year + 1, b.year);
  }

  /** The ordinal orders valid dates as the calendar does, and tells them apart. */
  lemma OrdinalOrder(a: Date, b: Date)
    requires ValidDate(a) && ValidDate(b)
    ensures DateBefore(a, b) <==> Ordinal(a) < Ordinal(b)
    ensures a == b <==> Ordinal(a) == Ordinal(b)
  {
    if DateBefore(a, b) {
      OrdinalMonotone(a, b);
    } else if DateBefore(b, a) {
      OrdinalMonotone(b, a);
    }
  }

  predicate ValidDateTime(t: DateTime)
  {
    ValidDate(DateOf(t)) && 0 <= t.hour < 24 && 0 <= t.minute < 60 && 0 <= t.second < 60
  }

  /** `datetime.date()`. */
  function DateOf(t: DateTime): Date
  {
    Date(t.year, t.month, t.day)
  }

  /** Whole hours since 0001-01-01T00:00. */
  function HoursOf(t: DateTime): int
  {
    24 * (Ordinal(DateOf(t)) - 1) + t.hour
  }

  /** Whole minutes since 0001-01-01T00:00. */
  function MinutesOf(t: DateTime): int
  {
    60 * HoursOf(t) + t.minute
  }

  /** Seconds since 0001-01-01T00:00:00: the order of instants. */
  function SecondsOf(t: DateTime): int
  {
    60 * MinutesOf(t) + t.second
  }

  /** The instant `sod` seconds after the midnight that starts `d`. */
  function AtSecondOfDay(d: Date, sod: int): (r: DateTime)
    requires ValidDate(d) && 0 <= sod < 86400
    ensures ValidDateTime(r) && DateOf(r) == d
    ensures SecondsOf(r) == 86400 * (Ordinal(d) - 1) + sod
  {
    DateTime(d.year, d.month, d.day, sod / 60 / 60, sod / 60 % 60, sod % 60)
  }

  /** `datetime.combine(d, time())`. */
  function Midnight(d: Date): (r: DateTime)
    requires ValidDate(d)
    ensures ValidDateTime(r) && DateOf(r) == d
    ensures r.hour == 0 && r.minute == 0 && r.second == 0
    ensures SecondsOf(r) == 86400 * (Ordinal(d) - 1)
  {
    DateTime(d.year, d.month, d.day, 0, 0, 0)
  }

  /** `t + timedelta(seconds=n)` for a shift shorter than one day. */
  function AddSeconds(t: DateTime, n: int): (r: DateTime)
    requires ValidDateTime(t) && 0 <= n < 86400
    ensures ValidDateTime(r) && SecondsOf(r) == SecondsOf(t) + n
  {
    var sod := 3600 * t.hour + 60 * t.minute + t.second + n;
    if sod < 86400 then AtSecondOfDay(DateOf(t), sod)
    else AtSecondOfDay(NextDate(DateOf(t)), sod - 86400)
  }

  /** The instant in the same whole minute as `t` whose second is `s`. */
  lemma SecondsOfSecondReplaced(t: DateTime, s: int)
    requires ValidDateTime(t) && 0 <= s < 60
    ensures ValidDateTime(t.(second := s))
    ensures MinutesOf(t.(second := s)) == MinutesOf(t)
    ensures SecondsOf(t.(second := s)) == SecondsOf(t) - t.second + s
  {
  }

  /** An instant splits uniquely into its whole minutes and its second, and so on up to its date. */
  lemma Decompose(t: DateTime)
    requires ValidDateTime(t)
    ensures SecondsOf(t) / 60 == MinutesOf(t) && SecondsOf(t) % 60 == t.second
    ensures MinutesOf(t) / 60 == HoursOf(t) && MinutesOf(t) % 60 == t.minute
    ensures HoursOf(t) / 24 == Ordinal(DateOf(t)) - 1 && HoursOf(t) % 24 == t.hour
  {
    DivModUnique(SecondsOf(t), 60, MinutesOf(t), t.second);
    DivModUnique(MinutesOf(t), 60, HoursOf(t), t.minute);
    DivModUnique(HoursOf(t), 24, Ordinal(DateOf(t)) - 1, t.hour);
  }

  /** Valid instants with the same `SecondsOf` are equal, so `SecondsOf` is a total order. */
  lemma SecondsInjective(a: DateTime, b: DateTime)
    requires ValidDateTime(a) && ValidDateTime(b) && SecondsOf(a) == SecondsOf(b)
    ensures a == b
  {
    Decompose(a);
    Decompose(b);
    OrdinalOrder(DateOf(a), DateOf(b));
  }

  /** Instants in order lie on dates in order. */
  lemma DatesFollowInstants(a: DateTime, b: DateTime)
    requires ValidDateTime(a) && ValidDateTime(b) && SecondsOf(a) <= SecondsOf(b)
    ensures Ordinal(DateOf(a)) <= Ordinal(DateOf(b))
  {
  }
}
