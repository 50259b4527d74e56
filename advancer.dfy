/**
 * The advancer of `CronSim`: a cursor instant `dt` that each call to
 * `__next__` rolls forward to the next instant satisfying all six
 * constraint sets of a compiled expression.
 */
module Advancer {
  import opened Calendar
  import opened Fields
  import opened Compiler

  /** `match_day`: the date satisfies the day-of-month or the day-of-week constraint. */
  predicate MatchDay(s: Schedule, d: Date)
  {
    var dow := Weekday(d) + 1;
    var idx := (d.day + 6) / 7;
    Value(d.day) in s.days
    || (Last in s.days && d.day == DaysInMonth(d.year, d.month))
    || Value(dow) in s.weekdays || Value(dow % 7) in s.weekdays
    || Nth(dow, idx) in s.weekdays || Nth(dow % 7, idx) in s.weekdays
  }

  /** The cron day-of-week number: Sunday is 0, Monday 1, ..., Saturday 6. */
  function CronWeekday(d: Date): int
  {
    (Weekday(d) + 1) % 7
  }

  /** On a well-formed day-of-week set, testing `dow` and `dow % 7` is testing `dow % 7`. */
  lemma WeekdayTests(weekdays: set<Entry>, dow: int, idx: int)
    requires 1 <= dow <= 7 && forall e :: e in weekdays ==> Fits(Dow, e)
    ensures (Value(dow) in weekdays || Value(dow % 7) in weekdays) <==> Value(dow % 7) in weekdays
    ensures (Nth(dow, idx) in weekdays || Nth(dow % 7, idx) in weekdays) <==> Nth(dow % 7, idx) in weekdays
  {
    if dow == 7 {
      assert !Fits(Dow, Value(7)) && !Fits(Dow, Nth(7, idx));
    }
  }

  /** Day numbers `a` and `b` are a whole number of weeks apart. */
  predicate WeeksApart(a: int, b: int)
  {
    (a - b) % 7 == 0
  }

  /** The days of a month, up to `day`, that are a whole number of weeks before it. */
  function SameWeekdaysUpTo(day: int): set<int>
  {
    set e | 1 <= e <= day && WeeksApart(day, e)
  }

  /**
   * Two dates of the same month fall on the same weekday exactly when they
   * are a whole number of weeks apart.
   */
  lemma SameWeekday(d: Date, e: Date)
    requires ValidDate(d) && ValidDate(e) && d.year == e.year && d.month == e.month
    ensures Weekday(d) == Weekday(e) <==> WeeksApart(d.day, e.day)
  {
    assert Ordinal(d) - Ordinal(e) == d.day - e.day;
    SameRemainder(Ordinal(d) + 6, Ordinal(e) + 6);
  }

  /** Two numbers leave the same remainder modulo 7 exactly when their difference is a multiple of 7. */
  lemma SameRemainder(a: int, b: int)
    ensures a % 7 == b % 7 <==> WeeksApart(a, b)
  {
    var qa, ra, qb, rb := a / 7, a % 7, b / 7, b % 7;
    if ra >= rb {
      DivModUnique(a - b, 7, qa - qb, ra - rb);
    } else {
      DivModUnique(a - b, 7, qa - qb - 1, ra - rb + 7);
    }
  }

  /**
   * `(day + 6) // 7` is the rank of the date among the same weekdays of its
   * month: how many of them fall on or before it.
   */
  lemma {:induction false} WeekRank(day: int)
    requires 1 <= day <= 31
    ensures 1 <= (day + 6) / 7 <= 5
    ensures (day + 6) / 7 == 1 + (day - 1) / 7
    ensures (day + 6) / 7 == |SameWeekdaysUpTo(day)|
    decreases day
  {
    DivModUnique(day + 6, 7, 1 + (day - 1) / 7, (day - 1) % 7);
    if day <= 7 {
      assert SameWeekdaysUpTo(day) == {day};
    } else {
      WeekRank(day - 7);
      assert SameWeekdaysUpTo(day) == SameWeekdaysUpTo(day - 7) + {day};
      assert day !in SameWeekdaysUpTo(day - 7);
    }
  }

  /**
   * The two day-of-week tests of `match_day` (on `dow` and on `dow % 7`)
   * amount to testing the cron weekday number, and `(d.day + 6) / 7` is the
   * rank of the date among the same weekdays of its month.
   */
  lemma MatchDayMeaning(s: Schedule, d: Date)
    requires ValidDate(d) && forall e :: e in s.weekdays ==> Fits(Dow, e)
    ensures MatchDay(s, d) <==>
      Value(d.day) in s.days
      || (Last in s.days && d.day == DaysInMonth(d.year, d.month))
      || Value(CronWeekday(d)) in s.weekdays
      || Nth(CronWeekday(d), (d.day + 6) / 7) in s.weekdays
    ensures 1 <= (d.day + 6) / 7 <= 5
    ensures (d.day + 6) / 7 == 1 + (d.day - 1) / 7
  {
    WeekdayTests(s.weekdays, Weekday(d) + 1, (d.day + 6) / 7);
    WeekRank(d.day);
  }

  /** The instant satisfies every field of the schedule. */
  predicate Matches(s: Schedule, t: DateTime)
  {
    t.month in s.months && MatchDay(s, DateOf(t))
    && t.hour in s.hours && t.minute in s.minutes && t.second in s.seconds
  }

  /** No instant from `a` (included) to `b` (excluded) satisfies the schedule. */
  ghost predicate NoMatchIn(s: Schedule, a: DateTime, b: DateTime)
  {
    forall t {:trigger Matches(s, t)} :: ValidDateTime(t) && SecondsOf(a) <= SecondsOf(t) < SecondsOf(b) ==> !Matches(s, t)
  }

  /** No date from `a` (included) to `b` (excluded) passes `match_day`. */
  ghost predicate NoDayIn(s: Schedule, a: Date, b: Date)
  {
    forall e {:trigger MatchDay(s, e)} :: ValidDate(e) && Ordinal(a) <= Ordinal(e) < Ordinal(b) ==> !MatchDay(s, e)
  }

  predicate MatchMonth(s: Schedule, d: Date)
  {
    d.month in s.months
  }

  /** No date from `a` (included) to `b` (excluded) lies in a month of the schedule. */
  ghost predicate NoMonthIn(s: Schedule, a: Date, b: Date)
  {
    forall e {:trigger MatchMonth(s, e)} :: ValidDate(e) && Ordinal(a) <= Ordinal(e) < Ordinal(b) ==> !MatchMonth(s, e)
  }

  predicate IsLeast(vals: set<int>, x: int)
  {
    x in vals && forall v :: v in vals ==> x <= v
  }

  /** `delta` is the shortest forward distance, modulo `m`, from `start` to a value of `vals`. */
  predicate IsForwardDistance(vals: set<int>, start: int, m: int, delta: int)
    requires m > 0
  {
    0 <= delta < m && (start + delta) % m in vals && forall v :: v in vals ==> delta <= (v - start) % m
  }

  /** Some element of a non-empty set, to iterate over it. */
  method Pick<T>(s: set<T>) returns (x: T)
    requires s != {}
    ensures x in s
  {
    x :| x in s;
  }

  /**
   * The same choice for proofs: a ghost witness (the month a search is
   * bound to reach) cannot come from the compiled `Pick`.
   */
  lemma Element<T>(s: set<T>) returns (x: T)
    requires s != {}
    ensures x in s
  {
    x :| x in s;
  }

  /** `min((v - start) % m for v in vals)`: the shortest forward distance modulo `m` to a value of `vals`. */
  method ForwardDistance(vals: set<int>, start: int, m: int) returns (delta: int)
    requires m > 0 && vals != {} && forall v :: v in vals ==> 0 <= v < m
    ensures IsForwardDistance(vals, start, m, delta)
  {
    var best := Pick(vals);
    delta := (best - start) % m;
    var rest := vals - {best};
    while rest != {}
      invariant rest <= vals && best in vals && delta == (best - start) % m
      invariant forall v :: v in vals && v !in rest ==> delta <= (v - start) % m
      decreases |rest|
    {
      var v := Pick(rest);
      if (v - start) % m < delta {
        best, delta := v, (v - start) % m;
      }
      rest := rest - {v};
    }
    Landing(start, best, m);
  }

  /** `min(vals)` */
  method Least(vals: set<int>) returns (x: int)
    requires vals != {}
    ensures IsLeast(vals, x)
  {
    x := Pick(vals);
    var rest := vals - {x};
    while rest != {}
      invariant rest <= vals && x in vals
      invariant forall v :: v in vals && v !in rest ==> x <= v
      decreases |rest|
    {
      var v := Pick(rest);
      if v < x {
        x := v;
      }
      rest := rest - {v};
    }
  }

  /** Moving forward by the distance to `target` lands on `target`. */
  lemma Landing(start: int, target: int, m: int)
    requires m > 0 && 0 <= target < m
    ensures (start + (target - start) % m) % m == target
  {
    var q, r := (target - start) / m, (target - start) % m;
    assert target - start == q * m + r;
    DivModUnique(start + r, m, -q, target);
  }

  /** Counting `x` steps forward round a cycle of `m` from `p` is a forward distance of `x`. */
  lemma CycleGap(p: int, x: int, m: int)
    requires 0 <= p < m && 0 <= x < m
    ensures ((p + x) % m - p) % m == x
  {
    if p + x < m {
      DivModUnique(p + x, m, 0, p + x);
      DivModUnique(x, m, 0, x);
    } else {
      DivModUnique(p + x, m, 1, p + x - m);
      DivModUnique(x - m, m, -1, x);
    }
  }

  lemma ShiftMod(q: int, x: int, m: int)
    requires m > 0
    ensures (m * q + x) % m == x % m
  {
    DivModUnique(m * q + x, m, q + x / m, x % m);
  }

  /** `n` seconds on, the second has gone `n` further round the minute. */
  lemma SecondAfter(a: DateTime, b: DateTime, n: int)
    requires ValidDateTime(a) && ValidDateTime(b) && SecondsOf(b) == SecondsOf(a) + n
    ensures b.second == (a.second + n) % 60
  {
    ShiftMod(MinutesOf(a), a.second + n, 60);
    DivModUnique(SecondsOf(b), 60, MinutesOf(b), b.second);
  }

  /** `n` minutes on, the minute has gone `n` further round the hour. */
  lemma MinuteAfter(a: DateTime, b: DateTime, n: int)
    requires ValidDateTime(a) && ValidDateTime(b) && MinutesOf(b) == MinutesOf(a) + n
    ensures b.minute == (a.minute + n) % 60
  {
    ShiftMod(HoursOf(a), a.minute + n, 60);
    DivModUnique(MinutesOf(b), 60, HoursOf(b), b.minute);
  }

  /** `n` hours on, the hour has gone `n` further round the day. */
  lemma HourAfter(a: DateTime, b: DateTime, n: int)
    requires ValidDateTime(a) && ValidDateTime(b) && HoursOf(b) == HoursOf(a) + n
    ensures b.hour == (a.hour + n) % 24
  {
    ShiftMod(Ordinal(DateOf(a)) - 1, a.hour + n, 24);
    DivModUnique(HoursOf(b), 24, Ordinal(DateOf(b)) - 1, b.hour);
  }

  /** A move by whole minutes keeps the second. */
  lemma WholeMinutes(a: DateTime, b: DateTime, n: int)
    requires ValidDateTime(a) && ValidDateTime(b) && SecondsOf(b) == SecondsOf(a) + 60 * n
    ensures MinutesOf(b) == MinutesOf(a) + n && b.second == a.second
  {
    DivModUnique(SecondsOf(b), 60, MinutesOf(b), b.second);
    DivModUnique(SecondsOf(b), 60, MinutesOf(a) + n, a.second);
  }

  /** A move by whole hours keeps the minute and the second. */
  lemma WholeHours(a: DateTime, b: DateTime, n: int)
    requires ValidDateTime(a) && ValidDateTime(b) && SecondsOf(b) == SecondsOf(a) + 3600 * n
    ensures HoursOf(b) == HoursOf(a) + n && b.minute == a.minute && b.second == a.second
  {
    WholeMinutes(a, b, 60 * n);
    DivModUnique(MinutesOf(b), 60, HoursOf(b), b.minute);
    DivModUnique(MinutesOf(b), 60, HoursOf(a) + n, a.minute);
  }

  /**
   * A value `x` steps round the cycle from `start`, short of the shortest
   * forward distance `d` to any value of `vals`, is not in `vals`.
   */
  lemma Unreached(vals: set<int>, start: int, x: int, d: int, m: int, landed: int)
    requires 0 <= start < m && 0 <= x < d <= m
    requires landed == (start + x) % m
    requires forall v :: v in vals ==> d <= (v - start) % m
    ensures landed !in vals
  {
    CycleGap(start, x, m);
  }

  /** An instant less than `n` seconds after `a`, short of the nearest second of `vals`, has a second outside `vals`. */
  lemma SecondSkipped(vals: set<int>, a: DateTime, t: DateTime, n: int)
    requires ValidDateTime(a) && ValidDateTime(t)
    requires 0 <= SecondsOf(t) - SecondsOf(a) < n <= 60
    requires forall v :: v in vals ==> n <= (v - a.second) % 60
    ensures t.second !in vals
  {
    var x := SecondsOf(t) - SecondsOf(a);
    SecondAfter(a, t, x);
    Unreached(vals, a.second, x, n, 60, t.second);
  }

  /** A move of less than a minute passes over no firing when it is the shortest way to an allowed second. */
  lemma SecondsSkipped(s: Schedule, a: DateTime, b: DateTime)
    requires ValidDateTime(a) && ValidDateTime(b)
    requires 0 <= SecondsOf(b) - SecondsOf(a) < 60
    requires forall v :: v in s.seconds ==> SecondsOf(b) - SecondsOf(a) <= (v - a.second) % 60
    ensures NoMatchIn(s, a, b)
  {
    forall t | ValidDateTime(t) && SecondsOf(a) <= SecondsOf(t) < SecondsOf(b)
      ensures !Matches(s, t)
    {
      SecondSkipped(s.seconds, a, t, SecondsOf(b) - SecondsOf(a));
    }
  }

  /** An instant less than `n` minutes after `a`, short of the nearest minute of `vals`, has a minute outside `vals`. */
  lemma MinuteSkipped(vals: set<int>, a: DateTime, t: DateTime, n: int)
    requires ValidDateTime(a) && ValidDateTime(t)
    requires 0 <= MinutesOf(t) - MinutesOf(a) < n <= 60
    requires forall v :: v in vals ==> n <= (v - a.minute) % 60
    ensures t.minute !in vals
  {
    var x := MinutesOf(t) - MinutesOf(a);
    MinuteAfter(a, t, x);
    Unreached(vals, a.minute, x, n, 60, t.minute);
  }

  /** A move of less than an hour to the shortest allowed minute, at the least allowed second, passes over no firing. */
  lemma MinutesSkipped(s: Schedule, a: DateTime, b: DateTime)
    requires ValidDateTime(a) && ValidDateTime(b)
    requires 0 < MinutesOf(b) - MinutesOf(a) < 60
    requires forall v :: v in s.minutes ==> MinutesOf(b) - MinutesOf(a) <= (v - a.minute) % 60
    requires forall v :: v in s.seconds ==> b.second <= v
    ensures NoMatchIn(s, a, b)
  {
    forall t | ValidDateTime(t) && SecondsOf(a) <= SecondsOf(t) < SecondsOf(b)
      ensures !Matches(s, t)
    {
      if MinutesOf(t) < MinutesOf(b) {
        MinuteSkipped(s.minutes, a, t, MinutesOf(b) - MinutesOf(a));
      }
    }
  }

  /** An instant less than `n` hours after `a`, short of the nearest hour of `vals`, has an hour outside `vals`. */
  lemma HourSkipped(vals: set<int>, a: DateTime, t: DateTime, n: int)
    requires ValidDateTime(a) && ValidDateTime(t)
    requires 0 <= HoursOf(t) - HoursOf(a) < n <= 24
    requires forall v :: v in vals ==> n <= (v - a.hour) % 24
    ensures t.hour !in vals
  {
    var x := HoursOf(t) - HoursOf(a);
    HourAfter(a, t, x);
    Unreached(vals, a.hour, x, n, 24, t.hour);
  }

  /** A move of less than a day to the shortest allowed hour, at the least allowed minute and second, passes over no firing. */
  lemma HoursSkipped(s: Schedule, a: DateTime, b: DateTime)
    requires ValidDateTime(a) && ValidDateTime(b)
    requires 0 < HoursOf(b) - HoursOf(a) < 24
    requires forall v :: v in s.hours ==> HoursOf(b) - HoursOf(a) <= (v - a.hour) % 24
    requires forall v :: v in s.minutes ==> b.minute <= v
    requires forall v :: v in s.seconds ==> b.second <= v
    ensures NoMatchIn(s, a, b)
  {
    forall t | ValidDateTime(t) && SecondsOf(a) <= SecondsOf(t) < SecondsOf(b)
      ensures !Matches(s, t)
    {
      if HoursOf(t) < HoursOf(b) {
        HourSkipped(s.hours, a, t, HoursOf(b) - HoursOf(a));
      }
    }
  }

  /**
   * `advance_second` when the second is not in the set: moving on by the
   * shortest forward distance lands on an allowed second and passes over no
   * firing.
   */
  lemma SecondStage(s: Schedule, a: DateTime, delta: int)
    requires ValidDateTime(a) && a.second !in s.seconds && IsForwardDistance(s.seconds, a.second, 60, delta)
    ensures ValidDateTime(AddSeconds(a, delta)) && AddSeconds(a, delta).second in s.seconds
    ensures SecondsOf(AddSeconds(a, delta)) - SecondsOf(a) == delta > 0
    ensures NoMatchIn(s, a, AddSeconds(a, delta))
  {
    var b := AddSeconds(a, delta);
    DivModUnique(a.second, 60, 0, a.second);
    SecondAfter(a, b, delta);
    SecondsSkipped(s, a, b);
  }

  /** The instant `advance_minute` moves to: `delta` minutes on, at second `second`. */
  function MinuteStep(a: DateTime, delta: int, second: int): (b: DateTime)
    requires ValidDateTime(a) && 0 <= delta < 60 && 0 <= second < 60
    ensures ValidDateTime(b) && MinutesOf(b) == MinutesOf(a) + delta && b.second == second
    ensures b.minute == (a.minute + delta) % 60
  {
    var c := AddSeconds(a, 60 * delta);
    WholeMinutes(a, c, delta);
    MinuteAfter(a, c, delta);
    c.(second := second)
  }

  /**
   * `advance_minute` when the minute is not in the set: the new minute is
   * allowed, the second is the least allowed one, and no firing is passed over.
   */
  lemma MinuteStage(s: Schedule, a: DateTime, delta: int, second: int)
    requires ValidDateTime(a) && a.minute !in s.minutes
    requires IsForwardDistance(s.minutes, a.minute, 60, delta) && IsLeast(s.seconds, second) && 0 <= second < 60
    ensures 0 < delta && MinuteStep(a, delta, second).minute in s.minutes
    ensures SecondsOf(a) < SecondsOf(MinuteStep(a, delta, second))
    ensures NoMatchIn(s, a, MinuteStep(a, delta, second))
  {
    var b := MinuteStep(a, delta, second);
    DivModUnique(a.minute, 60, 0, a.minute);
    assert SecondsOf(b) == 60 * (MinutesOf(a) + delta) + second;
    MinutesSkipped(s, a, b);
  }

  /** The instant `advance_hour` moves to: `delta` hours on, at `minute` and `second`. */
  function HourStep(a: DateTime, delta: int, minute: int, second: int): (b: DateTime)
    requires ValidDateTime(a) && 0 <= delta < 24 && 0 <= minute < 60 && 0 <= second < 60
    ensures ValidDateTime(b) && HoursOf(b) == HoursOf(a) + delta && b.minute == minute && b.second == second
    ensures b.hour == (a.hour + delta) % 24
  {
    var c := AddSeconds(a, 3600 * delta);
    WholeHours(a, c, delta);
    HourAfter(a, c, delta);
    c.(minute := minute, second := second)
  }

  /**
   * `advance_hour` when the hour is not in the set: the new hour is allowed,
   * minute and second are the least allowed ones, and no firing is passed over.
   */
  lemma HourStage(s: Schedule, a: DateTime, delta: int, minute: int, second: int)
    requires ValidDateTime(a) && a.hour !in s.hours
    requires IsForwardDistance(s.hours, a.hour, 24, delta)
    requires IsLeast(s.minutes, minute) && 0 <= minute < 60 && IsLeast(s.seconds, second) && 0 <= second < 60
    ensures 0 < delta && HourStep(a, delta, minute, second).hour in s.hours
    ensures SecondsOf(a) < SecondsOf(HourStep(a, delta, minute, second))
    ensures NoMatchIn(s, a, HourStep(a, delta, minute, second))
  {
    var b := HourStep(a, delta, minute, second);
    DivModUnique(a.hour, 24, 0, a.hour);
    HoursSkipped(s, a, b);
  }

  /** Jumping to the midnight of `d` passes over no firing when no date in between passes the day test. */
  lemma DayStage(s: Schedule, a: DateTime, d: Date)
    requires ValidDateTime(a) && ValidDate(d) && NoDayIn(s, DateOf(a), d)
    requires Ordinal(DateOf(a)) < Ordinal(d)
    ensures SecondsOf(a) < SecondsOf(Midnight(d))
    ensures NoMatchIn(s, a, Midnight(d))
  {
    forall t | ValidDateTime(t) && SecondsOf(a) <= SecondsOf(t) < SecondsOf(Midnight(d))
      ensures !Matches(s, t)
    {
      DatesFollowInstants(a, t);
      assert !MatchDay(s, DateOf(t));
    }
  }

  /** Jumping to the midnight of `d` passes over no firing when no date in between lies in an allowed month. */
  lemma MonthStage(s: Schedule, a: DateTime, d: Date)
    requires ValidDateTime(a) && ValidDate(d) && NoMonthIn(s, DateOf(a), d)
    requires Ordinal(DateOf(a)) < Ordinal(d)
    ensures SecondsOf(a) < SecondsOf(Midnight(d))
    ensures NoMatchIn(s, a, Midnight(d))
  {
    forall t | ValidDateTime(t) && SecondsOf(a) <= SecondsOf(t) < SecondsOf(Midnight(d))
      ensures !Matches(s, t)
    {
      DatesFollowInstants(a, t);
      assert !MatchMonth(s, DateOf(t));
    }
  }

  /** One more failing date extends a run of dates that fail the day test. */
  lemma NoDayInStep(s: Schedule, a: Date, d: Date)
    requires ValidDate(a) && ValidDate(d) && Ordinal(a) <= Ordinal(d)
    requires NoDayIn(s, a, d) && !MatchDay(s, d)
    ensures NoDayIn(s, a, NextDate(d))
  {
    forall e | ValidDate(e) && Ordinal(a) <= Ordinal(e) < Ordinal(NextDate(d))
      ensures !MatchDay(s, e)
    {
      OrdinalOrder(e, d);
    }
  }

  /** One more date outside the allowed months extends a run of such dates. */
  lemma NoMonthInStep(s: Schedule, a: Date, d: Date)
    requires ValidDate(a) && ValidDate(d) && Ordinal(a) <= Ordinal(d)
    requires NoMonthIn(s, a, d) && !MatchMonth(s, d)
    ensures NoMonthIn(s, a, NextDate(d))
  {
    forall e | ValidDate(e) && Ordinal(a) <= Ordinal(e) < Ordinal(NextDate(d))
      ensures !MatchMonth(s, e)
    {
      OrdinalOrder(e, d);
    }
  }

  /**
   * Firing-free stretches join up, and a stage that moves from `b` to `c`
   * without passing a firing cannot pass the firing `target` either.
   */
  lemma Progress(s: Schedule, a: DateTime, b: DateTime, c: DateTime, target: DateTime)
    requires ValidDateTime(a) && ValidDateTime(b) && ValidDateTime(c) && ValidDateTime(target)
    requires SecondsOf(a) <= SecondsOf(b) <= SecondsOf(c)
    requires NoMatchIn(s, a, b) && NoMatchIn(s, b, c)
    requires Matches(s, target) && SecondsOf(a) <= SecondsOf(target)
    ensures NoMatchIn(s, a, c) && SecondsOf(c) <= SecondsOf(target)
  {
  }

  /** The iterator: the compiled expression and the cursor. */
  class CronSim {
    const sched: Schedule
    var dt: DateTime

    ghost predicate Valid()
      reads this
    {
      WellFormed(sched) && ValidDateTime(dt)
    }

    /**
     * `CronSim.__init__` for an expression that compiles (`Compile` models
     * the rejected ones): the cursor starts at `start` with its seconds cleared.
     */
    constructor(expr: string, start: DateTime)
      requires Compile(expr).Ok? && ValidDateTime(start)
      ensures Valid() && sched == Compile(expr).value && dt == start.(second := 0)
    {
      sched := Compile(expr).value;
      dt := start.(second := 0);
    }

    /** `advance_second` */
    method AdvanceSecond() returns (changed: bool)
      requires Valid()
      modifies this
      ensures Valid()
      ensures changed == (old(dt).second !in sched.seconds)
      ensures !changed ==> dt == old(dt)
      ensures dt.second in sched.seconds
      ensures changed ==> IsForwardDistance(sched.seconds, old(dt).second, 60, SecondsOf(dt) - SecondsOf(old(dt)))
      ensures changed ==> SecondsOf(old(dt)) < SecondsOf(dt)
      ensures NoMatchIn(sched, old(dt), dt)
    {
      if dt.second in sched.seconds {
        return false;
      }
      var delta := ForwardDistance(sched.seconds, dt.second, 60);
      SecondStage(sched, dt, delta);
      dt := AddSeconds(dt, delta);
      return true;
    }

    /** `advance_minute` */
    method AdvanceMinute() returns (changed: bool)
      requires Valid()
      modifies this
      ensures Valid()
      ensures changed == (old(dt).minute !in sched.minutes)
      ensures !changed ==> dt == old(dt)
      ensures dt.minute in sched.minutes
      ensures changed ==> IsForwardDistance(sched.minutes, old(dt).minute, 60, MinutesOf(dt) - MinutesOf(old(dt)))
      ensures changed ==> IsLeast(sched.seconds, dt.second)
      ensures changed ==> SecondsOf(old(dt)) < SecondsOf(dt)
      ensures NoMatchIn(sched, old(dt), dt)
    {
      if dt.minute in sched.minutes {
        return false;
      }
      var delta := ForwardDistance(sched.minutes, dt.minute, 60);
      var second := Least(sched.seconds);
      MinuteStage(sched, dt, delta, second);
      dt := MinuteStep(dt, delta, second);
      return true;
    }

    /** `advance_hour` */
    method AdvanceHour() returns (changed: bool)
      requires Valid()
      modifies this
      ensures Valid()
      ensures changed == (old(dt).hour !in sched.hours)
      ensures !changed ==> dt == old(dt)
      ensures dt.hour in sched.hours
      ensures changed ==> IsForwardDistance(sched.hours, old(dt).hour, 24, HoursOf(dt) - HoursOf(old(dt)))
      ensures changed ==> IsLeast(sched.minutes, dt.minute) && IsLeast(sched.seconds, dt.second)
      ensures changed ==> SecondsOf(old(dt)) < SecondsOf(dt)
      ensures NoMatchIn(sched, old(dt), dt)
    {
      if dt.hour in sched.hours {
        return false;
      }
      var delta := ForwardDistance(sched.hours, dt.hour, 24);
      var minute := Least(sched.minutes);
      var second := Least(sched.seconds);
      HourStage(sched, dt, delta, minute, second);
      dt := HourStep(dt, delta, minute, second);
      return true;
    }

    /**
     * `advance_day`: on to the midnight of the first date, from today on,
     * that passes `match_day`. The source searches without bound; here such
     * a date must exist.
     */
    method AdvanceDay() returns (changed: bool)
      requires Valid()
      requires exists e :: ValidDate(e) && Ordinal(DateOf(dt)) <= Ordinal(e) && MatchDay(sched, e)
      modifies this
      ensures Valid()
      ensures changed == !MatchDay(sched, DateOf(old(dt)))
      ensures !changed ==> dt == old(dt)
      ensures MatchDay(sched, DateOf(dt))
      ensures changed ==> dt == Midnight(DateOf(dt)) && Ordinal(DateOf(old(dt))) < Ordinal(DateOf(dt))
      ensures NoDayIn(sched, DateOf(old(dt)), DateOf(dt))
      ensures changed ==> SecondsOf(old(dt)) < SecondsOf(dt)
      ensures NoMatchIn(sched, old(dt), dt)
    {
      var today := DateOf(dt);
      if MatchDay(sched, today) {
        return false;
      }
      var needle := today;
      ghost var target :| ValidDate(target) && Ordinal(today) <= Ordinal(target) && MatchDay(sched, target);
      while !MatchDay(sched, needle)
        invariant ValidDate(needle) && Ordinal(today) <= Ordinal(needle) <= Ordinal(target)
        invariant NoDayIn(sched, today, needle) && dt == old(dt)
        decreases Ordinal(target) - Ordinal(needle)
      {
        OrdinalOrder(needle, target);
        NoDayInStep(sched, today, needle);
        needle := NextDate(needle);
      }
      OrdinalOrder(today, needle);
      DayStage(sched, dt, needle);
      dt := Midnight(needle);
      return true;
    }

    /** `advance_month`: on to the midnight of the first date, from today on, in an allowed month. */
    method AdvanceMonth()
      requires Valid()
      modifies this
      ensures Valid()
      ensures dt.month in sched.months
      ensures old(dt).month in sched.months ==> dt == old(dt)
      ensures old(dt).month !in sched.months ==> dt == Midnight(DateOf(dt)) && Ordinal(DateOf(old(dt))) < Ordinal(DateOf(dt))
      ensures NoMonthIn(sched, DateOf(old(dt)), DateOf(dt))
      ensures SecondsOf(old(dt)) <= SecondsOf(dt)
      ensures NoMatchIn(sched, old(dt), dt)
    {
      if dt.month in sched.months {
        return;
      }
      var today := DateOf(dt);
      ghost var m := Element(sched.months);
      assert 1 <= m <= 12;
      ghost var target := if m > today.month then Date(today.year, m, 1) else Date(today.year + 1, m, 1);
      OrdinalMonotone(today, target);
      var needle := today;
      while needle.month !in sched.months
        invariant ValidDate(needle) && Ordinal(today) <= Ordinal(needle) <= Ordinal(target)
        invariant NoMonthIn(sched, today, needle) && dt == old(dt)
        decreases Ordinal(target) - Ordinal(needle)
      {
        OrdinalOrder(needle, target);
        NoMonthInStep(sched, today, needle);
        needle := NextDate(needle);
      }
      OrdinalOrder(today, needle);
      MonthStage(sched, dt, needle);
      dt := Midnight(needle);
    }

    /**
     * One pass of the loop of `__next__`: the month stage, then the first of
     * the day, hour, minute and second stages that moves the cursor. The
     * pass reports `done` when none of those four moved it, and then the
     * cursor satisfies the whole schedule.
     */
    method Pass() returns (done: bool)
      requires Valid()
      requires exists t :: ValidDateTime(t) && SecondsOf(dt) <= SecondsOf(t) && Matches(sched, t)
      modifies this
      ensures Valid()
      ensures SecondsOf(old(dt)) <= SecondsOf(dt) && NoMatchIn(sched, old(dt), dt)
      ensures done ==> Matches(sched, dt)
      ensures !done ==> SecondsOf(old(dt)) < SecondsOf(dt)
    {
      ghost var target :| ValidDateTime(target) && SecondsOf(dt) <= SecondsOf(target) && Matches(sched, target);
      AdvanceMonth();
      DatesFollowInstants(dt, target);
      var changed := AdvanceDay();
      if changed {
        return false;
      }
      changed := AdvanceHour();
      if changed {
        return false;
      }
      changed := AdvanceMinute();
      if changed {
        return false;
      }
      changed := AdvanceSecond();
      if changed {
        return false;
      }
      return true;
    }

    /**
     * `__next__`: one second on, then passes until one reports that the
     * cursor satisfies the schedule. The source loops forever when the
     * schedule never fires again; here a later firing must exist, and the
     * result is the earliest one.
     */
    method Next() returns (r: DateTime)
      requires Valid()
      requires exists t :: ValidDateTime(t) && SecondsOf(dt) < SecondsOf(t) && Matches(sched, t)
      modifies this
      ensures Valid() && r == dt
      ensures SecondsOf(old(dt)) < SecondsOf(r) && Matches(sched, r)
      ensures forall t :: ValidDateTime(t) && SecondsOf(old(dt)) < SecondsOf(t) < SecondsOf(r) ==> !Matches(sched, t)
    {
      ghost var target :| ValidDateTime(target) && SecondsOf(dt) < SecondsOf(target) && Matches(sched, target);
      dt := AddSeconds(dt, 1);
      ghost var start := dt;
      while true
        invariant Valid()
        invariant SecondsOf(start) <= SecondsOf(dt) <= SecondsOf(target)
        invariant NoMatchIn(sched, start, dt)
        decreases SecondsOf(target) - SecondsOf(dt)
      {
        ghost var mid := dt;
        var done := Pass();
        Progress(sched, start, mid, dt, target);
        if done {
          return dt;
        }
      }
    }
  }
}
