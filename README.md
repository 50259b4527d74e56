# cronsim, modelled in Dafny

`cronsim.py` is a small cron-expression evaluator. `CronSim(expr, dt)` compiles
an expression of five or six fields (minute, hour, day of month, month, day of
week, and an optional second that defaults to `0`) into six constraint sets.
Each call to `next()` then moves a cursor instant forward to the next instant
that satisfies all of them.

The model follows the file's structure:

- `text.dfy` (module `Text`): the string operations the parser relies on.
  These are `str.isdigit` on ASCII digits, `int` of one or two digits, `split(",")`,
  `split(c, maxsplit=1)`, whitespace `split()` and ASCII `upper()`.
- `fields.dfy` (module `Fields`): the field grammar, i.e. `RANGES`, the symbolic
  names, `_int`, `Field.int` and `Field.parse` with its seven branches.
  The `LAST = 1000` sentinel and the `(weekday, nth)` pairs become constructors
  of an `Entry` datatype. Errors are a `Result` carrying `BadValue(token)`,
  `ReversedRange` or `WrongFieldCount`.
- `compiler.dfy` (module `Compiler`): the compiling half of `CronSim.__init__`.
  It splits into words, adds the default seconds field, parses the six fields
  and applies the day-of-month / day-of-week rule.
- `calendar.dfy` (module `Calendar`): the proleptic Gregorian calendar that
  `datetime` uses. It covers `monthrange`, `toordinal`, `weekday`, adding a day,
  adding seconds and midnight. Instants are ordered by their count of seconds
  since 0001-01-01.
- `advancer.dfy` (module `Advancer`): `match_day`, and the class `CronSim`.
  The class has the compiled schedule and a mutable cursor `dt`. Its methods
  are `advance_second`, `advance_minute`, `advance_hour`, `advance_day` and
  `advance_month`, one pass of the loop of `__next__`, and `__next__` itself.
  Each method is proved against the schedule. `AdvanceSecond`,
  `AdvanceMinute`, `AdvanceHour` and `AdvanceDay` report whether they moved
  the cursor; `AdvanceMonth`, like `advance_month`, reports nothing. After
  each of the five the cursor satisfies its field, and no instant skipped
  satisfies the whole schedule. `Next` returns the earliest instant strictly
  after the cursor that satisfies the schedule.
- `laws.dfy` (module `Laws`): properties of the grammar that relate several
  calls. They cover names in either case, every branch of `Field.parse`, the
  comma list as a union, the step rule and worked examples.
- `firings.dfy` (module `Firings`): whole expressions. It shows:
  - what `"1 1 L * *"`, `"0 0 30 2 *"` and `"* * * * 1#6"` compile to;
  - that the first firing of `"1 1 L * *"` after 2020-01-01 00:00 is
    2020-01-31 01:01:00, computed by constructing a `CronSim` and calling `Next`;
  - that the other two expressions fire at no instant at all.

Three behaviours of the code that the model keeps as written:

- Compilation does not reject an expression that can never fire, such as
  February 30th or a sixth Monday. Such an expression compiles, and `__next__`
  would search forever. The model proves those expressions never fire, and
  `Next` requires a later firing to exist.
- An emptied day-of-month set together with an emptied day-of-week set cannot
  arise. `Compile` proves that at least one of the two stays non-empty.
- An `nth` of 0 in `weekday#nth` is rejected, as `_int(nth, min_value=1)` does.

## Model

| member | source | states |
|---|---|---|
| Text.DecimalRoundTrip | cronsim.py:22-30 | `str(n)` for 0..99 is one or two digits that `_int` reads back as `n` |
| Text.DecimalCanonical | cronsim.py:22-30 | every one- or two-digit text is `str(n)` or `"0" + str(n)` of its value, at most 99 |
| Text.SplitOnce | cronsim.py:65 | `s.split(c, maxsplit=1)`: the head, `c` and the tail rebuild `s`, and the head holds no `c` |
| Text.Split | cronsim.py:60 | `s.split(",")`: at least one piece, the pieces joined by the separator give back `s`, no piece holds it, every character comes from `s` |
| Text.SplitJoin | cronsim.py:60 | splitting pieces that hold no separator undoes joining them |
| Text.Words | cronsim.py:105 | `expr.split()` yields non-empty whitespace-free words |
| Text.WordsUnwords | cronsim.py:105 | words joined with single spaces split back into the same words |
| Text.WordsSpaced | cronsim.py:105 | words separated by any non-empty runs of whitespace (spaces, tabs, ...), with optional runs before the first and after the last, split back into exactly those words |
| Text.WordsExample | cronsim.py:105 | `" a\tb  ".split()` is `["a", "b"]` |
| Fields.ParseInt | cronsim.py:22-30 | `_int` accepts exactly one or two ASCII digits whose value is at least the minimum, and returns that value; otherwise a bad-value error for the token |
| Fields.Position | cronsim.py:43 | `names.index(x)` is the first position holding `x` |
| Fields.FieldValue | cronsim.py:41-52 | `Field.int` accepts exactly a symbolic name of the field in any case, or a number inside the field's domain; a number is read by `_int`; every accepted value lies inside `RANGES` |
| Fields.Lo | cronsim.py:5-12 | the least value of `RANGES[f]`: 1 for day of month and month, 0 otherwise |
| Fields.Hi | cronsim.py:5-12 | the greatest value of `RANGES[f]`: 59, 23, 31, 12, 6, 59 |
| Fields.Whole | cronsim.py:5-12 | `RANGES[f]` holds exactly the plain values that fit the field, its least and greatest included |
| Fields.Span | cronsim.py:91 | `set(range(a, b + 1))` holds exactly the numbers from a to b |
| Fields.Ascending | cronsim.py:73 | `sorted(...)` of the field's values is strictly increasing and holds exactly those values |
| Fields.Interval | cronsim.py:80 | `range(start, end + 1)` lists start, start+1, ... end |
| Fields.Every | cronsim.py:81 | `items[::step]` keeps only items of the list and always its first one |
| Fields.Stepped | cronsim.py:73-81 | the step result is non-empty and fits the field; `LAST` is in the result exactly when the items are `[LAST]`, which then come back unchanged |
| Fields.ParseNth | cronsim.py:64-68 | `term#nth` is accepted exactly when `nth` reads as at least 1 and `term` as a weekday, and gives the single pair (weekday, nth) |
| Fields.ParseRange | cronsim.py:83-91 | `start-end` is accepted exactly when both ends read and start <= end, and gives every number from start to end; the reversed-range error comes exactly when both read and end < start |
| Fields.ParseSlash | cronsim.py:70-81 | the step branch gives a non-empty set of plain values of the field, or `{LAST}` alone |
| Fields.ParseList | cronsim.py:58-62 | a comma list gives a non-empty set fitting the field, with pairs only when `#` occurs |
| Fields.Union | cronsim.py:59-62 | the union succeeds exactly when every term does, holds exactly the members of the term sets, and otherwise fails with the first failing term's error |
| Fields.Parse | cronsim.py:54-96 | an accepted field is non-empty and fits the field's domain; pairs appear only with `#`; `LAST` appears alone unless in a comma list; a field error is never a field-count error |
| Laws.UpperLower | cronsim.py:42 | upper-casing an upper-case name, or its lower-case form, gives the name |
| Laws.PositionOfDistinct | cronsim.py:43 | in a list of distinct names the index of the i-th name is i |
| Laws.NamesDistinct | cronsim.py:14-15 | the day names and the month names are each distinct |
| Laws.MonthNameValue | cronsim.py:42-43 | a month name in any mix of letter cases (`JAN`, `jan`, `Jan`) reads as its month number 1..12 |
| Laws.MonthSpelling | cronsim.py:41-42 | any spelling whose `upper()` is the i-th month name reads as month i + 1 |
| Laws.DaySpelling | cronsim.py:44-45 | any spelling whose `upper()` is the i-th day name reads as weekday i |
| Laws.CapitalisedNames | cronsim.py:41-46 | `Jan` reads as month 1 and `Mon` as weekday 1 |
| Laws.DayNameValue | cronsim.py:45-46 | a day name in any mix of letter cases reads as 0 (SUN) .. 6 (SAT) |
| Laws.NamesAreLetters | cronsim.py:14-15 | the names are upper-case letters only |
| Laws.NotAName | cronsim.py:41-46 | a text with a non-letter is no symbolic name |
| Laws.NumberValue | cronsim.py:48-52 | `str(n)`, and `n` with a leading zero, read as `n` for every `n` in the field's domain |
| Laws.Unreadable | cronsim.py:41-52 | a text holding a character that is neither digit nor letter is rejected |
| Laws.SplitOnceAt | cronsim.py:65 | splitting `a + c + b` once at `c`, with no `c` in `a`, gives `(a, b)` |
| Laws.NthTerm | cronsim.py:64-68 | on the day-of-week field, `t#n` goes to the `#` branch |
| Laws.NthZeroRejected | cronsim.py:66 | an nth of 0 is rejected |
| Laws.RangeTerm | cronsim.py:83-91 | `a-b` with no comma or slash goes to the range branch |
| Laws.StarIsWhole | cronsim.py:55-56 | `*` gives the field's whole domain |
| Laws.LastOnDays | cronsim.py:93-94 | `L` and `l` on the day-of-month field give `{LAST}` |
| Laws.LastStepped | cronsim.py:70-75 | `L/k` on the day-of-month field gives `{LAST}` for every readable step k, and the bad-value error for k otherwise |
| Laws.LastElsewhere | cronsim.py:93-96 | `L` on any other field is rejected |
| Laws.SlashBranch | cronsim.py:70-81 | a text with `/` and no comma, and not a weekday `#` term, goes to the step branch |
| Laws.DashBranch | cronsim.py:83-91 | a text with `-`, no comma and no `/` goes to the range branch split at its first `-` |
| Laws.ValueBranch | cronsim.py:96 | a plain token is accepted exactly when `Field.int` accepts it, and gives that one value |
| Laws.UnionCons | cronsim.py:59-62 | the union of a first result and the rest fails with the first error, else joins both sets |
| Laws.UnionSingle | cronsim.py:59-62 | the union of one result is that result |
| Laws.SplitCons | cronsim.py:60 | splitting `a,rest`, with no comma in `a`, gives `a` then the pieces of `rest` |
| Laws.TermResults | cronsim.py:60-61 | the parse results of the terms, one per term and in order |
| Laws.TermResultsCons | cronsim.py:60-61 | the results of `a` followed by more terms are `a`'s result followed by theirs |
| Laws.ListBranch | cronsim.py:58-62 | a text with a comma is the union of the results of its comma-separated terms |
| Laws.SingleTerm | cronsim.py:54-96 | a text without a comma is also the union of its single term |
| Laws.ParseAsList | cronsim.py:58-62 | every field text is the union of its comma-separated terms |
| Laws.CommaList | cronsim.py:58-62 | `a,b` fails with `a`'s error, else with `b`'s, else is the union of both sets |
| Laws.HashOutsideWeekdays | cronsim.py:64-96 | a `#` anywhere in a field other than day-of-week makes it rejected |
| Laws.HashInPlainTerm | cronsim.py:83-96 | a range or a single value holding `#` outside day-of-week is rejected |
| Laws.SortedUnique | cronsim.py:73 | two increasing lists with the same members are equal |
| Laws.AscendingSpan | cronsim.py:73 | sorting the numbers a..b gives `range(a, b + 1)` |
| Laws.EveryInterval | cronsim.py:81 | every step-th number of a..b is exactly the numbers a + k*step up to b |
| Laws.SteppedSpan | cronsim.py:77-81 | stepping a..b keeps a, a+step, ... up to b, and a lone start runs on to the field's maximum |
| Laws.SingleIsSpan | cronsim.py:91 | the range a-a is the single value a |
| Laws.StepTerm | cronsim.py:70-81 | `t/k` fails on a bad step, fails with `t`'s error, or steps `t`'s set by k |
| Laws.QuarterHours | cronsim.py:70-81 | minutes `*/15` are {0, 15, 30, 45} |
| Laws.SingleValueSteps | cronsim.py:77-81 | minutes `5/15` are {5, 20, 35, 50} |
| Laws.RangeSteps | cronsim.py:70-91 | minutes `0-10/2` are {0, 2, 4, 6, 8, 10} |
| Laws.OneValueRangeSteps | cronsim.py:77-81 | minutes `5-5/10` run on to the maximum: {5, 15, 25, 35, 45, 55} |
| Laws.TwoRanges | cronsim.py:58-62 | minutes `1-3,7-9` are {1, 2, 3, 7, 8, 9} |
| Compiler.PlainField | cronsim.py:112-117 | a parsed minute, hour, month or second field holds plain in-domain numbers only |
| Compiler.Disjunction | cronsim.py:119-125 | a whole day-of-month set is emptied exactly when the weekday set is restricted, a whole weekday set exactly when the day set is restricted; a set that stays keeps its contents; two non-empty sets never both become empty |
| Compiler.FieldTexts | cronsim.py:105-110 | an expression is accepted exactly when it has 5 or 6 words; the fields are those words, and the sixth is `"0"` when only five are given |
| Compiler.Compile | cronsim.py:102-125 | a compiled schedule has non-empty in-domain clock and month sets, a weekday or day-of-month constraint, and the field-count error comes exactly for a wrong number of words |
| Compiler.CompileFields | cronsim.py:112-125 | compiling succeeds exactly when all six fields parse; each clock and month set is what its field parses to, and the day sets are the disjunction rule applied to the parsed day fields |
| Calendar.DaysInMonth | cronsim.py:183 | a month has 28 to 31 days; February has 29 exactly in leap years and 28 otherwise |
| Calendar.DaysBeforeMonthTable | cronsim.py:183 | the days before each month follow the cumulative month-length table, plus one after February in leap years |
| Calendar.DaysBeforeYearClosedForm | cronsim.py:188 | the days before a year match the Gregorian closed form `365y + y/4 - y/100 + y/400` |
| Calendar.Weekday | cronsim.py:188 | `weekday()` lies in 0..6 |
| Calendar.NextDate | cronsim.py:212 | `needle + 1 day` is a valid date whose ordinal is one more |
| Calendar.NewYear2020 | cronsim.py:188 | `weekday()` of 2020-01-01 is 2, a Wednesday; with the next rule this fixes the weekday of every date |
| Calendar.WeekdayOfNextDate | cronsim.py:212 | the weekday of the next date is one more, modulo 7 |
| Calendar.OrdinalMonotone | cronsim.py:211-212 | a date earlier in the calendar has a smaller ordinal |
| Calendar.OrdinalOrder | cronsim.py:211-212 | ordinals order valid dates as the calendar does and tell them apart |
| Calendar.AddSeconds | cronsim.py:139 | adding a `timedelta` of n seconds gives a valid instant n seconds later |
| Calendar.Midnight | cronsim.py:214 | `datetime.combine(d, time())` is the first instant of `d` |
| Calendar.Decompose | cronsim.py:135-175 | the second, minute and hour of an instant are its counts of seconds, minutes and hours modulo 60, 60 and 24 |
| Calendar.SecondsInjective | cronsim.py:139 | distinct valid instants have distinct second counts, so the order is total |
| Calendar.DatesFollowInstants | cronsim.py:207 | an instant that is not earlier lies on a date that is not earlier |
| Advancer.WeekdayTests | cronsim.py:188-193 | on a well-formed weekday set, testing `dow` and `dow % 7` is testing `dow % 7` |
| Advancer.SameWeekday | cronsim.py:188-192 | two dates of one month share a weekday exactly when their day numbers are a whole number of weeks apart |
| Advancer.WeekRank | cronsim.py:192 | `(day + 6) // 7` lies in 1..5 and is the number of days of the month, up to and including the date, a whole number of weeks before it: the date's rank among the same weekdays of its month |
| Advancer.MatchDay | cronsim.py:177-194 | `match_day`: the day number is allowed, or `LAST` is and the date is the last of its month, or `dow` or `dow % 7` is allowed, or the pair of either with the rank is |
| Advancer.MatchDayMeaning | cronsim.py:177-194 | `match_day` holds exactly when the day number is allowed, or `LAST` is and the date ends its month, or the cron weekday is allowed, or its (weekday, rank) pair is |
| Advancer.Matches | cronsim.py:235-251 | the exit condition of the loop of `__next__`: the month, the day (by `match_day`), the hour, the minute and the second all satisfy their constraints |
| Advancer.ForwardDistance | cronsim.py:138 | `min((v - x) % m for v in vals)` is the least forward distance from x to an allowed value |
| Advancer.Least | cronsim.py:157 | `min(vals)` is a member no larger than any other |
| Advancer.SecondsSkipped | cronsim.py:138-139 | moving less than the least forward distance to an allowed second skips no firing |
| Advancer.MinutesSkipped | cronsim.py:154-157 | moving to an allowed minute with the least second skips no firing |
| Advancer.HoursSkipped | cronsim.py:171-174 | moving to an allowed hour with the least minute and second skips no firing |
| Advancer.SecondStage | cronsim.py:135-141 | the second step lands on an allowed second, later, with no firing skipped |
| Advancer.MinuteStep | cronsim.py:154-157 | the minute step moves forward by whole minutes and sets the second |
| Advancer.MinuteStage | cronsim.py:151-158 | the minute step lands on an allowed minute, later, with no firing skipped |
| Advancer.HourStep | cronsim.py:171-174 | the hour step moves forward by whole hours and sets minute and second |
| Advancer.HourStage | cronsim.py:168-175 | the hour step lands on an allowed hour, later, with no firing skipped |
| Advancer.DayStage | cronsim.py:211-214 | jumping to the midnight of a later date past non-matching days skips no firing |
| Advancer.MonthStage | cronsim.py:224-227 | jumping to the midnight of a later date past disallowed months skips no firing |
| Advancer.NoDayInStep | cronsim.py:211-212 | the day scan keeps the invariant that every scanned date fails `match_day` |
| Advancer.NoMonthInStep | cronsim.py:224-225 | the month scan keeps the invariant that every scanned date lies in a disallowed month |
| Advancer.Progress | cronsim.py:235-251 | firing-free stretches join, and none of them can pass a firing |
| Advancer.CronSim.constructor | cronsim.py:102-117 | the cursor starts at the given instant with its seconds cleared, over the compiled schedule |
| Advancer.CronSim.AdvanceSecond | cronsim.py:127-141 | moves exactly when the second is disallowed, by the least forward distance, onto an allowed second, skipping no firing |
| Advancer.CronSim.AdvanceMinute | cronsim.py:143-158 | moves exactly when the minute is disallowed, by the least forward distance, to the least allowed second, skipping no firing |
| Advancer.CronSim.AdvanceHour | cronsim.py:160-175 | moves exactly when the hour is disallowed, by the least forward distance, to the least allowed minute and second, skipping no firing |
| Advancer.CronSim.AdvanceDay | cronsim.py:196-215 | moves exactly when today fails `match_day`, to the midnight of the first later date that passes, skipping no firing |
| Advancer.CronSim.AdvanceMonth | cronsim.py:217-227 | stays in an allowed month, else moves to the midnight of the first later date in an allowed month, skipping no firing |
| Advancer.CronSim.Pass | cronsim.py:235-251 | one loop pass never moves back or skips a firing; it reports done only on a firing instant and otherwise moves strictly forward |
| Advancer.CronSim.Next | cronsim.py:232-251 | the result is the cursor, strictly later than before, satisfies the whole schedule, and no instant in between does |
| Firings.OneNumber | cronsim.py:96 | a field of one in-domain number is that number |
| Firings.WholeNumbers | cronsim.py:55-56 | `*` on a number field is its whole domain |
| Firings.LiftValues | cronsim.py:112-117 | the numbers of a set of plain values are that set |
| Firings.FiveFields | cronsim.py:105-107 | five words separated by spaces are the fields, and the seconds field is `"0"` |
| Firings.CompileOf | cronsim.py:112-125 | an expression whose fields parse to given sets compiles to those sets with the disjunction rule applied |
| Firings.CompileLastDay | cronsim.py:102-125 | `"1 1 L * *"` compiles to minute 1, hour 1, `{LAST}`, every month, no weekday constraint, second 0 |
| Firings.CompileFebruaryThirtieth | cronsim.py:102-125 | `"0 0 30 2 *"` compiles to 00:00:00 on day 30 of February, with no weekday constraint |
| Firings.FebruaryThirtiethNeverFires | cronsim.py:177-194 | no instant satisfies the schedule of `"0 0 30 2 *"` |
| Firings.RestrictedSideWins | cronsim.py:119-125 | `* * * * 1` keeps only the weekday, and `* * 1 * *` only the day of month |
| Firings.SixthMondayTerm | cronsim.py:64-68 | `1#6` gives the pair (Monday, 6) |
| Firings.CompileSixthMonday | cronsim.py:102-125 | `"* * * * 1#6"` compiles to every minute of every month with only the pair (1, 6) |
| Firings.SixthMondayNeverFires | cronsim.py:192-193 | no instant satisfies the schedule of `"* * * * 1#6"`, since a rank never exceeds 5 |
| Firings.LastDayOfJanuary | cronsim.py:232-251 | from 2020-01-01 00:00, `next()` on `"1 1 L * *"` gives 2020-01-31 01:01:00 |
| Firings.FirstLastDay | cronsim.py:177-194 | between 2020-01-01 00:00 and 2020-01-31 01:01, the only firing of `"1 1 L * *"` is the latter |

## Left out

- Unicode: `str.isdigit`, `str.upper` and whitespace splitting are modelled on ASCII digits, ASCII letters and ASCII/C0 whitespace. Unicode digits, case mappings that change length, and other Unicode spaces are not modelled.
- `tzinfo` and microseconds: an instant is a date and a time to the second. The timezone is carried through unchanged by the source and does not take part in any decision.
- Years are unbounded. The `OverflowError` that `datetime` raises past year 9999 is not modelled.
- The `__main__` demonstration, `__iter__` and the text of error messages are not modelled. Errors keep only their kind and the offending token.
- Advancer.MatchDay: `match_day` returns `None` when nothing matches. The model returns `false`, which is how the caller uses it.
- Advancer.CronSim.Next: the source loops forever when no later instant satisfies the schedule. The model requires such an instant to exist; `Firings` proves there is none for `"0 0 30 2 *"` and `"* * * * 1#6"`.
- Advancer.CronSim.AdvanceDay: for the same reason, it requires a date from today on that passes `match_day`.
- Advancer.CronSim.constructor: it requires the expression to compile. The rejection path of `__init__` is `Compiler.Compile`'s error result.
- Fields.Stepped: `items == [LAST]` returns the list `[LAST]` in the source. The model returns the set `{LAST}`, which has the same members.
- Calendar.AddSeconds: it is stated for steps shorter than one day. That covers every step the advancer takes: under a minute of seconds, under an hour of minutes, under a day of hours, and the single second of `__next__`.
- Calendar, Text: the standard library is not part of this model beyond the operations listed above.
