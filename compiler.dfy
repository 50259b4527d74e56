/**
 * The expression compiler of `CronSim.__init__`: split the expression into
 * its fields, parse each one, and apply the day-of-month / day-of-week rule.
 */
module Compiler {
  import opened Text
  import opened Fields

  /** The six constraint sets of a compiled expression. */
  datatype Schedule = Schedule(
    minutes: set<int>,
    hours: set<int>,
    days: set<Entry>,
    months: set<int>,
    weekdays: set<Entry>,
    seconds: set<int>)

  /** A non-empty set of values of the field's domain. */
  predicate WithinDomain(f: Field, vs: set<int>)
  {
    vs != {} && forall v :: v in vs ==> Lo(f) <= v <= Hi(f)
  }

  /** What every compiled expression satisfies. */
  predicate WellFormed(s: Schedule)
  {
    WithinDomain(Minute, s.minutes) && WithinDomain(Hour, s.hours)
    && WithinDomain(Month, s.months) && WithinDomain(Second, s.seconds)
    && (forall e :: e in s.days ==> Fits(Day, e))
    && (forall e :: e in s.weekdays ==> Fits(Dow, e))
    && (s.days != {} || s.weekdays != {})
  }

  /** A parsed minute, hour, month or second field holds plain numbers of its domain only. */
  lemma PlainField(f: Field, items: set<Entry>)
    requires f != Day && f != Dow
    requires items != {} && forall e :: e in items ==> Fits(f, e)
    ensures WithinDomain(f, Values(items)) && Lift(Values(items)) == items
  {
    var e :| e in items;
    assert e.n in Values(items);
  }

  /**
   * The day-of-month / day-of-week rule: a field left at its whole domain
   * gives way to the other one when that one is restricted.
   */
  function Disjunction(days: set<Entry>, weekdays: set<Entry>): (r: (set<Entry>, set<Entry>))
    ensures r.0 == {} <==> days == {} || (days == Whole(Day) && weekdays != Whole(Dow))
    ensures r.1 == {} <==> weekdays == {} || (weekdays == Whole(Dow) && days != Whole(Day))
    ensures r.0 != {} ==> r.0 == days
    ensures r.1 != {} ==> r.1 == weekdays
    ensures days != {} && weekdays != {} ==> r.0 != {} || r.1 != {}
  {
    assert Value(1) in Whole(Day) && Value(0) in Whole(Dow);
    var days := if days == Whole(Day) && weekdays != Whole(Dow) then {} else days;
    var weekdays := if weekdays == Whole(Dow) && days != Whole(Day) then {} else weekdays;
    (days, weekdays)
  }

  /** `expr.split()`, with the seconds field defaulted to "0" when five fields are given. */
  function FieldTexts(expr: string): (r: Result<seq<string>>)
    ensures r.Ok? <==> |Words(expr)| == 5 || |Words(expr)| == 6
    ensures r.Err? ==> r.error == WrongFieldCount
    ensures r.Ok? ==> |r.value| == 6 && r.value[..5] == Words(expr)[..5]
    ensures r.Ok? ==> r.value[5] == if |Words(expr)| == 5 then "0" else Words(expr)[5]
  {
    var parts := Words(expr);
    var parts := if |parts| == 5 then parts + ["0"] else parts;
    if |parts| != 6 then Err(WrongFieldCount) else Ok(parts)
  }

  /** `CronSim.__init__` without the cursor: the compiled expression, or the first error. */
  function Compile(expr: string): (r: Result<Schedule>)
    ensures r.Ok? ==> WellFormed(r.value)
    ensures r == Err(WrongFieldCount) <==> |Words(expr)| != 5 && |Words(expr)| != 6
  {
    match FieldTexts(expr)
    case Err(e) => Err(e)
    case Ok(parts) =>
      match Parse(Minute, parts[0])
      case Err(e) => Err(e)
      case Ok(minutes) =>
      match Parse(Hour, parts[1])
      case Err(e) => Err(e)
      case Ok(hours) =>
      match Parse(Day, parts[2])
      case Err(e) => Err(e)
      case Ok(days) =>
      match Parse(Month, parts[3])
      case Err(e) => Err(e)
      case Ok(months) =>
      match Parse(Dow, parts[4])
      case Err(e) => Err(e)
      case Ok(weekdays) =>
      match Parse(Second, parts[5])
      case Err(e) => Err(e)
      case Ok(seconds) =>
        PlainField(Minute, minutes);
        PlainField(Hour, hours);
        PlainField(Month, months);
        PlainField(Second, seconds);
        var (days', weekdays') := Disjunction(days, weekdays);
        Ok(Schedule(Values(minutes), Values(hours), days', Values(months), weekdays', Values(seconds)))
  }

  /**
   * A compiled expression holds exactly what its six fields parse to, with
   * the day-of-month / day-of-week rule applied, and it is rejected exactly
   * when one of the fields is.
   */
  lemma CompileFields(expr: string)
    requires FieldTexts(expr).Ok?
    ensures var p := FieldTexts(expr).value;
      Compile(expr).Ok? <==>
        (Parse(Minute, p[0]).Ok? && Parse(Hour, p[1]).Ok? && Parse(Day, p[2]).Ok?
         && Parse(Month, p[3]).Ok? && Parse(Dow, p[4]).Ok? && Parse(Second, p[5]).Ok?)
    ensures var p := FieldTexts(expr).value;
      Compile(expr).Ok? ==>
        var r := Compile(expr).value;
        Lift(r.minutes) == Parse(Minute, p[0]).value && Lift(r.hours) == Parse(Hour, p[1]).value
        && Lift(r.months) == Parse(Month, p[3]).value && Lift(r.seconds) == Parse(Second, p[5]).value
        && (r.days, r.weekdays) == Disjunction(Parse(Day, p[2]).value, Parse(Dow, p[4]).value)
  {
    var p := FieldTexts(expr).value;
    var minutes, hours, months, seconds := Parse(Minute, p[0]), Parse(Hour, p[1]), Parse(Month, p[3]), Parse(Second, p[5]);
    if minutes.Ok? && hours.Ok? && months.Ok? && seconds.Ok? {
      PlainField(Minute, minutes.value);
      PlainField(Hour, hours.value);
      PlainField(Month, months.value);
      PlainField(Second, seconds.value);
    }
  }
}
