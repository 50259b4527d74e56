/**
 * Whole expressions: what three expressions compile to, the first firing of
 * one of them, and why the other two never fire.
 */
module Firings {
  import opened Calendar
  import opened Text
  import opened Fields
  import opened Compiler
  import opened Advancer
  import Laws

  /** A field written as one number. */
  lemma OneNumber(f: Field, n: int)
    requires Lo(f) <= n <= Hi(f)
    ensures Parse(f, Decimal(n)) == Ok(Lift({n}))
  {
    Laws.NumberValue(f, n);
    DecimalRoundTrip(n);
    var s := Decimal(n);
    assert forall c :: c in s ==> IsDigit(c);
    Laws.ValueBranch(f, s);
    assert Lift({n}) == {Value(n)};
  }

  /** A number field left at `*` holds its whole domain. */
  lemma WholeNumbers(f: Field)
    requires f != Day && f != Dow
    ensures Parse(f, "*") == Ok(Lift(Values(Whole(f))))
  {
    Laws.StarIsWhole(f);
    assert Lift(Values(Whole(f))) == Whole(f);
  }

  /** `Lift` loses nothing. */
  lemma LiftValues(vs: set<int>)
    ensures Values(Lift(vs)) == vs
  {
    forall v | v in vs
      ensures v in Values(Lift(vs))
    {
      assert Value(v) in Lift(vs);
    }
  }

  const AllMonths: set<int> := {1, 2, 3, 4, 5, 6, 7, 8, 9, 10, 11, 12}

  lemma WholeYear()
    ensures Whole(Month) == Lift(AllMonths)
  {
  }

  /** Five words separated by single spaces are the five fields, and seconds default to "0". */
  lemma FiveFields(a: string, b: string, c: string, d: string, e: string)
    requires IsWord(a) && IsWord(b) && IsWord(c) && IsWord(d) && IsWord(e)
    ensures FieldTexts(a + " " + b + " " + c + " " + d + " " + e) == Ok([a, b, c, d, e, "0"])
  {
    var ws := [a, b, c, d, e];
    assert Unwords(ws[4..]) == e;
    assert Unwords(ws[3..]) == d + " " + e;
    assert Unwords(ws[2..]) == c + " " + d + " " + e;
    assert Unwords(ws[1..]) == b + " " + c + " " + d + " " + e;
    assert Unwords(ws) == a + " " + b + " " + c + " " + d + " " + e;
    WordsUnwords(ws);
    assert ws + ["0"] == [a, b, c, d, e, "0"];
  }

  /** The words of "1 1 L * *", with the seconds field defaulted. */
  lemma LastDayTexts()
    ensures FieldTexts("1 1 L * *") == Ok(["1", "1", "L", "*", "*", "0"])
  {
    FiveFields("1", "1", "L", "*", "*");
    assert "1" + " " + "1" + " " + "L" + " " + "*" + " " + "*" == "1 1 L * *";
  }

  /** An expression whose fields parse to the given sets compiles to them. */
  lemma CompileOf(e: string, t0: string, t1: string, t2: string, t3: string, t4: string, t5: string,
                  minutes: set<int>, hours: set<int>, days: set<Entry>,
                  months: set<int>, weekdays: set<Entry>, seconds: set<int>)
    requires FieldTexts(e) == Ok([t0, t1, t2, t3, t4, t5])
    requires Parse(Minute, t0) == Ok(Lift(minutes)) && Parse(Hour, t1) == Ok(Lift(hours))
    requires Parse(Day, t2) == Ok(days) && Parse(Month, t3) == Ok(Lift(months))
    requires Parse(Dow, t4) == Ok(weekdays) && Parse(Second, t5) == Ok(Lift(seconds))
    ensures Compile(e) == Ok(Schedule(minutes, hours, Disjunction(days, weekdays).0, months,
                                      Disjunction(days, weekdays).1, seconds))
  {
    var p := FieldTexts(e).value;
    assert p[0] == t0 && p[1] == t1 && p[2] == t2 && p[3] == t3 && p[4] == t4 && p[5] == t5;
    CompileFields(e);
    var r := Compile(e).value;
    LiftValues(r.minutes);
    LiftValues(r.hours);
    LiftValues(r.months);
    LiftValues(r.seconds);
    LiftValues(minutes);
    LiftValues(hours);
    LiftValues(months);
    LiftValues(seconds);
  }

  lemma LastDayNumbers()
    ensures Parse(Minute, "1") == Ok(Lift({1})) && Parse(Hour, "1") == Ok(Lift({1}))
    ensures Parse(Second, "0") == Ok(Lift({0}))
  {
    assert Decimal(1) == "1" && Decimal(0) == "0";
    OneNumber(Minute, 1);
    OneNumber(Hour, 1);
    OneNumber(Second, 0);
  }

  lemma LastDayDates()
    ensures Parse(Day, "L") == Ok({Last}) && Parse(Month, "*") == Ok(Lift(AllMonths))
    ensures Parse(Dow, "*") == Ok(Whole(Dow))
    ensures Disjunction({Last}, Whole(Dow)) == ({Last}, {})
  {
    Laws.LastOnDays();
    Laws.StarIsWhole(Month);
    Laws.StarIsWhole(Dow);
    WholeYear();
    assert Value(1) in Whole(Day);
  }

  /** "1 1 L * *": 01:01 on the last day of every month. */
  lemma CompileLastDay()
    ensures Compile("1 1 L * *") == Ok(Schedule({1}, {1}, {Last}, AllMonths, {}, {0}))
  {
    LastDayTexts();
    LastDayNumbers();
    LastDayDates();
    CompileOf("1 1 L * *", "1", "1", "L", "*", "*", "0", {1}, {1}, {Last}, AllMonths, Whole(Dow), {0});
  }

  lemma FebruaryThirtiethTexts()
    ensures FieldTexts("0 0 30 2 *") == Ok(["0", "0", "30", "2", "*", "0"])
  {
    FiveFields("0", "0", "30", "2", "*");
    assert "0" + " " + "0" + " " + "30" + " " + "2" + " " + "*" == "0 0 30 2 *";
  }

  lemma FebruaryThirtiethFields()
    ensures Parse(Minute, "0") == Ok(Lift({0})) && Parse(Hour, "0") == Ok(Lift({0}))
    ensures Parse(Day, "30") == Ok({Value(30)}) && Parse(Month, "2") == Ok(Lift({2}))
    ensures Parse(Second, "0") == Ok(Lift({0}))
  {
    assert Decimal(0) == "0" && Decimal(2) == "2" && Decimal(30) == "30";
    OneNumber(Minute, 0);
    OneNumber(Hour, 0);
    OneNumber(Day, 30);
    OneNumber(Month, 2);
    OneNumber(Second, 0);
    assert Lift({30}) == {Value(30)};
  }

  /** "0 0 30 2 *": midnight on February 30th. */
  lemma CompileFebruaryThirtieth()
    ensures Compile("0 0 30 2 *") == Ok(Schedule({0}, {0}, {Value(30)}, {2}, {}, {0}))
  {
    FebruaryThirtiethTexts();
    FebruaryThirtiethFields();
    Laws.StarIsWhole(Dow);
    assert Value(1) in Whole(Day);
    assert Disjunction({Value(30)}, Whole(Dow)) == ({Value(30)}, {});
    CompileOf("0 0 30 2 *", "0", "0", "30", "2", "*", "0", {0}, {0}, {Value(30)}, {2}, Whole(Dow), {0});
  }

  /**
   * February never has a 30th, so the schedule of "0 0 30 2 *" fires at no
   * instant, and the search of `__next__` would not end.
   */
  lemma FebruaryThirtiethNeverFires(t: DateTime)
    requires ValidDateTime(t)
    ensures !Matches(Schedule({0}, {0}, {Value(30)}, {2}, {}, {0}), t)
  {
  }

  lemma SixthMondayTexts()
    ensures FieldTexts("* * * * 1#6") == Ok(["*", "*", "*", "*", "1#6", "0"])
  {
    FiveFields("*", "*", "*", "*", "1#6");
    assert "*" + " " + "*" + " " + "*" + " " + "*" + " " + "1#6" == "* * * * 1#6";
  }

  lemma SixthMondayClock()
    ensures Parse(Minute, "*") == Ok(Lift(Values(Whole(Minute))))
    ensures Parse(Hour, "*") == Ok(Lift(Values(Whole(Hour))))
    ensures Parse(Second, "0") == Ok(Lift({0}))
  {
    WholeNumbers(Minute);
    WholeNumbers(Hour);
    assert Decimal(0) == "0";
    OneNumber(Second, 0);
  }

  lemma SixthMondayDates()
    ensures Parse(Day, "*") == Ok(Whole(Day)) && Parse(Month, "*") == Ok(Lift(AllMonths))
  {
    Laws.StarIsWhole(Day);
    Laws.StarIsWhole(Month);
    WholeYear();
  }

  lemma SixthMondayTerm()
    ensures Parse(Dow, "1#6") == Ok({Nth(1, 6)})
  {
    assert Decimal(1) == "1";
    Laws.NumberValue(Dow, 1);
    assert AllDigits("6") && DecimalValue("6") == 6;
    assert "1" + "#" + "6" == "1#6";
    Laws.NthTerm("1", "6");
  }

  /** A restricted day-of-week field and a `*` day-of-month field: only the weekday counts. */
  lemma SixthMondayRule()
    ensures Disjunction(Whole(Day), {Nth(1, 6)}) == ({}, {Nth(1, 6)})
  {
    assert Value(0) in Whole(Dow);
  }

  /**
   * "* * * * 1" keeps only its weekday constraint, and "* * 1 * *" only its
   * day-of-month constraint.
   */
  lemma RestrictedSideWins()
    ensures Disjunction(Whole(Day), {Value(1)}) == ({}, {Value(1)})
    ensures Disjunction({Value(1)}, Whole(Dow)) == ({Value(1)}, {})
  {
    assert Value(0) in Whole(Dow) && Value(1) in Whole(Day) && Value(2) in Whole(Day);
  }

  /** "* * * * 1#6": every minute of the sixth Monday of a month. */
  lemma CompileSixthMonday()
    ensures Compile("* * * * 1#6")
      == Ok(Schedule(Values(Whole(Minute)), Values(Whole(Hour)), {}, AllMonths, {Nth(1, 6)}, {0}))
  {
    SixthMondayTexts();
    SixthMondayClock();
    SixthMondayDates();
    SixthMondayTerm();
    SixthMondayRule();
    CompileOf("* * * * 1#6", "*", "*", "*", "*", "1#6", "0",
      Values(Whole(Minute)), Values(Whole(Hour)), Whole(Day), AllMonths, {Nth(1, 6)}, {0});
  }

  /**
   * A month holds at most five of each weekday, so the schedule of
   * "* * * * 1#6" fires at no instant, and the search of `__next__` would
   * not end.
   */
  lemma SixthMondayNeverFires(t: DateTime)
    requires ValidDateTime(t)
    ensures !Matches(Schedule(Values(Whole(Minute)), Values(Whole(Hour)), {}, AllMonths, {Nth(1, 6)}, {0}), t)
  {
    WeekRank(t.day);
  }

  /** The first firing of "1 1 L * *" from 2020-01-01 00:00 is at most 2020-01-31 01:01:00. */
  lemma LastDayTarget(start: DateTime, target: DateTime)
    requires start == DateTime(2020, 1, 1, 0, 0, 0) && target == DateTime(2020, 1, 31, 1, 1, 0)
    ensures ValidDateTime(start) && ValidDateTime(target) && SecondsOf(start) < SecondsOf(target)
    ensures Matches(Schedule({1}, {1}, {Last}, AllMonths, {}, {0}), target)
  {
    OrdinalMonotone(DateOf(start), DateOf(target));
  }

  /**
   * From 2020-01-01 00:00, the first firing of "1 1 L * *" is
   * 2020-01-31 01:01:00.
   */
  method LastDayOfJanuary() returns (r: DateTime)
    ensures r == DateTime(2020, 1, 31, 1, 1, 0)
  {
    CompileLastDay();
    var start := DateTime(2020, 1, 1, 0, 0, 0);
    ghost var target := DateTime(2020, 1, 31, 1, 1, 0);
    LastDayTarget(start, target);
    var sim := new CronSim("1 1 L * *", start);
    r := sim.Next();
    FirstLastDay(start, target, r);
  }

  /** The only firing of "1 1 L * *" from 2020-01-01 00:00 up to 2020-01-31 01:01 is the latter. */
  lemma FirstLastDay(start: DateTime, target: DateTime, r: DateTime)
    requires start == DateTime(2020, 1, 1, 0, 0, 0) && target == DateTime(2020, 1, 31, 1, 1, 0)
    requires ValidDateTime(r) && SecondsOf(start) < SecondsOf(r) <= SecondsOf(target)
    requires Matches(Schedule({1}, {1}, {Last}, AllMonths, {}, {0}), r)
    ensures r == target
  {
    DatesFollowInstants(start, r);
    DatesFollowInstants(r, target);
    OrdinalOrder(DateOf(start), DateOf(r));
    OrdinalOrder(DateOf(r), DateOf(target));
  }
}
