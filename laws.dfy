/**
 * Laws of the field grammar: what `Field.int` and `Field.parse` return for
 * each form of field text.
 */
module Laws {
  import opened Text
  import opened Fields
  import Calendar

  /** Upper-casing undoes lower-casing on the upper-case letters the names are written in. */
  lemma UpperLower(name: string)
    requires forall i :: 0 <= i < |name| ==> 'A' <= name[i] <= 'Z'
    ensures Upper(Lower(name)) == name && Upper(name) == name
  {
  }

  predicate Distinct(names: seq<string>)
  {
    forall j, k :: 0 <= j < k < |names| ==> names[j] != names[k]
  }

  /** Every name of a list without repeats is found at its own position. */
  lemma PositionOfDistinct(names: seq<string>, i: int)
    requires Distinct(names) && 0 <= i < |names|
    ensures Position(names, names[i]) == i
  {
  }

  lemma NamesDistinct()
    ensures Distinct(MonthNames) && Distinct(DayNames)
  {
  }

  /** A spelling whose upper case is the `i`th month name reads as month `i + 1`. */
  lemma MonthSpelling(i: int, x: string)
    requires 0 <= i < 12 && Upper(x) == MonthNames[i]
    ensures FieldValue(Month, x) == Ok(i + 1)
  {
    NamesDistinct();
    PositionOfDistinct(MonthNames, i);
    assert Upper(x) in MonthNames;
  }

  /** A spelling whose upper case is the `i`th day name reads as weekday `i`. */
  lemma DaySpelling(i: int, x: string)
    requires 0 <= i < 7 && Upper(x) == DayNames[i]
    ensures FieldValue(Dow, x) == Ok(i)
  {
    NamesDistinct();
    PositionOfDistinct(DayNames, i);
    assert Upper(x) in DayNames;
  }

  /** A month name in any mix of letter cases stands for its month, 1 to 12. */
  lemma MonthNameValue(i: int)
    requires 0 <= i < 12
    ensures forall x :: Upper(x) == MonthNames[i] ==> FieldValue(Month, x) == Ok(i + 1)
    ensures FieldValue(Month, MonthNames[i]) == Ok(i + 1)
    ensures FieldValue(Month, Lower(MonthNames[i])) == Ok(i + 1)
  {
    forall x | Upper(x) == MonthNames[i] {
      MonthSpelling(i, x);
    }
    var name := MonthNames[i];
    assert forall j :: 0 <= j < |name| ==> 'A' <= name[j] <= 'Z';
    UpperLower(name);
  }

  /** A day name in any mix of letter cases stands for its day, 0 (Sunday) to 6 (Saturday). */
  lemma DayNameValue(i: int)
    requires 0 <= i < 7
    ensures forall x :: Upper(x) == DayNames[i] ==> FieldValue(Dow, x) == Ok(i)
    ensures FieldValue(Dow, DayNames[i]) == Ok(i)
    ensures FieldValue(Dow, Lower(DayNames[i])) == Ok(i)
  {
    forall x | Upper(x) == DayNames[i] {
      DaySpelling(i, x);
    }
    var name := DayNames[i];
    assert forall j :: 0 <= j < |name| ==> 'A' <= name[j] <= 'Z';
    UpperLower(name);
  }

  /** Capitalised names, as people write them. */
  lemma CapitalisedNames()
    ensures FieldValue(Month, "Jan") == Ok(1) && FieldValue(Dow, "Mon") == Ok(1)
  {
    assert Upper("Jan") == MonthNames[0];
    assert Upper("Mon") == DayNames[1];
    MonthSpelling(0, "Jan");
    DaySpelling(1, "Mon");
  }

  /** The names are written in upper-case letters only. */
  lemma NamesAreLetters()
    ensures forall j, k :: 0 <= j < |MonthNames| && 0 <= k < |MonthNames[j]| ==> 'A' <= MonthNames[j][k] <= 'Z'
    ensures forall j, k :: 0 <= j < |DayNames| && 0 <= k < |DayNames[j]| ==> 'A' <= DayNames[j][k] <= 'Z'
  {
  }

  /** Text holding a character that is not a letter is no name. */
  lemma NotAName(f: Field, x: string, i: int)
    requires 0 <= i < |x| && !('A' <= x[i] <= 'Z') && !('a' <= x[i] <= 'z')
    ensures !IsName(f, x)
  {
    NamesAreLetters();
    assert Upper(x)[i] == x[i];
  }

  /** `Field.int` reads `str(n)`, and `n` with a leading zero, as `n` inside the field's domain. */
  lemma NumberValue(f: Field, n: int)
    requires Lo(f) <= n <= Hi(f)
    ensures FieldValue(f, Decimal(n)) == Ok(n)
    ensures n < 10 ==> FieldValue(f, "0" + Decimal(n)) == Ok(n)
  {
    DecimalRoundTrip(n);
    NotAName(f, Decimal(n), 0);
    if n < 10 {
      var z := "0" + Decimal(n);
      NotAName(f, z, 0);
      assert z[..1] == "0" && z[..1][..0] == [];
      assert DecimalValue(z[..1]) == 0;
      assert DecimalValue(z) == DigitValue(z[1]) == n;
    }
  }

  /** Text holding a character that is neither a digit nor a letter is rejected by `Field.int`. */
  lemma Unreadable(f: Field, x: string, i: int)
    requires 0 <= i < |x| && !IsDigit(x[i]) && !('A' <= x[i] <= 'Z') && !('a' <= x[i] <= 'z')
    ensures FieldValue(f, x).Err?
  {
    NotAName(f, x, i);
  }

  /** `s.split(c, maxsplit=1)` splits at the first `c`. */
  lemma SplitOnceAt(a: string, c: char, b: string)
    requires c !in a
    ensures SplitOnce(a + [c] + b, c) == (a, b)
  {
    var s := a + [c] + b;
    assert s[|a|] == c && s[..|a|] == a && s[|a| + 1..] == b;
  }

  /** On the day-of-week field, `t#n` is the single pair of weekday `t` and rank `n`. */
  lemma NthTerm(t: string, n: string)
    requires '#' !in t && ',' !in t + "#" + n
    ensures Parse(Dow, t + "#" + n) == ParseNth(t, n)
  {
    SplitOnceAt(t, '#', n);
    assert t + "#" + n == t + ['#'] + n;
    assert (t + "#" + n)[|t|] == '#';
  }

  /** A rank of 0 is rejected: `_int(nth, min_value=1)`. */
  lemma NthZeroRejected(t: string, n: string)
    requires '#' !in t && ',' !in t + "#" + n
    requires AllDigits(n) && DecimalValue(n) == 0
    ensures Parse(Dow, t + "#" + n).Err?
  {
    NthTerm(t, n);
  }

  /** `a-b` is the span from `a` to `b` when `b` is not below `a`, and an error otherwise. */
  lemma RangeTerm(f: Field, a: string, b: string)
    requires '-' !in a && ',' !in a + "-" + b && '/' !in a + "-" + b
    requires f == Dow ==> '#' !in a + "-" + b
    ensures Parse(f, a + "-" + b) == ParseRange(f, a, b)
  {
    var s := a + "-" + b;
    assert s == a + ['-'] + b;
    assert s[|a|] == '-';
    SplitOnceAt(a, '-', b);
  }

  /** `*` is the field's whole domain. */
  lemma StarIsWhole(f: Field)
    ensures Parse(f, "*") == Ok(Whole(f))
  {
  }

  /** `L`, in either case, is the last day of the month on the day-of-month field. */
  lemma LastOnDays()
    ensures Parse(Day, "L") == Ok({Last}) && Parse(Day, "l") == Ok({Last})
  {
    assert "L" != "*" && "l" != "*";
  }

  /** `L` is rejected by every other field. */
  lemma LastElsewhere(f: Field, x: string)
    requires f != Day && (x == "L" || x == "l")
    ensures Parse(f, x).Err?
  {
    NamesAreLetters();
    assert x != "*" && ',' !in x && '#' !in x && '/' !in x && '-' !in x;
    assert !IsName(f, x);
    assert FieldValue(f, x).Err?;
  }

  /** The `term/step` branch of `Field.parse`. */
  lemma SlashBranch(f: Field, s: string)
    requires '/' in s && ',' !in s && !('#' in s && f == Dow)
    ensures Parse(f, s) == ParseSlash(f, s)
  {
    assert s != "*";
  }

  /** The `start-end` branch of `Field.parse`. */
  lemma DashBranch(f: Field, s: string)
    requires '-' in s && ',' !in s && '/' !in s && !('#' in s && f == Dow)
    ensures Parse(f, s) == ParseRange(f, SplitOnce(s, '-').0, SplitOnce(s, '-').1)
  {
    assert s != "*";
  }

  /** The single-value branch of `Field.parse`. */
  lemma ValueBranch(f: Field, s: string)
    requires '-' !in s && ',' !in s && '/' !in s && !('#' in s && f == Dow) && s != "*"
    requires !(f == Day && (s == "L" || s == "l"))
    ensures Parse(f, s).Ok? <==> FieldValue(f, s).Ok?
    ensures Parse(f, s).Ok? ==> Parse(f, s).value == {Value(FieldValue(f, s).value)}
  {
  }

  /** Joining one more result in front: its error comes first, otherwise its set joins the rest's union. */
  lemma UnionCons(x: Result<set<Entry>>, rest: seq<Result<set<Entry>>>)
    ensures Union([x] + rest) == if x.Err? then x else if Union(rest).Err? then Union(rest) else Ok(x.value + Union(rest).value)
  {
    assert ([x] + rest)[1..] == rest;
  }

  lemma UnionSingle(results: seq<Result<set<Entry>>>)
    requires |results| == 1
    ensures Union(results) == results[0]
  {
    assert results[1..] == [];
    if results[0].Ok? {
      assert results[0].value + {} == results[0].value;
    }
  }

  /** Splitting on commas peels off the text before the first comma. */
  lemma SplitCons(a: string, b: string)
    requires ',' !in a
    ensures Split(a + "," + b, ',') == [a] + Split(b, ',')
  {
    var s := a + "," + b;
    assert s == a + [','] + b && s[|a|] == ',';
    SplitOnceAt(a, ',', b);
  }

  /** The term results of a comma list. */
  function TermResults(f: Field, terms: seq<string>): (r: seq<Result<set<Entry>>>)
    ensures |r| == |terms| && forall k :: 0 <= k < |terms| ==> r[k] == Parse(f, terms[k])
  {
    if terms == [] then [] else [Parse(f, terms[0])] + TermResults(f, terms[1..])
  }

  lemma TermResultsCons(f: Field, a: string, rest: seq<string>)
    ensures TermResults(f, [a] + rest) == [Parse(f, a)] + TermResults(f, rest)
  {
    assert ([a] + rest)[0] == a && ([a] + rest)[1..] == rest;
  }

  /** The comma-list branch of `Field.parse` joins the terms' results. */
  lemma ListBranch(f: Field, s: string)
    requires ',' in s
    ensures Parse(f, s) == Union(TermResults(f, Split(s, ',')))
  {
    assert s != "*";
    assert Parse(f, s) == ParseList(f, s);
    var terms := Split(s, ',');
    assert TermResults(f, terms) == seq(|terms|, k requires 0 <= k < |terms| => Parse(f, terms[k]));
  }

  /** A text without commas is a list of one term. */
  lemma SingleTerm(f: Field, s: string)
    requires ',' !in s
    ensures Parse(f, s) == Union(TermResults(f, Split(s, ',')))
  {
    assert Split(s, ',') == [s];
    var terms := TermResults(f, [s]);
    assert |terms| == 1 && terms[0] == Parse(f, s);
    UnionSingle(terms);
  }

  /** A field's text is the union of its comma-separated terms, whether or not it holds a comma. */
  lemma ParseAsList(f: Field, s: string)
    ensures Parse(f, s) == Union(TermResults(f, Split(s, ',')))
  {
    if ',' in s {
      ListBranch(f, s);
    } else {
      SingleTerm(f, s);
    }
  }

  /**
   * A comma list is the union of parsing each comma-separated term: `a,b`
   * fails with the first failing term and otherwise holds what `a` and `b` hold.
   */
  lemma CommaList(f: Field, a: string, b: string)
    requires ',' !in a
    ensures Parse(f, a + "," + b) == if Parse(f, a).Err? then Parse(f, a)
      else if Parse(f, b).Err? then Parse(f, b)
      else Ok(Parse(f, a).value + Parse(f, b).value)
  {
    SplitCons(a, b);
    ParseAsList(f, a + "," + b);
    ParseAsList(f, b);
    TermResultsCons(f, a, Split(b, ','));
    UnionCons(Parse(f, a), TermResults(f, Split(b, ',')));
  }

  /** `#` is rejected outside the day-of-week field, wherever it occurs in the field's text. */
  lemma {:induction false} HashOutsideWeekdays(f: Field, s: string)
    requires f != Dow && '#' in s
    ensures Parse(f, s).Err?
    decreases |s|, 1
  {
    if ',' in s {
      var (a, b) := SplitOnce(s, ',');
      assert s == a + "," + b;
      CommaList(f, a, b);
      if '#' in a {
        HashOutsideWeekdays(f, a);
      } else {
        assert '#' in b;
        HashOutsideWeekdays(f, b);
      }
    } else if '/' in s {
      SlashBranch(f, s);
      var (term, stepText) := SplitOnce(s, '/');
      if '#' in stepText {
        assert !AllDigits(stepText);
      } else {
        assert '#' in term;
        HashOutsideWeekdays(f, term);
      }
    } else {
      HashInPlainTerm(f, s);
    }
  }

  /** A range or a single value with a `#` outside the day-of-week field is rejected. */
  lemma HashInPlainTerm(f: Field, s: string)
    requires f != Dow && '#' in s && ',' !in s && '/' !in s
    ensures Parse(f, s).Err?
  {
    if '-' in s {
      DashBranch(f, s);
      var (a, b) := SplitOnce(s, '-');
      if '#' in a {
        var j :| 0 <= j < |a| && a[j] == '#';
        Unreadable(f, a, j);
      } else {
        assert '#' in b;
        var j :| 0 <= j < |b| && b[j] == '#';
        Unreadable(f, b, j);
      }
    } else {
      var i :| 0 <= i < |s| && s[i] == '#';
      ValueBranch(f, s);
      Unreadable(f, s, i);
    }
  }

  predicate Increasing(xs: seq<int>)
  {
    forall i, j :: 0 <= i < j < |xs| ==> xs[i] < xs[j]
  }

  /** Two increasing sequences with the same elements are equal: sorting is unique. */
  lemma {:induction false} SortedUnique(xs: seq<int>, ys: seq<int>)
    requires Increasing(xs) && Increasing(ys)
    requires forall v :: v in xs <==> v in ys
    ensures xs == ys
    decreases |xs|
  {
    if xs != [] {
      assert xs[0] in xs;
    }
    if ys != [] {
      assert ys[0] in ys;
    }
    if xs != [] && ys != [] {
      assert xs[0] in ys && ys[0] in xs;
      assert xs[0] == ys[0];
      forall v
        ensures v in xs[1..] <==> v in ys[1..]
      {
        if v in xs[1..] {
          assert v in ys && v != ys[0];
        }
        if v in ys[1..] {
          assert v in xs && v != xs[0];
        }
      }
      SortedUnique(xs[1..], ys[1..]);
      assert xs == [xs[0]] + xs[1..] && ys == [ys[0]] + ys[1..];
    }
  }

  /** The sorted values of a span are the interval itself. */
  lemma AscendingSpan(f: Field, a: int, b: int)
    requires Lo(f) <= a && b <= Hi(f) && a <= b + 1
    ensures Ascending(Values(Span(a, b)), Lo(f), Hi(f)) == Interval(a, b)
  {
    var xs := Ascending(Values(Span(a, b)), Lo(f), Hi(f));
    forall v
      ensures v in xs <==> v in Interval(a, b)
    {
      if a <= v <= b {
        assert Value(v) in Span(a, b);
      }
    }
    SortedUnique(xs, Interval(a, b));
  }

  /** `x` is a whole number of steps from `a`. */
  predicate OnStep(x: int, a: int, step: int)
    requires step >= 1
  {
    (x - a) % step == 0
  }

  /** Every `step`-th value of an interval, from its start. */
  lemma EveryInterval(step: int, a: int, b: int)
    requires step >= 1 && a <= b + 1
    ensures Every(step, Interval(a, b)) == set x | a <= x <= b && OnStep(x, a, step)
  {
    var xs := Interval(a, b);
    forall x | a <= x <= b && OnStep(x, a, step)
      ensures x in Every(step, xs)
    {
      assert xs[x - a] == x;
    }
  }

  /**
   * A stepped span keeps the values `step` apart from its start; a single
   * value steps on to the field's maximum, so `5/10`, `5-5/10` and `5-59/10`
   * agree on the minute field.
   */
  lemma SteppedSpan(f: Field, a: int, b: int, step: int)
    requires Lo(f) <= a <= b <= Hi(f) && step >= 1
    ensures Stepped(f, Span(a, b), step) == Lift(set x | a <= x <= (if a == b then Hi(f) else b) && OnStep(x, a, step))
  {
    assert Value(a) in Span(a, b) && Last !in Span(a, b);
    AscendingSpan(f, a, b);
    var sorted := Interval(a, b);
    if a == b {
      assert |sorted| == 1 && sorted[0] == a;
      EveryInterval(step, a, Hi(f));
    } else {
      EveryInterval(step, a, b);
    }
  }

  /** A single value is the span from it to itself. */
  lemma SingleIsSpan(a: int)
    ensures Span(a, a) == {Value(a)}
  {
  }

  /** The `term/step` form: the step must read as a number of at least 1, and the term's set is then stepped. */
  lemma StepTerm(f: Field, t: string, k: string)
    requires '/' !in t && ',' !in t + "/" + k && !(f == Dow && '#' in t + "/" + k)
    ensures ParseInt(k, 1).Err? ==> Parse(f, t + "/" + k) == Err(BadValue(k))
    ensures ParseInt(k, 1).Ok? && Parse(f, t).Err? ==> Parse(f, t + "/" + k) == Parse(f, t)
    ensures ParseInt(k, 1).Ok? && Parse(f, t).Ok? ==> Parse(f, t + "/" + k) == Ok(Stepped(f, Parse(f, t).value, DecimalValue(k)))
  {
    var s := t + "/" + k;
    assert s == t + ['/'] + k && s[|t|] == '/';
    SplitOnceAt(t, '/', k);
    assert '#' in s ==> f != Dow;
    SlashBranch(f, s);
  }

  /** `L/k` on the day-of-month field is `L` again whatever the step, once the step is read. */
  lemma LastStepped(k: string)
    requires ',' !in k
    ensures Parse(Day, "L/" + k) == if ParseInt(k, 1).Ok? then Ok({Last}) else Err(BadValue(k))
  {
    LastOnDays();
    assert "L/" + k == "L" + "/" + k;
    StepTerm(Day, "L", k);
  }

  lemma Quarters()
    ensures (set x | 0 <= x <= 59 && OnStep(x, 0, 15)) == {0, 15, 30, 45}
  {
    var m := set x | 0 <= x <= 59 && OnStep(x, 0, 15);
    forall x | x in m
      ensures x in {0, 15, 30, 45}
    {
      Calendar.DivModUnique(x, 15, x / 15, 0);
    }
    forall x | x in {0, 15, 30, 45}
      ensures x in m
    {
      Calendar.DivModUnique(x, 15, x / 15, 0);
    }
  }

  lemma FromFiveByFifteen()
    ensures (set x | 5 <= x <= 59 && OnStep(x, 5, 15)) == {5, 20, 35, 50}
  {
    var m := set x | 5 <= x <= 59 && OnStep(x, 5, 15);
    forall x | x in m
      ensures x in {5, 20, 35, 50}
    {
      Calendar.DivModUnique(x - 5, 15, (x - 5) / 15, 0);
    }
    forall x | x in {5, 20, 35, 50}
      ensures x in m
    {
      Calendar.DivModUnique(x - 5, 15, (x - 5) / 15, 0);
    }
  }

  lemma EvenToTen()
    ensures (set x | 0 <= x <= 10 && OnStep(x, 0, 2)) == {0, 2, 4, 6, 8, 10}
  {
    var m := set x | 0 <= x <= 10 && OnStep(x, 0, 2);
    forall x | x in m
      ensures x in {0, 2, 4, 6, 8, 10}
    {
      Calendar.DivModUnique(x, 2, x / 2, 0);
    }
    forall x | x in {0, 2, 4, 6, 8, 10}
      ensures x in m
    {
      Calendar.DivModUnique(x, 2, x / 2, 0);
    }
  }

  lemma FromFiveByTen()
    ensures (set x | 5 <= x <= 59 && OnStep(x, 5, 10)) == {5, 15, 25, 35, 45, 55}
  {
    var m := set x | 5 <= x <= 59 && OnStep(x, 5, 10);
    forall x | x in m
      ensures x in {5, 15, 25, 35, 45, 55}
    {
      Calendar.DivModUnique(x - 5, 10, (x - 5) / 10, 0);
    }
    forall x | x in {5, 15, 25, 35, 45, 55}
      ensures x in m
    {
      Calendar.DivModUnique(x - 5, 10, (x - 5) / 10, 0);
    }
  }

  // `*/15` on the minute field is the quarter hours.
  lemma QuarterHours()
    ensures Parse(Minute, "*/15") == Ok(Lift({0, 15, 30, 45}))
  {
    var s, t, k := "*/15", "*", "15";
    assert s == t + "/" + k;
    assert AllDigits(k) && DecimalValue(k) == 15;
    assert ParseInt(k, 1) == Ok(15);
    StarIsWhole(Minute);
    assert Parse(Minute, t) == Ok(Span(0, 59));
    StepTerm(Minute, t, k);
    assert Parse(Minute, s) == Ok(Stepped(Minute, Span(0, 59), 15));
    SteppedSpan(Minute, 0, 59, 15);
    Quarters();
  }

  // A single start value steps on to the end of the domain: `5/15` on the minute field.
  lemma SingleValueSteps()
    ensures Parse(Minute, "5/15") == Ok(Lift({5, 20, 35, 50}))
  {
    var s, t, k := "5/15", "5", "15";
    assert s == t + "/" + k;
    assert AllDigits(k) && DecimalValue(k) == 15;
    assert ParseInt(k, 1) == Ok(15);
    NumberValue(Minute, 5);
    assert Decimal(5) == t;
    ValueBranch(Minute, t);
    SingleIsSpan(5);
    assert Parse(Minute, t) == Ok(Span(5, 5));
    StepTerm(Minute, t, k);
    SteppedSpan(Minute, 5, 5, 15);
    FromFiveByFifteen();
  }

  // A range stepped: `0-10/2` on the minute field.
  lemma RangeSteps()
    ensures Parse(Minute, "0-10/2") == Ok(Lift({0, 2, 4, 6, 8, 10}))
  {
    var s, t, k, a, b := "0-10/2", "0-10", "2", "0", "10";
    assert s == t + "/" + k && t == a + "-" + b;
    assert AllDigits(k) && DecimalValue(k) == 2;
    assert ParseInt(k, 1) == Ok(2);
    NumberValue(Minute, 0);
    NumberValue(Minute, 10);
    assert Decimal(0) == a && Decimal(10) == b;
    RangeTerm(Minute, a, b);
    assert Parse(Minute, t) == Ok(Span(0, 10));
    StepTerm(Minute, t, k);
    SteppedSpan(Minute, 0, 10, 2);
    EvenToTen();
  }

  // A range of one value steps like the value alone: `5-5/10` is not `{5}`.
  lemma OneValueRangeSteps()
    ensures Parse(Minute, "5-5/10") == Ok(Lift({5, 15, 25, 35, 45, 55}))
  {
    var s, t, k, a := "5-5/10", "5-5", "10", "5";
    assert s == t + "/" + k && t == a + "-" + a;
    assert AllDigits(k) && DecimalValue(k) == 10;
    assert ParseInt(k, 1) == Ok(10);
    NumberValue(Minute, 5);
    assert Decimal(5) == a;
    RangeTerm(Minute, a, a);
    assert Parse(Minute, t) == Ok(Span(5, 5));
    StepTerm(Minute, t, k);
    SteppedSpan(Minute, 5, 5, 10);
    FromFiveByTen();
  }

  // Two ranges joined: `1-3,7-9` on the minute field.
  lemma TwoRanges()
    ensures Parse(Minute, "1-3,7-9") == Ok(Lift({1, 2, 3, 7, 8, 9}))
  {
    var s, t, u := "1-3,7-9", "1-3", "7-9";
    assert s == t + "," + u;
    assert t == "1" + "-" + "3" && u == "7" + "-" + "9";
    NumberValue(Minute, 1);
    NumberValue(Minute, 3);
    NumberValue(Minute, 7);
    NumberValue(Minute, 9);
    assert Decimal(1) == "1" && Decimal(3) == "3" && Decimal(7) == "7" && Decimal(9) == "9";
    RangeTerm(Minute, "1", "3");
    RangeTerm(Minute, "7", "9");
    CommaList(Minute, t, u);
    TwoSpans();
  }

  lemma TwoSpans()
    ensures Span(1, 3) + Span(7, 9) == Lift({1, 2, 3, 7, 8, 9})
  {
    forall e
      ensures e in Span(1, 3) + Span(7, 9) <==> e in Lift({1, 2, 3, 7, 8, 9})
    {
    }
  }
}
