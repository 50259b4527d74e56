/**
 * The field grammar of a cron expression: one field's text is parsed into
 * the set of values that field accepts (`_int`, `Field.int`, `Field.parse`).
 */
module Fields {
  import opened Text

  /** The six fields, in the order of `RANGES`. */
  datatype Field = Minute | Hour | Day | Month | Dow | Second

  /** Smallest value of the field's domain in `RANGES`. */
  function Lo(f: Field): int
  {
    if f == Day || f == Month then 1 else 0
  }

  /** Largest value of the field's domain in `RANGES`. */
  function Hi(f: Field): int
  {
    match f
    case Minute => 59
    case Hour => 23
    case Day => 31
    case Month => 12
    case Dow => 6
    case Second => 59
  }

  /**
   * One accepted value. `Last` stands for the `LAST = 1000` sentinel of the
   * day-of-month field and `Nth(weekday, nth)` for the `(weekday, nth)` pairs
   * of the day-of-week field.
   */
  datatype Entry = Value(n: int) | Last | Nth(weekday: int, nth: int)

  /** What an entry parsed for field `f` can be. */
  predicate Fits(f: Field, e: Entry)
  {
    match e
    case Value(n) => Lo(f) <= n <= Hi(f)
    case Last => f == Day
    case Nth(w, k) => f == Dow && 0 <= w <= 6 && 1 <= k <= 99
  }

  function Lift(vs: set<int>): (r: set<Entry>)
    ensures forall e :: e in r <==> e.Value? && e.n in vs
  {
    set v | v in vs :: Value(v)
  }

  /** The plain numbers among `items`. */
  function Values(items: set<Entry>): set<int>
  {
    set e | e in items && e.Value? :: e.n
  }

  /** `set(range(a, b + 1))` */
  function Span(a: int, b: int): (r: set<Entry>)
    ensures forall e :: e in r <==> e.Value? && a <= e.n <= b
    ensures a <= b ==> Value(a) in r
  {
    set v | a <= v <= b :: Value(v)
  }

  /** `RANGES[f]`, the field's whole domain. */
  function Whole(f: Field): (r: set<Entry>)
    ensures forall e :: e in r <==> e.Value? && Fits(f, e)
    ensures Value(Lo(f)) in r && Value(Hi(f)) in r
  {
    Span(Lo(f), Hi(f))
  }

  /** The ways a cron expression is rejected (`CronSimError`). */
  datatype CronError = BadValue(token: string) | ReversedRange | WrongFieldCount

  datatype Result<T> = Ok(value: T) | Err(error: CronError)

  /** `SYMBOLIC_MONTHS` */
  const MonthNames: seq<string> := ["JAN", "FEB", "MAR", "APR", "MAY", "JUN", "JUL", "AUG", "SEP", "OCT", "NOV", "DEC"]

  /** `SYMBOLIC_DAYS` */
  const DayNames: seq<string> := ["SUN", "MON", "TUE", "WED", "THU", "FRI", "SAT"]

  /** `names.index(x)` */
  function Position(names: seq<string>, x: string): (i: nat)
    requires x in names
    ensures i < |names| && names[i] == x && x !in names[..i]
  {
    if names[0] == x then 0 else 1 + Position(names[1..], x)
  }

  /** `_int(s, minValue)`: one or two decimal digits whose value is at least `minValue`. */
  function ParseInt(s: string, minValue: int): (r: Result<int>)
    ensures r.Ok? <==> 1 <= |s| <= 2 && AllDigits(s) && DecimalValue(s) >= minValue
    ensures r.Ok? ==> r.value == DecimalValue(s) && minValue <= r.value <= 99
    ensures r.Err? ==> r.error == BadValue(s)
  {
    if !AllDigits(s) || |s| > 2 then Err(BadValue(s))
    else
      var v := DecimalValue(s);
      if v < minValue then Err(BadValue(s)) else Ok(v)
  }

  /** `s` is one of the field's symbolic names, in any letter case. */
  predicate IsName(f: Field, s: string)
  {
    (f == Month && Upper(s) in MonthNames) || (f == Dow && Upper(s) in DayNames)
  }

  /** `Field.int`: a symbolic name, or a number inside the field's domain. */
  function FieldValue(f: Field, s: string): (r: Result<int>)
    ensures r.Ok? ==> Lo(f) <= r.value <= Hi(f)
    ensures r.Ok? <==> IsName(f, s) || (ParseInt(s, 0).Ok? && Lo(f) <= ParseInt(s, 0).value <= Hi(f))
    ensures r.Ok? && !IsName(f, s) ==> r == ParseInt(s, 0)
    ensures r.Err? ==> r.error.BadValue?
  {
    if f == Month && Upper(s) in MonthNames then Ok(Position(MonthNames, Upper(s)) + 1)
    else if f == Dow && Upper(s) in DayNames then Ok(Position(DayNames, Upper(s)))
    else
      match ParseInt(s, 0)
      case Err(e) => Err(e)
      case Ok(v) => if Lo(f) <= v <= Hi(f) then Ok(v) else Err(BadValue(s))
  }

  /** The numbers of `vals` within [lo, hi], in ascending order: `sorted(...)`. */
  function Ascending(vals: set<int>, lo: int, hi: int): (r: seq<int>)
    ensures forall i, j :: 0 <= i < j < |r| ==> r[i] < r[j]
    ensures forall x :: x in r <==> x in vals && lo <= x <= hi
    decreases hi - lo + 1
  {
    if lo > hi then []
    else
      var rest := Ascending(vals, lo + 1, hi);
      assert forall j :: 0 <= j < |rest| ==> rest[j] in rest && lo < rest[j];
      (if lo in vals then [lo] else []) + rest
  }

  /** `range(a, b + 1)` as a sequence. */
  function Interval(a: int, b: int): (r: seq<int>)
    requires a <= b + 1
    ensures |r| == b - a + 1 && forall i :: 0 <= i < |r| ==> r[i] == a + i
    ensures forall x :: x in r <==> a <= x <= b
  {
    var r := seq(b - a + 1, i requires 0 <= i < b - a + 1 => a + i);
    forall x | a <= x <= b ensures x in r {
      var i := x - a;
      assert r[i] == x;
    }
    r
  }

  /** `set(xs[::step])`: the elements at indices 0, step, 2*step, ... */
  function Every(step: int, xs: seq<int>): (r: set<int>)
    requires step >= 1
    ensures forall x :: x in r ==> x in xs
    ensures |xs| > 0 ==> xs[0] in r
  {
    set i | 0 <= i < |xs| && i % step == 0 :: xs[i]
  }

  /**
   * The `term/step` branch of `Field.parse` once `term` has given `items`:
   * `[LAST]` is kept; a single start value runs on to the field's maximum;
   * otherwise every `step`-th value of the sorted items is kept.
   */
  function Stepped(f: Field, items: set<Entry>, step: int): (r: set<Entry>)
    requires step >= 1 && items != {}
    requires forall e :: e in items ==> Fits(f, e) && !e.Nth?
    requires Last in items ==> items == {Last}
    ensures r != {} && forall e :: e in r ==> Fits(f, e) && !e.Nth?
    ensures Last in r ==> r == {Last}
    ensures items == {Last} ==> r == {Last}
    ensures Last in r <==> items == {Last}
  {
    if items == {Last} then items
    else
      var sorted := Ascending(Values(items), Lo(f), Hi(f));
      assert sorted != [] by {
        var e :| e in items;
        assert Fits(f, e) && e != Last && e.Value?;
        assert Lo(f) <= e.n <= Hi(f);
        assert e.n in Values(items);
        assert e.n in sorted;
      }
      assert sorted[0] in sorted;
      if |sorted| == 1 then Lift(Every(step, Interval(sorted[0], Hi(f))))
      else Lift(Every(step, sorted))
  }

  /** The `term#nth` branch of `Field.parse` on the day-of-week field. */
  function ParseNth(term: string, nthText: string): (r: Result<set<Entry>>)
    ensures r.Err? ==> r.error.BadValue?
    ensures r.Ok? <==> ParseInt(nthText, 1).Ok? && FieldValue(Dow, term).Ok?
    ensures r.Ok? ==> r.value == {Nth(FieldValue(Dow, term).value, DecimalValue(nthText))}
    ensures r.Ok? ==> exists w, k :: r.value == {Nth(w, k)} && 0 <= w <= 6 && 1 <= k <= 99
  {
    match ParseInt(nthText, 1)
    case Err(e) => Err(e)
    case Ok(nth) =>
      match FieldValue(Dow, term)
      case Err(e) => Err(e)
      case Ok(w) => Ok({Nth(w, nth)})
  }

  /** The `start-end` branch of `Field.parse`. */
  function ParseRange(f: Field, startText: string, endText: string): (r: Result<set<Entry>>)
    ensures r.Err? ==> r.error != WrongFieldCount
    ensures r.Ok? ==> r.value != {} && forall e :: e in r.value ==> e.Value? && Lo(f) <= e.n <= Hi(f)
    ensures r.Ok? <==> (FieldValue(f, startText).Ok? && FieldValue(f, endText).Ok?
      && FieldValue(f, startText).value <= FieldValue(f, endText).value)
    ensures r.Ok? ==> r.value == Span(FieldValue(f, startText).value, FieldValue(f, endText).value)
    ensures r == Err(ReversedRange) <==> (FieldValue(f, startText).Ok? && FieldValue(f, endText).Ok?
      && FieldValue(f, endText).value < FieldValue(f, startText).value)
  {
    match FieldValue(f, startText)
    case Err(e) => Err(e)
    case Ok(start) =>
      match FieldValue(f, endText)
      case Err(e) => Err(e)
      case Ok(end) =>
        if end < start then Err(ReversedRange)
        else
          assert Value(start) in Span(start, end);
          Ok(Span(start, end))
  }

  /**
   * `Field.parse`. The branches are tried in the source's order: `*`, a
   * comma list, `term#nth` (day-of-week only), `term/step`, `start-end`,
   * `L` (day-of-month only), and a single value.
   */
  function Parse(f: Field, s: string): (r: Result<set<Entry>>)
    ensures r.Ok? ==> r.value != {} && forall e :: e in r.value ==> Fits(f, e)
    ensures r.Ok? && '#' !in s ==> forall e :: e in r.value ==> !e.Nth?
    ensures r.Ok? && Last in r.value ==> r.value == {Last} || ',' in s
    ensures r.Err? ==> r.error != WrongFieldCount
    decreases |s|, 1
  {
    if s == "*" then
      assert Value(Lo(f)) in Whole(f);
      Ok(Whole(f))
    else if ',' in s then ParseList(f, s)
    else if '#' in s && f == Dow then
      var (term, nthText) := SplitOnce(s, '#');
      ParseNth(term, nthText)
    else if '/' in s then ParseSlash(f, s)
    else if '-' in s then
      var (startText, endText) := SplitOnce(s, '-');
      ParseRange(f, startText, endText)
    else if f == Day && (s == "L" || s == "l") then Ok({Last})
    else
      match FieldValue(f, s)
      case Err(e) => Err(e)
      case Ok(v) => Ok({Value(v)})
  }

  /** The `term/step` branch of `Field.parse`: the step, then the term, then `Stepped`. */
  function ParseSlash(f: Field, s: string): (r: Result<set<Entry>>)
    requires '/' in s && ',' !in s && !('#' in s && f == Dow)
    ensures r.Ok? ==> r.value != {} && forall e :: e in r.value ==> Fits(f, e) && !e.Nth?
    ensures r.Ok? && Last in r.value ==> r.value == {Last}
    ensures r.Err? ==> r.error != WrongFieldCount
    decreases |s|, 0
  {
    var (term, stepText) := SplitOnce(s, '/');
    match ParseInt(stepText, 1)
    case Err(e) => Err(e)
    case Ok(step) =>
      match Parse(f, term)
      case Err(e) => Err(e)
      case Ok(items) => Ok(Stepped(f, items, step))
  }

  /** The comma-list branch of `Field.parse`: every term is parsed, then the results are joined. */
  function ParseList(f: Field, s: string): (r: Result<set<Entry>>)
    requires ',' in s
    ensures r.Ok? ==> r.value != {} && forall e :: e in r.value ==> Fits(f, e)
    ensures r.Ok? && '#' !in s ==> forall e :: e in r.value ==> !e.Nth?
    ensures r.Err? ==> r.error != WrongFieldCount
    decreases |s|, 0
  {
    var terms := Split(s, ',');
    var results := seq(|terms|, k requires 0 <= k < |terms| => Parse(f, terms[k]));
    assert forall k :: 0 <= k < |terms| ==> results[k] == Parse(f, terms[k]);
    var r := Union(results);
    if r.Ok? then
      var e :| e in results[0].value;
      assert e in r.value;
      r
    else r
  }

  /**
   * The comma-list loop of `Field.parse` over the terms' results: the union
   * of their sets, or the first term's error.
   */
  function Union(results: seq<Result<set<Entry>>>): (r: Result<set<Entry>>)
    ensures r.Ok? <==> forall k :: 0 <= k < |results| ==> results[k].Ok?
    ensures r.Ok? ==> forall e :: e in r.value <==> exists k :: 0 <= k < |results| && results[k].Ok? && e in results[k].value
    ensures r.Err? ==> exists k :: 0 <= k < |results| && r == results[k] && forall j :: 0 <= j < k ==> results[j].Ok?
  {
    if results == [] then Ok({})
    else
      match results[0]
      case Err(e) => Err(e)
      case Ok(head) =>
        var rest := Union(results[1..]);
        assert forall k :: 0 <= k < |results[1..]| ==> results[1..][k] == results[k + 1];
        match rest
        case Err(e) => Err(e)
        case Ok(tail) => Ok(head + tail)
  }
}
