/**
 * The string operations the cron parser relies on: `str.isdigit`,
 * `int(...)` on short digit strings, `str.upper`, `str.split(sep)`,
 * `str.split(sep, maxsplit=1)` and the whitespace-splitting `str.split()`.
 * Only ASCII digits, letters and whitespace are modelled.
 */
module Text {

  predicate IsDigit(c: char)
  {
    '0' <= c <= '9'
  }

  /** `str.isdigit()` on ASCII text: non-empty and made of digits. */
  predicate AllDigits(s: string)
  {
    |s| > 0 && forall i :: 0 <= i < |s| ==> IsDigit(s[i])
  }

  function DigitValue(c: char): (v: int)
    requires IsDigit(c)
    ensures 0 <= v <= 9
  {
    c as int - '0' as int
  }

  function DigitChar(v: int): (c: char)
    requires 0 <= v <= 9
    ensures IsDigit(c) && DigitValue(c) == v
  {
    ('0' as int + v) as char
  }

  function Pow10(n: nat): nat
  {
    if n == 0 then 1 else 10 * Pow10(n - 1)
  }

  /** `int(s)` for a string of decimal digits. */
  function DecimalValue(s: string): (v: nat)
    requires forall i :: 0 <= i < |s| ==> IsDigit(s[i])
    ensures v < Pow10(|s|)
    decreases |s|
  {
    if s == [] then 0 else 10 * DecimalValue(s[..|s| - 1]) + DigitValue(s[|s| - 1])
  }

  /** `str(n)` for 0 <= n <= 99. */
  function Decimal(n: int): (s: string)
    requires 0 <= n <= 99
  {
    if n < 10 then [DigitChar(n)] else [DigitChar(n / 10), DigitChar(n % 10)]
  }

  /** Reading back a written number gives the number. */
  lemma DecimalRoundTrip(n: int)
    requires 0 <= n <= 99
    ensures 1 <= |Decimal(n)| <= 2 && AllDigits(Decimal(n))
    ensures DecimalValue(Decimal(n)) == n
  {
    var s := Decimal(n);
    if n >= 10 {
      assert s[..1] == [DigitChar(n / 10)];
    } else {
      assert s[..0] == [];
    }
  }

  /** A one- or two-digit string is `str` of its value, or that with one leading zero. */
  lemma DecimalCanonical(s: string)
    requires 1 <= |s| <= 2 && AllDigits(s)
    ensures DecimalValue(s) <= 99
    ensures s == Decimal(DecimalValue(s)) || (s[0] == '0' && s[1..] == Decimal(DecimalValue(s)))
  {
    assert s[..0] == [];
    var d0 := DigitValue(s[0]);
    assert DigitChar(d0) == s[0];
    if |s| == 2 {
      assert s[..1] == [s[0]];
      var d1 := DigitValue(s[1]);
      assert DigitChar(d1) == s[1];
      assert DecimalValue(s) == 10 * d0 + d1;
      if d0 == 0 {
        assert s[1..] == [s[1]] == Decimal(d1);
      } else {
        assert (10 * d0 + d1) / 10 == d0 && (10 * d0 + d1) % 10 == d1;
        assert s == [s[0], s[1]];
      }
    } else {
      assert s == [s[0]];
    }
  }

  predicate IsSpace(c: char)
  {
    c == ' ' || 9 <= c as int <= 13 || 28 <= c as int <= 31
  }

  /** What `str.upper()` does to ASCII letters; every other character is kept. */
  function UpperChar(c: char): char
  {
    if 'a' <= c <= 'z' then (c as int - 32) as char else c
  }

  function LowerChar(c: char): char
  {
    if 'A' <= c <= 'Z' then (c as int + 32) as char else c
  }

  function Upper(s: string): (r: string)
    ensures |r| == |s| && forall i :: 0 <= i < |s| ==> r[i] == UpperChar(s[i])
  {
    seq(|s|, i requires 0 <= i < |s| => UpperChar(s[i]))
  }

  function Lower(s: string): (r: string)
    ensures |r| == |s| && forall i :: 0 <= i < |s| ==> r[i] == LowerChar(s[i])
  {
    seq(|s|, i requires 0 <= i < |s| => LowerChar(s[i]))
  }

  /** The index of the first `c` in `s`. */
  function IndexOf(s: string, c: char): (i: nat)
    requires c in s
    ensures i < |s| && s[i] == c && c !in s[..i]
  {
    if s[0] == c then 0 else 1 + IndexOf(s[1..], c)
  }

  /** `s.split(c, maxsplit=1)` when `c` occurs in `s`. */
  function SplitOnce(s: string, c: char): (r: (string, string))
    requires c in s
    ensures r.0 + [c] + r.1 == s && c !in r.0
  {
    var i := IndexOf(s, c);
    assert s == s[..i] + [c] + s[i + 1..];
    (s[..i], s[i + 1..])
  }

  /** The pieces joined back with `c` between them: `c.join(ps)`. */
  function Join(ps: seq<string>, c: char): string
    requires |ps| >= 1
  {
    if |ps| == 1 then ps[0] else ps[0] + [c] + Join(ps[1..], c)
  }

  /** `s.split(c)`: the maximal pieces of `s` between occurrences of `c`, empty ones included. */
  function Split(s: string, c: char): (r: seq<string>)
    ensures |r| >= 1 && Join(r, c) == s
    ensures forall k :: 0 <= k < |r| ==> c !in r[k]
    ensures forall k :: 0 <= k < |r| ==> |r[k]| <= |s| && (c in s ==> |r[k]| < |s|)
    ensures forall k, x :: 0 <= k < |r| && x in r[k] ==> x in s
    decreases |s|
  {
    if c !in s then [s]
    else
      var (head, tail) := SplitOnce(s, c);
      [head] + Split(tail, c)
  }

  /** Splitting undoes joining. */
  lemma {:induction false} SplitJoin(ps: seq<string>, c: char)
    requires |ps| >= 1 && forall k :: 0 <= k < |ps| ==> c !in ps[k]
    ensures Split(Join(ps, c), c) == ps
  {
    if |ps| > 1 {
      var s := Join(ps, c);
      assert c in s by { assert s[|ps[0]|] == c; }
      var i := IndexOf(s, c);
      assert s[..|ps[0]|] == ps[0];
      assert s[i + 1..] == Join(ps[1..], c);
      SplitJoin(ps[1..], c);
    }
  }

  /** A non-empty run of non-whitespace characters. */
  predicate IsWord(w: string)
  {
    |w| > 0 && forall i :: 0 <= i < |w| ==> !IsSpace(w[i])
  }

  /** The length of the run of non-whitespace characters that starts `s`. */
  function WordLength(s: string): (n: nat)
    ensures n <= |s| && (forall i :: 0 <= i < n ==> !IsSpace(s[i]))
    ensures n < |s| ==> IsSpace(s[n])
  {
    if s == [] || IsSpace(s[0]) then 0 else 1 + WordLength(s[1..])
  }

  /** `s.split()`: the words of `s`, whitespace runs dropped. */
  function Words(s: string): (r: seq<string>)
    ensures forall k :: 0 <= k < |r| ==> IsWord(r[k])
    decreases |s|
  {
    if s == [] then []
    else if IsSpace(s[0]) then Words(s[1..])
    else
      var n := WordLength(s);
      [s[..n]] + Words(s[n..])
  }

  /** The words joined with single spaces: `" ".join(ws)`. */
  function Unwords(ws: seq<string>): string
  {
    if ws == [] then "" else if |ws| == 1 then ws[0] else ws[0] + " " + Unwords(ws[1..])
  }

  lemma {:induction false} WordLengthOfWord(w: string, rest: string)
    requires IsWord(w) && (rest == [] || IsSpace(rest[0]))
    ensures WordLength(w + rest) == |w|
    decreases |w|
  {
    if |w| > 1 {
      assert (w + rest)[1..] == w[1..] + rest;
      WordLengthOfWord(w[1..], rest);
    } else {
      assert (w + rest)[1..] == rest;
    }
  }

  /** Splitting on whitespace undoes joining with single spaces. */
  lemma {:induction false} WordsUnwords(ws: seq<string>)
    requires forall k :: 0 <= k < |ws| ==> IsWord(ws[k])
    ensures Words(Unwords(ws)) == ws
  {
    if |ws| == 1 {
      WordLengthOfWord(ws[0], []);
      assert ws[0][..|ws[0]|] == ws[0];
      assert ws[0][|ws[0]|..] == [];
    } else if |ws| > 1 {
      var s := Unwords(ws);
      var rest := " " + Unwords(ws[1..]);
      assert s == ws[0] + rest;
      WordLengthOfWord(ws[0], rest);
      assert s[..|ws[0]|] == ws[0];
      assert s[|ws[0]|..] == rest;
      assert rest[1..] == Unwords(ws[1..]);
      WordsUnwords(ws[1..]);
    }
  }

  /** A run of whitespace, possibly empty. */
  predicate AllSpace(s: string)
  {
    forall i :: 0 <= i < |s| ==> IsSpace(s[i])
  }

  /** The words `ws` with the whitespace run `gaps[k]` before word `k` and `gaps[|ws|]` after the last. */
  function Spaced(ws: seq<string>, gaps: seq<string>): string
    requires |gaps| == |ws| + 1
  {
    if ws == [] then gaps[0] else gaps[0] + ws[0] + Spaced(ws[1..], gaps[1..])
  }

  /** Leading whitespace does not change the words. */
  lemma {:induction false} SkipSpaces(sp: string, s: string)
    requires AllSpace(sp)
    ensures Words(sp + s) == Words(s)
  {
    if sp != [] {
      assert (sp + s)[0] == sp[0] && IsSpace(sp[0]);
      assert (sp + s)[1..] == sp[1..] + s;
      SkipSpaces(sp[1..], s);
    } else {
      assert sp + s == s;
    }
  }

  /** A word followed by whitespace or by nothing is the first word. */
  lemma WordThenRest(w: string, rest: string)
    requires IsWord(w) && (rest == [] || IsSpace(rest[0]))
    ensures Words(w + rest) == [w] + Words(rest)
  {
    WordLengthOfWord(w, rest);
    assert (w + rest)[..|w|] == w;
    assert (w + rest)[|w|..] == rest;
  }

  /**
   * Splitting on whitespace undoes any spacing: runs of any whitespace
   * characters between the words, and optional runs before and after them.
   */
  lemma {:induction false} WordsSpaced(ws: seq<string>, gaps: seq<string>)
    requires |gaps| == |ws| + 1
    requires forall k :: 0 <= k < |ws| ==> IsWord(ws[k])
    requires forall k :: 0 <= k < |gaps| ==> AllSpace(gaps[k])
    requires forall k :: 0 < k < |ws| ==> gaps[k] != []
    ensures Words(Spaced(ws, gaps)) == ws
  {
    if ws == [] {
      SkipSpaces(gaps[0], []);
      assert gaps[0] + [] == gaps[0];
    } else {
      var rest := Spaced(ws[1..], gaps[1..]);
      assert AllSpace(gaps[1]);
      assert rest == [] || IsSpace(rest[0]) by {
        if |ws| > 1 {
          assert gaps[1] != [];
          assert rest[0] == gaps[1][0];
        }
      }
      assert Spaced(ws, gaps) == gaps[0] + (ws[0] + rest);
      SkipSpaces(gaps[0], ws[0] + rest);
      WordThenRest(ws[0], rest);
      WordsSpaced(ws[1..], gaps[1..]);
    }
  }

  /** Tabs and repeated spaces separate words like a single space. */
  lemma WordsExample()
    ensures Words(" a\tb  ") == ["a", "b"]
  {
    assert " a\tb  " == Spaced(["a", "b"], [" ", "\t", "  "]);
    WordsSpaced(["a", "b"], [" ", "\t", "  "]);
  }
}
