/** How bc writes numbers: digits, the point, and lines that are continued. */
module NumberText {

  // ---- digits ----

  predicate IsDigit(c: char)
  {
    '0' <= c <= '9' || 'A' <= c <= 'F'
  }

  /** The value of a digit. */
  function DigitOf(c: char): (d: nat)
    requires IsDigit(c)
    ensures d < 16
  {
    if '0' <= c <= '9' then c as int - '0' as int else c as int - 'A' as int + 10
  }

  function DigitChar(d: nat): (c: char)
    requires d < 16
    ensures IsDigit(c) && DigitOf(c) == d && (d < 10 <==> c <= '9')
  {
    if d < 10 then (d + '0' as int) as char else (d - 10 + 'A' as int) as char
  }

  predicate AllDigits(s: string)
  {
    forall i :: 0 <= i < |s| ==> IsDigit(s[i])
  }

  predicate AllDecimal(s: string)
  {
    forall i :: 0 <= i < |s| ==> '0' <= s[i] <= '9'
  }

  /** A digit before the point that is alone has its face value; all others count at most base - 1. */
  function Face(c: char, base: nat, single: bool): (d: nat)
    requires IsDigit(c) && base >= 2
    ensures d < 16
  {
    var d := DigitOf(c);
    if !single && d >= base then base - 1 else d
  }

  /** The whole number that digits stand for, first digit first. */
  ghost function Horner(s: string, base: nat, single: bool): nat
    requires AllDigits(s) && base >= 2
  {
    if s == [] then 0 else Horner(s[..|s| - 1], base, single) * base + Face(s[|s| - 1], base, single)
  }

  /** Where the point is, or the end. */
  function PointAt(s: string): (p: nat)
    ensures p <= |s| && (p < |s| ==> s[p] == '.') && forall i :: 0 <= i < p ==> s[i] != '.'
  {
    if s == [] || s[0] == '.' then 0 else 1 + PointAt(s[1..])
  }

  function Whole(s: string): string
  {
    s[..PointAt(s)]
  }

  function Fraction(s: string): string
  {
    if PointAt(s) < |s| then s[PointAt(s) + 1..] else []
  }

  /** What the scanner takes for a number. */
  predicate IsToken(s: string)
  {
    AllDigits(Whole(s)) && AllDigits(Fraction(s)) && |Whole(s)| + |Fraction(s)| > 0
  }

  /** One digit before the point, or nothing else. */
  predicate IsSingle(s: string)
  {
    |Whole(s)| == 1
  }

  // ---- decimal text ----

  /** Digits with the least significant first. */
  ghost function DecVal(s: string): nat
    requires AllDecimal(s)
  {
    if s == [] then 0 else DigitOf(s[0]) + 10 * DecVal(s[1..])
  }

  /** The decimal digits of m, least significant first: all that matter, and at least so many. */
  function DecimalDigits(m: nat, least: nat): (s: string)
    ensures |s| >= least
    decreases m + least
  {
    if m == 0 && least == 0 then [] else [DigitChar(m % 10)] + DecimalDigits(m / 10, if least > 0 then least - 1 else 0)
  }

  lemma {:induction false} DecimalDigitsRead(m: nat, least: nat)
    ensures AllDecimal(DecimalDigits(m, least)) && DecVal(DecimalDigits(m, least)) == m
    decreases m + least
  {
    if m > 0 || least > 0 {
      var rest := if least > 0 then least - 1 else 0;
      DecimalDigitsRead(m / 10, rest);
      assert DecimalDigits(m, least)[1..] == DecimalDigits(m / 10, rest);
    }
  }

  /** Digits that stand for m, without needless zeros, are the digits of m. */
  lemma {:induction false} DecimalDigitsUnique(s: string, m: nat, least: nat)
    requires AllDecimal(s) && DecVal(s) == m && |s| >= least && (|s| > least ==> s[|s| - 1] != '0')
    ensures s == DecimalDigits(m, least)
    decreases |s|
  {
    if s == [] {
      assert m == 0;
    } else {
      var rest := if least > 0 then least - 1 else 0;
      var t := s[1..];
      if |s| > least && t == [] {
        assert m == DigitOf(s[0]) > 0;
      }
      if m == 0 && least == 0 {
        ZeroDigits(s);
      }
      assert m % 10 == DigitOf(s[0]) && m / 10 == DecVal(t);
      assert |t| > 0 ==> t[|t| - 1] == s[|s| - 1];
      DecimalDigitsUnique(t, m / 10, rest);
      assert s == [s[0]] + t;
      CharFromDigit(s[0]);
    }
  }

  lemma {:induction false} CharFromDigit(c: char)
    requires '0' <= c <= '9'
    ensures DigitChar(DigitOf(c)) == c
  {
  }

  lemma {:induction false} ZeroDigits(s: string)
    requires AllDecimal(s) && DecVal(s) == 0 && s != []
    ensures s[|s| - 1] == '0'
  {
    if |s| > 1 {
      ZeroDigits(s[1..]);
    } else {
      CharFromDigit(s[0]);
    }
  }

  /** Characters from the top down. */
  function Descend(s: string, lo: nat, hi: nat): string
    requires lo <= hi <= |s|
  {
    if hi == lo then [] else [s[hi - 1]] + Descend(s, lo, hi - 1)
  }

  /** The digits with the point where the scale puts it. */
  function Layout(s: string, scale: nat): string
    requires scale <= |s|
  {
    Descend(s, scale, |s|) + if scale > 0 then ['.'] + Descend(s, 0, scale) else []
  }

  // ---- continued lines ----

  /** strip_continuations: a backslash before the end of a line, and the end of the line, are dropped. */
  function Stripped(s: string): string
  {
    if s == [] then []
    else if s[0] == '\\' && |s| > 1 && s[1] == '\n' then Stripped(s[2..])
    else [s[0]] + Stripped(s[1..])
  }

  /** What a character becomes when the column before it is this. */
  function Put(column: int, length: int, c: char): string
  {
    if length > 1 && column + 1 == length - 1 then ['\\', '\n', c] else [c]
  }

  function NextColumn(column: int, length: int): int
  {
    if length > 1 && column + 1 == length - 1 then 1 else column + 1
  }

  /** Characters written from a column on. */
  function Continued(column: int, length: int, s: string): string
    decreases |s|
  {
    if s == [] then [] else Put(column, length, s[0]) + Continued(NextColumn(column, length), length, s[1..])
  }

  function ColumnAfter(column: int, length: int, s: string): int
    decreases |s|
  {
    if s == [] then column else ColumnAfter(NextColumn(column, length), length, s[1..])
  }

  lemma {:induction false} ContinuedSnoc(column: int, length: int, s: string, c: char)
    ensures Continued(column, length, s + [c]) == Continued(column, length, s) + Put(ColumnAfter(column, length, s), length, c)
    ensures ColumnAfter(column, length, s + [c]) == NextColumn(ColumnAfter(column, length, s), length)
    decreases |s|
  {
    if s == [] {
      assert s + [c] == [c];
      assert Put(column, length, c) + [] == Put(column, length, c);
    } else {
      ContinuedSnoc(NextColumn(column, length), length, s[1..], c);
      assert (s + [c])[1..] == s[1..] + [c];
      ConcatAssoc(Put(column, length, s[0]), Continued(NextColumn(column, length), length, s[1..]),
        Put(ColumnAfter(column, length, s), length, c));
    }
  }

  lemma {:induction false} ConcatAssoc(a: string, b: string, c: string)
    ensures (a + b) + c == a + (b + c)
  {
  }

  /** What a continued line was made from is got back. */
  lemma {:induction false} StripContinued(column: int, length: int, s: string)
    requires '\\' !in s
    ensures Stripped(Continued(column, length, s)) == s
    decreases |s|
  {
    if s != [] {
      var rest := Continued(NextColumn(column, length), length, s[1..]);
      var all := Continued(column, length, s);
      assert s[0] in s;
      StripContinued(NextColumn(column, length), length, s[1..]);
      StripPut(Put(column, length, s[0]), s[0], all, rest);
      assert s == [s[0]] + s[1..];
    }
  }

  lemma {:induction false} StripPut(put: string, c: char, all: string, rest: string)
    requires (put == [c] || put == ['\\', '\n', c]) && c != '\\' && all == put + rest
    ensures Stripped(all) == [c] + Stripped(rest)
  {
    if put == [c] {
      assert all[1..] == rest;
    } else {
      var tail := all[2..];
      assert tail == [c] + rest && tail[1..] == rest;
    }
  }
}
