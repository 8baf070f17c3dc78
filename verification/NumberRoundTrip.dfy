/** What bc writes in base ten it reads back. */
module NumberRoundTrip {
  import opened Limbs
  import opened Decimal
  import opened Fractions
  import opened Numbers
  import opened Powers
  import opened NumberText
  import opened NumberInput
  import opened NumberOutput

  // ---- digits ----

  lemma {:induction false} DescendDigits(s: string, lo: nat, hi: nat)
    requires lo <= hi <= |s| && AllDecimal(s)
    ensures AllDecimal(Descend(s, lo, hi)) && AllDigits(Descend(s, lo, hi)) && |Descend(s, lo, hi)| == hi - lo
  {
    if lo < hi {
      DescendDigits(s, lo, hi - 1);
    }
  }

  /** Removing the last character written is leaving out the lowest digit. */
  lemma {:induction false} DescendLast(s: string, lo: nat, hi: nat)
    requires lo < hi <= |s|
    ensures Descend(s, lo, hi) == Descend(s, lo + 1, hi) + [s[lo]]
  {
    if lo + 1 < hi {
      DescendLast(s, lo, hi - 1);
    } else {
      assert Descend(s, lo, hi) == [s[lo]] + Descend(s, lo, lo);
    }
  }

  lemma {:induction false} DecimalFace(c: char, single: bool)
    requires '0' <= c <= '9'
    ensures Face(c, 10, single) == DigitOf(c)
  {
  }

  /** Read from the top, digits stand for what they stand for from below. */
  lemma {:induction false} HornerDescend(s: string, lo: nat, hi: nat, single: bool)
    requires lo <= hi <= |s| && AllDecimal(s)
    ensures AllDigits(Descend(s, lo, hi)) && Horner(Descend(s, lo, hi), 10, single) == DecVal(s[lo..hi])
    decreases hi - lo
  {
    DescendDigits(s, lo, hi);
    if lo < hi {
      HornerDescend(s, lo + 1, hi, single);
      DescendLast(s, lo, hi);
      var t, d := Descend(s, lo + 1, hi), Descend(s, lo, hi);
      assert d[..|d| - 1] == t && d[|d| - 1] == s[lo];
      DecimalFace(s[lo], single);
      assert s[lo..hi][1..] == s[lo + 1..hi];
    }
  }

  lemma {:induction false} DecValSplit(s: string, n: nat)
    requires n <= |s| && AllDecimal(s)
    ensures DecVal(s) == DecVal(s[n..]) * Ten(n) + DecVal(s[..n])
  {
    if n == 0 {
      assert s[0..] == s && s[..0] == [];
    } else {
      DecValSplit(s[1..], n - 1);
      assert s[1..][n - 1..] == s[n..] && s[..n][1..] == s[1..][..n - 1];
      DigitBelow(DecVal(s[n..]), Ten(n - 1), Ten(n), DigitOf(s[0]), DecVal(s[..n][1..]));
    }
  }

  lemma {:induction false} DigitBelow(x: nat, t': nat, t: nat, d: nat, low: nat)
    requires t == 10 * t'
    ensures d + 10 * (x * t' + low) == x * t + (d + 10 * low)
  {
    assert x * (10 * t') == 10 * (x * t');
  }

  // ---- the text of a number ----

  /** A number that is not negative is written as a token of which the parts are known. */
  lemma {:induction false} LayoutParts(s: string, sc: nat)
    requires sc <= |s| && |s| > 0 && AllDecimal(s)
    ensures Whole(Layout(s, sc)) == Descend(s, sc, |s|) && Fraction(Layout(s, sc)) == Descend(s, 0, sc)
    ensures IsToken(Layout(s, sc)) && '\\' !in Layout(s, sc)
  {
    var w, f := Descend(s, sc, |s|), Descend(s, 0, sc);
    DescendDigits(s, sc, |s|);
    DescendDigits(s, 0, sc);
    PointAfter(w, f, sc > 0, Layout(s, sc));
  }

  lemma {:induction false} PointAfter(w: string, f: string, point: bool, s: string)
    requires AllDigits(w) && AllDigits(f) && (point <==> f != []) && |w| + |f| > 0
    requires s == w + if point then ['.'] + f else []
    ensures Whole(s) == w && Fraction(s) == f && IsToken(s) && '\\' !in s
  {
    assert forall i :: 0 <= i < |w| ==> s[i] == w[i];
    assert point ==> forall i :: 0 <= i < |f| ==> s[|w| + 1 + i] == f[i];
    PointIs(s, |w|);
    assert s[..|w|] == w;
    assert point ==> s[|w| + 1..] == f;
  }

  /** The text of a positive number is read as the number. */
  lemma {:induction false} TextIsRead(a: Num, r: Num)
    requires Valid(a) && Units(a) > 0 && IsToken(Text(a)) && IsRead(r, Text(a), 10)
    ensures r == a
  {
    var m, sc := Val(a.d), a.scale;
    var s := DecimalDigits(m, sc);
    PositiveText(a, s);
    SomeDigits(m, sc);
    hide Val, Valid, Ten, Layout, IsToken, IsRead, IsCut, DecVal, DecimalDigits, Text;
    DecimalDigitsRead(m, sc);
    LayoutIsCut(r, s, sc);
    ExactIsCut(a, m, Ten(sc));
    CutIsUnique(r, a, m, Ten(sc));
  }

  lemma {:induction false} PositiveText(a: Num, s: string)
    requires Valid(a) && Units(a) > 0 && s == DecimalDigits(Val(a.d), a.scale)
    ensures Text(a) == Layout(s, a.scale) && Units(a) == Val(a.d)
  {
    UnitsSign(a);
    hide Layout, DecimalDigits;
    assert [] + Layout(s, a.scale) == Layout(s, a.scale);
  }

  /** The number that digits with a point in them are read as. */
  lemma {:induction false} LayoutIsCut(r: Num, s: string, sc: nat)
    requires AllDecimal(s) && 0 < |s| && sc <= |s| && IsToken(Layout(s, sc)) && IsRead(r, Layout(s, sc), 10)
    ensures r.scale == sc && IsCut(r, DecVal(s), Ten(sc))
  {
    hide Ten, IntPow, Layout, Whole, Fraction, Horner, DecVal, IsToken, IsCut, IsSingle, Descend, AllDecimal;
    LayoutParts(s, sc);
    DescendDigits(s, 0, sc);
    TenIsPower(sc);
    HornerDescend(s, sc, |s|, IsSingle(Layout(s, sc)));
    HornerDescend(s, 0, sc, false);
    assert s[sc..|s|] == s[sc..] && s[0..sc] == s[..sc];
    DecValSplit(s, sc);
  }

  lemma {:induction false} SomeDigits(m: nat, sc: nat)
    requires m > 0
    ensures |DecimalDigits(m, sc)| > 0
  {
  }

  lemma {:induction false} TextIsToken(a: Num)
    requires Valid(a) && !a.neg
    ensures IsToken(Text(a)) && '\\' !in Text(a)
  {
    hide Layout, Whole, Fraction, DecimalDigits;
    if a.d == [] {
      PointAfter(['0'], [], false, Text(a));
    } else {
      UnitsSign(a);
      var m, sc := Val(a.d), a.scale;
      DecimalDigitsRead(m, sc);
      SomeDigits(m, sc);
      LayoutParts(DecimalDigits(m, sc), sc);
      assert [] + Layout(DecimalDigits(m, sc), sc) == Layout(DecimalDigits(m, sc), sc);
    }
  }

  /** Zero is written without its scale. */
  lemma {:induction false} ZeroIsRead(r: Num)
    requires IsToken(['0']) && IsRead(r, ['0'], 10)
    ensures r == Num(false, 0, [])
  {
    hide Truncates, Ten, Whole, Fraction;
    PointAfter(['0'], [], false, ['0']);
    assert Horner([], 10, false) == 0 && Horner([], 10, true) == 0;
    assert ['0'][..0] == [];
    assert Horner(['0'], 10, true) == 0;
    assert IntPow(10, 0) == 1;
    var zero := Num(false, 0, []);
    assert Val([]) == 0;
    ExactIsCut(zero, 0, 1);
    CutIsUnique(r, zero, 0, 1);
  }

  // ---- the sign ----

  ghost function Unsigned(s: string): string
  {
    if s != [] && s[0] == '-' then s[1..] else s
  }

  lemma {:induction false} TokenHasNoSign(s: string)
    requires IsToken(s)
    ensures s != [] && s[0] != '-'
  {
    assert s != [] && s[0] != '.' ==> Whole(s)[0] == s[0];
  }

  /** The sign is written before what the magnitude is written as. */
  lemma {:induction false} TextSign(a: Num)
    requires Valid(a)
    ensures Valid(a.(neg := false)) && Units(a.(neg := false)) == Val(a.d) && IsToken(Text(a.(neg := false)))
    ensures Text(a) == (if Units(a) < 0 then ['-'] else []) + Text(a.(neg := false)) && '\\' !in Text(a)
    ensures Unsigned(Text(a)) == Text(a.(neg := false))
  {
    hide Layout, DecimalDigits, Whole, Fraction, IsToken;
    var b := a.(neg := false);
    UnitsSign(a);
    TextIsToken(b);
    TokenHasNoSign(Text(b));
    if a.d != [] {
      var layout := Layout(DecimalDigits(Val(a.d), a.scale), a.scale);
      assert [] + layout == layout;
      assert (['-'] + layout)[1..] == layout;
    }
    assert [] + Text(b) == Text(b);
  }

  /** From any column and for any length of line, the sign is written just for a negative number, and
      the rest is read back as the magnitude, unless the number is a zero with a scale, and only then. */
  lemma {:induction false} ReadBack(a: Num, column: int, length: int, r: Num)
    requires Valid(a)
    ensures var t := Stripped(Continued(column, length, Text(a)));
      && t == (if Units(a) < 0 then ['-'] else []) + Unsigned(t) && IsToken(Unsigned(t)) && Unsigned(Unsigned(t)) == Unsigned(t)
      && (IsRead(r, Unsigned(t), 10) ==> (r == a.(neg := false) <==> (a.d != [] || a.scale == 0)))
  {
    hide Truncates, Ten, Whole, Fraction, IsRead, IsToken, Continued, Stripped, Text;
    var b := a.(neg := false);
    TextSign(a);
    TokenHasNoSign(Text(b));
    StripContinued(column, length, Text(a));
    if IsRead(r, Text(b), 10) {
      ReadBackMagnitude(b, r);
    }
  }

  lemma {:induction false} ReadBackMagnitude(a: Num, r: Num)
    requires Valid(a) && !a.neg && IsToken(Text(a)) && IsRead(r, Text(a), 10)
    ensures r == a <==> (a.d != [] || a.scale == 0)
  {
    hide Truncates, Ten, Whole, Fraction, IsRead, IsToken;
    if a.d == [] {
      ZeroIsRead(r);
    } else {
      UnitsSign(a);
      TextIsRead(a, r);
    }
  }

  /** A number is written, its lines are joined, and it is read again, its sign as the operator. */
  method WriteAndRead(a: Num, o: Output) returns (r: Num)
    requires Valid(a) && o.written == []
    modifies o
    ensures r == a <==> (a.d != [] || a.scale == 0)
  {
    hide Truncates, Ten, Whole, Fraction, IsRead, IsToken, Continued, Stripped, Text;
    ghost var column := o.column;
    Print(o, a);
    assert [] + Continued(column, o.lineLength, Text(a)) == Continued(column, o.lineLength, Text(a));
    var s := StripContinuations(o.written);
    ReadBack(a, column, o.lineLength, a);
    var signed := |s| > 0 && s[0] == '-';
    if signed {
      s := s[1..];
    }
    r := Parse(s, 10);
    ReadBack(a, column, o.lineLength, r);
    UnitsSign(a);
    ReadIsValid(r, s);
    if signed {
      var m := r;
      r := Negative(m);
      NegativeBack(a, m, r);
    }
  }

  lemma {:induction false} ReadIsValid(r: Num, s: string)
    requires IsToken(s) && IsRead(r, s, 10)
    ensures Valid(r)
  {
  }

  lemma {:induction false} NegativeBack(a: Num, m: Num, r: Num)
    requires Valid(a) && a.neg && m == a.(neg := false) && Valid(r) && r.scale == m.scale && Units(r) == -Units(m)
    ensures r == a
  {
    NumUnique(r, a);
  }
}
