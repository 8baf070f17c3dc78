/** What is written and read, character by character: which digit of the number stands at which place. */
module NumberLaws {
  import opened Arith
  import opened Limbs
  import opened Magnitude
  import opened Division
  import opened Decimal
  import opened Fractions
  import opened Numbers
  import opened Powers
  import opened NumberText
  import opened Quotients
  import opened NumberInput
  import opened NumberOutput
  import opened NumberRoundTrip
  import opened NumberBases

  const Hex := "0123456789ABCDEF"

  /** The k-th digit of v from below. */
  ghost function DigitAt(v: nat, base: nat, k: nat): (d: nat)
    requires base >= 2
    ensures d < base
  {
    PowerGrows(base, k);
    v / IntPow(base, k) % base
  }

  /** The character at each place is that of the digit there, the last one being the lowest. */
  ghost predicate Spells(s: string, base: nat, v: nat)
    requires 2 <= base <= 16
  {
    forall i :: 0 <= i < |s| ==> s[i] == Hex[DigitAt(v, base, |s| - 1 - i)]
  }

  /** So many digits are needed for v, and one less is not enough. */
  ghost predicate Needs(v: nat, base: nat, n: nat)
  {
    v < IntPow(base, n) && (n > 0 ==> IntPow(base, n - 1) <= v)
  }

  // ---- places ----

  lemma {:induction false} DivTwice(v: nat, base: nat, p: nat)
    requires base > 0 && p > 0 && base * p > 0
    ensures v / base / p == v / (base * p)
  {
    DivUniqueTwice(v, base, p, v / base, v % base, v / base / p, v / base % p);
  }

  lemma {:induction false} DivUniqueTwice(v: nat, base: nat, p: nat, w: nat, r: nat, q: nat, t: nat)
    requires base > 0 && p > 0 && base * p > 0 && v == base * w + r && r < base && w == p * q + t && t < p
    ensures v / (base * p) == q
  {
    MulNext(t, p, base);
    assert base * (p * q + t) == base * p * q + base * t;
    DivUnique(v, base * p, q, base * t + r);
  }

  lemma {:induction false} DigitNext(v: nat, base: nat, k: nat)
    requires base >= 2
    ensures DigitAt(v, base, k + 1) == DigitAt(v / base, base, k)
  {
    PowerGrows(base, k);
    IntPowNext(base, k);
    Positive(base, IntPow(base, k));
    DivTwice(v, base, IntPow(base, k));
  }

  lemma {:induction false} DigitFirst(v: nat, base: nat, q: nat, d: nat)
    requires base >= 2 && v == q * base + d && d < base
    ensures DigitAt(v, base, 0) == d && v / base == q
  {
    assert IntPow(base, 0) == 1;
    assert v / 1 == v;
    Commute(q, base);
    DivUnique(v, base, q, d);
  }

  lemma {:induction false} LowDigits(s: seq<nat>, base: nat, k: nat)
    requires base >= 2 && AllBelow(s, base) && k < |s|
    ensures s[k] == DigitAt(LowEval(s, base), base, k)
  {
    hide DigitAt;
    Commute(base, LowEval(s[1..], base));
    DigitFirst(LowEval(s, base), base, LowEval(s[1..], base), s[0]);
    if k > 0 {
      LowDigits(s[1..], base, k - 1);
      DigitNext(LowEval(s, base), base, k - 1);
    }
  }

  lemma {:induction false} HighDigits(s: seq<nat>, base: nat, k: nat)
    requires base >= 2 && AllBelow(s, base) && k < |s|
    ensures s[|s| - 1 - k] == DigitAt(HighEval(s, base), base, k)
  {
    hide DigitAt;
    var n := |s| - 1;
    DigitFirst(HighEval(s, base), base, HighEval(s[..n], base), s[n]);
    if k > 0 {
      HighDigits(s[..n], base, k - 1);
      DigitNext(HighEval(s, base), base, k - 1);
    }
  }

  lemma {:induction false} DecimalAt(m: nat, least: nat, k: nat)
    requires k < |DecimalDigits(m, least)|
    ensures DecimalDigits(m, least)[k] == DigitChar(DigitAt(m, 10, k))
    decreases k
  {
    hide DigitAt;
    var rest := if least > 0 then least - 1 else 0;
    DigitFirst(m, 10, m / 10, m % 10);
    if k > 0 {
      DecimalAt(m / 10, rest, k - 1);
      DigitNext(m, 10, k - 1);
    }
  }

  lemma {:induction false} DescendAt(s: string, lo: nat, hi: nat, i: nat)
    requires lo <= hi <= |s| && i < hi - lo
    ensures |Descend(s, lo, hi)| == hi - lo && Descend(s, lo, hi)[i] == s[hi - 1 - i]
    decreases hi
  {
    if i > 0 {
      DescendAt(s, lo, hi - 1, i - 1);
    } else {
      DescendCount(s, lo, hi);
    }
  }

  lemma {:induction false} DescendCount(s: string, lo: nat, hi: nat)
    requires lo <= hi <= |s|
    ensures |Descend(s, lo, hi)| == hi - lo
  {
    if lo < hi {
      DescendCount(s, lo, hi - 1);
    }
  }

  lemma {:induction false} HexIs(d: nat)
    requires d < 16
    ensures DigitChar(d) == Hex[d]
  {
  }

  // ---- base ten ----

  lemma {:induction false} DecimalNeeds(m: nat, least: nat)
    ensures var n := |DecimalDigits(m, least)|; m < IntPow(10, n) && (n > least ==> IntPow(10, n - 1) <= m)
    decreases m + least
  {
    if m > 0 || least > 0 {
      var rest := if least > 0 then least - 1 else 0;
      var n := |DecimalDigits(m / 10, rest)|;
      assert |DecimalDigits(m, least)| == n + 1;
      DecimalNeeds(m / 10, rest);
      IntPowNext(10, n);
      if n > 0 {
        IntPowNext(10, n - 1);
      }
    }
  }

  lemma {:induction false} DescendSpells(s: string, lo: nat, m: nat, least: nat)
    requires s == DecimalDigits(m, least) && lo <= |s|
    ensures Spells(Descend(s, lo, |s|) + Descend(s, 0, lo), 10, m)
    ensures |Descend(s, lo, |s|)| == |s| - lo && |Descend(s, 0, lo)| == lo
  {
    hide DigitAt, DecimalDigits;
    DescendCount(s, lo, |s|);
    DescendCount(s, 0, lo);
    var t := Descend(s, lo, |s|) + Descend(s, 0, lo);
    forall i | 0 <= i < |t|
      ensures t[i] == Hex[DigitAt(m, 10, |t| - 1 - i)]
    {
      if i < |s| - lo {
        DescendAt(s, lo, |s|, i);
      } else {
        DescendAt(s, 0, lo, i - (|s| - lo));
      }
      DecimalAt(m, least, |s| - 1 - i);
      HexIs(DigitAt(m, 10, |s| - 1 - i));
    }
  }

  /** A number that is not zero is written as its sign, its digits, and a point where the scale says,
      without needless zeros before it. */
  lemma {:induction false} TextSpells(a: Num) returns (whole: string, frac: string)
    requires Valid(a) && a.d != []
    ensures Text(a) == (if Units(a) < 0 then "-" else "") + whole + (if a.scale > 0 then "." + frac else "")
    ensures |frac| == a.scale && Spells(whole + frac, 10, Val(a.d))
    ensures Val(a.d) < IntPow(10, |whole| + a.scale) && (|whole| > 0 ==> IntPow(10, |whole| - 1 + a.scale) <= Val(a.d))
  {
    hide Spells, DecimalDigits, IntPow, Descend, Val;
    var m, sc := Val(a.d), a.scale;
    var s := DecimalDigits(m, sc);
    UnitsSign(a);
    DecimalNeeds(m, sc);
    DescendSpells(s, sc, m, sc);
    whole, frac := Descend(s, sc, |s|), Descend(s, 0, sc);
    ConcatAssoc(if a.neg then "-" else "", whole, if sc > 0 then "." + frac else "");
  }

  // ---- other bases ----

  function Flat(groups: seq<string>): string
  {
    if groups == [] then [] else groups[0] + Flat(groups[1..])
  }

  /** A digit as it is written: one character up to base sixteen; beyond it a blank, unless it comes
      first after the point, and as many decimals as the largest digit takes. */
  ghost predicate IsGroup(g: string, d: nat, base: nat, first: bool)
    requires d < base
  {
    if base <= 16 then g == [Hex[d]]
    else
      var field := if first then g else g[Min(1, |g|)..];
      && (first || (|g| > 0 && g[0] == ' '))
      && Needs(base - 1, 10, |field|) && Spells(field, 10, d)
  }

  lemma {:induction false} WidthNeeds(m: nat)
    ensures Needs(m, 10, Width(m)) && |DecimalDigits(m, 0)| == Width(m)
  {
    if m > 0 {
      WidthNeeds(m / 10);
      IntPowNext(10, Width(m / 10));
      if m / 10 > 0 {
        IntPowNext(10, Width(m / 10) - 1);
      }
    }
  }

  /** A number that is not larger fits into the width. */
  lemma {:induction false} FieldFits(d: nat, w: nat)
    requires d < IntPow(10, w)
    ensures |DecimalDigits(d, w)| == w
  {
    hide DecimalDigits;
    DecimalNeeds(d, w);
    var n := |DecimalDigits(d, w)|;
    if n > w {
      PowersGrow(10, w, n - 1);
    }
  }

  lemma {:induction false} GroupIs(d: nat, base: nat, first: bool)
    requires base >= 2 && d < base
    ensures IsGroup(DigitText(d, base, first), d, base, first)
  {
    hide Spells, Needs, DecimalDigits;
    if base <= 16 {
      HexIs(d);
    } else {
      var w := Width(base - 1);
      var s := DecimalDigits(d, w);
      WidthNeeds(base - 1);
      NeedsFits(base - 1, d, w);
      FieldFits(d, w);
      DescendSpells(s, 0, d, w);
      assert Descend(s, 0, |s|) + Descend(s, 0, 0) == Padded(d, w);
      if !first {
        assert ([' '] + Padded(d, w))[1..] == Padded(d, w);
      } else {
        assert [] + Padded(d, w) == Padded(d, w);
      }
    }
  }

  lemma {:induction false} NeedsFits(m: nat, d: nat, w: nat)
    requires Needs(m, 10, w) && d <= m
    ensures d < IntPow(10, w)
  {
  }

  // ---- groups of the whole part ----

  ghost predicate WholeGroups(ws: seq<string>, v: nat, base: nat)
    requires base >= 2
  {
    Needs(v, base, |ws|) && forall i :: 0 <= i < |ws| ==> IsGroup(ws[i], DigitAt(v, base, |ws| - 1 - i), base, false)
  }

  /** The first n places of x / d, as a whole number. */
  ghost function Places(x: nat, d: nat, base: nat, n: nat): nat
    requires d > 0
  {
    Positive(x, IntPow(base, n));
    x * IntPow(base, n) / d
  }

  /** Enough digits to tell 1 / d from zero, and no more. */
  ghost predicate FractionGroups(fs: seq<string>, x: nat, d: nat, base: nat)
    requires base >= 2 && d > 0
  {
    && IntPow(base, |fs|) >= d && (fs != [] ==> IntPow(base, |fs| - 1) < d)
    && forall i :: 0 <= i < |fs| ==> IsGroup(fs[i], DigitAt(Places(x, d, base, |fs|), base, |fs| - 1 - i), base, i == 0)
  }

  function WholeSeq(s: seq<nat>, n: nat, base: nat): (r: seq<string>)
    requires n <= |s| && AllBelow(s, base)
    ensures |r| == n && Flat(r) == WholeText(s, n, base)
  {
    if n == 0 then [] else
      var r := [DigitText(s[n - 1], base, false)] + WholeSeq(s, n - 1, base);
      assert r[1..] == WholeSeq(s, n - 1, base);
      r
  }

  lemma {:induction false} WholeSeqAt(s: seq<nat>, n: nat, base: nat, i: nat)
    requires n <= |s| && AllBelow(s, base) && i < n
    ensures WholeSeq(s, n, base)[i] == DigitText(s[n - 1 - i], base, false)
  {
    hide DigitText;
    if i > 0 {
      WholeSeqAt(s, n - 1, base, i - 1);
    }
  }

  lemma {:induction false} LowNeeds(s: seq<nat>, base: nat, v: nat)
    requires base >= 2 && IsWhole(s, base, v)
    ensures Needs(v, base, |s|)
  {
    if s != [] {
      var t := s[1..];
      LowNeeds(t, base, LowEval(t, base));
      IntPowNext(base, |t|);
      MulNext(LowEval(t, base), IntPow(base, |t|), base);
      if t != [] {
        IntPowNext(base, |t| - 1);
        MulMono(IntPow(base, |t| - 1), LowEval(t, base), base);
      } else {
        assert IntPow(base, 0) == 1;
      }
    }
  }

  lemma {:induction false} FlatSnoc(gs: seq<string>, g: string)
    ensures Flat(gs + [g]) == Flat(gs) + g
  {
    if gs == [] {
      assert gs + [g] == [g] && [g][1..] == [];
      assert Flat([]) == [] && g + [] == g;
    } else {
      FlatSnoc(gs[1..], g);
      assert (gs + [g])[1..] == gs[1..] + [g];
      ConcatAssoc(gs[0], Flat(gs[1..]), g);
    }
  }

  function FractionSeq(s: seq<nat>, base: nat): (r: seq<string>)
    requires AllBelow(s, base)
    ensures |r| == |s|
  {
    if s == [] then [] else FractionSeq(s[..|s| - 1], base) + [DigitText(s[|s| - 1], base, |s| == 1)]
  }

  lemma {:induction false} FractionSeqIs(s: seq<nat>, base: nat)
    requires AllBelow(s, base)
    ensures Flat(FractionSeq(s, base)) == FractionText(s, base)
  {
    hide DigitText;
    if s != [] {
      FractionSeqIs(s[..|s| - 1], base);
      FlatSnoc(FractionSeq(s[..|s| - 1], base), DigitText(s[|s| - 1], base, |s| == 1));
    }
  }

  lemma {:induction false} FractionSeqAt(s: seq<nat>, base: nat, i: nat)
    requires AllBelow(s, base) && i < |s|
    ensures FractionSeq(s, base)[i] == DigitText(s[i], base, i == 0)
  {
    hide DigitText;
    if i < |s| - 1 {
      FractionSeqAt(s[..|s| - 1], base, i);
    }
  }

  lemma {:induction false} WholeGroupsIs(s: seq<nat>, base: nat, v: nat)
    requires base >= 2 && IsWhole(s, base, v)
    ensures AllBelow(s, base) && WholeGroups(WholeSeq(s, |s|, base), v, base)
  {
    hide Needs, IsGroup, DigitAt, DigitText;
    LowNeeds(s, base, v);
    var n := |s|;
    forall i | 0 <= i < n
      ensures IsGroup(WholeSeq(s, n, base)[i], DigitAt(v, base, n - 1 - i), base, false)
    {
      WholeSeqAt(s, n, base, i);
      LowDigits(s, base, n - 1 - i);
      GroupIs(s[n - 1 - i], base, false);
    }
  }

  lemma {:induction false} QuotientIs(u: nat, v: nat, q: nat)
    requires IsQuotient(u, v, q) && v > 0
    ensures q == u / v
  {
    Commute(q, v);
    assert (q + 1) * v == q * v + v;
    DivUnique(u, v, q, u - q * v);
  }

  lemma {:induction false} PlacesAre(x: nat, d: nat, base: nat, n: nat, q: nat)
    requires d > 0 && IsQuotient(x * IntPow(base, n), d, q)
    ensures q == Places(x, d, base, n)
  {
    hide IsQuotient;
    QuotientIs(x * IntPow(base, n), d, q);
  }

  lemma {:induction false} FractionGroupsIs(s: seq<nat>, x: nat, d: nat, base: nat)
    requires base >= 2 && d > 0 && IsFraction(s, base, x, d)
    ensures AllBelow(s, base) && FractionGroups(FractionSeq(s, base), x, d, base)
  {
    hide IsGroup, DigitAt, DigitText, IsQuotient, Places;
    var n := |s|;
    PlacesAre(x, d, base, n, HighEval(s, base));
    forall i | 0 <= i < n
      ensures IsGroup(FractionSeq(s, base)[i], DigitAt(Places(x, d, base, n), base, n - 1 - i), base, i == 0)
    {
      FractionSeqAt(s, base, i);
      HighDigits(s, base, n - 1 - i);
      GroupIs(s[i], base, i == 0);
    }
  }

  /** A number that is not zero is written as its sign, the groups of the digits of its whole part and,
      if it has a scale, a point and the groups of the digits of its fraction. */
  lemma {:induction false} TextInSpells(neg: bool, whole: seq<nat>, frac: seq<nat>, scale: nat, base: nat, v: nat) returns (ws: seq<string>, fs: seq<string>)
    requires base >= 2 && IsExpansion(whole, frac, base, v, scale)
    ensures AllBelow(whole, base) && AllBelow(frac, base)
    ensures TextIn(neg, whole, frac, scale, base) == (if neg then "-" else "") + Flat(ws) + (if scale > 0 then "." + Flat(fs) else "")
    ensures WholeGroups(ws, v / Ten(scale), base)
    ensures scale > 0 ==> FractionGroups(fs, v % Ten(scale), Ten(scale), base)
  {
    hide IsWhole, IsFraction, WholeGroups, FractionGroups, DigitText, Ten, FractionText, WholeText, Flat;
    WholeGroupsIs(whole, base, WholeOf(v, Ten(scale)));
    FractionGroupsIs(frac, RestOf(v, Ten(scale)), Ten(scale), base);
    FractionSeqIs(frac, base);
    ws, fs := WholeSeq(whole, |whole|, base), FractionSeq(frac, base);
  }

  // ---- digits that are read ----

  /** t is s with the digits that the base does not have replaced by its largest. */
  ghost predicate Clipped(s: string, t: string, base: nat)
    requires 2 <= base <= 16
  {
    |t| == |s| && forall i :: 0 <= i < |s| ==>
      t[i] == if IsDigit(s[i]) && DigitOf(s[i]) >= base then Hex[base - 1] else s[i]
  }

  lemma {:induction false} ClippedHorner(s: string, t: string, base: nat)
    requires 2 <= base <= 16 && Clipped(s, t, base) && AllDigits(s)
    ensures AllDigits(t) && Horner(s, base, false) == Horner(t, base, false)
  {
    HexIs(base - 1);
    if s != [] {
      ClippedHorner(s[..|s| - 1], t[..|t| - 1], base);
    }
  }

  lemma {:induction false} ClippedParts(s: string, t: string, base: nat)
    requires 2 <= base <= 16 && Clipped(s, t, base) && IsToken(s)
    ensures Clipped(Whole(s), Whole(t), base) && Clipped(Fraction(s), Fraction(t), base) && IsToken(t)
  {
    hide IsDigit, DigitOf;
    ClippedPoint(s, t, base, PointAt(s));
    var p := PointAt(s);
    ClippedSlice(s, t, base, 0, p);
    if p < |s| {
      ClippedSlice(s, t, base, p + 1, |s|);
      assert s[p + 1..|s|] == s[p + 1..] && t[p + 1..|t|] == t[p + 1..];
    }
    assert s[0..p] == s[..p] && t[0..p] == t[..p];
    ClippedDigits(Whole(s), Whole(t), base);
    ClippedDigits(Fraction(s), Fraction(t), base);
  }

  lemma {:induction false} ClippedPoint(s: string, t: string, base: nat, p: nat)
    requires 2 <= base <= 16 && Clipped(s, t, base) && p == PointAt(s)
    ensures PointAt(t) == p && |t| == |s|
  {
    HexIs(base - 1);
    PointIs(t, p);
  }

  lemma {:induction false} ClippedSlice(s: string, t: string, base: nat, lo: nat, hi: nat)
    requires 2 <= base <= 16 && Clipped(s, t, base) && lo <= hi <= |s|
    ensures |t| == |s| && Clipped(s[lo..hi], t[lo..hi], base)
  {
  }

  lemma {:induction false} ClippedDigits(s: string, t: string, base: nat)
    requires 2 <= base <= 16 && Clipped(s, t, base) && AllDigits(s)
    ensures AllDigits(t) && |t| == |s|
  {
    HexIs(base - 1);
  }

  lemma {:induction false} TokenParts(s: string)
    requires IsToken(s)
    ensures AllDigits(Whole(s)) && AllDigits(Fraction(s))
  {
  }

  lemma {:induction false} NotSingle(s: string)
    requires IsToken(s) && (s[0] == '.' || (|s| > 1 && s[1] != '.'))
    ensures !IsSingle(s)
  {
  }

  lemma {:induction false} SameCount(s: string, t: string)
    requires |Whole(s)| == |Whole(t)|
    ensures IsSingle(s) <==> IsSingle(t)
  {
  }

  lemma {:induction false} ClippedCount(s: string, t: string, base: nat)
    requires 2 <= base <= 16 && Clipped(s, t, base)
    ensures |t| == |s|
  {
  }

  /** Other digits count at most base - 1: they are read as if that digit stood there. */
  lemma {:induction false} OtherDigits(s: string, t: string, base: nat, r: Num)
    requires 2 <= base <= 16 && Clipped(s, t, base) && IsToken(s) && (s[0] == '.' || (|s| > 1 && s[1] != '.'))
    ensures IsToken(t) && (IsRead(r, s, base) <==> IsRead(r, t, base))
  {
    hide Truncates, Ten, IsCut, Face, IntPow, Clipped, IsToken, IsSingle, Whole, Fraction, IsDigit, DigitOf;
    TokenParts(s);
    ClippedParts(s, t, base);
    TokenParts(t);
    ClippedHorner(Whole(s), Whole(t), base);
    ClippedHorner(Fraction(s), Fraction(t), base);
    ClippedCount(Whole(s), Whole(t), base);
    ClippedCount(Fraction(s), Fraction(t), base);
    NotSingle(s);
    SameCount(s, t);
  }

  lemma {:induction false} HornerSnoc(s: string, c: char, base: nat, single: bool)
    requires AllDigits(s) && IsDigit(c) && base >= 2
    ensures Horner(s + [c], base, single) == Horner(s, base, single) * base + Face(c, base, single)
  {
    assert (s + [c])[..|s|] == s;
  }

  lemma {:induction false} HornerZero(s: string, base: nat)
    requires AllDigits(s) && base >= 2
    ensures Horner(['0'] + s, base, false) == Horner(s, base, false)
  {
    if s == [] {
      HornerSnoc([], '0', base, false);
      assert [] + ['0'] == ['0'] + [];
    } else {
      var t := s[..|s| - 1];
      HornerZero(t, base);
      assert ['0'] + s == (['0'] + t) + [s[|s| - 1]];
      HornerSnoc(['0'] + t, s[|s| - 1], base, false);
    }
  }

  lemma {:induction false} WholeIsRead(r: Num, s: string, base: nat)
    requires AllDigits(s) && s != [] && base >= 2 && IsToken(s) && IsRead(r, s, base)
    ensures r.scale == 0 && Units(r) == Horner(s, base, |s| == 1)
  {
    hide Truncates, Ten, Horner;
    PointAfter(s, [], false, s);
    HornerNone(base);
    TenZero(0);
    TruncatesSelf(Units(r), Horner(s, base, |s| == 1));
  }

  /** A lone digit has its face value. */
  lemma {:induction false} LoneDigit(r: Num, d: nat, base: nat)
    requires d < 16 && base >= 2 && IsToken([Hex[d]]) && IsRead(r, [Hex[d]], base)
    ensures r.scale == 0 && Units(r) == d
  {
    hide IsToken, IsRead;
    HexIs(d);
    WholeIsRead(r, [Hex[d]], base);
    assert [] + [Hex[d]] == [Hex[d]] && Horner([], base, true) == 0;
    HornerSnoc([], Hex[d], base, true);
  }

  /** Around a point, the whole part is read as if alone, and the fraction as if it were a whole part,
      over as many powers of the base, cut off after as many decimals. */
  lemma {:induction false} PointIsRead(w: string, f: string, base: nat, r: Num, rw: Num, rf: Num)
    requires AllDigits(w) && AllDigits(f) && w != [] && f != [] && base >= 2
    requires IsToken(w) && IsToken(['0'] + f) && IsToken(w + "." + f)
    requires IsRead(rw, w, base) && IsRead(rf, ['0'] + f, base) && IsRead(r, w + "." + f, base)
    ensures r.scale == |f| && IntPow(base, |f|) > 0 && Units(rf) >= 0
    ensures Units(r) == Units(rw) * Ten(|f|) + Units(rf) * Ten(|f|) / IntPow(base, |f|)
  {
    hide Truncates, Ten, Horner, IsToken, Whole, Fraction, IntPow, AllDigits, IsQuotient;
    WholeIsRead(rw, w, base);
    ZeroIsDigit(f);
    WholeIsRead(rf, ['0'] + f, base);
    HornerZero(f, base);
    PointAfter(w, f, true, w + "." + f);
    var n := |f|;
    PowerGrows(base, n);
    PointUnits(Units(r), Units(rw), Units(rf), IntPow(base, n), Ten(n));
  }

  lemma {:induction false} ZeroIsDigit(f: string)
    requires AllDigits(f)
    ensures AllDigits(['0'] + f)
  {
  }

  lemma {:induction false} PointUnits(u: int, w: nat, f: nat, den: nat, t: nat)
    requires den > 0 && t > 0 && Truncates(u, (w * den + f) * t, den)
    ensures u == w * t + f * t / den
  {
    hide Truncates, IsQuotient;
    ReadRegroup(w, f, den, t);
    Commute(den, f * t / den);
    Positive(f, t);
    Positive(w, t);
    ExactFrom(f * t, den, f * t / den);
    TruncatesMore(f * t / den, f * t, den, w * t);
    TruncatesUnique(u, f * t / den + w * t, f * t + w * t * den, den);
  }

  lemma {:induction false} ExactFrom(x: nat, y: nat, q: nat)
    requires y > 0 && q == x / y
    ensures Truncates(q, x, y)
  {
    hide IsQuotient;
    Commute(q, y);
    RemainderIsQuotient(x, y, q, x % y);
  }

  // ---- whole numbers in any base ----

  lemma {:induction false} WholeTextSplit(s: seq<nat>, n: nat, base: nat)
    requires 0 < n <= |s| && AllBelow(s, base) && 2 <= base <= 16
    ensures AllBelow(s[1..], base) && WholeText(s, n, base) == WholeText(s[1..], n - 1, base) + [DigitChar(s[0])]
  {
    if n > 1 {
      WholeTextSplit(s, n - 1, base);
      ConcatAssoc(DigitText(s[n - 1], base, false), WholeText(s[1..], n - 2, base), [DigitChar(s[0])]);
    } else {
      assert WholeText(s[1..], 0, base) == [] && WholeText(s, 0, base) == [];
    }
  }

  lemma {:induction false} WholeTextRead(s: seq<nat>, base: nat, single: bool)
    requires AllBelow(s, base) && 2 <= base <= 16
    ensures var t := WholeText(s, |s|, base);
      AllDigits(t) && |t| == |s| && Horner(t, base, single) == LowEval(s, base)
  {
    if s != [] {
      var t := WholeText(s[1..], |s| - 1, base);
      WholeTextRead(s[1..], base, single);
      WholeTextSplit(s, |s|, base);
      HornerSnoc(t, DigitChar(s[0]), base, single);
      Commute(LowEval(s[1..], base), base);
    }
  }

  /** In every base up to sixteen a whole number is read back as it was written. */
  lemma {:induction false} WholeBack(a: Num, whole: seq<nat>, frac: seq<nat>, base: nat, r: Num)
    requires Valid(a) && a.scale == 0 && a.d != [] && 2 <= base <= 16
    requires IsExpansion(whole, frac, base, Val(a.d), 0)
    ensures AllBelow(whole, base) && AllBelow(frac, base)
    ensures var t := TextIn(a.neg, whole, frac, 0, base);
      && t == (if Units(a) < 0 then ['-'] else []) + Unsigned(t) && IsToken(Unsigned(t))
      && (IsRead(r, Unsigned(t), base) ==> r == a.(neg := false))
  {
    hide *;
    hide Truncates;
    WholeExpansion(a, whole, frac, base);
    var u := WholeText(whole, |whole|, base);
    PlainWhole(a.neg, whole, frac, base, u);
    PlainRead(whole, base, u, Val(a.d));
    UnitsSign(a);
    assert [] + u == u;
    if IsRead(r, u, base) {
      BackIs(a, r, u, base);
    }
  }

  lemma {:induction false} WholeExpansion(a: Num, whole: seq<nat>, frac: seq<nat>, base: nat)
    requires Valid(a) && a.d != [] && IsExpansion(whole, frac, base, Val(a.d), 0)
    ensures AllBelow(whole, base) && AllBelow(frac, base) && IsWhole(whole, base, Val(a.d)) && Val(a.d) > 0
  {
    hide IsWhole, IsFraction, Val, Ten;
    UnitsSign(a);
    TenZero(0);
    FractionBelow(frac, base, RestOf(Val(a.d), Ten(0)), Ten(0));
    WholeBelow(whole, base, WholeOf(Val(a.d), Ten(0)));
  }

  lemma {:induction false} PlainWhole(neg: bool, whole: seq<nat>, frac: seq<nat>, base: nat, u: string)
    requires AllBelow(whole, base) && AllBelow(frac, base) && u == WholeText(whole, |whole|, base)
    ensures TextIn(neg, whole, frac, 0, base) == (if neg then ['-'] else []) + u
  {
    hide WholeText, FractionText;
    assert [] + u == u && u + [] == u && ['-'] + u + [] == ['-'] + u;
  }

  lemma {:induction false} PlainRead(whole: seq<nat>, base: nat, u: string, v: nat)
    requires 2 <= base <= 16 && v > 0 && IsWhole(whole, base, v) && AllBelow(whole, base) && u == WholeText(whole, |whole|, base)
    ensures AllDigits(u) && u != [] && IsToken(u) && Horner(u, base, |u| == 1) == v
    ensures Unsigned(u) == u && Unsigned(['-'] + u) == u
  {
    hide Horner, IsToken, LowEval, WholeText;
    WholeTextRead(whole, base, |u| == 1);
    NotEmpty(whole, base, v);
    PointAfter(u, [], false, u);
    TokenHasNoSign(u);
    assert (['-'] + u)[1..] == u;
  }

  lemma {:induction false} BackIs(a: Num, r: Num, u: string, base: nat)
    requires Valid(a) && a.scale == 0 && base >= 2
    requires AllDigits(u) && u != [] && IsToken(u) && Horner(u, base, |u| == 1) == Val(a.d) && IsRead(r, u, base)
    ensures r == a.(neg := false)
  {
    hide Truncates, Horner, IsToken, Whole, Fraction, IntPow;
    WholeIsRead(r, u, base);
    NumUnique(r, a.(neg := false));
  }

  lemma {:induction false} NotEmpty(s: seq<nat>, base: nat, v: nat)
    requires IsWhole(s, base, v) && v > 0
    ensures s != []
  {
  }

  // ---- lines ----

  /** A line that is not to be continued is written as it is. */
  lemma {:induction false} LineIsShort(column: int, length: int, s: string)
    requires length <= 1 || column >= length - 1 || column + |s| <= length - 2
    ensures Continued(column, length, s) == s
    decreases |s|
  {
    if s != [] {
      LineIsShort(column + 1, length, s[1..]);
      assert [s[0]] + s[1..] == s;
    }
  }

  /** A line is broken just when it is full: with the backslash it has length - 1 characters. */
  lemma {:induction false} LineIsFull(column: int, length: int, s: string)
    requires length > 2 && 0 <= column <= length - 2 < column + |s|
    ensures var room := length - 2 - column;
      Continued(column, length, s) == s[..room] + "\\\n" + Continued(0, length, s[room..])
    decreases |s|
  {
    var room := length - 2 - column;
    if room == 0 {
      BrokenHere(column, length, s);
    } else {
      LineIsFull(column + 1, length, s[1..]);
      assert s[1..][room - 1..] == s[room..] && s[..room] == [s[0]] + s[1..][..room - 1];
      ConcatAssoc([s[0]], s[1..][..room - 1], "\\\n");
      ConcatAssoc([s[0]], s[1..][..room - 1] + "\\\n", Continued(0, length, s[room..]));
    }
  }

  lemma {:induction false} BrokenHere(column: int, length: int, s: string)
    requires length > 2 && column == length - 2 && s != []
    ensures Continued(column, length, s) == s[..0] + "\\\n" + Continued(0, length, s[0..])
  {
    var rest := Continued(1, length, s[1..]);
    assert s[0..] == s;
    assert Continued(column, length, s) == ['\\', '\n', s[0]] + rest;
    assert Continued(0, length, s) == [s[0]] + rest;
  }

  // ---- joining lines ----

  ghost predicate ContinuedAt(s: string, i: nat)
  {
    i + 1 < |s| && s[i] == '\\' && s[i + 1] == '\n'
  }

  /** What has no backslash before the end of a line stays as it is. */
  lemma {:induction false} NotContinued(s: string)
    requires forall i :: 0 <= i < |s| ==> !ContinuedAt(s, i)
    ensures Stripped(s) == s
    decreases |s|
  {
    if s != [] {
      assert !ContinuedAt(s, 0);
      forall i | 0 <= i < |s[1..]|
        ensures !ContinuedAt(s[1..], i)
      {
        assert !ContinuedAt(s, i + 1);
      }
      NotContinued(s[1..]);
      assert [s[0]] + s[1..] == s;
    }
  }

  /** A backslash before the end of a line goes with it, and what is around it is joined as by itself. */
  lemma {:induction false} JoinedThere(a: string, b: string)
    ensures Stripped(a + ("\\\n" + b)) == Stripped(a) + Stripped(b)
    decreases |a|
  {
    var s, t := a + ("\\\n" + b), "\\\n" + b;
    assert t[2..] == b;
    if a == [] {
      assert s == t;
    } else if ContinuedAt(a, 0) {
      assert s[2..] == a[2..] + t;
      JoinedThere(a[2..], b);
    } else {
      assert s[1..] == a[1..] + t && s[0] == a[0];
      assert !ContinuedAt(s, 0);
      JoinedThere(a[1..], b);
      ConcatAssoc([a[0]], Stripped(a[1..]), Stripped(b));
    }
  }
}
