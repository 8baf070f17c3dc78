/** num_parse and strip_continuations: numbers are read. */
module NumberInput {
  import opened Arith
  import opened Limbs
  import opened Magnitude
  import opened Division
  import opened Decimal
  import opened Fractions
  import opened Numbers
  import opened Quotients
  import opened Powers
  import opened NumberText

  method StripContinuations(s: string) returns (r: string)
    ensures r == Stripped(s)
  {
    r := [];
    var i := 0;
    assert s[0..] == s;
    while i < |s|
      invariant i <= |s| && r + Stripped(s[i..]) == Stripped(s)
    {
      if s[i] == '\\' && i + 1 < |s| && s[i + 1] == '\n' {
        StrippedPair(s, i);
        i := i + 2;
      } else {
        StrippedOne(s, i, r);
        r := r + [s[i]];
        i := i + 1;
      }
    }
    assert s[i..] == [];
  }

  lemma {:induction false} StrippedPair(s: string, i: nat)
    requires i + 1 < |s| && s[i] == '\\' && s[i + 1] == '\n'
    ensures Stripped(s[i..]) == Stripped(s[i + 2..])
  {
    assert s[i..][2..] == s[i + 2..];
  }

  lemma {:induction false} StrippedOne(s: string, i: nat, r: string)
    requires i < |s| && !(s[i] == '\\' && i + 1 < |s| && s[i + 1] == '\n')
    ensures r + Stripped(s[i..]) == (r + [s[i]]) + Stripped(s[i + 1..])
  {
    assert s[i..][1..] == s[i + 1..];
    ConcatAssoc(r, [s[i]], Stripped(s[i + 1..]));
  }

  /** Digits are read, first digit first. */
  method ReadDigits(s: string, base: limb, single: bool) returns (d: seq<limb>)
    requires AllDigits(s) && 2 <= base <= 16
    ensures Trimmed(d) && Val(d) == Horner(s, base, single)
  {
    hide Trimmed;
    d := [];
    NothingLeft([], 0);
    assert s[..0] == [];
    for i := 0 to |s|
      invariant Trimmed(d) && Val(d) == Horner(s[..i], base, single)
    {
      HornerNext(s, i, base, single);
      d := MultiplySmall(d, base, Face(s[i], base, single));
    }
    assert s[..|s|] == s;
  }

  lemma {:induction false} HornerNext(s: string, i: nat, base: nat, single: bool)
    requires AllDigits(s) && base >= 2 && i < |s|
    ensures Horner(s[..i + 1], base, single) == Horner(s[..i], base, single) * base + Face(s[i], base, single)
  {
    assert s[..i + 1][..i] == s[..i];
  }

  /** The number that a token stands for in a base: the digits after the point over as many powers of
      the base, cut off after as many decimal places. */
  ghost predicate IsRead(r: Num, s: string, base: nat)
    requires IsToken(s) && base >= 2
  {
    var f := |Fraction(s)|;
    var den := IntPow(base, f);
    && r.scale == f
    && IsCut(r, Horner(Whole(s), base, IsSingle(s)) * den + Horner(Fraction(s), base, false), den)
  }

  lemma {:induction false} HornerNone(base: nat)
    requires base >= 2
    ensures Horner([], base, false) == 0 && IntPow(base, 0) == 1
  {
  }

  /** A whole number more on both sides. */
  lemma {:induction false} QuotientMore(u: nat, v: nat, q: nat, k: nat)
    requires IsQuotient(u, v, q)
    ensures IsQuotient(u + k * v, v, q + k)
  {
    assert (q + k) * v == q * v + k * v;
    assert (q + 1 + k) * v == (q + 1) * v + k * v;
  }

  lemma {:induction false} TruncatesMore(q: int, x: nat, y: nat, k: nat)
    requires Truncates(q, x, y) && y > 0
    ensures q >= 0 && Truncates(q + k, x + k * y, y)
  {
    hide IsQuotient;
    if q < 0 {
      assert false;
    }
    Positive(k, y);
    QuotientMore(x, y, q, k);
  }

  /** The digits of the fraction become a decimal fraction. */
  lemma {:induction false} ReadFraction(r: Num, q: Num, ip: nat, fp: nat, den: nat, f: nat)
    requires den > 0 && q.scale == f && IsCut(q, fp * Ten(0), den * Ten(0))
    requires Valid(r) && r.scale == f && Units(r) == ip * Ten(f) + 1 * (Units(q) * Ten(0))
    ensures IsCut(r, ip * den + fp, den)
  {
    hide Ten, Valid, Units, Truncates;
    TenZero(0);
    Positive(fp, Ten(f));
    TruncatesMore(Units(q), fp * Ten(f), den, ip * Ten(f));
    ReadRegroup(ip, fp, den, Ten(f));
  }

  lemma {:induction false} ReadRegroup(ip: nat, fp: nat, den: nat, t: nat)
    ensures fp * t + ip * t * den == (ip * den + fp) * t
  {
    assert (ip * den + fp) * t == ip * den * t + fp * t;
    assert ip * t * den == ip * den * t;
  }

  lemma {:induction false} ReadDecimal(r: Num, ip: nat, fp: nat, f: nat)
    requires Valid(r) && r.scale == f && Units(r) == ip * Ten(f) + fp
    ensures IsCut(r, ip * Ten(f) + fp, Ten(f))
  {
    hide Ten, Valid, Units, Truncates;
    ExactIsCut(r, ip * Ten(f) + fp, Ten(f));
  }

  lemma {:induction false} TenIsPower(f: nat)
    ensures Ten(f) == IntPow(10, f)
  {
    if f > 0 {
      TenIsPower(f - 1);
    }
  }

  method PowerOf(base: limb, f: nat) returns (den: Num)
    requires 2 <= base <= 16
    ensures Valid(den) && den.scale == 0 && Units(den) == IntPow(base, f) && Units(den) > 0
  {
    hide Val, Units, Trimmed;
    var d := FromLong(1);
    PowNone(base);
    for i := 0 to f
      invariant Trimmed(d) && Val(d) == IntPow(base, i) && Val(d) > 0
    {
      PowNextIs(base, i);
      d := MultiplySmall(d, base, 0);
    }
    den := Make(false, 0, d);
  }

  lemma {:induction false} PowNextIs(x: nat, n: nat)
    requires x >= 2
    ensures IntPow(x, n + 1) == IntPow(x, n) * x && (IntPow(x, n) > 0 ==> IntPow(x, n + 1) > 0)
  {
    if IntPow(x, n) > 0 {
      MulMono(1, x, IntPow(x, n));
    }
  }

  /** num_parse */
  method Parse(s: string, base: limb) returns (r: Num)
    requires IsToken(s) && 2 <= base <= 16
    ensures IsRead(r, s, base)
  {
    hide Val, Units, Ten, IntPow, IsCut, Horner;
    var whole, fraction, dot := Split(s);
    var single := |whole| == 1;
    var ip := ReadDigits(whole, base, single);
    if !dot {
      r := Make(false, 0, ip);
      HornerNone(base);
      NoFraction(r, Val(ip), IntPow(base, 0));
      return;
    }
    var fp := ReadDigits(fraction, base, false);
    if base == 10 {
      var up := ShiftUp(ip, |fraction|);
      var sum := Add(up, fp);
      r := Make(false, |fraction|, sum);
      TenIsPower(|fraction|);
      ReadDecimal(r, Val(ip), Val(fp), |fraction|);
    } else {
      r := ReadOther(ip, fp, base, |fraction|);
    }
  }

  lemma {:induction false} NoFraction(r: Num, ip: nat, one: nat)
    requires Valid(r) && r.scale == 0 && Units(r) == ip && one == 1
    ensures IsCut(r, ip * one + 0, one)
  {
    hide Valid, Units, Truncates;
    assert Ten(0) == 1;
    ExactIsCut(r, ip * one + 0, one);
  }

  /** The parts before and after the point. */
  method Split(s: string) returns (whole: string, fraction: string, dot: bool)
    ensures whole == Whole(s) && fraction == Fraction(s) && (!dot ==> fraction == [])
  {
    var p := 0;
    while p < |s| && s[p] != '.'
      invariant p <= |s| && forall i :: 0 <= i < p ==> s[i] != '.'
    {
      p := p + 1;
    }
    PointIs(s, p);
    dot := p < |s|;
    whole := s[..p];
    fraction := if dot then s[p + 1..] else [];
  }

  lemma {:induction false} PointIs(s: string, p: nat)
    requires p <= |s| && (p < |s| ==> s[p] == '.') && forall i :: 0 <= i < p ==> s[i] != '.'
    ensures PointAt(s) == p
  {
  }

  method ReadOther(ip: seq<limb>, fp: seq<limb>, base: limb, f: nat) returns (r: Num)
    requires Trimmed(ip) && Trimmed(fp) && 2 <= base <= 16
    ensures r.scale == f && IsCut(r, Val(ip) * IntPow(base, f) + Val(fp), IntPow(base, f))
  {
    hide Val, Units, Ten, IntPow, Truncates;
    var den := PowerOf(base, f);
    var a := Make(false, 0, fp);
    var q := Quotients.Divide(a, den, f);
    var b := Make(false, 0, ip);
    var total := AddSub(b, q.value, false);
    ReadFraction(total, q.value, Val(ip), Val(fp), IntPow(base, f), f);
    if total.scale < f {
      total := Rescale(total, f);
    }
    r := total;
  }
}
