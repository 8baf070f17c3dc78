/** num_print in other bases: repeated division for the whole part, repeated multiplication for the
    fraction. */
module NumberBases {
  import opened Arith
  import opened Limbs
  import opened Magnitude
  import opened Multiply
  import opened Division
  import opened Decimal
  import opened Fractions
  import opened Numbers
  import opened Quotients
  import opened Powers
  import opened NumberText
  import opened NumberOutput
  import NumberInput

  // ---- expansions ----

  predicate AllBelow(s: seq<nat>, base: nat)
  {
    forall i :: 0 <= i < |s| ==> s[i] < base
  }

  /** What digits stand for, the least significant first. */
  ghost function LowEval(s: seq<nat>, base: nat): nat
  {
    if s == [] then 0 else s[0] + base * LowEval(s[1..], base)
  }

  /** What digits stand for, the most significant first. */
  ghost function HighEval(s: seq<nat>, base: nat): nat
  {
    if s == [] then 0 else HighEval(s[..|s| - 1], base) * base + s[|s| - 1]
  }

  /** The digits of a whole number, without leading zeros, the least significant first. */
  ghost predicate IsWhole(s: seq<nat>, base: nat, v: nat)
  {
    AllBelow(s, base) && LowEval(s, base) == v && (s != [] ==> s[|s| - 1] > 0)
  }

  /** The digits of x / d: as many as are needed for the base to reach d, and cut off there. */
  ghost predicate IsFraction(s: seq<nat>, base: nat, x: nat, d: nat)
  {
    && AllBelow(s, base)
    && IsQuotient(x * IntPow(base, |s|), d, HighEval(s, base))
    && IntPow(base, |s|) >= d && (s != [] ==> IntPow(base, |s| - 1) < d)
  }

  lemma {:induction false} LowStep(c: nat, base: nat, low: nat, p: int, d: nat)
    ensures c + base * (low + p * d) == c + base * low + base * p * d
  {
  }

  lemma {:induction false} LowEvalSnoc(s: seq<nat>, base: nat, d: nat)
    ensures LowEval(s + [d], base) == LowEval(s, base) + IntPow(base, |s|) * d
  {
    if s == [] {
      assert s + [d] == [d] && [d][1..] == [];
    } else {
      LowEvalSnoc(s[1..], base, d);
      assert (s + [d])[1..] == s[1..] + [d] && (s + [d])[0] == s[0];
      LowStep(s[0], base, LowEval(s[1..], base), IntPow(base, |s| - 1), d);
    }
  }

  /** The digits found and what is still to be divided. */
  ghost predicate Splitting(s: seq<nat>, base: nat, rest: nat, v: nat)
  {
    && AllBelow(s, base) && LowEval(s, base) + IntPow(base, |s|) * rest == v
    && (rest == 0 && s != [] ==> s[|s| - 1] > 0)
  }

  lemma {:induction false} SplittingNext(s: seq<nat>, base: nat, rest: nat, v: nat, q: nat, d: nat)
    requires Splitting(s, base, rest, v) && rest == q * base + d && d < base && rest > 0
    ensures Splitting(s + [d], base, q, v)
  {
    LowEvalSnoc(s, base, d);
    IntPowNext(base, |s|);
    SplitRest(IntPow(base, |s|), base, q, d, rest);
    if q == 0 {
      assert q * base == 0;
    }
  }

  lemma {:induction false} IntPowNext(base: nat, n: nat)
    ensures IntPow(base, n + 1) == base * IntPow(base, n)
  {
  }

  lemma {:induction false} SplitRest(p: int, base: nat, q: nat, d: nat, rest: nat)
    requires rest == q * base + d
    ensures p * rest == p * d + base * p * q
  {
    assert p * (q * base + d) == p * (q * base) + p * d;
    assert p * (q * base) == base * p * q;
  }

  // ---- digits as text ----

  function Width(m: nat): nat
  {
    if m == 0 then 0 else 1 + Width(m / 10)
  }

  /** A digit: one character up to base sixteen, otherwise a decimal number as wide as the largest. */
  function DigitText(d: nat, base: nat, first: bool): string
    requires d < base
  {
    if base <= 16 then [DigitChar(d)]
    else (if first then [] else [' ']) + Padded(d, Width(base - 1))
  }

  /** A decimal number with zeros before it. */
  function Padded(d: nat, width: nat): string
  {
    var s := DecimalDigits(d, width);
    Descend(s, 0, |s|)
  }

  /** Whole digits as they are written, from the top down. */
  function WholeText(s: seq<nat>, n: nat, base: nat): string
    requires n <= |s| && AllBelow(s, base)
  {
    if n == 0 then [] else DigitText(s[n - 1], base, false) + WholeText(s, n - 1, base)
  }

  function FractionText(s: seq<nat>, base: nat): string
    requires AllBelow(s, base)
  {
    if s == [] then [] else FractionText(s[..|s| - 1], base) + DigitText(s[|s| - 1], base, |s| == 1)
  }

  method PutString(o: Output, text: string, ghost before: string, ghost column0: int, ghost s: string)
    requires o.Since(before, column0, s)
    modifies o
    ensures o.Since(before, column0, s + text)
  {
    hide Output.Since;
    assert s + text[..0] == s;
    for i := 0 to |text|
      invariant o.Since(before, column0, s + text[..i])
    {
      o.PutMore(text[i], before, column0, s + text[..i]);
      assert s + text[..i + 1] == s + text[..i] + [text[i]];
    }
    assert text[..|text|] == text;
  }

  /** put_digit */
  method PutDigitIn(o: Output, d: nat, base: nat, first: bool, ghost before: string, ghost column0: int, ghost s: string)
    requires d < base && o.Since(before, column0, s)
    modifies o
    ensures o.Since(before, column0, s + DigitText(d, base, first))
  {
    hide Output.Since, DecimalDigits, Descend;
    if base <= 16 {
      o.PutMore(DigitChar(d), before, column0, s);
      return;
    }
    var w, m := 0, base - 1;
    while m > 0
      invariant m >= 0 && w + Width(m) == Width(base - 1)
    {
      w, m := w + 1, m / 10;
    }
    var text := Padded(d, w);
    if !first {
      o.PutMore(' ', before, column0, s);
      PutString(o, text, before, column0, s + [' ']);
      assert s + [' '] + text == s + ([' '] + text);
    } else {
      PutString(o, text, before, column0, s);
      assert [] + text == text;
    }
  }

  // ---- the whole part ----

  method WholeDigits(ip: seq<limb>, base: i64) returns (dig: seq<nat>)
    requires Trimmed(ip) && base >= 2
    ensures IsWhole(dig, base, Val(ip))
  {
    hide Val, Splitting;
    dig := [];
    var rest := ip;
    var bo := FromLong(base);
    SplittingStart(base, Val(ip));
    ValIsNothing(bo);
    while |rest| > 0
      invariant Trimmed(rest) && Splitting(dig, base, Val(rest), Val(ip))
      decreases Val(rest)
    {
      ValIsNothing(rest);
      var q, r := DivMod(rest, bo);
      var d := WordFrom(r);
      SplittingNext(dig, base, Val(rest), Val(ip), Val(q), Val(r));
      QuotientShrinks(Val(rest), base, Val(q), Val(r));
      dig := dig + [d.value];
      rest := q;
    }
    ValIsNothing(rest);
    SplittingEnd(dig, base, Val(ip));
  }

  lemma {:induction false} ValIsNothing(s: seq<limb>)
    requires Trimmed(s)
    ensures s == [] <==> Val(s) == 0
  {
    if s != [] {
      TrimmedBound(s);
    }
  }

  lemma {:induction false} SplittingStart(base: nat, v: nat)
    ensures Splitting([], base, v, v)
  {
  }

  lemma {:induction false} SplittingEnd(s: seq<nat>, base: nat, v: nat)
    requires Splitting(s, base, 0, v)
    ensures IsWhole(s, base, v)
  {
  }

  lemma {:induction false} QuotientShrinks(rest: nat, base: nat, q: nat, r: nat)
    requires rest == q * base + r && base >= 2 && rest > 0
    ensures q < rest
  {
    MulMono(2, base, q);
  }

  // ---- the fraction ----

  /** The digits found so far, and the fraction that is left, in units. */
  ghost predicate Expanding(s: seq<nat>, base: nat, rest: nat, x: nat, d: nat)
  {
    && AllBelow(s, base) && rest < d
    && x * IntPow(base, |s|) == HighEval(s, base) * d + rest
    && (s != [] ==> IntPow(base, |s| - 1) < d)
  }

  lemma {:induction false} ExpandingNext(s: seq<nat>, base: nat, rest: nat, x: nat, d: nat, digit: nat, left: nat)
    requires base >= 1 && Expanding(s, base, rest, x, d) && IntPow(base, |s|) < d
    requires rest * base == digit * d + left && left < d
    ensures digit < base && Expanding(s + [digit], base, left, x, d)
  {
    var s' := s + [digit];
    if digit >= base {
      MulMono(base, digit, d);
      MulNext(rest, d, base);
    }
    assert s'[..|s'| - 1] == s;
    IntPowNext(base, |s|);
    ExpandStep(x, IntPow(base, |s|), HighEval(s, base), d, rest, base, digit, left);
  }

  lemma {:induction false} ExpandStep(x: int, p: int, h: int, d: int, rest: int, base: int, digit: int, left: int)
    requires x * p == h * d + rest && rest * base == digit * d + left
    ensures x * (base * p) == (h * base + digit) * d + left
  {
    assert x * (base * p) == x * p * base;
    assert (h * d + rest) * base == h * d * base + rest * base;
    assert (h * base + digit) * d == h * d * base + digit * d;
  }

  lemma {:induction false} ExpandingEnd(s: seq<nat>, base: nat, rest: nat, x: nat, d: nat)
    requires Expanding(s, base, rest, x, d) && IntPow(base, |s|) >= d
    ensures IsFraction(s, base, x, d)
  {
    RemainderIsQuotient(x * IntPow(base, |s|), d, HighEval(s, base), rest);
  }

  /** One digit: the fraction times the base, its whole part, and what is left. */
  method NextDigit(fp: Num, bo: Num, sc: nat) returns (d: nat, left: Num)
    requires Valid(fp) && Valid(bo) && bo.scale == 0 && fp.scale == sc && 0 <= Units(fp) < Ten(sc) && 2 <= Units(bo) <= LONG_MAX
    ensures Valid(left) && left.scale == sc && 0 <= Units(left) < Ten(sc)
    ensures Units(fp) * Units(bo) == d * Ten(sc) + Units(left) && d < Units(bo)
  {
    hide Val, Units, Ten, Truncates;
    var m := MultiplyExact(fp, bo);
    var ipart := Rescale(m, 0);
    TenZero(0);
    WholePart(Units(fp), Units(bo), Ten(sc), Units(ipart));
    var v, t := ToLong(ipart);
    TruncatesSelf(t, Units(ipart));
    d := v.value;
    var rest := AddSub(m, ipart, true);
    left := Rescale(rest, sc);
    RescaleSame(rest, left);
  }

  lemma {:induction false} WholePart(x: nat, b: nat, t: nat, d: int)
    requires x < t && b >= 2 && Truncates(d, x * b * 1, t)
    ensures 0 <= d < b && 0 <= x * b - d * t < t
  {
    TruncatesIff(d, x * b, t);
    MulNext(x, t, b);
    if d >= b {
      MulMono(b, d, t);
    } else if d < 0 {
      MulMono(d, -1, t);
    }
  }

  lemma {:induction false} TruncatesSelf(t: int, x: int)
    requires Truncates(t, x, 1)
    ensures t == x
  {
    TruncatesIff(t, x, 1);
  }

  /** The power of the base grows by a factor. */
  method GrowPower(pw: seq<limb>, base: i64, ghost n: nat) returns (np: seq<limb>)
    requires Trimmed(pw) && base >= 2 && Val(pw) == IntPow(base, n)
    ensures Trimmed(np) && Val(np) == IntPow(base, n + 1)
  {
    hide Val, IntPow, Trimmed;
    IntPowNext(base, n);
    Commute(base, IntPow(base, n));
    if base < BASE {
      np := MultiplySmall(pw, base, 0);
    } else {
      var big := FromLong(base);
      np := Multiply.Multiply(pw, big);
    }
  }

  lemma {:induction false} PowerGrows(base: nat, n: nat)
    requires base >= 2
    ensures IntPow(base, n + 1) > IntPow(base, n) >= 1
  {
    if n > 0 {
      PowerGrows(base, n - 1);
    }
    MulMono(2, base, IntPow(base, n));
  }

  method WriteFraction(o: Output, fraction: Num, base: i64, ghost before: string, ghost column0: int, ghost s: string) returns (ghost dig: seq<nat>)
    requires Valid(fraction) && base >= 2 && 0 <= Units(fraction) < Ten(fraction.scale) && o.Since(before, column0, s)
    modifies o
    ensures IsFraction(dig, base, Units(fraction), Ten(fraction.scale))
    ensures o.Since(before, column0, s + FractionText(dig, base))
  {
    hide Val, Units, Ten, IntPow, Output.Since, Expanding, IsFraction, FractionText, DigitText;
    var sc := fraction.scale;
    var fp := fraction;
    var pw := FromLong(1);
    var one := FromLong(1);
    var limit := ShiftUp(one, sc);
    var b := FromLong(base);
    var bo := Make(false, 0, b);
    var first := true;
    dig := [];
    ExpandingStart(base, Units(fraction), Ten(sc));
    assert s + [] == s;
    var c := Compare(pw, limit);
    while c < 0
      invariant Valid(fp) && fp.scale == sc && 0 <= Units(fp) < Ten(sc) && Trimmed(pw)
      invariant AllBelow(dig, base) && Expanding(dig, base, Units(fp), Units(fraction), Ten(sc))
      invariant Val(pw) == IntPow(base, |dig|) && (c < 0 <==> Val(pw) < Ten(sc)) && first == (dig == [])
      invariant o.Since(before, column0, s + FractionText(dig, base))
      decreases Ten(sc) - Val(pw)
    {
      var d, left := NextDigit(fp, bo, sc);
      ExpandingNext(dig, base, Units(fp), Units(fraction), Ten(sc), d, Units(left));
      PutDigitIn(o, d, base, first, before, column0, s + FractionText(dig, base));
      FractionTextNext(dig, d, base, s);
      first := false;
      PowerGrows(base, |dig|);
      pw := GrowPower(pw, base, |dig|);
      dig := dig + [d];
      fp := left;
      c := Compare(pw, limit);
    }
    ExpandingEnd(dig, base, Units(fp), Units(fraction), Ten(sc));
  }

  lemma {:induction false} ExpandingStart(base: nat, x: nat, d: nat)
    requires x < d
    ensures Expanding([], base, x, x, d) && IntPow(base, 0) == 1 && FractionText([], base) == []
  {
  }

  lemma {:induction false} FractionTextNext(dig: seq<nat>, d: nat, base: nat, s: string)
    requires AllBelow(dig, base) && d < base
    ensures AllBelow(dig + [d], base)
    ensures s + FractionText(dig + [d], base) == s + FractionText(dig, base) + DigitText(d, base, dig == [])
  {
    assert (dig + [d])[..|dig|] == dig;
    ConcatAssoc(s, FractionText(dig, base), DigitText(d, base, dig == []));
  }

  // ---- the whole number ----

  method WriteWhole(o: Output, dig: seq<nat>, base: i64, ghost before: string, ghost column0: int, ghost s: string)
    requires base >= 2 && AllBelow(dig, base) && o.Since(before, column0, s)
    modifies o
    ensures o.Since(before, column0, s + WholeText(dig, |dig|, base))
  {
    hide Output.Since, DigitText;
    var n := |dig|;
    ghost var done := s;
    ghost var goal := s + WholeText(dig, n, base);
    while n > 0
      invariant 0 <= n <= |dig| && o.Since(before, column0, done) && goal == done + WholeText(dig, n, base)
    {
      n := n - 1;
      PutDigitIn(o, dig[n], base, false, before, column0, done);
      ConcatAssoc(done, DigitText(dig[n], base, false), WholeText(dig, n, base));
      done := done + DigitText(dig[n], base, false);
    }
    assert done + [] == done;
  }

  /** The whole part and the fraction of a magnitude: v is whole * d + x. */
  method Parts(a: Num) returns (ip: seq<limb>, fraction: Num)
    requires Valid(a)
    ensures Trimmed(ip) && Valid(fraction) && fraction.scale == a.scale
    ensures 0 <= Units(fraction) < Ten(a.scale) && Val(a.d) == Val(ip) * Ten(a.scale) + Units(fraction)
  {
    hide Val, Units, Ten, Truncates;
    var aa := Make(false, a.scale, a.d);
    var t := Rescale(aa, 0);
    fraction := AddSub(aa, t, true);
    ip := t.d;
    TenZero(0);
    AbsUnits(t);
    PartsOf(Val(a.d), Ten(a.scale), Units(t));
    UnitsSign(t);
  }

  lemma {:induction false} PartsOf(v: nat, d: nat, t: int)
    requires d > 0 && Truncates(t, v * 1, d)
    ensures t >= 0 && 0 <= v - t * d < d
  {
    TruncatesIff(t, v, d);
    if t < 0 {
      MulMono(t, -1, d);
    }
  }

  /** What a number that is not zero is written as. */
  ghost function TextIn(neg: bool, whole: seq<nat>, frac: seq<nat>, scale: nat, base: nat): string
    requires AllBelow(whole, base) && AllBelow(frac, base)
  {
    (if neg then ['-'] else []) + WholeText(whole, |whole|, base) + (if scale > 0 then ['.'] + FractionText(frac, base) else [])
  }

  ghost function WholeOf(v: nat, d: nat): nat
    requires d > 0
  {
    v / d
  }

  ghost function RestOf(v: nat, d: nat): (r: nat)
    requires d > 0
    ensures r < d
  {
    v % d
  }

  /** whole and frac are the digits of v / 10^scale. */
  ghost predicate IsExpansion(whole: seq<nat>, frac: seq<nat>, base: nat, v: nat, scale: nat)
  {
    && IsWhole(whole, base, WholeOf(v, Ten(scale)))
    && IsFraction(frac, base, RestOf(v, Ten(scale)), Ten(scale))
  }

  lemma {:induction false} ExpansionFrom(whole: seq<nat>, frac: seq<nat>, base: nat, v: nat, scale: nat, w: nat, x: nat)
    requires IsWhole(whole, base, w) && IsFraction(frac, base, x, Ten(scale)) && v == w * Ten(scale) + x && x < Ten(scale)
    ensures IsExpansion(whole, frac, base, v, scale)
  {
    hide IsWhole, IsFraction, Ten;
    Commute(w, Ten(scale));
    DivUnique(v, Ten(scale), w, x);
  }

  lemma {:induction false} NoFractionDigits(base: nat, x: nat, d: nat)
    requires d == 1 && x < d
    ensures IsFraction([], base, x, d)
  {
    ExpandingStart(base, x, d);
    ExpandingEnd([], base, x, x, d);
  }

  /** Together the digits are those of the whole value times the power of the base, cut off. */
  lemma {:induction false} ExpansionValue(whole: seq<nat>, frac: seq<nat>, base: nat, v: nat, scale: nat)
    requires IsExpansion(whole, frac, base, v, scale) && base >= 2
    ensures IsQuotient(v * IntPow(base, |frac|), Ten(scale), LowEval(whole, base) * IntPow(base, |frac|) + HighEval(frac, base))
    ensures forall k: nat :: IntPow(base, k) >= Ten(scale) ==> |frac| <= k
  {
    hide Ten, IntPow, LowEval, HighEval;
    var d, p := Ten(scale), IntPow(base, |frac|);
    var w, x := WholeOf(v, d), RestOf(v, d);
    NumberInput.QuotientMore(x * p, d, HighEval(frac, base), w * p);
    assert v == d * w + x;
    WholeTimes(w, d, x, p);
    forall k: nat | IntPow(base, k) >= Ten(scale) && k < |frac|
      ensures false
    {
      PowersGrow(base, k, |frac| - 1);
    }
  }

  lemma {:induction false} WholeTimes(w: nat, d: nat, x: nat, p: nat)
    ensures (d * w + x) * p == x * p + w * p * d
  {
    assert d * w * p == w * p * d;
  }

  lemma {:induction false} PowersGrow(base: nat, m: nat, n: nat)
    requires base >= 2 && m <= n
    ensures IntPow(base, m) <= IntPow(base, n)
  {
    if m < n {
      PowersGrow(base, m, n - 1);
      PowerGrows(base, n - 1);
    }
  }

  /** num_print in a base other than ten. */
  method PrintIn(o: Output, a: Num, base: i64) returns (ghost whole: seq<nat>, ghost frac: seq<nat>)
    requires Valid(a) && base >= 2 && base != 10
    modifies o
    ensures a.d == [] ==> o.Since(old(o.written), old(o.column), ['0'])
    ensures a.d != [] ==> IsExpansion(whole, frac, base, Val(a.d), a.scale)
    ensures a.d != [] ==> o.Since(old(o.written), old(o.column), TextIn(a.neg, whole, frac, a.scale, base))
  {
    hide Output.Since, Val, Units, Ten, IsWhole, IsFraction, WholeText, FractionText, IsExpansion;
    ghost var before, column0 := o.written, o.column;
    whole, frac := [], [];
    o.SinceStart();
    if |a.d| == 0 {
      o.PutMore('0', before, column0, []);
      assert [] + ['0'] == ['0'];
      return;
    }
    ghost var s := [];
    if a.neg {
      o.PutMore('-', before, column0, []);
      s := ['-'];
      assert [] + ['-'] == ['-'];
    }
    var ip, fraction := Parts(a);
    var dig := WholeDigits(ip, base);
    whole := dig;
    WholeBelow(dig, base, Val(ip));
    WriteWhole(o, dig, base, before, column0, s);
    s := s + WholeText(dig, |dig|, base);
    if a.scale > 0 {
      o.PutMore('.', before, column0, s);
      frac := WriteFraction(o, fraction, base, before, column0, s + ['.']);
      FractionBelow(frac, base, Units(fraction), Ten(a.scale));
      ConcatAssoc(s, ['.'], FractionText(frac, base));
    } else {
      TenZero(a.scale);
      NoFractionDigits(base, Units(fraction), Ten(a.scale));
      FractionBelow(frac, base, Units(fraction), Ten(a.scale));
      assert s + [] == s;
    }
    ExpansionFrom(whole, frac, base, Val(a.d), a.scale, Val(ip), Units(fraction));
  }

  lemma {:induction false} WholeBelow(s: seq<nat>, base: nat, v: nat)
    requires IsWhole(s, base, v)
    ensures AllBelow(s, base)
  {
  }

  lemma {:induction false} FractionBelow(s: seq<nat>, base: nat, x: nat, d: nat)
    requires IsFraction(s, base, x, d)
    ensures AllBelow(s, base)
  {
  }
}
