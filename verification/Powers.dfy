/** bc's powers: by squaring, exactly, and cut off at the end. */
module Powers {
  import opened Options
  import opened Arith
  import opened Limbs
  import opened Magnitude
  import opened Division
  import opened Decimal
  import opened Fractions
  import opened Numbers
  import opened Quotients

  const LONG_MAX := 0x7fff_ffff_ffff_ffff
  const EXPONENT_MAX := 1_000_000_000

  // ---- numbers as machine words ----

  lemma {:induction false} WordLimbs(d: seq<limb>)
    requires Trimmed(d) && |d| > 3
    ensures Val(d) > LONG_MAX
  {
    hide Val, Pow;
    TrimmedBound(d);
    PowThree();
    PowMonotonic(3, |d| - 1);
  }

  lemma {:induction false} UpperLimbs(d: seq<limb>, i: nat)
    requires i <= |d|
    ensures Val(d) >= Val(d[i..])
  {
    ValSplit(d, i);
    MulMono(1, Pow(i), Val(d[i..]));
  }

  /** The limbs as one word, when they fit. */
  method WordFrom(d: seq<limb>) returns (v: Option<u64>)
    requires Trimmed(d)
    ensures v == if Val(d) <= LONG_MAX then Some(Val(d)) else None
  {
    hide Val, Pow, Trimmed;
    if |d| > 3 {
      WordLimbs(d);
      return None;
    }
    var u: u64, i := 0, |d|;
    ValEnd(d);
    while i > 0
      invariant 0 <= i <= |d| && u == Val(d[i..])
    {
      i := i - 1;
      ValCons(d, i);
      UpperLimbs(d, i);
      if u > LONG_MAX / BASE {
        return None;
      }
      u := u * BASE + d[i];
    }
    assert d[0..] == d;
    if u > LONG_MAX {
      return None;
    }
    v := Some(u);
  }

  /** num_to_long: the whole part, when it fits in a long. */
  method ToLong(a: Num) returns (v: Option<int>, ghost t: int)
    requires Valid(a)
    ensures Truncates(t, Units(a), Ten(a.scale)) && v == if Abs(t) <= LONG_MAX then Some(t) else None
  {
    hide Val, Truncates;
    var r := Rescale(a, 0);
    assert Ten(0) == 1;
    t := Units(r);
    var u := WordFrom(r.d);
    if u == None {
      return None, t;
    }
    v := Some(if r.neg then -(u.value as int) else u.value);
  }

  // ---- powers ----

  function IntPow(x: int, n: nat): (p: int)
    ensures x >= 0 ==> p >= 0
  {
    if n == 0 then 1 else x * IntPow(x, n - 1)
  }

  lemma {:induction false} IntPowDouble(x: int, n: nat)
    ensures IntPow(x, 2 * n) == IntPow(x * x, n)
  {
    hide IntPow;
    if n > 0 {
      IntPowDouble(x, n - 1);
      IntPowIs(x, 2 * n);
      IntPowIs(x, 2 * n - 1);
      IntPowIs(x * x, n);
      Associate(x, x, IntPow(x, 2 * n - 2));
    } else {
      PowNone(x);
      PowNone(x * x);
    }
  }

  lemma {:induction false} IntPowIs(x: int, n: nat)
    requires n > 0
    ensures IntPow(x, n) == x * IntPow(x, n - 1)
  {
  }

  lemma {:induction false} Associate(x: int, y: int, z: int)
    ensures x * (y * z) == x * y * z
  {
  }

  lemma {:induction false} IntPowSign(x: int, n: nat)
    ensures IntPow(x, n) == if x < 0 && n % 2 == 1 then -IntPow(Abs(x), n) else IntPow(Abs(x), n)
    ensures IntPow(Abs(x), n) >= 0
  {
    hide IntPow, Abs;
    AbsSign(x);
    if n > 0 {
      IntPowSign(x, n - 1);
      IntPowIs(x, n);
      IntPowIs(Abs(x), n);
      SignNext(x, IntPow(Abs(x), n - 1));
    } else {
      PowNone(x);
      PowNone(Abs(x));
    }
  }

  lemma {:induction false} AbsSign(x: int)
    ensures Abs(x) >= 0 && (x >= 0 ==> Abs(x) == x)
  {
  }

  lemma {:induction false} SignNext(x: int, p: nat)
    ensures Abs(x) * p >= 0 && x * p == (if x < 0 then -(Abs(x) * p) else Abs(x) * p)
    ensures x * -(p as int) == if x < 0 then Abs(x) * p else -(Abs(x) * p)
  {
    Positive(Abs(x), p);
  }

  /** So far res, and base to what is left of the exponent, make the power. */
  ghost predicate Squaring(res: Num, base: Num, bits: nat, a: int, sa: nat, e: nat)
  {
    && Valid(res) && Valid(base)
    && Units(res) * IntPow(Units(base), bits) == IntPow(a, e)
    && res.scale + base.scale * bits == sa * e
  }

  lemma {:induction false} SquaringOdd(u: int, x: int, bits: nat, s: nat, sb: nat)
    requires bits % 2 == 1
    ensures u * IntPow(x, bits) == u * x * IntPow(x * x, bits / 2)
    ensures s + sb * bits == s + sb + (sb + sb) * (bits / 2)
  {
    IntPowDouble(x, bits / 2);
    assert bits == 2 * (bits / 2) + 1;
    assert IntPow(x, bits) == x * IntPow(x, 2 * (bits / 2));
    assert u * (x * IntPow(x, 2 * (bits / 2))) == u * x * IntPow(x, 2 * (bits / 2));
    assert sb * (2 * (bits / 2) + 1) == sb + (sb + sb) * (bits / 2);
  }

  lemma {:induction false} SquaringEven(u: int, x: int, bits: nat, s: nat, sb: nat)
    requires bits % 2 == 0
    ensures u * IntPow(x, bits) == u * IntPow(x * x, bits / 2)
    ensures s + sb * bits == s + (sb + sb) * (bits / 2)
  {
    IntPowDouble(x, bits / 2);
    assert bits == 2 * (bits / 2);
    assert sb * (2 * (bits / 2)) == (sb + sb) * (bits / 2);
  }

  lemma {:induction false} SquaringEnd(x: int, y: int)
    ensures IntPow(x, 0) == IntPow(y, 0)
  {
  }

  method SquaringStep(res: Num, base: Num, bits: nat, ghost a: int, ghost sa: nat, ghost e: nat)
    returns (res': Num, base': Num)
    requires bits > 0 && Squaring(res, base, bits, a, sa, e)
    ensures Squaring(res', base', bits / 2, a, sa, e)
  {
    hide Valid, Units, IntPow;
    res', base' := res, base;
    if bits % 2 == 1 {
      SquaringOdd(Units(res), Units(base), bits, res.scale, base.scale);
      res' := MultiplyExact(res, base);
    } else {
      SquaringEven(Units(res), Units(base), bits, res.scale, base.scale);
    }
    if bits / 2 > 0 {
      base' := MultiplyExact(base, base);
    } else {
      SquaringEnd(Units(base), Units(base) * Units(base));
    }
  }

  /** The power of the magnitude, by squaring. */
  method ExactPower(a: Num, e: nat) returns (res: Num)
    requires Valid(a)
    ensures Valid(res) && Units(res) == IntPow(Abs(Units(a)), e) && res.scale == a.scale * e
  {
    hide Val, Units, IntPow;
    var one := FromLong(1);
    res := Make(false, 0, one);
    var base := Make(false, a.scale, a.d);
    AbsUnits(a);
    var bits := e;
    SquaringStart(Units(res), IntPow(Units(base), e));
    while bits > 0
      invariant bits >= 0 && Squaring(res, base, bits, Abs(Units(a)), a.scale, e)
    {
      res, base := SquaringStep(res, base, bits, Abs(Units(a)), a.scale, e);
      bits := bits / 2;
    }
    PowNone(Units(base));
  }

  lemma {:induction false} SquaringStart(u: int, x: int)
    requires u == 1
    ensures u * x == x
  {
  }

  lemma {:induction false} PowNone(x: int)
    ensures IntPow(x, 0) == 1
  {
  }

  datatype PowerResult = TooLarge | ByZero | Power(value: Num)

  /** The exponent is not a long, or is out of range. */
  predicate ExponentTooLarge(e: int)
  {
    e > EXPONENT_MAX || e < -EXPONENT_MAX
  }

  /** What a power with the exponent e is. */
  ghost predicate IsPower(r: PowerResult, a: Num, e: int, scale: nat)
  {
    if ExponentTooLarge(e) then
      r == TooLarge
    else if e >= 0 then
      && r.Power? && r.value.scale == Min(a.scale * e, Max(scale, a.scale))
      && IsCut(r.value, IntPow(Units(a), e), Ten(a.scale * e))
    else if IntPow(Units(a), -e) == 0 then
      r == ByZero
    else
      && r.Power? && r.value.scale == scale
      && IsCut(r.value, Ten(a.scale * -e), IntPow(Units(a), -e))
  }

  /** num_pow: the exponent is the whole part of b. */
  method RaiseTo(a: Num, b: Num, scale: nat) returns (r: PowerResult)
    requires Valid(a) && Valid(b)
    ensures exists e :: Truncates(e, Units(b), Ten(b.scale)) && IsPower(r, a, e, scale)
  {
    hide Val, Units, Valid, IntPow, Truncates, Ten, IsCut, Abs, IsPower;
    var v, e := ToLong(b);
    if v == None || ExponentTooLarge(v.value) {
      PowerTooLarge(a, e, scale);
      return TooLarge;
    }
    r := RaiseToWord(a, v.value, scale);
  }

  lemma {:induction false} PowerTooLarge(a: Num, e: int, scale: nat)
    requires Abs(e) > LONG_MAX || ExponentTooLarge(e)
    ensures IsPower(TooLarge, a, e, scale)
  {
  }

  method RaiseToWord(a: Num, v: int, scale: nat) returns (r: PowerResult)
    requires Valid(a) && !ExponentTooLarge(v)
    ensures IsPower(r, a, v, scale)
  {
    hide Val, Units, Valid, IntPow, Truncates, Ten, IsCut, Abs;
    var negative := v < 0;
    var e := if negative then -v else v;
    var res := ExactPower(a, e);
    UnitsSign(a);
    IntPowSign(Units(a), e);
    if a.neg && e % 2 == 1 && |res.d| > 0 {
      res := Negative(res);
    } else {
      UnitsSign(res);
    }
    if negative {
      r := Reciprocal(res, scale);
      assert a.scale * e == a.scale * -v;
    } else {
      var cut := Rescale(res, Min(a.scale * e, Max(scale, a.scale)));
      r := Power(cut);
    }
  }

  method Reciprocal(a: Num, scale: nat) returns (r: PowerResult)
    requires Valid(a)
    ensures Units(a) == 0 ==> r == ByZero
    ensures Units(a) != 0 ==> r.Power? && r.value.scale == scale && IsCut(r.value, Ten(a.scale), Units(a))
  {
    hide Val, Units, Valid, IntPow, Truncates, Ten, IsCut;
    var d := FromLong(1);
    var one := Make(false, 0, d);
    UnitsSign(a);
    if |a.d| == 0 {
      return ByZero;
    }
    var q := Divide(one, a, scale);
    TenZero(0);
    r := Power(q.value);
  }
}
