/** bc's division, remainder and square root. */
module Quotients {
  import opened Options
  import opened Arith
  import opened Limbs
  import opened Magnitude
  import opened Division
  import opened Decimal
  import opened SquareRoot
  import opened Fractions
  import opened Numbers

  // ---- quotients ----

  lemma {:induction false} RemainderIsQuotient(u: nat, v: nat, q: nat, r: nat)
    requires u == q * v + r && r < v
    ensures IsQuotient(u, v, q)
  {
    assert (q + 1) * v == q * v + v;
  }

  /** The dividend is scaled up: what is divided is x. */
  lemma {:induction false} DividedUp(a: nat, b: nat, sa: nat, sb: nat, scale: nat, k: nat, x: nat, q: nat)
    requires k + sa == scale + sb && x == a * Ten(k) && IsQuotient(x, b, q)
    ensures IsQuotient(a * Ten(sb) * Ten(scale), b * Ten(sa), q)
  {
    hide Ten, IsQuotient;
    CommonFactor(x, b, q, Ten(sa));
    TenAdd(k, sa);
    TenAdd(scale, sb);
    assert a * Ten(k) * Ten(sa) == a * (Ten(k) * Ten(sa));
    assert a * Ten(sb) * Ten(scale) == a * (Ten(scale) * Ten(sb));
  }

  /** The dividend is scaled down: it is cut off twice. */
  lemma {:induction false} DividedDown(a: nat, b: nat, sa: nat, sb: nat, scale: nat, k: nat, x: nat, q: nat)
    requires sa == scale + sb + k && IsQuotient(a, Ten(k), x) && IsQuotient(x, b, q)
    ensures IsQuotient(a * Ten(sb) * Ten(scale), b * Ten(sa), q)
  {
    hide Ten, IsQuotient;
    DividedTwice(a, Ten(k), b, x, q);
    CommonFactor(a, b * Ten(k), q, Ten(sb) * Ten(scale));
    TenAdd(scale, sb);
    TenAdd(scale + sb, k);
    assert a * (Ten(sb) * Ten(scale)) == a * Ten(sb) * Ten(scale);
    assert b * Ten(k) * (Ten(sb) * Ten(scale)) == b * (Ten(scale) * Ten(sb) * Ten(k));
  }

  /** num_div: a / b cut off at the scale, or nothing when b is zero. */
  method Divide(a: Num, b: Num, scale: nat) returns (q: Option<Num>)
    requires Valid(a) && Valid(b)
    ensures q.None? <==> Units(b) == 0
    ensures q.Some? ==> q.value.scale == scale && IsCut(q.value, Units(a) * Ten(b.scale), Units(b) * Ten(a.scale))
  {
    hide Val, Ten, IsCut, IsQuotient, Units;
    UnitsSign(a);
    UnitsSign(b);
    if |b.d| == 0 {
      return None;
    }
    var k := scale + b.scale - a.scale;
    var d;
    if k >= 0 {
      var x := ShiftUp(a.d, k);
      d := QuotientOnly(x, b.d);
      DividedUp(Val(a.d), Val(b.d), a.scale, b.scale, scale, k, Val(x), Val(d));
    } else {
      var x := ShiftDown(a.d, -k);
      d := QuotientOnly(x, b.d);
      CutIsQuotient(Val(a.d), Ten(-k), Val(x));
      DividedDown(Val(a.d), Val(b.d), a.scale, b.scale, scale, -k, Val(x), Val(d));
    }
    var r := Make(a.neg != b.neg, scale, d);
    SignedQuotient(a, b, r, Val(d));
    q := Some(r);
  }

  lemma {:induction false} CutIsQuotient(u: nat, v: nat, q: nat)
    requires q * v <= u < (q + 1) * v
    ensures IsQuotient(u, v, q)
  {
  }

  method QuotientOnly(x: seq<limb>, b: seq<limb>) returns (d: seq<limb>)
    requires Trimmed(x) && Trimmed(b) && b != []
    ensures Trimmed(d) && IsQuotient(Val(x), Val(b), Val(d))
  {
    hide Val, Trimmed;
    var r;
    d, r := DivMod(x, b);
    RemainderIsQuotient(Val(x), Val(b), Val(d), Val(r));
  }

  lemma {:induction false} SignedQuotient(a: Num, b: Num, r: Num, d: nat)
    requires Valid(a) && Valid(b) && Valid(r) && Units(r) == if a.neg != b.neg then -(d as int) else d
    requires IsQuotient(Val(a.d) * Ten(b.scale) * Ten(r.scale), Val(b.d) * Ten(a.scale), d)
    ensures IsCut(r, Units(a) * Ten(b.scale), Units(b) * Ten(a.scale))
  {
    hide Val, Ten, IsCut, IsQuotient, Valid, Units;
    AbsUnits(a);
    AbsUnits(b);
    UnitsSign(a);
    UnitsSign(b);
    AbsProduct(Units(a), Ten(b.scale));
    AbsProduct(Units(b), Ten(a.scale));
    NotByZero(Val(a.d) * Ten(b.scale) * Ten(r.scale), Val(b.d) * Ten(a.scale), d);
    CutFrom(r, a.neg != b.neg, d, Units(a) * Ten(b.scale), Units(b) * Ten(a.scale));
  }

  lemma {:induction false} NotByZero(u: nat, v: nat, q: nat)
    requires IsQuotient(u, v, q)
    ensures v > 0
  {
    if v == 0 {
      assert false;
    }
  }

  // ---- remainders ----

  /** r is what is left of a when q times b is taken from it: r has a's sign and is less than b by the
      scale of q. */
  ghost predicate IsRemainder(a: Num, b: Num, q: Num, r: Num)
  {
    && Valid(r) && r.scale == Max(q.scale + b.scale, a.scale)
    && Units(r) == Units(a) * Ten(r.scale - a.scale) - Units(q) * Units(b) * Ten(r.scale - (q.scale + b.scale))
    && Abs(Units(r)) < Abs(Units(b)) * Ten(r.scale - (q.scale + b.scale))
    && (Units(a) >= 0 ==> Units(r) >= 0) && (Units(a) <= 0 ==> Units(r) <= 0)
  }

  /** num_mod: the remainder of the division to the scale; nothing is lost by rescaling it. */
  method Modulus(a: Num, b: Num, scale: nat) returns (r: Option<Num>, ghost q: Num)
    requires Valid(a) && Valid(b)
    ensures r.None? <==> Units(b) == 0
    ensures r.Some? ==> q.scale == scale && IsCut(q, Units(a) * Ten(b.scale), Units(b) * Ten(a.scale))
    ensures r.Some? ==> IsRemainder(a, b, q, r.value)
  {
    hide Val, Ten, IsQuotient, Units, Truncates;
    var rs := Max(scale + b.scale, a.scale);
    q := a;
    var quotient := Divide(a, b, scale);
    if quotient == None {
      return None, q;
    }
    q := quotient.value;
    var p := MultiplyExact(quotient.value, b);
    var d := AddSub(a, p, true);
    var rescaled := Rescale(d, rs);
    RescaleSame(d, rescaled);
    RemainderLess(a, b, q, p, rescaled);
    r := Some(rescaled);
  }

  lemma {:induction false} RemainderLess(a: Num, b: Num, q: Num, p: Num, r: Num)
    requires Valid(a) && Valid(b) && IsCut(q, Units(a) * Ten(b.scale), Units(b) * Ten(a.scale))
    requires Valid(p) && p.scale == q.scale + b.scale && Units(p) == Units(q) * Units(b)
    requires Valid(r) && r.scale == Max(a.scale, p.scale)
    requires Units(r) == Units(a) * Ten(r.scale - a.scale) + -1 * (Units(p) * Ten(r.scale - p.scale))
    ensures IsRemainder(a, b, q, r)
  {
    hide Ten, Units, Truncates, Valid;
    TruncatesIff(Units(q), Units(a) * Ten(b.scale) * Ten(q.scale), Units(b) * Ten(a.scale));
    RemainderScaled(Units(a), Units(b), Units(q), a.scale, b.scale, q.scale, r.scale, Units(r));
  }

  /** The law of the remainder, free of the scales: both sides are multiplied by a power of ten. */
  lemma {:induction false} RemainderScaled(a: int, b: int, q: int, sa: nat, sb: nat, sq: nat, rs: nat, r: int)
    requires rs == Max(sq + sb, sa) && r == a * Ten(rs - sa) - q * b * Ten(rs - (sq + sb))
    requires Abs(a * Ten(sb) * Ten(sq) - q * (b * Ten(sa))) < Abs(b * Ten(sa))
    requires a * Ten(sb) * Ten(sq) >= 0 ==> a * Ten(sb) * Ten(sq) - q * (b * Ten(sa)) >= 0
    requires a * Ten(sb) * Ten(sq) <= 0 ==> a * Ten(sb) * Ten(sq) - q * (b * Ten(sa)) <= 0
    ensures Abs(r) < Abs(b) * Ten(rs - (sq + sb)) && (a >= 0 ==> r >= 0) && (a <= 0 ==> r <= 0)
  {
    hide Ten;
    var s := sq + sb;
    TenAdd(sb, sq);
    if sa <= s {
      TenAdd(sa, s - sa);
      TenZero(rs - s);
      LeftTimes(a, b, q, Ten(sb), Ten(sq), Ten(s - sa), Ten(sa), r);
    } else {
      TenAdd(s, sa - s);
      TenZero(rs - sa);
      LeftOver(a, b, q, Ten(sb), Ten(sq), Ten(sa - s), Ten(sa), r);
    }
  }

  lemma {:induction false} TenZero(k: nat)
    ensures k == 0 ==> Ten(k) == 1
  {
  }

  lemma {:induction false} SignTimes(x: int, p: int)
    requires p > 0
    ensures Abs(x * p) == Abs(x) * p && (x * p >= 0 <==> x >= 0) && (x * p <= 0 <==> x <= 0)
  {
    AbsProduct(x, p);
    Positive(Abs(x), p);
  }

  lemma {:induction false} LessWithout(x: int, y: int, p: int)
    requires p > 0 && x * p < y * p
    ensures x < y
  {
    if x >= y {
      MulMono(y, x, p);
    }
  }

  /** What is known of r times t is true of r. */
  lemma {:induction false} FromTimes(a: int, a': int, r: int, t: nat, y: nat)
    requires t > 0 && (a' >= 0 <==> a >= 0) && (a' <= 0 <==> a <= 0)
    requires Abs(r * t) < y * t && (a' >= 0 ==> r * t >= 0) && (a' <= 0 ==> r * t <= 0)
    ensures Abs(r) < y && (a >= 0 ==> r >= 0) && (a <= 0 ==> r <= 0)
  {
    SignTimes(r, t);
    LessWithout(Abs(r), y, t);
  }

  /** The remainder of the scaled division is r times p. */
  lemma {:induction false} LeftTimes(a: int, b: int, q: int, tb: nat, tq: nat, up: nat, p: nat, r: int)
    requires tb > 0 && tq > 0 && up > 0 && p > 0 && tb * tq == p * up && r == a * up - q * b * 1
    requires Abs(a * tb * tq - q * (b * p)) < Abs(b * p)
    requires a * tb * tq >= 0 ==> a * tb * tq - q * (b * p) >= 0
    requires a * tb * tq <= 0 ==> a * tb * tq - q * (b * p) <= 0
    ensures Abs(r) < Abs(b) * 1 && (a >= 0 ==> r >= 0) && (a <= 0 ==> r <= 0)
  {
    var a' := a * tb * tq;
    TimesUp(a, b, q, tb, tq, up, p, r);
    SignTimes(a, tb);
    SignTimes(a * tb, tq);
    SignTimes(b, p);
    FromTimes(a, a', r, p, Abs(b));
  }

  lemma {:induction false} TimesUp(a: int, b: int, q: int, tb: int, tq: int, up: int, p: int, r: int)
    requires tb * tq == p * up && r == a * up - q * b * 1
    ensures a * tb * tq - q * (b * p) == r * p
  {
    assert a * tb * tq == a * (p * up);
    assert a * (p * up) == a * up * p;
    assert q * (b * p) == q * b * p;
  }

  /** The remainder of the scaled division, times what is missing, is r times p. */
  lemma {:induction false} LeftOver(a: int, b: int, q: int, tb: nat, tq: nat, up: nat, p: nat, r: int)
    requires tb > 0 && tq > 0 && up > 0 && p == tb * tq * up && r == a * 1 - q * b * up
    requires Abs(a * tb * tq - q * (b * p)) < Abs(b * p)
    requires a * tb * tq >= 0 ==> a * tb * tq - q * (b * p) >= 0
    requires a * tb * tq <= 0 ==> a * tb * tq - q * (b * p) <= 0
    ensures Abs(r) < Abs(b) * up && (a >= 0 ==> r >= 0) && (a <= 0 ==> r <= 0)
  {
    var t := tb * tq;
    Positive(tb, tq);
    TimesDown(a, b, q, tb, tq, up, r);
    SignTimes(a, tb);
    SignTimes(a * tb, tq);
    ScaledLimit(b, t, up);
    FromTimes(a, a * tb * tq, r, t, Abs(b) * up);
  }

  lemma {:induction false} ScaledLimit(b: int, t: nat, up: nat)
    requires t > 0 && up > 0
    ensures Abs(b * (t * up)) == Abs(b) * up * t
  {
    Positive(t, up);
    SignTimes(b, t * up);
    assert Abs(b) * (t * up) == Abs(b) * up * t;
  }

  lemma {:induction false} TimesDown(a: int, b: int, q: int, tb: int, tq: int, up: int, r: int)
    requires r == a * 1 - q * b * up
    ensures a * tb * tq - q * (b * (tb * tq * up)) == r * (tb * tq)
  {
    var t := tb * tq;
    assert a * tb * tq == a * t;
    assert q * (b * (t * up)) == q * b * (t * up);
    assert q * b * (t * up) == q * b * up * t;
  }

  // ---- roots ----

  /** num_sqrt: the root cut off at the larger of the scales, or nothing for a negative number. */
  method Root(a: Num, scale: nat) returns (r: Option<Num>)
    requires Valid(a)
    ensures r.None? <==> Units(a) < 0
    ensures r.Some? ==> Valid(r.value) && r.value.scale == Max(scale, a.scale) && Units(r.value) >= 0
    ensures r.Some? ==> Units(r.value) * Units(r.value) * Ten(a.scale) <= Units(a) * Ten(2 * r.value.scale)
    ensures r.Some? ==> Units(a) * Ten(2 * r.value.scale) < (Units(r.value) + 1) * (Units(r.value) + 1) * Ten(a.scale)
  {
    hide Val, Ten, IsRoot;
    UnitsSign(a);
    if a.neg && |a.d| > 0 {
      return None;
    }
    var rs := Max(scale, a.scale);
    var x := ShiftUp(a.d, 2 * rs - a.scale);
    var s := SquareRoot.SquareRoot(x);
    var root := Make(false, rs, s);
    RootScaled(Val(a.d), a.scale, rs, Val(x), Val(s));
    r := Some(root);
  }

  lemma {:induction false} RootScaled(a: nat, sa: nat, rs: nat, x: nat, s: nat)
    requires rs >= sa && x == a * Ten(2 * rs - sa) && IsRoot(x, s)
    ensures s * s * Ten(sa) <= a * Ten(2 * rs) < (s + 1) * (s + 1) * Ten(sa)
  {
    hide Ten;
    TenAdd(2 * rs - sa, sa);
    assert a * Ten(2 * rs - sa) * Ten(sa) == a * (Ten(2 * rs - sa) * Ten(sa));
    MulMono(s * s, x, Ten(sa));
    MulNext(x, (s + 1) * (s + 1), Ten(sa));
  }
}
