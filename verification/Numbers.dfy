/** bc's numbers: a sign, limbs and a decimal scale. */
module Numbers {
  import opened Arith
  import opened Limbs
  import opened Magnitude
  import opened Multiply
  import opened Division
  import opened Decimal
  import opened Fractions

  datatype Num = Num(neg: bool, scale: nat, d: seq<limb>)

  /** No leading zeros, and no negative zero. */
  ghost predicate Valid(a: Num)
  {
    Trimmed(a.d) && (a.neg ==> a.d != [])
  }

  /** The number is this whole number of units of 10^-scale. */
  ghost function Units(a: Num): (u: int)
  {
    if a.neg then -(Val(a.d) as int) else Val(a.d)
  }

  lemma {:induction false} UnitsSign(a: Num)
    requires Valid(a)
    ensures a.neg <==> Units(a) < 0
    ensures a.d == [] <==> Units(a) == 0
  {
    if a.d != [] {
      TrimmedBound(a.d);
    }
  }

  /** Numbers are the same when their scales and their units are. */
  lemma {:induction false} NumUnique(a: Num, b: Num)
    requires Valid(a) && Valid(b) && a.scale == b.scale && Units(a) == Units(b)
    ensures a == b
  {
    UnitsSign(a);
    UnitsSign(b);
    TrimmedUnique(a.d, b.d);
  }

  method Make(neg: bool, scale: nat, d: seq<limb>) returns (r: Num)
    requires Trimmed(d)
    ensures Valid(r) && r.scale == scale && Units(r) == if neg then -(Val(d) as int) else Val(d)
  {
    r := Num(neg && |d| > 0, scale, d);
    if |d| == 0 {
      assert Val(d) == 0;
    }
  }

  /** r is x / y, cut off after as many decimal places as r has. */
  ghost predicate IsCut(r: Num, x: int, y: int)
  {
    Valid(r) && Truncates(Units(r), x * Ten(r.scale), y)
  }

  /** r is x / y exactly. */
  ghost predicate IsExact(r: Num, x: int, y: int)
  {
    Valid(r) && y != 0 && Units(r) * y == x * Ten(r.scale)
  }

  lemma {:induction false} CutIsUnique(r: Num, r': Num, x: int, y: int)
    requires IsCut(r, x, y) && IsCut(r', x, y) && r.scale == r'.scale
    ensures r == r'
  {
    hide Truncates, Valid, Units;
    TruncatesUnique(Units(r), Units(r'), x * Ten(r.scale), y);
    NumUnique(r, r');
  }

  // ---- scales ----

  lemma {:induction false} AbsUnits(a: Num)
    ensures Abs(Units(a)) == Val(a.d)
  {
  }

  /** A result with the right limbs and the right sign. */
  lemma {:induction false} CutFrom(r: Num, neg: bool, d: nat, x: int, y: int)
    requires Valid(r) && Units(r) == if neg then -(d as int) else d
    requires IsQuotient(Abs(x) * Ten(r.scale), Abs(y), d) && (x != 0 ==> (neg <==> ((x < 0) != (y < 0))))
    ensures IsCut(r, x, y)
  {
    hide Valid, Units, Ten;
    AbsProduct(x, Ten(r.scale));
    if x == 0 {
      NothingCut(Abs(x) * Ten(r.scale), Abs(y), d);
    }
  }

  lemma {:induction false} NothingCut(u: nat, v: nat, q: nat)
    requires IsQuotient(u, v, q) && u == 0
    ensures q == 0
  {
    Positive(q, v);
  }

  lemma {:induction false} ScaledUp(v: nat, k: nat, s: nat, t: nat, d: nat)
    requires t == s + k && d == v * Ten(k)
    ensures IsQuotient(v * Ten(t), Ten(s), d)
  {
    hide Ten, IsQuotient;
    TenAdd(s, k);
    assert v * (Ten(s) * Ten(k)) == v * Ten(k) * Ten(s);
    ExactQuotient(v * Ten(t), Ten(s), d);
  }

  lemma {:induction false} ScaledDown(v: nat, k: nat, s: nat, t: nat, d: nat)
    requires s == t + k && d * Ten(k) <= v < (d + 1) * Ten(k)
    ensures IsQuotient(v * Ten(t), Ten(s), d)
  {
    hide Ten;
    TenAdd(t, k);
    CommonFactor(v, Ten(k), d, Ten(t));
    assert Ten(k) * Ten(t) == Ten(t) * Ten(k);
  }

  /** num_rescale: the same number to another scale, cut off where it has to be. */
  method Rescale(a: Num, scale: nat) returns (r: Num)
    requires Valid(a)
    ensures r.scale == scale && IsCut(r, Units(a), Ten(a.scale))
  {
    hide Val, Ten, IsCut, IsQuotient;
    var d;
    if scale >= a.scale {
      d := ShiftUp(a.d, scale - a.scale);
      ScaledUp(Val(a.d), scale - a.scale, a.scale, scale, Val(d));
    } else {
      d := ShiftDown(a.d, a.scale - scale);
      ScaledDown(Val(a.d), a.scale - scale, a.scale, scale, Val(d));
    }
    r := Make(a.neg, scale, d);
    AbsUnits(a);
    UnitsSign(a);
    CutFrom(r, a.neg, Val(d), Units(a), Ten(a.scale));
  }

  lemma {:induction false} ExactIsCut(r: Num, x: int, y: int)
    requires IsExact(r, x, y)
    ensures IsCut(r, x, y)
  {
    hide Ten, Valid, Units;
    assert x * Ten(r.scale) - Units(r) * y == 0;
    TruncatesIff(Units(r), x * Ten(r.scale), y);
  }

  /** To a scale that is not less, nothing is cut off. */
  lemma {:induction false} RescaleUpExact(a: Num, r: Num)
    requires Valid(a) && IsCut(r, Units(a), Ten(a.scale)) && r.scale >= a.scale
    ensures IsExact(r, Units(a), Ten(a.scale)) && Units(r) == Units(a) * Ten(r.scale - a.scale)
  {
    hide Ten, Valid, Units, Truncates;
    var k := r.scale - a.scale;
    var up := Units(a) * Ten(k);
    TenAdd(a.scale, k);
    assert Units(a) * (Ten(a.scale) * Ten(k)) == up * Ten(a.scale);
    assert Units(a) * Ten(r.scale) - up * Ten(a.scale) == 0;
    TruncatesIff(up, Units(a) * Ten(r.scale), Ten(a.scale));
    TruncatesUnique(Units(r), up, Units(a) * Ten(r.scale), Ten(a.scale));
  }

  /** A number is rescaled to its own scale by leaving it as it is. */
  lemma {:induction false} RescaleSame(a: Num, r: Num)
    requires Valid(a) && IsCut(r, Units(a), Ten(a.scale)) && r.scale == a.scale
    ensures r == a
  {
    hide Valid, Units;
    RescaleUpExact(a, r);
    assert Ten(0) == 1;
    NumUnique(r, a);
  }

  /** Rescaled to more places and back, a number is what it was. */
  lemma {:induction false} RescaleUpDown(a: Num, up: Num, back: Num)
    requires Valid(a) && up.scale >= a.scale == back.scale
    requires IsCut(up, Units(a), Ten(a.scale)) && IsCut(back, Units(up), Ten(up.scale))
    ensures back == a
  {
    hide Valid, Units, Truncates, Ten;
    RescaleUpExact(a, up);
    assert Units(a) * Ten(up.scale) - Units(up) * Ten(a.scale) == 0;
    TruncatesIff(Units(a), Units(up) * Ten(a.scale), Ten(up.scale));
    TruncatesUnique(Units(back), Units(a), Units(up) * Ten(a.scale), Ten(up.scale));
    NumUnique(back, a);
  }

  // ---- comparing ----

  function Sign(x: int): int
  {
    if x < 0 then -1 else if x == 0 then 0 else 1
  }

  lemma {:induction false} SignIs(x: nat, y: nat)
    ensures Sign(x - y) == if x < y then -1 else if x == y then 0 else 1
  {
  }

  /** Comparing x * k with y is comparing x * q with y * p, when q is p * k; and the other way round. */
  lemma {:induction false} SignShifted(x: nat, y: nat, k: nat, p: nat, q: nat)
    requires p > 0 && q == p * k
    ensures Sign(x * q - y * p) == Sign(x * k - y) && Sign(y * p - x * q) == Sign(y - x * k)
  {
    SignScaled(x * k, y, p);
    SignScaled(y, x * k, p);
    assert x * k * p == x * (p * k);
  }

  /** num_cmp_abs */
  method CompareAbs(a: Num, b: Num) returns (c: int)
    requires Valid(a) && Valid(b)
    ensures c == Sign(Val(a.d) * Ten(b.scale) - Val(b.d) * Ten(a.scale))
  {
    hide Val, Ten, Sign;
    TenPositive(a.scale);
    TenPositive(b.scale);
    if a.scale == b.scale {
      c := Compare(a.d, b.d);
      SignIs(Val(a.d), Val(b.d));
      SignScaled(Val(a.d), Val(b.d), Ten(a.scale));
    } else if a.scale < b.scale {
      var t := ShiftUp(a.d, b.scale - a.scale);
      c := Compare(t, b.d);
      SignIs(Val(t), Val(b.d));
      TenAdd(a.scale, b.scale - a.scale);
      SignShifted(Val(a.d), Val(b.d), Ten(b.scale - a.scale), Ten(a.scale), Ten(b.scale));
    } else {
      var t := ShiftUp(b.d, a.scale - b.scale);
      c := Compare(a.d, t);
      SignIs(Val(a.d), Val(t));
      TenAdd(b.scale, a.scale - b.scale);
      SignShifted(Val(b.d), Val(a.d), Ten(a.scale - b.scale), Ten(b.scale), Ten(a.scale));
    }
  }

  lemma {:induction false} SignScaled(x: nat, y: nat, p: nat)
    requires p > 0
    ensures Sign(x * p - y * p) == Sign(x - y)
  {
    if x < y {
      MulNext(x, y, p);
    } else if y < x {
      MulNext(y, x, p);
    }
  }

  /** num_cmp: the sign of the difference. */
  method CompareNum(a: Num, b: Num) returns (c: int)
    requires Valid(a) && Valid(b)
    ensures c == Sign(Units(a) * Ten(b.scale) - Units(b) * Ten(a.scale))
  {
    hide Val, Ten;
    UnitsSign(a);
    UnitsSign(b);
    AbsProduct(Units(a), Ten(b.scale));
    AbsProduct(Units(b), Ten(a.scale));
    if a.neg != b.neg {
      return if a.neg then -1 else 1;
    }
    c := CompareAbs(a, b);
    if a.neg {
      c := -c;
    }
  }

  /** num_neg */
  method Negative(a: Num) returns (r: Num)
    requires Valid(a)
    ensures Valid(r) && r.scale == a.scale && Units(r) == -Units(a)
  {
    UnitsSign(a);
    r := if |a.d| > 0 then a.(neg := !a.neg) else a;
  }

  // ---- sums ----

  function Min(x: int, y: int): int
  {
    if x < y then x else y
  }

  /** addsub: at the larger of the scales, sums are exact. */
  method AddSub(a: Num, b: Num, negateB: bool) returns (r: Num)
    requires Valid(a) && Valid(b)
    ensures Valid(r) && r.scale == Max(a.scale, b.scale)
    ensures Units(r) == Units(a) * Ten(r.scale - a.scale) + (if negateB then -1 else 1) * (Units(b) * Ten(r.scale - b.scale))
  {
    hide Val, Ten;
    var s := Max(a.scale, b.scale);
    var bneg := if |b.d| > 0 then b.neg != negateB else false;
    var x := ShiftUp(a.d, s - a.scale);
    var y := ShiftUp(b.d, s - b.scale);
    Shifted(a, s - a.scale, Val(x));
    Shifted(b, s - b.scale, Val(y));
    r := AddSigned(a.neg, x, bneg, y, s);
  }

  lemma {:induction false} Shifted(a: Num, k: nat, x: nat)
    requires Valid(a) && x == Val(a.d) * Ten(k)
    ensures Units(a) * Ten(k) == if a.neg then -(x as int) else x
    ensures a.d == [] ==> x == 0
  {
    hide Ten;
    UnitsSign(a);
    Negate(Val(a.d), Ten(k));
  }

  /** Magnitudes with signs are added. */
  method AddSigned(aneg: bool, x: seq<limb>, bneg: bool, y: seq<limb>, s: nat) returns (r: Num)
    requires Trimmed(x) && Trimmed(y)
    ensures Valid(r) && r.scale == s
    ensures Units(r) == (if aneg then -(Val(x) as int) else Val(x)) + (if bneg then -(Val(y) as int) else Val(y))
  {
    hide Val, Ten, Trimmed;
    var d;
    if aneg == bneg {
      d := Add(x, y);
      r := Make(aneg, s, d);
    } else {
      var c := Compare(x, y);
      if c >= 0 {
        d := Subtract(x, y);
        r := Make(aneg, s, d);
      } else {
        d := Subtract(y, x);
        r := Make(bneg, s, d);
      }
    }
  }

  // ---- products ----

  /** num_mul_exact: the scales are added. */
  method MultiplyExact(a: Num, b: Num) returns (r: Num)
    requires Valid(a) && Valid(b)
    ensures Valid(r) && r.scale == a.scale + b.scale && Units(r) == Units(a) * Units(b)
  {
    hide Val;
    var d := Multiply.Multiply(a.d, b.d);
    r := Make(a.neg != b.neg, a.scale + b.scale, d);
    SignedProduct(a.neg, b.neg, Val(a.d), Val(b.d));
  }

  lemma {:induction false} SignedProduct(an: bool, bn: bool, x: int, y: int)
    ensures (if an then -x else x) * (if bn then -y else y) == if an != bn then -(x * y) else x * y
  {
  }

  /** num_mul: the product, cut off at the scale that the standard gives it. */
  method MultiplyNum(a: Num, b: Num, scale: nat) returns (r: Num)
    requires Valid(a) && Valid(b)
    ensures r.scale == Min(a.scale + b.scale, Max(scale, Max(a.scale, b.scale)))
    ensures IsCut(r, Units(a) * Units(b), Ten(a.scale + b.scale))
  {
    hide Val, Ten, IsCut, Units;
    var p := MultiplyExact(a, b);
    r := Rescale(p, Min(a.scale + b.scale, Max(scale, Max(a.scale, b.scale))));
  }
}
