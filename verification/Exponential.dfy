/** bc -l's exponential: halve, sum the series, square; with bounds on what is lost. */
module Exponential {
  import opened Arith
  import opened Bits
  import opened Limbs
  import opened Magnitude
  import opened Division
  import opened Decimal
  import opened Fractions
  import opened Numbers
  import opened Quotients

  // ---- numbers as reals ----

  ghost function Value(a: Num): real
  {
    Units(a) as real / Ten(a.scale) as real
  }

  /** One unit of the last of so many decimal places. */
  ghost function Unit(scale: nat): (u: real)
    ensures u > 0.0
  {
    1.0 / Ten(scale) as real
  }

  lemma {:induction false} UnitMonotonic(s: nat, t: nat)
    requires s <= t
    ensures Unit(t) <= Unit(s)
  {
    TenMonotonic(s, t);
    Reciprocals(Ten(s) as real, Ten(t) as real);
  }

  lemma {:induction false} Reciprocals(x: real, y: real)
    requires 0.0 < x <= y
    ensures 1.0 / y <= 1.0 / x
  {
    assert 1.0 / x - 1.0 / y == (y - x) / (x * y);
  }

  /** r falls short of z by less than one unit. */
  ghost predicate Below(r: real, z: real, u: real)
  {
    0.0 <= r <= z < r + u
  }

  ghost predicate BelowProduct(r: real, x: real, y: real, u: real)
  {
    Below(r, x * y, u)
  }

  ghost predicate BelowQuotient(r: real, x: real, k: nat, u: real)
    requires k > 0
  {
    Below(r, x / k as real, u)
  }

  lemma {:induction false} CutBelow(r: Num, x: nat, y: nat)
    requires IsCut(r, x, y) && y > 0
    ensures Units(r) >= 0 && Below(Value(r), x as real / y as real, Unit(r.scale))
  {
    hide Ten, Units, Valid, IsQuotient;
    Positive(x, Ten(r.scale));
    var q := Abs(Units(r));
    QuotientBounds(x * Ten(r.scale), y, q);
    if Units(r) < 0 {
      assert false;
    }
    CutReal(x, y, Ten(r.scale), q);
  }

  lemma {:induction false} QuotientBounds(u: nat, v: nat, q: nat)
    requires IsQuotient(u, v, q)
    ensures q * v <= u < q * v + v
  {
    assert (q + 1) * v == q * v + v;
  }

  lemma {:induction false} CutReal(x: nat, y: nat, p: nat, q: nat)
    requires y > 0 && p > 0 && q * y <= x * p < q * y + y
    ensures Below(q as real / p as real, x as real / y as real, 1.0 / p as real)
  {
    RealProduct(q, y);
    RealProduct(x, p);
    CutFractions(x as real, y as real, p as real, q as real);
  }

  lemma {:induction false} CutFractions(x: real, y: real, p: real, q: real)
    requires y > 0.0 && p > 0.0 && x >= 0.0 && q >= 0.0 && q * y <= x * p < q * y + y
    ensures Below(q / p, x / y, 1.0 / p)
  {
    Cross(q, p, x, y);
    OneMore(q, y);
    Cross'(x, y, q + 1.0, p);
    SumOver(q, 1.0, p);
    assert q / p >= 0.0;
  }

  lemma {:induction false} OneMore(q: real, y: real)
    ensures (q + 1.0) * y == q * y + y
  {
  }

  lemma {:induction false} Cross(a: real, b: real, c: real, d: real)
    requires b > 0.0 && d > 0.0 && a * d <= c * b
    ensures a / b <= c / d
  {
    assert c / d - a / b == (c * b - a * d) / (b * d);
  }

  lemma {:induction false} Cross'(a: real, b: real, c: real, d: real)
    requires b > 0.0 && d > 0.0 && a * d < c * b
    ensures a / b < c / d
  {
    assert c / d - a / b == (c * b - a * d) / (b * d);
  }

  lemma {:induction false} CutSameScale(r: Num, x: int)
    requires IsCut(r, x, Ten(r.scale))
    ensures Units(r) == x
  {
    hide Units, Truncates, Valid, Ten;
    assert x * Ten(r.scale) - x * Ten(r.scale) == 0;
    TruncatesIff(x, x * Ten(r.scale), Ten(r.scale));
    TruncatesUnique(Units(r), x, x * Ten(r.scale), Ten(r.scale));
  }

  lemma {:induction false} ProductValue(a: Num, b: Num)
    ensures Value(a) * Value(b) == (Units(a) * Units(b)) as real / Ten(a.scale + b.scale) as real
  {
    hide Units, Ten;
    TenAdd(a.scale, b.scale);
    RealProduct(Units(a), Units(b));
    RealProduct(Ten(a.scale), Ten(b.scale));
    FractionProduct(Units(a) as real, Units(b) as real, Ten(a.scale) as real, Ten(b.scale) as real, Value(a), Value(b),
      (Units(a) * Units(b)) as real, Ten(a.scale + b.scale) as real);
  }

  lemma {:induction false} RealProduct(x: int, y: int)
    ensures (x * y) as real == x as real * y as real
  {
  }

  lemma {:induction false} FractionProduct(a: real, b: real, p: real, q: real, x: real, y: real, ab: real, pq: real)
    requires p > 0.0 && q > 0.0 && x == a / p && y == b / q && ab == a * b && pq == p * q
    ensures x * y == ab / pq
  {
    assert x * p == a && y * q == b;
    assert x * y * pq == ab;
  }

  /** ml: a product that is not negative falls short by less than a unit at the scale. */
  method Product(a: Num, b: Num, w: nat) returns (r: Num)
    requires Valid(a) && Valid(b) && Units(a) >= 0 && Units(b) >= 0
    ensures Valid(r) && Units(r) >= 0 && BelowProduct(Value(r), Value(a), Value(b), Unit(w))
  {
    hide Units, Ten, Val, Truncates;
    r := MultiplyNum(a, b, w);
    ProductBelow(a, b, w, r);
  }

  lemma {:induction false} ProductBelow(a: Num, b: Num, w: nat, r: Num)
    requires Units(a) >= 0 && Units(b) >= 0 && IsCut(r, Units(a) * Units(b), Ten(a.scale + b.scale))
    requires r.scale == Min(a.scale + b.scale, Max(w, Max(a.scale, b.scale)))
    ensures Units(r) >= 0 && BelowProduct(Value(r), Value(a), Value(b), Unit(w))
  {
    hide Units, Ten, IsCut, Unit;
    ProductValue(a, b);
    Positive(Units(a), Units(b));
    CutBelow(r, Units(a) * Units(b), Ten(a.scale + b.scale));
    if r.scale == a.scale + b.scale {
      CutSameScale(r, Units(a) * Units(b));
    } else {
      UnitMonotonic(w, r.scale);
    }
  }

  lemma {:induction false} QuotientValue(a: int, p: nat, b: nat, one: nat)
    requires p > 0 && b > 0 && one == 1
    ensures (a * one) as real / (b * p) as real == a as real / p as real / b as real
  {
    var ar, pr, br := a as real, p as real, b as real;
    RealProduct(b, p);
    assert ar / pr / br == ar / (br * pr);
  }

  /** dv by a positive whole number: the quotient falls short by less than a unit at the scale. */
  method Quotient(a: Num, k: i64, w: nat) returns (r: Num)
    requires Valid(a) && Units(a) >= 0 && k > 0
    ensures Valid(r) && Units(r) >= 0 && r.scale == w && BelowQuotient(Value(r), Value(a), k, Unit(w))
  {
    hide Units, Ten, Val, Truncates;
    var d := FromLong(k);
    var kk := Make(false, 0, d);
    var q := Quotients.Divide(a, kk, w);
    r := q.value;
    TenZero(0);
    Positive(Units(a), Ten(0));
    Positive(k, Ten(a.scale));
    CutBelow(r, Units(a) * Ten(0), k * Ten(a.scale));
    QuotientValue(Units(a), Ten(a.scale), k, Ten(0));
  }

  // ---- the series ----

  /** x^k / k! */
  ghost function Term(x: real, k: nat): real
  {
    if k == 0 then 1.0 else Term(x, k - 1) * x / k as real
  }

  /** The terms of e^x up to that of x^k. */
  ghost function Partial(x: real, k: nat): real
  {
    if k == 0 then 1.0 else Partial(x, k - 1) + Term(x, k)
  }

  lemma {:induction false} TermPositive(x: real, k: nat)
    requires x >= 0.0
    ensures Term(x, k) >= 0.0
  {
    if k > 0 {
      TermPositive(x, k - 1);
      assert Term(x, k - 1) * x >= 0.0;
    }
  }

  lemma {:induction false} TermIs(x: real, k: nat)
    requires k > 0
    ensures Term(x, k) == Term(x, k - 1) * x / k as real
  {
  }

  lemma {:induction false} AtLeastOne(k: nat)
    requires k >= 1
    ensures k as real >= 1.0
  {
  }

  lemma {:induction false} DivideReal(x: real, k: real)
    requires x >= 0.0 && k >= 1.0
    ensures 0.0 <= x / k <= x
  {
    assert x / k * k == x;
    assert x / k >= 0.0;
  }

  lemma {:induction false} MulReal(x: real, y: real, z: real)
    requires x <= y && z >= 0.0
    ensures x * z <= y * z && z * x <= z * y
  {
    assert (y - x) * z >= 0.0;
  }

  /** From an argument of at most 1/2, each term is at most half of the one before it. */
  lemma {:induction false} TermHalves(x: real, k: nat)
    requires 0.0 <= x <= 0.5
    ensures Term(x, k + 1) <= Term(x, k) / 2.0
  {
    TermPositive(x, k);
    MulReal(x, 0.5, Term(x, k));
    assert Term(x, k) * x >= 0.0;
    DivideReal(Term(x, k) * x, (k + 1) as real);
  }

  /** The terms after one add up to no more than it. */
  lemma {:induction false} Tail(x: real, k: nat, m: nat)
    requires 0.0 <= x <= 0.5 && k <= m
    ensures Partial(x, m) + Term(x, m) <= Partial(x, k) + Term(x, k)
  {
    if k < m {
      Tail(x, k, m - 1);
      TermHalves(x, m - 1);
    }
  }

  /** Computed terms stay below the true ones, by less than four units. */
  lemma {:induction false} TermStep(t: real, full: real, x: real, k: real, u: real, m: real, t': real, full': real)
    requires Below(t, full, 4.0 * u) && 0.0 <= x <= 0.5 && k >= 1.0 && u > 0.0 && full' == full * x / k
    requires Below(m, t * x, u) && Below(t', m / k, u)
    ensures Below(t', full', 4.0 * u) && t' <= t / 2.0
  {
    var over := full * x - m;
    TermOver(t, full, full - t, x, u, m);
    DivideReal(m, k);
    DivideReal(over, k);
    SumOver(m, over, k);
    assert m + over == full * x;
  }

  lemma {:induction false} TermOver(t: real, full: real, d: real, x: real, u: real, m: real)
    requires Below(t, full, 4.0 * u) && d == full - t && 0.0 <= x <= 0.5 && u > 0.0 && Below(m, t * x, u)
    ensures 0.0 <= full * x - m < 3.0 * u && m <= t / 2.0
  {
    HalfAtMost(t, x);
    HalfAtMost(d, x);
    Parts(t, d, full, x);
    OverFrom(t, d, u, m, t * x, d * x, full * x);
  }

  lemma {:induction false} HalfAtMost(t: real, x: real)
    requires t >= 0.0 && 0.0 <= x <= 0.5
    ensures 0.0 <= t * x <= t / 2.0
  {
    assert t * (0.5 - x) >= 0.0;
    assert t * (0.5 - x) == t * 0.5 - t * x;
  }

  lemma {:induction false} OverFrom(t: real, d: real, u: real, m: real, tx: real, dx: real, fullx: real)
    requires 0.0 <= t && 0.0 <= d < 4.0 * u && 0.0 <= m <= tx < m + u
    requires tx <= t / 2.0 && 0.0 <= dx <= d / 2.0 && fullx == tx + dx
    ensures 0.0 <= fullx - m < 3.0 * u && m <= t / 2.0
  {
  }

  lemma {:induction false} Parts(t: real, d: real, full: real, x: real)
    requires full == t + d
    ensures full * x == t * x + d * x
  {
  }

  lemma {:induction false} SumOver(a: real, b: real, k: real)
    requires k > 0.0
    ensures (a + b) / k == a / k + b / k
  {
  }

  lemma {:induction false} NextBelow(t: real, x: real, k: nat, u: real, m: real, t': real)
    requires k >= 1 && 0.0 <= x <= 0.5 && u > 0.0 && Below(t, Term(x, k - 1), 4.0 * u)
    requires BelowProduct(m, t, x, u) && BelowQuotient(t', m, k, u)
    ensures Below(t', Term(x, k), 4.0 * u) && t' <= t / 2.0
  {
    hide Term;
    TermIs(x, k);
    AtLeastOne(k);
    TermStep(t, Term(x, k - 1), x, k as real, u, m, t', Term(x, k));
  }

  /** What is known before term k is computed: the terms before it, and their sum. */
  ghost predicate Summing(term: Num, sum: Num, x: real, k: nat, w: nat)
  {
    && Valid(term) && Valid(sum) && Units(term) >= 0 && Units(sum) >= 0 && k >= 1
    && Below(Value(term), Term(x, k - 1), 4.0 * Unit(w))
    && Value(sum) <= Partial(x, k - 1) <= Value(sum) + 4.0 * Unit(w) * (k - 1) as real
    && Value(term) * Pow2(k - 1) as real <= 1.0
  }

  /** The sum is below the exponential, and by no more than four units for each term added and eight
      for those left out. */
  ghost predicate Approximates(sum: real, x: real, terms: nat, u: real)
  {
    && sum <= Partial(x, terms) <= sum + 4.0 * u * terms as real
    && forall m: nat :: m >= terms ==> Partial(x, m) <= sum + 4.0 * u * terms as real + 8.0 * u
  }

  lemma {:induction false} SummingEnd(sum: real, x: real, k: nat, u: real)
    requires 0.0 <= x <= 0.5 && sum <= Partial(x, k) <= sum + 4.0 * u * k as real && Term(x, k + 1) < 4.0 * u
    ensures Approximates(sum, x, k, u)
  {
    TermPositive(x, k + 1);
    forall m: nat | m >= k
      ensures Partial(x, m) <= sum + 4.0 * u * k as real + 8.0 * u
    {
      if m > k {
        Tail(x, k + 1, m);
        TermPositive(x, m);
      }
    }
  }

  lemma {:induction false} SumValue(a: Num, b: Num, r: Num)
    requires r.scale == Max(a.scale, b.scale)
    requires Units(r) == Units(a) * Ten(r.scale - a.scale) + 1 * (Units(b) * Ten(r.scale - b.scale))
    ensures Value(r) == Value(a) + Value(b)
  {
    hide Ten, Units;
    SameValue(Units(a), a.scale, r.scale);
    SameValue(Units(b), b.scale, r.scale);
    var p := Ten(r.scale) as real;
    var x, y := Units(a) * Ten(r.scale - a.scale), Units(b) * Ten(r.scale - b.scale);
    assert (x + y) as real / p == x as real / p + y as real / p;
  }

  lemma {:induction false} SameValue(x: int, s: nat, t: nat)
    requires s <= t
    ensures (x * Ten(t - s)) as real / Ten(t) as real == x as real / Ten(s) as real
  {
    hide Ten;
    TenAdd(s, t - s);
    var p, q := Ten(s) as real, Ten(t - s) as real;
    RealProduct(Ten(s), Ten(t - s));
    RealProduct(x, Ten(t - s));
    Cancel(x as real, p, q);
  }

  lemma {:induction false} Cancel(x: real, p: real, q: real)
    requires p > 0.0 && q > 0.0
    ensures x * q / (p * q) == x / p
  {
    assert x / p * (p * q) == x * q;
  }

  /** Terms that halve cannot go on beyond this many and still be a unit. */
  lemma {:induction false} TermsBound(t: real, units: int, k: nat, w: nat)
    requires units >= 1 && t == units as real / Ten(w) as real && t * Pow2(k) as real <= 1.0
    ensures k <= 4 * w
  {
    hide Pow2, Ten;
    TimesUnit(t, units as real, Ten(w) as real, Pow2(k) as real);
    TenBelow(w);
    if k > 4 * w {
      Pow2Monotonic(4 * w + 1, k);
      Pow2Add(1, 4 * w);
      Pow2Values();
    }
  }

  lemma {:induction false} TimesUnit(t: real, units: real, p: real, two: real)
    requires p > 0.0 && units >= 1.0 && t == units / p && two >= 0.0 && t * two <= 1.0
    ensures two <= p
  {
    assert t * p == units;
    assert t * two * p == units * two;
    MulReal(t * two, 1.0, p);
    MulReal(1.0, units, two);
  }

  lemma {:induction false} TenBelow(w: nat)
    ensures Ten(w) <= Pow2(4 * w)
  {
    if w > 0 {
      TenBelow(w - 1);
      Pow2Add(4, 4 * (w - 1));
      Pow2Values();
    }
  }

  /** Scales are far below this, and so is the number of terms. */
  const SCALE_LIMIT := 0x1000_0000_0000_0000

  method NextTerm(term: Num, xr: Num, k: i64, w: nat) returns (r: Num)
    requires Valid(term) && Valid(xr) && Units(term) >= 0 && Units(xr) >= 0 && k >= 1 && Value(xr) <= 0.5
    requires Below(Value(term), Term(Value(xr), k - 1), 4.0 * Unit(w))
    ensures Valid(r) && Units(r) >= 0 && r.scale == w
    ensures Below(Value(r), Term(Value(xr), k), 4.0 * Unit(w)) && Value(r) <= Value(term) / 2.0
  {
    hide Units, Ten, Valid, Value, Unit, Term, Below, BelowProduct, BelowQuotient;
    NotNegative(xr);
    var m := Product(term, xr, w);
    r := Quotient(m, k, w);
    NextBelow(Value(term), Value(xr), k, Unit(w), Value(m), Value(r));
  }

  lemma {:induction false} NotNegative(a: Num)
    ensures Units(a) >= 0 <==> Value(a) >= 0.0
  {
    hide Units, Ten;
    var p := Ten(a.scale) as real;
    assert Value(a) * p == Units(a) as real;
  }

  lemma {:induction false} HalfUnits(a: Num, b: Num, w: nat)
    requires a.scale == w && Value(a) <= Value(b) / 2.0 && Units(a) >= 1
    ensures b.scale == w ==> Units(a) < Units(b)
    ensures Value(b) == 1.0 ==> Units(a) <= Ten(w)
  {
    hide Units, Ten;
    ScaleUp(a);
    ScaleUp(b);
    MulReal(Value(a), Value(b) / 2.0, Ten(w) as real);
  }

  lemma {:induction false} ScaleUp(a: Num)
    ensures Value(a) * Ten(a.scale) as real == Units(a) as real
  {
  }

  lemma {:induction false} SummingNext(term: Num, sum: Num, term': Num, sum': Num, x: real, k: nat, w: nat)
    requires Summing(term, sum, x, k, w) && Valid(term') && Valid(sum') && Units(term') >= 0 && Units(sum') >= 0
    requires Below(Value(term'), Term(x, k), 4.0 * Unit(w)) && Value(term') <= Value(term) / 2.0
    requires Value(sum') == Value(sum) + Value(term')
    ensures Summing(term', sum', x, k + 1, w)
  {
    hide Units, Ten, Valid, Value, Unit, Term;
    var u := 4.0 * Unit(w);
    assert u * k as real == u * (k - 1) as real + u;
    Halving(Value(term), Value(term'), k);
  }

  lemma {:induction false} Halving(t: real, t': real, k: nat)
    requires 0.0 <= t' <= t / 2.0 && k >= 1 && t * Pow2(k - 1) as real <= 1.0
    ensures t' * Pow2(k) as real <= 1.0
  {
    var p := Pow2(k - 1) as real;
    assert Pow2(k) as real == 2.0 * p;
    MulReal(t', t / 2.0, 2.0 * p);
  }

  lemma {:induction false} SummingStart(one: Num, x: real, w: nat)
    requires Valid(one) && Units(one) == 1 && one.scale == 0
    ensures Summing(one, one, x, 1, w) && Value(one) == 1.0
  {
    assert Ten(0) == 1;
    assert Pow2(0) == 1;
  }

  method One() returns (one: Num)
    ensures Valid(one) && Units(one) == 1 && one.scale == 0
  {
    hide Val, Units;
    var d := FromLong(1);
    one := Make(false, 0, d);
  }

  /** The sum of the series for an argument of at most 1/2. */
  method Series(xr: Num, w: nat) returns (sum: Num, ghost terms: nat)
    requires Valid(xr) && Units(xr) >= 0 && Value(xr) <= 0.5 && w < SCALE_LIMIT
    ensures Valid(sum) && Units(sum) >= 0 && Approximates(Value(sum), Value(xr), terms, Unit(w))
  {
    hide Units, Ten, Valid, Value, Unit, Summing, Approximates;
    var term := One();
    sum := term;
    var k := 1;
    ghost var x := Value(xr);
    SummingStart(term, x, w);
    while true
      invariant k >= 1 && Summing(term, sum, x, k, w)
      invariant if k == 1 then Value(term) == 1.0 else term.scale == w && Units(term) >= 1
      decreases if k == 1 then Ten(w) + 1 else Units(term)
    {
      TermsFit(term, sum, x, k, w);
      var next := NextTerm(term, xr, k, w);
      UnitsSign(next);
      if |next.d| == 0 {
        terms := k - 1;
        NotNegative(xr);
        LastTerm(term, sum, next, x, k, w);
        break;
      }
      var total := AddSub(sum, next, false);
      SumValue(sum, next, total);
      NotNegative(sum);
      NotNegative(next);
      NotNegative(total);
      SummingNext(term, sum, next, total, x, k, w);
      HalfUnits(next, term, w);
      term, sum, k := next, total, k + 1;
    }
  }

  lemma {:induction false} TermsFit(term: Num, sum: Num, x: real, k: nat, w: nat)
    requires Summing(term, sum, x, k, w) && w < SCALE_LIMIT && (k == 1 || (term.scale == w && Units(term) >= 1))
    ensures k <= 4 * SCALE_LIMIT + 1
    ensures Valid(term) && Valid(sum) && Units(term) >= 0 && Units(sum) >= 0
    ensures Below(Value(term), Term(x, k - 1), 4.0 * Unit(w))
  {
    hide Units, Ten, Valid, Unit, Term, Pow2;
    if k > 1 {
      TermsBound(Value(term), Units(term), k - 1, w);
    }
  }

  lemma {:induction false} LastTerm(term: Num, sum: Num, next: Num, x: real, k: nat, w: nat)
    requires Summing(term, sum, x, k, w) && Below(Value(next), Term(x, k), 4.0 * Unit(w)) && Units(next) == 0
    requires 0.0 <= x <= 0.5
    ensures Approximates(Value(sum), x, k - 1, Unit(w))
  {
    hide Units, Ten, Valid, Unit, Term, Pow2;
    assert Value(next) == 0.0;
    SummingEnd(Value(sum), x, k - 1, Unit(w));
  }

  // ---- a slightly larger argument ----

  /** How much a term grows with its argument. */
  ghost predicate Rises(x: real, y: real, k: nat)
  {
    Term(x, k) <= Term(y, k) && (k > 0 ==> RisesBy(Term(x, k), Term(y, k), y - x, Term(y, k - 1)))
  }

  ghost predicate RisesBy(a: real, b: real, d: real, c: real)
  {
    b - a <= d * c
  }

  ghost predicate IsNext(t: real, a: real, x: real, k: real)
    requires k != 0.0
  {
    t == a * x / k
  }

  lemma {:induction false} NextIs(x: real, k: nat)
    requires k > 0
    ensures IsNext(Term(x, k), Term(x, k - 1), x, k as real)
  {
  }

  lemma {:induction false} TermRise(x: real, y: real, k: nat)
    requires 0.0 <= x <= y
    ensures Rises(x, y, k)
  {
    hide Rises;
    if k == 0 {
      RisesNot(x, y);
    } else if k == 1 {
      RisesOnce(x, y);
    } else {
      TermRise(x, y, k - 1);
      RisesMore(x, y, k);
    }
  }

  lemma {:induction false} RisesNot(x: real, y: real)
    ensures Rises(x, y, 0)
  {
  }

  lemma {:induction false} RisesOnce(x: real, y: real)
    requires 0.0 <= x <= y
    ensures Rises(x, y, 1)
  {
    hide Term;
    TermIs0(x);
    TermIs0(y);
    TermIs(x, 1);
    TermIs(y, 1);
    RiseFirst(x, y, 1 as real, Term(x, 0), Term(y, 0), Term(x, 1), Term(y, 1));
  }

  lemma {:induction false} RisesMore(x: real, y: real, k: nat)
    requires 0.0 <= x <= y && k > 1 && Rises(x, y, k - 1)
    ensures Rises(x, y, k)
  {
    hide Term, RisesBy, IsNext;
    TermPositive(x, k - 1);
    TermPositive(y, k - 2);
    NextIs(x, k);
    NextIs(y, k);
    NextIs(y, k - 1);
    RealLess(k);
    RiseNext(x, y, k as real, (k - 1) as real, Term(x, k - 1), Term(y, k - 1), Term(y, k - 2), Term(x, k), Term(y, k));
  }

  lemma {:induction false} TermIs0(x: real)
    ensures Term(x, 0) == 1.0
  {
  }

  lemma {:induction false} RealLess(k: nat)
    requires k > 1
    ensures (k - 1) as real == k as real - 1.0 && k as real >= 2.0
  {
  }

  lemma {:induction false} RiseFirst(x: real, y: real, k: real, a: real, b: real, tx: real, ty: real)
    requires 0.0 <= x <= y && k == 1.0 && a == 1.0 && b == 1.0 && tx == a * x / k && ty == b * y / k
    ensures tx <= ty && ty - tx <= (y - x) * b
  {
  }

  lemma {:induction false} RiseNext(x: real, y: real, k: real, k': real, a: real, b: real, c: real, tx: real, ty: real)
    requires 0.0 <= x <= y && k >= 2.0 && k' == k - 1.0 && 0.0 <= a <= b && 0.0 <= c && RisesBy(a, b, y - x, c)
    requires IsNext(tx, a, x, k) && IsNext(ty, b, y, k) && IsNext(b, c, y, k')
    ensures tx <= ty && RisesBy(tx, ty, y - x, b)
  {
    var d := y - x;
    assert tx * k == a * x && ty * k == b * y && b * k' == c * y;
    MulReal(a, b, x);
    MulReal(x, y, b);
    Unscaled(tx, ty, k);
    ProductDifference(a, b, x, y, d);
    MulReal(b - a, d * c, x);
    MulReal(x, y, d * c);
    RegroupRise(d, c, y, b, k, k');
    assert (ty - tx) * k == ty * k - tx * k;
    Unscaled(ty - tx, d * b, k);
  }

  lemma {:induction false} ProductDifference(a: real, b: real, x: real, y: real, d: real)
    requires d == y - x
    ensures b * y - a * x == d * b + (b - a) * x
  {
  }

  lemma {:induction false} RegroupRise(d: real, c: real, y: real, b: real, k: real, k': real)
    requires b * k' == c * y && k' == k - 1.0
    ensures d * c * y == d * b * k - d * b
  {
    assert d * c * y == d * (b * k');
    assert b * k' == b * k - b;
  }

  lemma {:induction false} PartialRise(x: real, y: real, m: nat)
    requires 0.0 <= x <= y
    ensures Partial(x, m) <= Partial(y, m) && Partial(y, m) - Partial(x, m) <= (y - x) * Partial(y, m)
  {
    hide Term;
    PartialMore(x, y, m);
    if m > 0 {
      TermPositive(y, m);
      MulReal(Partial(y, m - 1), Partial(y, m), y - x);
    } else {
      MulReal(0.0, y - x, 1.0);
    }
  }

  lemma {:induction false} PartialMore(x: real, y: real, m: nat)
    requires 0.0 <= x <= y
    ensures Partial(x, m) <= Partial(y, m)
    ensures if m == 0 then Partial(x, m) == Partial(y, m) else Partial(y, m) - Partial(x, m) <= (y - x) * Partial(y, m - 1)
  {
    hide Term;
    if m > 0 {
      PartialMore(x, y, m - 1);
      TermRise(x, y, m);
      TermIs0(y);
      if m > 1 {
        SpreadReal(y - x, Partial(y, m - 2), Term(y, m - 1));
      }
    }
  }

  lemma {:induction false} SpreadReal(d: real, a: real, b: real)
    ensures d * (a + b) == d * a + d * b
  {
  }

  /** The sums for an argument of at most 1 stay below 3. */
  lemma {:induction false} PartialBelowThree(y: real, m: nat)
    requires 0.0 <= y <= 1.0
    ensures Partial(y, m) <= 3.0 && (m > 0 ==> Partial(y, m) + Term(y, m) <= 3.0)
  {
    hide Term;
    TermIs0(y);
    if m > 0 {
      PartialBelowThree(y, m - 1);
      TermPositive(y, m);
      TermIs(y, m);
      if m == 1 {
        RiseFirst(y, y, m as real, Term(y, m - 1), Term(y, m - 1), Term(y, m), Term(y, m));
      } else {
        TermPositive(y, m - 1);
        HalfOrLess(Term(y, m - 1), y, m as real);
      }
    }
  }

  lemma {:induction false} HalfOrLess(t: real, y: real, k: real)
    requires t >= 0.0 && 0.0 <= y <= 1.0 && k >= 2.0
    ensures t * y / k <= t / 2.0
  {
    MulReal(y, 1.0, t);
    assert t * y / k * k == t * y;
    MulReal(2.0, k, t / 2.0);
    Unscaled(t * y / k, t / 2.0, k);
  }

  /** What is known of the sum for the exact argument, of which up to one unit was cut off. */
  ghost predicate Reaches(sum: real, y: real, terms: nat, u: real)
  {
    sum <= Partial(y, terms) && forall m: nat :: m >= terms ==> sum <= Partial(y, m) <= sum + (4.0 * u * terms as real + 11.0 * u)
  }

  lemma {:induction false} ReachesExact(sum: real, x: real, y: real, terms: nat, u: real)
    requires Approximates(sum, x, terms, u) && Below(x, y, u) && y < 1.0
    ensures Reaches(sum, y, terms, u)
  {
    hide Partial;
    PartialRise(x, y, terms);
    forall m: nat | m >= terms
      ensures sum <= Partial(y, m) <= sum + (4.0 * u * terms as real + 11.0 * u)
    {
      PartialRise(x, y, m);
      PartialBelowThree(y, m);
      PartialPositive(y, m);
      RiseBelow(y - x, Partial(y, m), u);
      PartialGrows(y, terms, m);
    }
  }

  lemma {:induction false} RiseBelow(d: real, p: real, u: real)
    requires 0.0 <= d < u && 0.0 <= p <= 3.0
    ensures d * p <= 3.0 * u
  {
    assert d * (3.0 - p) >= 0.0;
  }

  lemma {:induction false} PartialPositive(y: real, m: nat)
    requires y >= 0.0
    ensures Partial(y, m) >= 1.0
  {
    PartialGrows(y, 0, m);
  }

  lemma {:induction false} PartialGrows(y: real, k: nat, m: nat)
    requires y >= 0.0 && k <= m
    ensures Partial(y, k) <= Partial(y, m)
  {
    if k < m {
      PartialGrows(y, k, m - 1);
      TermPositive(y, m);
    }
  }

  // ---- halving ----

  ghost function Halved(x: real, n: nat): real
  {
    if n == 0 then x else Halved(x, n - 1) / 2.0
  }

  lemma {:induction false} CompareHalf(a: Num, half: Num, c: int)
    requires half.scale == 1 && Units(half) == 5 && c == Sign(Units(a) * Ten(half.scale) - Units(half) * Ten(a.scale))
    ensures c > 0 <==> Value(a) > 0.5
  {
    hide Units;
    assert Ten(1) == 10;
    ScaleUp(a);
    HalfOf(Value(a), Ten(a.scale) as real, Units(a) as real);
  }

  lemma {:induction false} HalfOf(x: real, p: real, u: real)
    requires p > 0.0 && x * p == u
    ensures x > 0.5 <==> 2.0 * u > p
  {
    if x > 0.5 {
      assert (x - 0.5) * p > 0.0;
    } else {
      MulReal(x, 0.5, p);
    }
  }

  ghost function Scaled(x: real, p: real): real
  {
    x * p
  }

  lemma {:induction false} ScaledOrder(x: real, y: real, p: real)
    requires p > 0.0
    ensures x <= y <==> Scaled(x, p) <= Scaled(y, p)
  {
    if x < y {
      assert (y - x) * p > 0.0;
    } else if y < x {
      assert (x - y) * p > 0.0;
    }
  }

  lemma {:induction false} ScaledSum(x: real, y: real, p: real)
    ensures Scaled(x + y, p) == Scaled(x, p) + Scaled(y, p)
  {
  }

  /** What is cut off before halving does not show after it: v and v' are whole numbers of units. */
  lemma {:induction false} CutTwice(v: real, y: real, v': real, u: real, p: real, units: int, units': int)
    requires Below(v, y, u) && Below(v', v / 2.0, u) && p > 0.0 && Scaled(u, p) == 1.0
    requires Scaled(v, p) == units as real && Scaled(v', p) == units' as real
    ensures Below(v', y / 2.0, u)
  {
    hide Scaled;
    var twice, over := v' + v', (v' + v') + (u + u);
    ScaledSum(v', v', p);
    ScaledSum(u, u, p);
    ScaledSum(v' + v', u + u, p);
    ScaledSum(v, u, p);
    ScaledOrder(twice, v, p);
    ScaledOrder(over, v, p);
    ScaledOrder(v + u, over, p);
    assert 2 * units' <= units < 2 * units' + 2;
  }

  lemma {:induction false} Unscaled(x: real, y: real, p: real)
    requires p > 0.0
    ensures x * p <= y * p ==> x <= y
  {
    if x > y {
      assert (x - y) * p > 0.0;
    }
  }

  lemma {:induction false} UnitScaled(w: nat)
    ensures Scaled(Unit(w), Ten(w) as real) == 1.0
  {
    hide Ten;
  }

  lemma {:induction false} UnitsScaled(a: Num)
    ensures Scaled(Value(a), Ten(a.scale) as real) == Units(a) as real
  {
    ScaleUp(a);
  }

  lemma {:induction false} HalvedNext(x: Num, a: Num, b: Num, n: nat, w: nat)
    requires Units(x) >= 0 && (if n == 0 then a == x else a.scale == w && Below(Value(a), Halved(Value(x), n), Unit(w)))
    requires b.scale == w && BelowQuotient(Value(b), Value(a), 2, Unit(w))
    ensures Below(Value(b), Halved(Value(x), n + 1), Unit(w)) && Value(b) <= Value(a) / 2.0
  {
    hide Units, Ten, Value, Unit;
    if n > 0 {
      UnitsScaled(a);
      UnitsScaled(b);
      UnitScaled(w);
      CutTwice(Value(a), Halved(Value(x), n), Value(b), Unit(w), Ten(w) as real, Units(a), Units(b));
    }
  }

  /** The exact argument is below 1, also at scale 0. */
  lemma {:induction false} HalvedBelowOne(a: Num, y: real, w: nat)
    requires a.scale == w && Units(a) >= 0 && Value(a) <= 0.5 && Below(Value(a), y, Unit(w))
    ensures y < 1.0
  {
    ScaleUp(a);
    if w == 0 {
      assert Ten(0) == 1;
      assert Units(a) == 0;
    } else {
      assert Ten(1) == 10;
      TenMonotonic(1, w);
      Reciprocals(10.0, Ten(w) as real);
    }
  }

  /** Units are fewer after halving. */
  lemma {:induction false} HalvedUnits(a: Num, b: Num, w: nat)
    requires a.scale == w && Value(a) <= Value(b) / 2.0 && Value(b) > 0.5
    ensures b.scale == w ==> Units(a) < Units(b)
    ensures Units(a) <= Units(b) * Ten(w)
  {
    hide Units, Ten;
    ScaleUp(a);
    ScaleUp(b);
    FewerUnits(Value(a), Value(b), Units(a), Units(b), Ten(w), Ten(b.scale));
  }

  lemma {:induction false} FewerUnits(va: real, vb: real, ua: int, ub: int, q: nat, p: nat)
    requires va <= vb / 2.0 && vb > 0.5 && q >= 1 && p >= 1
    requires va * q as real == ua as real && vb * p as real == ub as real
    ensures p == q ==> ua < ub
    ensures ua <= ub * q
  {
    MulReal(va, vb / 2.0, q as real);
    AtMostHalf(ua, vb * q as real, vb / 2.0 * q as real);
    HalfOf(vb, p as real, ub as real);
    WholeUnits(vb, p, ub, q);
    FewerFrom(ua, ub, ub * q, vb * q as real, p == q, p);
  }

  lemma {:induction false} AtMostHalf(ua: int, x: real, h: real)
    requires h + h == x && ua as real <= h
    ensures 2.0 * ua as real <= x
  {
  }

  lemma {:induction false} FewerFrom(ua: int, ub: int, ubq: int, x: real, same: bool, p: nat)
    requires 2.0 * ua as real <= x <= ubq as real && 2.0 * ub as real > p as real && x > 0.0
    requires same ==> x == ub as real
    ensures same ==> ua < ub
    ensures ua <= ubq
  {
  }

  lemma {:induction false} WholeUnits(v: real, p: nat, u: int, q: nat)
    requires p >= 1 && v * p as real == u as real && v >= 0.0
    ensures v * q as real <= (u * q) as real
  {
    MulReal(1.0, p as real, v);
    MulReal(v, u as real, q as real);
    RealProduct(u, q);
  }

  method Halve(x: Num, w: nat) returns (xr: Num, n: nat)
    requires Valid(x) && Units(x) >= 0
    ensures Valid(xr) && Units(xr) >= 0 && Value(xr) <= 0.5
    ensures Below(Value(xr), Halved(Value(x), n), Unit(w)) && Halved(Value(x), n) < 1.0
    ensures Value(x) <= 0.5 ==> n == 0 && xr == x
  {
    hide Units, Ten, Val, Value, Unit, BelowQuotient, Halved;
    var d := FromLong(5);
    var lim := Make(false, 1, d);
    xr, n := x, 0;
    NotHalved(x, w);
    var c := CompareNum(xr, lim);
    CompareHalf(xr, lim, c);
    while c > 0
      invariant Valid(xr) && Units(xr) >= 0 && (c > 0 <==> Value(xr) > 0.5)
      invariant Below(Value(xr), Halved(Value(x), n), Unit(w))
      invariant if n == 0 then xr == x else xr.scale == w
      invariant Value(x) <= 0.5 ==> n == 0
      decreases if n == 0 then Units(x) * Ten(w) + 1 else Units(xr)
    {
      var next := Quotient(xr, 2, w);
      HalvedNext(x, xr, next, n, w);
      HalvedUnits(next, xr, w);
      xr, n := next, n + 1;
      c := CompareNum(xr, lim);
      CompareHalf(xr, lim, c);
    }
    if n > 0 {
      HalvedBelowOne(xr, Halved(Value(x), n), w);
    } else {
      NotHalvedAtAll(Value(x));
    }
  }

  lemma {:induction false} NotHalvedAtAll(x: real)
    ensures Halved(x, 0) == x
  {
  }

  lemma {:induction false} NotHalved(x: Num, w: nat)
    requires Units(x) >= 0
    ensures Below(Value(x), Halved(Value(x), 0), Unit(w))
  {
    NotNegative(x);
  }

  // ---- squaring ----

  ghost function Squared(s: real, n: nat): real
  {
    if n == 0 then s else Squared(s, n - 1) * Squared(s, n - 1)
  }

  /** What is lost at most when s, of which l is lost already, is squared n times. */
  ghost function Loss(s: real, l: real, u: real, n: nat): real
  {
    if n == 0 then l else 2.0 * Squared(s, n - 1) * Loss(s, l, u, n - 1) + u
  }

  lemma {:induction false} SquareLoss(s: real, full: real, l: real, u: real, s': real, full': real, l': real)
    requires 0.0 <= s <= full <= s + l && BelowProduct(s', s, s, u)
    requires full' == full * full && l' == 2.0 * full * l + u
    ensures s' <= full' <= s' + l'
  {
    var d := full - s;
    MulReal(s, full, s);
    MulReal(s, full, full);
    MulReal(d, l, full);
    MulReal(0.0, d, full);
    MulReal(s, full, d);
    assert full * full == s * s + (s * d + d * full);
    LossFrom(s * s, s * d, full * d, full * l, full * full, u, s');
    assert 2.0 * full * l == 2.0 * (full * l);
  }

  lemma {:induction false} LossFrom(ss: real, sd: real, fd: real, fl: real, ff: real, u: real, s': real)
    requires 0.0 <= s' <= ss < s' + u && sd <= fd <= fl && ff == ss + (sd + fd) && ss <= ff
    ensures s' <= ff <= s' + (2.0 * fl + u)
  {
  }

  lemma {:induction false} SquaredIs(full: real, l: real, u: real, n: nat)
    requires n > 0
    ensures Squared(full, n) == Squared(full, n - 1) * Squared(full, n - 1)
    ensures Loss(full, l, u, n) == 2.0 * Squared(full, n - 1) * Loss(full, l, u, n - 1) + u
  {
  }

  lemma {:induction false} SquareNext(s: real, full: real, l: real, u: real, n: nat, s': real)
    requires 0.0 <= s <= Squared(full, n) <= s + Loss(full, l, u, n) && BelowProduct(s', s, s, u)
    ensures s' <= Squared(full, n + 1) <= s' + Loss(full, l, u, n + 1)
  {
    hide Squared, Loss, BelowProduct;
    SquaredIs(full, l, u, n + 1);
    SquareLoss(s, Squared(full, n), Loss(full, l, u, n), u, s', Squared(full, n + 1), Loss(full, l, u, n + 1));
  }

  /** Whatever s is the lower bound of, r is one of its n-th square, with what can be lost. */
  ghost predicate Squares(s: real, r: real, u: real, n: nat)
  {
    forall full: real, l: real :: SquaresOne(s, r, full, l, u, n)
  }

  ghost predicate SquaresOne(s: real, r: real, full: real, l: real, u: real, n: nat)
  {
    s <= full <= s + l ==> r <= Squared(full, n) <= r + Loss(full, l, u, n)
  }

  lemma {:induction false} SquaresNothing(s: real, u: real)
    ensures Squares(s, s, u, 0)
  {
  }

  lemma {:induction false} SquaresNext(s: real, r: real, r': real, u: real, n: nat, n': nat)
    requires Squares(s, r, u, n) && r >= 0.0 && BelowProduct(r', r, r, u) && n' == n + 1
    ensures Squares(s, r', u, n')
  {
    hide Squared, Loss, BelowProduct;
    forall full: real, l: real
      ensures SquaresOne(s, r', full, l, u, n')
    {
      assert SquaresOne(s, r, full, l, u, n);
      if s <= full <= s + l {
        SquareNext(r, full, l, u, n, r');
      }
    }
  }

  method Square(sum: Num, n: nat, w: nat) returns (r: Num)
    requires Valid(sum) && Units(sum) >= 0
    ensures Valid(r) && Units(r) >= 0 && Squares(Value(sum), Value(r), Unit(w), n)
    ensures n == 0 ==> r == sum
  {
    hide Units, Ten, Val, Value, Unit, BelowProduct, Squares;
    r := sum;
    SquaresNothing(Value(sum), Unit(w));
    for i := 0 to n
      invariant Valid(r) && Units(r) >= 0 && Squares(Value(sum), Value(r), Unit(w), i)
      invariant i == 0 ==> r == sum
    {
      var next := Product(r, r, w);
      NotNegative(r);
      SquaresNext(Value(sum), Value(r), Value(next), Unit(w), i, i + 1);
      r := next;
    }
  }

  // ---- the exponential ----

  /** r against exact arithmetic: sums of the exact argument y, squared n times. It is below that of the
      terms that were added, and by no more than a known amount below that of any more terms. */
  ghost predicate Bounded(r: real, y: real, terms: nat, n: nat, u: real)
  {
    && r <= Squared(Partial(y, terms), n)
    && forall m: nat :: m >= terms ==> Squared(Partial(y, m), n) <= r + Loss(Partial(y, m), 4.0 * u * terms as real + 11.0 * u, u, n)
  }

  lemma {:induction false} SquaresBound(sum: real, r: real, y: real, terms: nat, n: nat, u: real)
    requires Reaches(sum, y, terms, u) && Squares(sum, r, u, n)
    ensures Bounded(r, y, terms, n, u)
  {
    hide Partial, Squared, Loss;
    var l := 4.0 * u * terms as real + 11.0 * u;
    forall m: nat | m >= terms
      ensures r <= Squared(Partial(y, m), n) <= r + Loss(Partial(y, m), l, u, n)
    {
      assert sum <= Partial(y, m) <= sum + l;
      assert SquaresOne(sum, r, Partial(y, m), l, u, n);
    }
  }

  lemma {:induction false} SquaresOf(sum: real, r: real, x: real, terms: nat, n: nat, u: real)
    requires Approximates(sum, x, terms, u) && Squares(sum, r, u, n)
    ensures r <= Squared(Partial(x, terms), n) <= r + Loss(Partial(x, terms), 4.0 * u * terms as real, u, n)
  {
    hide Partial, Squared, Loss;
    assert SquaresOne(sum, r, Partial(x, terms), 4.0 * u * terms as real, u, n);
  }

  /** exp_pos: x is halved n times, the series is summed and the sum is squared n times. The result
      never exceeds what exact arithmetic would give for the terms that are added, and falls short by a
      known amount of what it would give for any more of them, for the argument x / 2^n; without
      halving, by no more than four units of the last place for each term and eight for the others. */
  method ExpPos(x: Num, w: nat) returns (r: Num, ghost xr: Num, ghost n: nat, ghost terms: nat)
    requires Valid(x) && Units(x) >= 0 && w < SCALE_LIMIT
    ensures Valid(r) && Value(xr) <= 0.5 && Below(Value(xr), Halved(Value(x), n), Unit(w)) && Halved(Value(x), n) < 1.0
    ensures Bounded(Value(r), Halved(Value(x), n), terms, n, Unit(w))
    ensures Value(r) <= Squared(Partial(Value(xr), terms), n)
    ensures Squared(Partial(Value(xr), terms), n) <= Value(r) + Loss(Partial(Value(xr), terms), 4.0 * Unit(w) * terms as real, Unit(w), n)
    ensures Value(x) <= 0.5 ==> Approximates(Value(r), Value(x), terms, Unit(w))
  {
    hide Units, Ten, Val, Value, Unit, Squared, Loss, Partial, Halved, Squares, Bounded, Approximates, Reaches;
    var reduced, halvings := Halve(x, w);
    var sum;
    sum, terms := Series(reduced, w);
    xr, n := reduced, halvings;
    r := Square(sum, halvings, w);
    SquaresOf(Value(sum), Value(r), Value(xr), terms, n, Unit(w));
    ReachesExact(Value(sum), Value(xr), Halved(Value(x), n), terms, Unit(w));
    SquaresBound(Value(sum), Value(r), Halved(Value(x), n), terms, n, Unit(w));
  }
}
