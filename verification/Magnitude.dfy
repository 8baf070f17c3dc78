/** bc's arithmetic on magnitudes, limb by limb with a carry; every intermediate result fits in the
    64 bits it has. */
module Magnitude {
  import opened Arith
  import opened Limbs

  // ---- limb by limb ----

  function Digit(a: seq<limb>, i: nat): limb
  {
    if i < |a| then a[i] else 0
  }

  /** The number of the i low limbs. */
  function Low(a: seq<limb>, i: nat): nat
  {
    Val(if i < |a| then a[..i] else a)
  }

  lemma {:induction false} LowNext(a: seq<limb>, i: nat)
    ensures Low(a, i + 1) == Low(a, i) + Pow(i) * Digit(a, i)
  {
    if i < |a| {
      ValSnoc(a, i);
      assert i + 1 == |a| ==> a[..i + 1] == a;
    }
  }

  lemma {:induction false} LowNone(a: seq<limb>)
    ensures Low(a, 0) == 0
  {
    if |a| > 0 {
      assert a[..0] == [];
    }
    assert Val([]) == 0;
  }

  /** A limb is set above those that are done. */
  lemma {:induction false} SetLimb(r: seq<limb>, i: nat, d: limb)
    requires i < |r|
    ensures Val(r[i := d][..i + 1]) == Val(r[..i]) + Pow(i) * d && r[i := d][..i] == r[..i]
  {
    assert r[i := d][..i] == r[..i];
    ValSnoc(r[i := d], i);
  }

  /** A digit and a carry stand for a sum. */
  lemma {:induction false} CarryStep(p: nat, lo: int, c: int, total: int, x: int, d: int, c': int)
    requires lo + c * p == total && x + c == c' * BASE + d
    ensures (lo + p * d) + c' * (BASE * p) == total + p * x
  {
    assert p * (x + c) == p * x + c * p;
    assert p * (c' * BASE + d) == c' * (BASE * p) + p * d;
  }

  /** A carry that is left over at the end must be nothing. */
  lemma {:induction false} NoCarry(lo: nat, c: nat, p: nat, total: nat)
    requires lo + c * p == total < p
    ensures c == 0 && lo == total
  {
    if c >= 1 {
      MulMono(1, c, p);
    }
  }

  // ---- comparing ----

  lemma {:induction false} HighLess(a: seq<limb>, b: seq<limb>, i: nat)
    requires |a| == |b| && i < |a| && a[i] < b[i] && a[i + 1..] == b[i + 1..]
    ensures Val(a) < Val(b)
  {
    ValSplit(a, i);
    ValSplit(b, i);
    ValCons(a, i);
    ValCons(b, i);
    ValBound(a[..i]);
    MulNext(Val(a[i..]), Val(b[i..]), Pow(i));
  }

  /** mag_cmp: which of two numbers is less. */
  method Compare(a: seq<limb>, b: seq<limb>) returns (c: int)
    requires Trimmed(a) && Trimmed(b)
    ensures c == if Val(a) < Val(b) then -1 else if Val(a) == Val(b) then 0 else 1
  {
    if |a| != |b| {
      if |a| < |b| {
        ValBound(a);
        TrimmedBound(b);
        PowMonotonic(|a|, |b| - 1);
        return -1;
      }
      ValBound(b);
      TrimmedBound(a);
      PowMonotonic(|b|, |a| - 1);
      return 1;
    }
    var i := |a|;
    while i > 0
      invariant 0 <= i <= |a| == |b| && a[i..] == b[i..]
    {
      i := i - 1;
      if a[i] != b[i] {
        if a[i] < b[i] {
          HighLess(a, b, i);
          return -1;
        }
        HighLess(b, a, i);
        return 1;
      }
    }
    assert a == a[0..] && b == b[0..];
    return 0;
  }

  // ---- sums and differences ----

  method Add(a: seq<limb>, b: seq<limb>) returns (s: seq<limb>)
    ensures Trimmed(s) && Val(s) == Val(a) + Val(b)
  {
    var n := (if |a| > |b| then |a| else |b|) + 1;
    var r := new limb[n](_ => 0);
    var carry: u64 := 0;
    LowNone(a);
    LowNone(b);
    assert r[..0] == [];
    for i := 0 to n
      invariant carry <= 1 && Val(r[..i]) + carry * Pow(i) == Low(a, i) + Low(b, i)
    {
      carry := AddLimb(r, i, a, b, carry);
    }
    SumFits(a, b, n);
    NoCarry(Val(r[..n]), carry, Pow(n), Val(a) + Val(b));
    assert r[..n] == r[..];
    s := Trim(r[..]);
  }

  method AddLimb(r: array<limb>, i: nat, a: seq<limb>, b: seq<limb>, carry: u64) returns (carry': u64)
    requires i < r.Length && carry <= 1 && Val(r[..i]) + carry * Pow(i) == Low(a, i) + Low(b, i)
    modifies r
    ensures carry' <= 1 && Val(r[..i + 1]) + carry' * Pow(i + 1) == Low(a, i + 1) + Low(b, i + 1)
  {
    hide Val, Pow, Low;
    var s: u64 := carry + Digit(a, i) + Digit(b, i);
    carry' := s / BASE;
    LowNext(a, i);
    LowNext(b, i);
    PowNext(i);
    SetLimb(r[..], i, s % BASE);
    CarryStep(Pow(i), Val(r[..i]), carry, Low(a, i) + Low(b, i), Digit(a, i) + Digit(b, i), s % BASE, carry');
    Distribute(Pow(i), Digit(a, i), Digit(b, i));
    r[i] := s % BASE;
  }

  lemma {:induction false} Distribute(p: int, x: int, y: int)
    ensures p * (x + y) == p * x + p * y && p * (x - y) == p * x - p * y
  {
  }

  lemma {:induction false} SumFits(a: seq<limb>, b: seq<limb>, n: nat)
    requires n > |a| && n > |b|
    ensures Low(a, n) == Val(a) && Low(b, n) == Val(b) && Val(a) + Val(b) < Pow(n)
  {
    ValBound(a);
    ValBound(b);
    PowMonotonic(|a|, n - 1);
    PowMonotonic(|b|, n - 1);
    PowNext(n - 1);
  }

  /** mag_sub: the difference, when it is not negative. */
  method Subtract(a: seq<limb>, b: seq<limb>) returns (s: seq<limb>)
    requires Trimmed(a) && Trimmed(b) && Val(b) <= Val(a)
    ensures Trimmed(s) && Val(s) == Val(a) - Val(b)
  {
    var r := new limb[|a|](_ => 0);
    var borrow: i64 := 0;
    LowNone(a);
    LowNone(b);
    assert r[..0] == [];
    for i := 0 to |a|
      invariant 0 <= borrow <= 1 && Val(r[..i]) - borrow * Pow(i) == Low(a, i) - Low(b, i)
    {
      borrow := SubtractLimb(r, i, a, b, borrow);
    }
    LowWhole(a, b);
    ValBound(r[..|a|]);
    NoBorrow(Val(r[..|a|]), borrow, Pow(|a|), Val(a) - Val(b));
    assert r[..|a|] == r[..];
    s := Trim(r[..]);
  }

  method SubtractLimb(r: array<limb>, i: nat, a: seq<limb>, b: seq<limb>, borrow: i64) returns (borrow': i64)
    requires i < r.Length && i < |a| && 0 <= borrow <= 1 && Val(r[..i]) - borrow * Pow(i) == Low(a, i) - Low(b, i)
    modifies r
    ensures 0 <= borrow' <= 1 && Val(r[..i + 1]) - borrow' * Pow(i + 1) == Low(a, i + 1) - Low(b, i + 1)
  {
    hide Val, Pow, Low;
    var s: i64 := a[i] - borrow - Digit(b, i);
    borrow' := 0;
    if s < 0 {
      s := s + BASE;
      borrow' := 1;
    }
    LowNext(a, i);
    LowNext(b, i);
    PowNext(i);
    SetLimb(r[..], i, s);
    CarryStep(Pow(i), Val(r[..i]), -borrow, Low(a, i) - Low(b, i), a[i] - Digit(b, i), s, -borrow');
    Distribute(Pow(i), a[i], Digit(b, i));
    Negate(borrow, Pow(i));
    Negate(borrow', BASE * Pow(i));
    r[i] := s;
  }

  lemma {:induction false} Negate(x: int, y: int)
    ensures (-x) * y == -(x * y)
  {
  }

  /** The longer of two trimmed magnitudes is not the lesser. */
  lemma {:induction false} LowWhole(a: seq<limb>, b: seq<limb>)
    requires Trimmed(a) && Trimmed(b) && Val(b) <= Val(a)
    ensures |b| <= |a| && Low(a, |a|) == Val(a) && Low(b, |a|) == Val(b)
  {
    if |b| > |a| {
      ValBound(a);
      TrimmedBound(b);
      PowMonotonic(|a|, |b| - 1);
    }
  }

  lemma {:induction false} NoBorrow(lo: nat, borrow: int, p: nat, d: nat)
    requires 0 <= borrow <= 1 && lo - borrow * p == d && lo < p
    ensures borrow == 0 && lo == d
  {
  }

  // ---- one limb ----

  /** mag_mul_small: a * m + add. */
  method MultiplySmall(a: seq<limb>, m: limb, add: limb) returns (s: seq<limb>)
    ensures Trimmed(s) && Val(s) == Val(a) * m + add && |s| <= |a| + 1
  {
    var r := new limb[|a| + 1](_ => 0);
    var carry: u64 := add;
    assert r[..0] == [] && a[..0] == [];
    for i := 0 to |a|
      invariant 0 <= carry < BASE && Val(r[..i]) + carry * Pow(i) == Val(a[..i]) * m + add
    {
      carry := MultiplyLimb(r, i, a, m, add, carry);
    }
    assert a[..|a|] == a;
    SetLimb(r[..], |a|, carry);
    Commute(Pow(|a|), carry);
    r[|a|] := carry;
    assert r[..|a| + 1] == r[..];
    s := Trim(r[..]);
  }

  lemma {:induction false} Commute(x: int, y: int)
    ensures x * y == y * x
  {
  }

  method MultiplyLimb(r: array<limb>, i: nat, a: seq<limb>, m: limb, ghost add: nat, carry: u64) returns (carry': u64)
    requires i < r.Length && i < |a| && 0 <= carry < BASE && Val(r[..i]) + carry * Pow(i) == Val(a[..i]) * m + add
    modifies r
    ensures 0 <= carry' < BASE && Val(r[..i + 1]) + carry' * Pow(i + 1) == Val(a[..i + 1]) * m + add
  {
    hide Val, Pow;
    ProductFits(a[i], m, carry);
    var t: u64 := a[i] * m + carry;
    carry' := t / BASE;
    ValSnoc(a, i);
    PowNext(i);
    SetLimb(r[..], i, t % BASE);
    CarryStep(Pow(i), Val(r[..i]), carry, Val(a[..i]) * m + add, a[i] * m, t % BASE, carry');
    ProductNext(Val(a[..i]), Pow(i), a[i], m);
    r[i] := t % BASE;
  }

  lemma {:induction false} ProductNext(v: int, p: int, x: int, m: int)
    ensures (v + p * x) * m == v * m + p * (x * m)
  {
    assert (p * x) * m == p * (x * m);
  }

  /** A product of limbs and a carry fit in two limbs. */
  lemma {:induction false} ProductFits(x: int, y: int, c: int)
    requires 0 <= x < BASE && 0 <= y < BASE && 0 <= c <= 2 * (BASE - 1)
    ensures 0 <= x * y + c < BASE * BASE && 0 <= (x * y + c) / BASE < BASE
  {
    MulMono(x, BASE - 1, y);
    MulMono(0, x, y);
    SquareFits(x * y, y, c);
  }

  lemma {:induction false} SquareFits(p: int, y: int, c: int)
    requires 0 <= p <= (BASE - 1) * y && y < BASE && 0 <= c <= 2 * (BASE - 1)
    ensures 0 <= p + c < BASE * BASE && 0 <= (p + c) / BASE < BASE
  {
  }

  /** mag_div_small: the quotient and the remainder by m. */
  method DivideSmall(a: seq<limb>, m: u64) returns (s: seq<limb>, rem: u64)
    requires 0 < m <= BASE
    ensures Trimmed(s) && Val(a) == Val(s) * m + rem && rem < m && |s| <= |a|
  {
    var r := new limb[|a|](_ => 0);
    rem := 0;
    var i := |a|;
    assert r[i..] == [] && a[i..] == [];
    while i > 0
      invariant 0 <= i <= |a| && Val(a[i..]) == Val(r[i..]) * m + rem && rem < m
    {
      i := i - 1;
      rem := DivideLimb(r, i, a, m, rem);
    }
    assert a[0..] == a && r[0..] == r[..];
    s := Trim(r[..]);
  }

  method DivideLimb(r: array<limb>, i: nat, a: seq<limb>, m: u64, rem: u64) returns (rem': u64)
    requires i < r.Length == |a| && 0 < m <= BASE && Val(a[i + 1..]) == Val(r[i + 1..]) * m + rem && rem < m
    modifies r
    ensures Val(a[i..]) == Val(r[i..]) * m + rem' && rem' < m
  {
    hide Val, Pow;
    var q;
    q, rem' := DividePair(rem * BASE + a[i], rem, a[i], m);
    ghost var high := r[i + 1..];
    r[i] := q;
    ValCons(a, i);
    ValCons(r[..], i);
    assert r[..][i + 1..] == high && r[..][i..] == r[i..];
    DivideStep(Val(high), m, rem, a[i], q, rem');
  }

  /** A remainder and a limb, divided: the quotient is a limb. */
  method DividePair(cur: int, ghost rem: int, ghost x: limb, m: u64) returns (q: limb, rem': u64)
    requires 0 <= rem < m <= BASE && cur == rem * BASE + x
    ensures cur == m * q + rem' && rem' < m
  {
    DividendFits(rem, x, m);
    var c: u64 := cur;
    q, rem' := c / m, c % m;
  }

  lemma {:induction false} DividendFits(rem: int, x: limb, m: int)
    requires 0 <= rem < m <= BASE
    ensures 0 <= rem * BASE + x < BASE * BASE && (rem * BASE + x) / m < BASE
  {
    MulNext(rem, m, BASE);
    MulMono(m, BASE, BASE);
    QuotientLess(rem * BASE + x, m, BASE);
  }

  lemma {:induction false} QuotientLess(v: int, m: int, q: int)
    requires 0 <= v < m * q && m > 0
    ensures 0 <= v / m < q
  {
    if v / m >= q {
      MulMono(q, v / m, m);
    }
  }

  lemma {:induction false} DivideStep(high: int, m: int, rem: int, x: int, q: int, rem': int)
    requires rem * BASE + x == m * q + rem'
    ensures x + BASE * (high * m + rem) == (q + BASE * high) * m + rem'
  {
    assert BASE * (high * m) == (BASE * high) * m;
    assert (q + BASE * high) * m == q * m + (BASE * high) * m;
  }

  // ---- from a machine word ----

  /** num_from_long, for what is not negative: always three limbs, then trimmed. */
  method FromLong(x: i64) returns (s: seq<limb>)
    requires x >= 0
    ensures Trimmed(s) && Val(s) == x
  {
    var r := new limb[3](_ => 0);
    var v: int := x;
    assert r[..0] == [];
    for i := 0 to 3
      invariant v >= 0 && Val(r[..i]) + Pow(i) * v == x
    {
      v := WordLimb(r, i, v, x);
    }
    PowThree();
    LeftOver(Val(r[..3]), Pow(3), v, x);
    assert r[..3] == r[..];
    s := Trim(r[..]);
  }

  method WordLimb(r: array<limb>, i: nat, v: int, ghost x: nat) returns (v': int)
    requires i < r.Length && v >= 0 && Val(r[..i]) + Pow(i) * v == x
    modifies r
    ensures v' >= 0 && Val(r[..i + 1]) + Pow(i + 1) * v' == x
  {
    hide Val, Pow;
    SetLimb(r[..], i, v % BASE);
    PowNext(i);
    WordStep(Pow(i), v);
    r[i], v' := v % BASE, v / BASE;
  }

  lemma {:induction false} WordStep(p: nat, v: nat)
    ensures p * v == p * (v % BASE) + BASE * p * (v / BASE)
  {
    assert v == BASE * (v / BASE) + v % BASE;
    assert p * (BASE * (v / BASE)) == BASE * p * (v / BASE);
  }

  lemma {:induction false} PowThree()
    ensures Pow(3) == 1_000_000_000_000_000_000_000_000_000
  {
    assert Pow(1) == BASE * Pow(0);
    assert Pow(2) == BASE * Pow(1);
  }

  lemma {:induction false} LeftOver(low: nat, p: nat, v: nat, x: nat)
    requires low + p * v == x < p
    ensures low == x
  {
    if v >= 1 {
      MulMono(1, v, p);
    }
  }
}
