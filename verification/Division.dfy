/** mag_divmod: Knuth's algorithm D (The Art of Computer Programming, section 4.3.1). */
module Division {
  import opened Arith
  import opened Limbs
  import opened Magnitude

  // ---- a quotient digit from the leading limbs ----

  /** q is the quotient of u by v. */
  ghost predicate IsQuotient(u: nat, v: nat, q: nat)
  {
    q * v <= u < (q + 1) * v
  }

  /** x is what the limbs of u above a place of value p stand for. */
  ghost predicate Above(u: nat, x: nat, p: nat)
  {
    x * p <= u < (x + 1) * p
  }

  lemma {:induction false} ScaleLess(x: int, y: int, p: int)
    requires p > 0 && x * p < y * p
    ensures x < y
  {
    if x >= y {
      MulMono(y, x, p);
    }
  }

  /** What is too large for the leading limbs is too large for all of them. */
  lemma {:induction false} TooLarge(u: nat, v: nat, q: nat, x: nat, y: nat, p: nat, g: nat)
    requires Above(u, x, p) && Above(v, y, p) && IsQuotient(u, v, q) && g * y > x
    ensures q < g
  {
    MulMono(x + 1, g * y, p);
    MulMono(y * p, v, g);
    assert g * y * p == g * (y * p);
    ScaleLess(q, g, v);
  }

  /** What is not too large for the leading limbs is at most one too large for all of them. */
  lemma {:induction false} OneTooLarge(u: nat, v: nat, q: nat, x: nat, y: nat, p: nat, g: nat)
    requires Above(u, x, p) && Above(v, y, p) && IsQuotient(u, v, q) && g * y <= x && g < y
    ensures g <= q + 1
  {
    if g > 0 {
      MulMono(g * y, x, p);
      MulMono(v - p, y * p, g);
      MulMono(g + 1, y, p);
      Products(g, y, p, v);
      OneLess(g * v, g * p, g * (y * p), x * p, y * p, u, v, p);
      ScaleLess(g - 1, q + 1, v);
    }
  }

  lemma {:induction false} Products(g: int, y: int, p: int, v: int)
    ensures g * y * p == g * (y * p) && (g - 1) * v == g * v - v && g * (v - p) == g * v - g * p && (g + 1) * p == g * p + p
  {
  }

  lemma {:induction false} OneLess(gv: int, gp: int, gyp: int, xp: int, yp: int, u: int, v: int, p: int)
    requires gyp <= xp <= u && gv - gp <= gyp && gp + p <= yp <= v && p > 0
    ensures gv - v < u
  {
  }

  /** The first guess divides two limbs by one. */
  lemma {:induction false} FirstGuess(num: nat, ul: nat, v1: nat, v2: nat, g: nat)
    requires ul < BASE && num < (g + 1) * v1
    ensures (g + 1) * (v1 * BASE + v2) > num * BASE + ul
  {
    MulMono(num + 1, (g + 1) * v1, BASE);
    MulMono(v1 * BASE, v1 * BASE + v2, g + 1);
    assert (g + 1) * (v1 * BASE) == (g + 1) * v1 * BASE;
  }

  /** The test compares the guess with three limbs over two. */
  lemma {:induction false} Test(num: nat, ul: nat, v1: nat, v2: nat, g: nat, rhat: nat)
    requires num == g * v1 + rhat
    ensures g * v2 > rhat * BASE + ul <==> g * (v1 * BASE + v2) > num * BASE + ul
  {
    assert g * (v1 * BASE + v2) == g * v1 * BASE + g * v2;
  }

  /** A guess of more than a limb, or a remainder of one, cannot both be. */
  lemma {:induction false} GuessFits(num: nat, v1: nat, g: nat, rhat: nat)
    requires num == g * v1 + rhat && num < v1 * BASE + BASE && v1 > 0
    ensures rhat >= BASE ==> g < BASE
  {
    if g >= BASE {
      MulMono(BASE, g, v1);
    }
  }

  /** The test of the guess; both sides fit in 64 bits. */
  predicate TooBig(g: u64, rhat: u64, ul: limb, v2: limb)
    requires g < BASE && rhat < BASE
  {
    TestFits(g, rhat, ul, v2);
    var product: u64, bound: u64 := g * v2, rhat * BASE + ul;
    product > bound
  }

  lemma {:induction false} TestFits(g: int, rhat: int, ul: limb, v2: limb)
    requires 0 <= g < BASE && 0 <= rhat < BASE
    ensures 0 <= g * v2 < BASE * BASE && 0 <= rhat * BASE + ul < BASE * BASE
  {
    ProductFits(g, v2, 0);
  }

  /** What is known of a guess between two tests. */
  ghost predicate Guess(g: int, rhat: int, num: nat, v1: limb, q: nat)
  {
    q <= g <= BASE + 1 && num == g * v1 + rhat && rhat >= 0
  }

  lemma {:induction false} GuessStart(g: nat, rhat: nat, num: nat, ul: limb, v1: limb, v2: limb, u: nat, v: nat, q: nat, p: nat)
    requires num == g * v1 + rhat && rhat < v1 && g <= BASE + 1
    requires Above(u, num * BASE + ul, p) && Above(v, v1 * BASE + v2, p) && IsQuotient(u, v, q)
    ensures Guess(g, rhat, num, v1, q)
  {
    hide Above, IsQuotient;
    assert (g + 1) * v1 == g * v1 + v1;
    FirstGuess(num, ul, v1, v2, g);
    TooLarge(u, v, q, num * BASE + ul, v1 * BASE + v2, p, g + 1);
  }

  method TwoByOne(num: u64, v1: limb) returns (g: u64, rhat: u64)
    requires v1 >= BASE / 2 && num < v1 * BASE + BASE
    ensures num == g * v1 + rhat && rhat < v1 && g <= BASE + 1
  {
    QuotientRange(num, v1, num / v1, num % v1);
    g, rhat := num / v1, num % v1;
  }

  lemma {:induction false} QuotientRange(num: nat, v1: nat, g: int, rhat: nat)
    requires v1 >= BASE / 2 && num < v1 * BASE + BASE && num == v1 * g + rhat && rhat < v1
    ensures num == g * v1 + rhat && 0 <= g <= BASE + 1
  {
    if g >= BASE + 2 {
      MulMono(BASE + 2, g, v1);
    } else if g < 0 {
      MulMono(g, -1, v1);
    }
  }

  lemma {:induction false} GuessNext(g: nat, rhat: nat, num: nat, ul: limb, v1: limb, v2: limb, u: nat, v: nat, q: nat, p: nat)
    requires Guess(g, rhat, num, v1, q) && q < BASE && (g >= BASE || g * v2 > rhat * BASE + ul)
    requires Above(u, num * BASE + ul, p) && Above(v, v1 * BASE + v2, p) && IsQuotient(u, v, q)
    ensures Guess(g - 1, rhat + v1, num, v1, q)
  {
    hide Above, IsQuotient;
    assert (g - 1) * v1 == g * v1 - v1;
    if g < BASE {
      Test(num, ul, v1, v2, g, rhat);
      TooLarge(u, v, q, num * BASE + ul, v1 * BASE + v2, p, g);
    }
  }

  lemma {:induction false} GuessEnd(g: nat, rhat: nat, num: nat, ul: limb, v1: limb, v2: limb, u: nat, v: nat, q: nat, p: nat)
    requires Guess(g, rhat, num, v1, q) && (rhat >= BASE || (g < BASE && g * v2 <= rhat * BASE + ul))
    requires v1 >= BASE / 2 && num < v1 * BASE + BASE
    requires Above(u, num * BASE + ul, p) && Above(v, v1 * BASE + v2, p) && IsQuotient(u, v, q)
    ensures q <= g <= q + 1 && g < BASE
  {
    hide Above, IsQuotient;
    GuessFits(num, v1, g, rhat);
    TestFits(g, 0, 0, v2);
    Test(num, ul, v1, v2, g, rhat);
    OneTooLarge(u, v, q, num * BASE + ul, v1 * BASE + v2, p, g);
  }

  /** The estimate of a quotient digit: at most one too large. */
  method Estimate(num: u64, ul: limb, v1: limb, v2: limb, ghost u: nat, ghost v: nat, ghost q: nat, ghost p: nat)
    returns (qhat: limb)
    requires v1 >= BASE / 2 && num < v1 * BASE + BASE
    requires Above(u, num * BASE + ul, p) && Above(v, v1 * BASE + v2, p) && IsQuotient(u, v, q) && q < BASE
    ensures q <= qhat <= q + 1
  {
    hide Above, IsQuotient, Guess;
    var g: u64, rhat: u64 := TwoByOne(num, v1);
    GuessStart(g, rhat, num, ul, v1, v2, u, v, q, p);
    while g >= BASE || TooBig(g, rhat, ul, v2)
      invariant Guess(g, rhat, num, v1, q) && rhat < BASE
      decreases g
    {
      GuessNext(g, rhat, num, ul, v1, v2, u, v, q, p);
      GuessRange(g - 1, rhat + v1, num, v1, q);
      g := g - 1;
      rhat := rhat + v1;
      if rhat >= BASE {
        break;
      }
    }
    GuessEnd(g, rhat, num, ul, v1, v2, u, v, q, p);
    qhat := g;
  }

  lemma {:induction false} GuessRange(g: int, rhat: int, num: nat, v1: limb, q: nat)
    requires Guess(g, rhat, num, v1, q)
    ensures g >= 0
  {
  }

  // ---- the leading limbs ----

  lemma {:induction false} LeadingLimbs(w: seq<limb>, k: nat, x: nat)
    requires k <= |w| && x == Val(w[k..])
    ensures Above(Val(w), x, Pow(k))
  {
    hide Val, Pow, Above;
    ValSplit(w, k);
    ValBound(w[..k]);
    AboveLow(Val(w), Val(w[..k]), Pow(k), x);
  }

  lemma {:induction false} AboveLow(u: nat, low: nat, p: nat, x: nat)
    requires u == low + p * x && low < p
    ensures Above(u, x, p)
  {
    assert p * x == x * p && (x + 1) * p == x * p + p;
  }

  lemma {:induction false} ValEnd(w: seq<limb>)
    ensures Val(w[|w|..]) == 0
  {
    assert w[|w|..] == [];
  }

  lemma {:induction false} TopTwo(v: seq<limb>, n: nat)
    requires 2 <= n == |v|
    ensures Val(v[n - 2..]) == v[n - 1] * BASE + v[n - 2]
  {
    ValCons(v, n - 2);
    ValCons(v, n - 1);
    ValEnd(v);
  }

  lemma {:induction false} TopThree(w: seq<limb>, n: nat)
    requires 2 <= n && |w| == n + 1
    ensures Val(w[n - 2..]) == (w[n] * BASE + w[n - 1]) * BASE + w[n - 2]
  {
    ValCons(w, n - 2);
    ValCons(w, n - 1);
    ValCons(w, n);
    ValEnd(w);
  }

  /** A window whose upper limbs are less than the divisor. */
  ghost predicate Ready(w: seq<limb>, v: seq<limb>)
  {
    |w| == |v| + 1 && |v| >= 2 && v[|v| - 1] >= BASE / 2 && Val(w[1..]) < Val(v)
  }

  lemma {:induction false} LeadingFits(w: seq<limb>, v: seq<limb>, n: nat)
    requires Ready(w, v) && n == |v|
    ensures w[n] <= v[n - 1] && w[n] * BASE + w[n - 1] < v[n - 1] * BASE + BASE
  {
    var h := w[1..];
    ValSplit(h, n - 1);
    ValSplit(v, n - 1);
    ValCons(h, n - 1);
    ValCons(v, n - 1);
    ValEnd(h);
    ValEnd(v);
    ValBound(v[..n - 1]);
    LeadingLess(Pow(n - 1), w[n], v[n - 1], Val(v[..n - 1]));
  }

  lemma {:induction false} LeadingLess(p: nat, x: nat, y: nat, low: nat)
    requires p * x <= low + p * y && low < p
    ensures x <= y
  {
    if x > y {
      MulNext(y, x, p);
    }
  }

  /** The quotient of such a window is one limb. */
  lemma {:induction false} DigitFits(w: seq<limb>, v: seq<limb>) returns (q: nat)
    requires Ready(w, v)
    ensures IsQuotient(Val(w), Val(v), q) && q < BASE
  {
    q := Val(w) / Val(v);
    ValCons(w, 0);
    assert w[0..] == w;
    MulNext(Val(w[1..]), Val(v), BASE);
    QuotientLess(Val(w), Val(v), BASE);
    QuotientIs(Val(w), Val(v), q);
  }

  lemma {:induction false} QuotientIs(u: nat, v: nat, q: nat)
    requires v > 0 && q == u / v
    ensures IsQuotient(u, v, q)
  {
    assert u == v * q + u % v;
    assert (q + 1) * v == q * v + v;
  }

  method EstimateDigit(w: seq<limb>, v: seq<limb>) returns (qhat: limb, ghost q: nat)
    requires Ready(w, v)
    ensures IsQuotient(Val(w), Val(v), q) && q <= qhat <= q + 1
  {
    hide Val, Pow, Above, IsQuotient;
    var n := |v|;
    q := DigitFits(w, v);
    LeadingFits(w, v, n);
    TopTwo(v, n);
    TopThree(w, n);
    LeadingLimbs(w, n - 2, Val(w[n - 2..]));
    LeadingLimbs(v, n - 2, Val(v[n - 2..]));
    var num: u64 := w[n] * BASE + w[n - 1];
    qhat := Estimate(num, w[n - 2], v[n - 1], v[n - 2], Val(w), Val(v), q, Pow(n - 2));
  }

  // ---- subtracting the multiple ----

  lemma {:induction false} SetWindow(u: seq<limb>, j: nat, i: nat, d: limb)
    requires j + i < |u|
    ensures Val(u[j + i := d][j..j + i + 1]) == Val(u[j..j + i]) + Pow(i) * d
    ensures u[j + i := d][..j] == u[..j] && u[j + i := d][j + i + 1..] == u[j + i + 1..]
  {
    var s := u[j + i := d];
    var w := s[j..j + i + 1];
    ValSnoc(w, i);
    assert w[..i] == u[j..j + i] && w[..i + 1] == w;
  }

  lemma {:induction false} WindowNext(u: seq<limb>, j: nat, i: nat)
    requires j + i < |u|
    ensures Val(u[j..j + i + 1]) == Val(u[j..j + i]) + Pow(i) * u[j + i]
  {
    var w := u[j..j + i + 1];
    ValSnoc(w, i);
    assert w[..i] == u[j..j + i] && w[..i + 1] == w;
  }

  /** In a window at j, i limbs have been replaced; all others are as they were. */
  ghost predicate Touched(u: seq<limb>, was: seq<limb>, j: nat, i: nat)
  {
    |u| == |was| && j + i <= |u| && u[..j] == was[..j] && u[j + i..] == was[j + i..]
  }

  /** The i low limbs of a window are less by a multiple of the divisor, but for what is owed. */
  ghost predicate Reduced(u: seq<limb>, was: seq<limb>, j: nat, i: nat, sub: int, owed: int)
  {
    Touched(u, was, j, i) && Val(u[j..j + i]) - owed * Pow(i) == Val(was[j..j + i]) - sub
  }

  lemma {:induction false} ReduceLimb(u: seq<limb>, was: seq<limb>, j: nat, i: nat, sub: int, owed: int, x: int, d: limb, owed': int)
    requires j + i < |u| && Reduced(u, was, j, i, sub, owed) && u[j + i] - x - owed == d - owed' * BASE
    ensures Reduced(u[j + i := d], was, j, i + 1, sub + Pow(i) * x, owed')
  {
    hide Val, Pow;
    assert u[j + i..][0] == u[j + i] && was[j + i..][0] == was[j + i];
    assert u[j + i..][1..] == u[j + i + 1..] && was[j + i..][1..] == was[j + i + 1..];
    SetWindow(u, j, i, d);
    WindowNext(was, j, i);
    PowNext(i);
    Negate(owed, Pow(i));
    Negate(owed', BASE * Pow(i));
    CarryStep(Pow(i), Val(u[j..j + i]), -owed, Val(was[j..j + i]) - sub, u[j + i] - x, d, -owed');
    Distribute(Pow(i), u[j + i], x);
  }

  lemma {:induction false} TimesNext(g: int, v: int, p: int, x: int)
    ensures g * (v + p * x) == g * v + p * (g * x)
  {
    assert g * (p * x) == p * (g * x);
  }

  method MultiplySubtractLimb(u: array<limb>, j: nat, i: nat, v: seq<limb>, qhat: limb, carry: u64, borrow: i64, ghost was: seq<limb>)
    returns (carry': u64, borrow': i64)
    requires i < |v| && j + i < u.Length && carry < BASE && 0 <= borrow <= 1
    requires Reduced(u[..], was, j, i, qhat * Val(v[..i]), carry + borrow)
    modifies u
    ensures carry' < BASE && 0 <= borrow' <= 1
    ensures Reduced(u[..], was, j, i + 1, qhat * Val(v[..i + 1]), carry' + borrow')
  {
    hide Val, Pow, Reduced;
    ProductFits(qhat, v[i], carry);
    var p: u64 := qhat * v[i] + carry;
    carry' := p / BASE;
    var t: i64 := u[i + j] - p % BASE - borrow;
    borrow' := 0;
    if t < 0 {
      t := t + BASE;
      borrow' := 1;
    }
    ReduceLimb(u[..], was, j, i, qhat * Val(v[..i]), carry + borrow, qhat * v[i], t, carry' + borrow');
    ValSnoc(v, i);
    TimesNext(qhat, Val(v[..i]), Pow(i), v[i]);
    u[i + j] := t;
  }

  /** The multiple of the divisor is subtracted from the window, wrapping round below zero. */
  method MultiplySubtract(u: array<limb>, j: nat, v: seq<limb>, qhat: limb) returns (borrow: i64)
    requires j + |v| < u.Length
    modifies u
    ensures 0 <= borrow <= 1 && Reduced(u[..], old(u[..]), j, |v| + 1, qhat * Val(v), borrow)
  {
    hide Val, Pow, Reduced;
    var carry: u64 := 0;
    borrow := 0;
    NothingReduced(u[..], j, v, qhat);
    for i := 0 to |v|
      invariant carry < BASE && 0 <= borrow <= 1
      invariant Reduced(u[..], old(u[..]), j, i, qhat * Val(v[..i]), carry + borrow)
    {
      carry, borrow := MultiplySubtractLimb(u, j, i, v, qhat, carry, borrow, old(u[..]));
    }
    assert v[..|v|] == v;
    ghost var owed := carry + borrow;
    var t: i64 := u[j + |v|] - carry - borrow;
    borrow := 0;
    if t < 0 {
      t := t + BASE;
      borrow := 1;
    }
    ReduceLimb(u[..], old(u[..]), j, |v|, qhat * Val(v), owed, 0, t, borrow);
    u[j + |v|] := t;
  }

  lemma {:induction false} NothingReduced(u: seq<limb>, j: nat, v: seq<limb>, g: int)
    requires j <= |u|
    ensures Reduced(u, u, j, 0, g * Val(v[..0]), 0)
  {
    assert v[..0] == [] && Val([]) == 0;
  }

  method AddBackLimb(u: array<limb>, j: nat, i: nat, v: seq<limb>, c: u64, ghost was: seq<limb>) returns (c': u64)
    requires i < |v| && j + i < u.Length && c <= 1 && Reduced(u[..], was, j, i, 0 - Val(v[..i]), 0 - c)
    modifies u
    ensures c' <= 1 && Reduced(u[..], was, j, i + 1, 0 - Val(v[..i + 1]), 0 - c')
  {
    hide Val, Pow, Reduced;
    var s: u64 := u[i + j] + v[i] + c;
    c' := s / BASE;
    ReduceLimb(u[..], was, j, i, 0 - Val(v[..i]), 0 - c, 0 - (v[i] as int), s % BASE, 0 - c');
    ValSnoc(v, i);
    TimesNext(-1, Val(v[..i]), Pow(i), v[i]);
    u[i + j] := s % BASE;
  }

  /** The divisor is added back to the window; what leaves it at the top is dropped. */
  method AddBack(u: array<limb>, j: nat, v: seq<limb>) returns (ghost lost: nat)
    requires j + |v| < u.Length
    modifies u
    ensures lost <= 1 && Reduced(u[..], old(u[..]), j, |v| + 1, 0 - Val(v), 0 - lost)
  {
    hide Val, Pow, Reduced;
    var c: u64 := 0;
    NothingReduced(u[..], j, v, -1);
    for i := 0 to |v|
      invariant c <= 1 && Reduced(u[..], old(u[..]), j, i, 0 - Val(v[..i]), 0 - c)
    {
      c := AddBackLimb(u, j, i, v, c, old(u[..]));
    }
    assert v[..|v|] == v;
    var s: u64 := u[j + |v|] + c;
    lost := s / BASE;
    ReduceLimb(u[..], old(u[..]), j, |v|, 0 - Val(v), 0 - c, 0, s % BASE, 0 - lost);
    u[j + |v|] := s % BASE;
  }

  /** A digit is done: the window is a multiple of the divisor more than what is left, which is less
      than the divisor. */
  ghost predicate DigitDone(u: seq<limb>, was: seq<limb>, j: nat, v: seq<limb>, d: nat)
  {
    && Touched(u, was, j, |v| + 1)
    && Val(was[j..j + |v| + 1]) == d * Val(v) + Val(u[j..j + |v| + 1])
    && Val(u[j..j + |v| + 1]) < Val(v)
  }

  lemma {:induction false} NotReduced(u: seq<limb>, was: seq<limb>, j: nat, v: seq<limb>, q: nat, qhat: limb, borrow: int)
    requires 0 <= borrow <= 1 && Reduced(u, was, j, |v| + 1, qhat * Val(v), borrow)
    requires IsQuotient(Val(was[j..j + |v| + 1]), Val(v), q) && q <= qhat <= q + 1
    ensures borrow == 0 ==> DigitDone(u, was, j, v, qhat)
    ensures borrow == 1 ==> qhat == q + 1
  {
    var w, r := Val(was[j..j + |v| + 1]), Val(u[j..j + |v| + 1]);
    ValBound(u[j..j + |v| + 1]);
    assert (q + 1) * Val(v) == q * Val(v) + Val(v);
  }

  lemma {:induction false} BackAgain(u: seq<limb>, u1: seq<limb>, was: seq<limb>, j: nat, v: seq<limb>, q: nat, lost: int)
    requires Reduced(u1, was, j, |v| + 1, (q + 1) * Val(v), 1) && 0 <= lost <= 1 && Reduced(u, u1, j, |v| + 1, 0 - Val(v), 0 - lost)
    requires IsQuotient(Val(was[j..j + |v| + 1]), Val(v), q)
    ensures DigitDone(u, was, j, v, q)
  {
    hide Val, Pow;
    ValBound(u[j..j + |v| + 1]);
    Wrapped(Val(was[j..j + |v| + 1]), Val(u1[j..j + |v| + 1]), Val(u[j..j + |v| + 1]), Val(v), q, Pow(|v| + 1), lost);
  }

  lemma {:induction false} Wrapped(w: nat, r1: nat, r: nat, v: nat, q: nat, p: nat, lost: int)
    requires r1 - p == w - (q + 1) * v && r - (0 - lost) * p == r1 - (0 - v) && IsQuotient(w, v, q)
    requires 0 <= lost <= 1 && r < p
    ensures w == q * v + r && r < v
  {
    assert (q + 1) * v == q * v + v;
  }

  /** One digit of the quotient. */
  method QuotientDigit(u: array<limb>, j: nat, v: seq<limb>) returns (d: limb)
    requires j + |v| < u.Length && Ready(u[j..j + |v| + 1], v)
    modifies u
    ensures DigitDone(u[..], old(u[..]), j, v, d)
  {
    hide Val, Pow, Reduced, Touched, IsQuotient, DigitDone, Ready;
    ghost var was := u[..];
    assert was[j..j + |v| + 1] == u[j..j + |v| + 1];
    ghost var q;
    d, q := EstimateDigit(u[j..j + |v| + 1], v);
    var borrow := MultiplySubtract(u, j, v, d);
    NotReduced(u[..], was, j, v, q, d, borrow);
    if borrow != 0 {
      d := d - 1;
      ghost var u1 := u[..];
      ghost var lost := AddBack(u, j, v);
      BackAgain(u[..], u1, was, j, v, q, lost);
    }
  }

  // ---- scaling ----

  lemma {:induction false} ScaleEnough(f: nat, d: nat)
    requires 0 < d < BASE && f * (d + 1) <= BASE < (f + 1) * (d + 1)
    ensures f >= 1 && f * d >= BASE / 2
  {
    if f >= 1 && d >= BASE / 2 {
      MulMono(1, f, d);
    } else if f >= 1 && f * d < BASE / 2 {
      MulMono(f * d, BASE / 2 - 1, d + 1);
      MulMono(BASE - d, f * (d + 1), d);
      assert f * d * (d + 1) == f * (d + 1) * d;
      MulMono(0, d - 1, BASE / 2 - d);
    }
  }

  /** The divisor is scaled so that its first limb is at least half the base. */
  lemma {:induction false} Normalized(b: seq<limb>, v: seq<limb>, n: nat, f: nat)
    requires n == |b| > 0 && b[n - 1] > 0 && Trimmed(v) && Val(v) == Val(b) * f
    requires f * (b[n - 1] as int + 1) <= BASE < (f + 1) * (b[n - 1] as int + 1)
    ensures |v| == n && v[n - 1] >= BASE / 2 && f >= 1
  {
    hide Val, Pow, Trimmed;
    var p, d: nat := Pow(n - 1), b[n - 1];
    var x := f * d;
    ScaleEnough(f, d);
    TopBound(b, n);
    PowNext(n - 1);
    ScaledBound(Val(b), p, d, f);
    assert p * x <= Val(v) < BASE * p;
    SizeFrom(v, n, x);
    TopBound(v, n);
    LeadingLess(p, x, v[n - 1], Val(v[..n - 1]));
  }

  lemma {:induction false} ScaledBound(b: nat, p: nat, d: nat, f: nat)
    requires p * d <= b < p * d + p && f * (d + 1) <= BASE && f >= 1
    ensures p * (f * d) <= b * f < BASE * p
  {
    MulMono(p * d, b, f);
    MulNext(b, p * d + p, f);
    assert (p * d + p) * f == p * (f * (d + 1)) && p * d * f == p * (f * d);
    MulMono(f * (d + 1), BASE, p);
  }

  lemma {:induction false} TopBound(s: seq<limb>, n: nat)
    requires n == |s| > 0
    ensures Val(s) == Val(s[..n - 1]) + Pow(n - 1) * s[n - 1] && Val(s[..n - 1]) < Pow(n - 1)
    ensures Pow(n - 1) * s[n - 1] <= Val(s) < Pow(n - 1) * s[n - 1] + Pow(n - 1)
  {
    ValSnoc(s, n - 1);
    assert s[..n] == s;
    ValBound(s[..n - 1]);
  }

  lemma {:induction false} SizeFrom(v: seq<limb>, n: nat, x: nat)
    requires n > 0 && x >= 1 && Trimmed(v) && Pow(n - 1) * x <= Val(v) < Pow(n)
    ensures |v| == n
  {
    hide Val, Pow;
    MulMono(1, x, Pow(n - 1));
    ValBound(v);
    if |v| < n {
      PowMonotonic(|v|, n - 1);
    } else if |v| > n {
      TrimmedBound(v);
      PowMonotonic(n, |v| - 1);
    }
  }

  /** The first window is ready. */
  lemma {:induction false} FirstWindow(a: seq<limb>, b: seq<limb>, u: seq<limb>, v: seq<limb>, f: nat, m: nat)
    requires Trimmed(b) && |b| > 0 && |u| == |a| + 1 == m + |b| && f >= 1
    requires Val(u) == Val(a) * f && Val(v) == Val(b) * f
    ensures Val(u[m..]) < Val(v)
  {
    hide Val, Pow;
    var p := Pow(|b| - 1);
    ValSplit(u, m);
    ValBound(a);
    PowAdd(m, |b| - 1);
    MulNext(Val(a), Pow(|a|), f);
    assert Pow(m) * p * f == Pow(m) * (p * f);
    LessTimes(Pow(m), Val(u[m..]), p * f);
    TrimmedBound(b);
    MulMono(p, Val(b), f);
  }

  lemma {:induction false} LessTimes(p: nat, x: nat, y: nat)
    requires p * x < p * y
    ensures x < y
  {
    if x >= y {
      MulMono(y, x, p);
    }
  }

  /** The quotient of the upper limbs, and what is left of them. */
  ghost predicate Divided(u: seq<limb>, u0: seq<limb>, qq: seq<limb>, j: nat, v: seq<limb>)
  {
    && |u| == |u0| == |qq| + |v| && j <= |qq| && u[..j] == u0[..j]
    && Val(u0[j..]) == Val(qq[j..]) * Val(v) + Val(u[j..j + |v|])
    && Val(u[j..j + |v|]) < Val(v)
  }

  lemma {:induction false} DividedReady(u: seq<limb>, u0: seq<limb>, qq: seq<limb>, j: nat, v: seq<limb>)
    requires Divided(u, u0, qq, j, v) && j > 0 && |v| >= 2 && v[|v| - 1] >= BASE / 2
    ensures Ready(u[j - 1..j + |v|], v)
  {
    assert u[j - 1..j + |v|][1..] == u[j..j + |v|];
  }

  lemma {:induction false} TopGone(w: seq<limb>, n: nat)
    requires |w| == n + 1 && Val(w) < Pow(n)
    ensures Val(w[..n]) == Val(w)
  {
    TopBound(w, n + 1);
    if w[n] > 0 {
      MulMono(1, w[n], Pow(n));
    }
  }

  lemma {:induction false} DividedNext(u: seq<limb>, u1: seq<limb>, u0: seq<limb>, qq: seq<limb>, j: nat, v: seq<limb>, d: limb)
    requires Divided(u1, u0, qq, j + 1, v) && DigitDone(u, u1, j, v, d)
    ensures Divided(u, u0, qq[j := d], j, v)
  {
    hide Val, Pow;
    var n := |v|;
    var w, r, q1 := u1[j..j + n + 1], u[j..j + n + 1], qq[j := d];
    ValBound(v);
    TopGone(r, n);
    assert r[..n] == u[j..j + n];
    assert u[..j] == u1[..j] == u1[..j + 1][..j] == u0[..j + 1][..j] == u0[..j];
    assert u1[..j + 1][j] == u0[..j + 1][j];
    ValCons(w, 0);
    assert w[0..] == w && w[1..] == u1[j + 1..j + 1 + n] && w[0] == u0[j];
    ValCons(u0, j);
    ValCons(q1, j);
    assert q1[j + 1..] == qq[j + 1..];
    Commute(d, Val(v));
    DivideStep(Val(qq[j + 1..]), Val(v), Val(w[1..]), u0[j], d, Val(r));
  }

  lemma {:induction false} NoneDivided(u: seq<limb>, qq: seq<limb>, v: seq<limb>)
    requires |u| == |qq| + |v| && Val(u[|qq|..]) < Val(v)
    ensures Divided(u, u, qq, |qq|, v)
  {
    ValEnd(qq);
    assert u[|qq|..] == u[|qq|..|qq| + |v|];
  }

  /** All digits of the quotient of normalized numbers; the remainder stays in the low limbs. */
  method LongDivide(u: array<limb>, v: seq<limb>, m: nat) returns (qq: array<limb>)
    requires |v| >= 2 && v[|v| - 1] >= BASE / 2 && u.Length == m + |v| && Val(u[m..]) < Val(v)
    modifies u
    ensures fresh(qq) && Divided(u[..], old(u[..]), qq[..], 0, v)
  {
    hide Val, Pow, Divided, DigitDone, Ready;
    qq := new limb[m](_ => 0);
    ghost var u0 := u[..];
    assert u0[m..] == u[m..];
    NoneDivided(u0, qq[..], v);
    var j := m;
    while j > 0
      invariant 0 <= j <= m && fresh(qq) && Divided(u[..], u0, qq[..], j, v)
    {
      DividedReady(u[..], u0, qq[..], j, v);
      j := j - 1;
      ghost var u1 := u[..];
      assert u1[j..j + 1 + |v|] == u[j..j + |v| + 1];
      var d := QuotientDigit(u, j, v);
      DividedNext(u[..], u1, u0, qq[..], j, v, d);
      qq[j] := d;
    }
  }

  /** The scale is divided out of the remainder, exactly. */
  lemma {:induction false} Unscale(a: nat, b: nat, q: nat, rest: nat, f: nat, r: nat, rem: nat)
    requires a * f == q * (b * f) + rest && rest < b * f && rest == r * f + rem && rem < f
    ensures a == q * b + r && r < b
  {
    UnscaleSum(a, b, q, f, r, rem);
    SmallMultiple(a - q * b - r, f, rem);
    Commute(r, f);
    Commute(b, f);
    LessTimes(f, r, b);
  }

  lemma {:induction false} UnscaleSum(a: nat, b: nat, q: nat, f: nat, r: nat, rem: nat)
    requires a * f == q * (b * f) + (r * f + rem)
    ensures (a - q * b - r) * f == rem
  {
    assert q * (b * f) == q * b * f;
  }

  lemma {:induction false} SmallMultiple(x: int, f: nat, rem: nat)
    requires x * f == rem < f
    ensures x == 0
  {
    if x >= 1 {
      MulMono(1, x, f);
    } else if x <= -1 {
      MulMono(x, -1, f);
    }
  }

  method Normalize(a: seq<limb>, b: seq<limb>) returns (u: array<limb>, v: seq<limb>, f: limb)
    requires Trimmed(a) && Trimmed(b) && 2 <= |b| <= |a|
    ensures f >= 1 && fresh(u) && u.Length == |a| + 1 && |v| == |b| && v[|v| - 1] >= BASE / 2
    ensures Val(u[..]) == Val(a) * f && Val(v) == Val(b) * f
  {
    hide Val, Pow;
    var n := |b|;
    ScaleRange(b[n - 1] as int + 1);
    f := BASE / (b[n - 1] as int + 1);
    var s := MultiplySmall(a, f, 0);
    v := MultiplySmall(b, f, 0);
    assert b[n - 1] > 0;
    Normalized(b, v, n, f);
    ScaledSize(a, s, f);
    if |s| == |a| {
      ValAppendZero(s);
      s := s + [0];
    }
    u := new limb[|s|](i requires 0 <= i < |s| => s[i]);
    assert u[..] == s;
  }

  lemma {:induction false} ScaleRange(d: nat)
    requires 2 <= d <= BASE
    ensures 1 <= BASE / d < BASE && BASE / d * d <= BASE < (BASE / d + 1) * d
  {
    var f := BASE / d;
    assert BASE == d * f + BASE % d;
    assert (f + 1) * d == f * d + d;
  }

  lemma {:induction false} ScaledSize(a: seq<limb>, s: seq<limb>, f: nat)
    requires Trimmed(a) && a != [] && Trimmed(s) && Val(s) == Val(a) * f && f >= 1
    ensures |s| >= |a|
  {
    MulMono(1, f, Val(a));
    TrimmedBound(a);
    ValBound(s);
    if |s| < |a| {
      PowMonotonic(|s|, |a| - 1);
    }
  }

  lemma {:induction false} ValAppendZero(s: seq<limb>)
    ensures Val(s + [0]) == Val(s)
  {
    ValConcat(s, [0]);
    ValOne(0);
  }

  method DivMod(a: seq<limb>, b: seq<limb>) returns (q: seq<limb>, r: seq<limb>)
    requires Trimmed(a) && Trimmed(b) && b != []
    ensures Trimmed(q) && Trimmed(r) && Val(a) == Val(q) * Val(b) + Val(r) && Val(r) < Val(b)
  {
    var c := Compare(a, b);
    if c < 0 {
      assert Val([]) == 0;
      return [], a;
    }
    LongerOrEqual(a, b);
    if |b| == 1 {
      var rem;
      ValOne(b[0]);
      assert b == [b[0]];
      q, rem := DivideSmall(a, b[0]);
      r := FromLong(rem);
      return;
    }
    q, r := DivModLong(a, b);
  }

  lemma {:induction false} LongerOrEqual(a: seq<limb>, b: seq<limb>)
    requires Trimmed(a) && Trimmed(b) && Val(a) >= Val(b)
    ensures |a| >= |b|
  {
    if |a| < |b| {
      ValBound(a);
      TrimmedBound(b);
      PowMonotonic(|a|, |b| - 1);
    }
  }

  method DivModLong(a: seq<limb>, b: seq<limb>) returns (q: seq<limb>, r: seq<limb>)
    requires Trimmed(a) && Trimmed(b) && 2 <= |b| <= |a|
    ensures Trimmed(q) && Trimmed(r) && Val(a) == Val(q) * Val(b) + Val(r) && Val(r) < Val(b)
  {
    hide Val, Pow, Divided, Trimmed;
    var u, v, f := Normalize(a, b);
    var m := u.Length - |b|;
    assert u[..][m..] == u[m..];
    FirstWindow(a, b, u[..], v, f, m);
    ghost var u0 := u[..];
    var qq := LongDivide(u, v, m);
    AllDivided(u[..], u0, qq[..], v);
    q := Trim(qq[..]);
    var low := Trim(u[..|b|]);
    var rem;
    r, rem := DivideSmall(low, f);
    Unscale(Val(a), Val(b), Val(q), Val(low), f, Val(r), rem);
  }

  lemma {:induction false} AllDivided(u: seq<limb>, u0: seq<limb>, qq: seq<limb>, v: seq<limb>)
    requires Divided(u, u0, qq, 0, v)
    ensures |u| >= |v| && Val(u0) == Val(qq) * Val(v) + Val(u[..|v|]) && Val(u[..|v|]) < Val(v)
  {
    assert u0[0..] == u0 && qq[0..] == qq && u[0..0 + |v|] == u[..|v|];
  }
}
