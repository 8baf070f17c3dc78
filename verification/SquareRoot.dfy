/** mag_isqrt: the integer square root by Newton's method. */
module SquareRoot {
  import opened Arith
  import opened Limbs
  import opened Magnitude
  import opened Division
  import opened Decimal

  /** r is the square root of a, rounded down. */
  ghost predicate IsRoot(a: nat, r: nat)
  {
    r * r <= a < (r + 1) * (r + 1)
  }

  lemma {:induction false} RootIsUnique(a: nat, r: nat, s: nat)
    requires IsRoot(a, r) && IsRoot(a, s)
    ensures r == s
  {
    if r < s {
      SquareMonotonic(r + 1, s);
    } else if s < r {
      SquareMonotonic(s + 1, r);
    }
  }

  lemma {:induction false} SquareMonotonic(x: nat, y: nat)
    requires x <= y
    ensures x * x <= y * y
  {
    MulMono(x, y, x);
    MulMono(x, y, y);
  }

  // ---- decimal digits ----

  /** How many decimal digits a number has. */
  ghost predicate HasDigits(v: nat, d: nat)
  {
    if v == 0 then d == 0 else d > 0 && Ten(d - 1) <= v < Ten(d)
  }

  /** mag_digits: counted in the first limb, nine for each of the others. */
  method Digits(a: seq<limb>) returns (digits: nat)
    requires Trimmed(a)
    ensures HasDigits(Val(a), digits)
  {
    if |a| == 0 {
      assert Val([]) == 0;
      return 0;
    }
    var n := |a| - 1;
    var d := LimbDigits(a[n]);
    digits := n * 9 + d;
    ValSnoc(a, n);
    assert a[..n + 1] == a;
    ValBound(a[..n]);
    PowIsTen(n);
    DigitsAbove(Val(a[..n]), a[n], n, d);
  }

  method LimbDigits(x: limb) returns (d: nat)
    ensures HasDigits(x, d)
  {
    var t: int := x;
    d := 0;
    while t > 0
      invariant t >= 0 && Counting(x, t, d)
    {
      CountOne(x, t, d);
      d, t := d + 1, t / 10;
    }
    Counted(x, d);
  }

  /** d digits are counted, t is what is left above them. */
  ghost predicate Counting(x: nat, t: nat, d: nat)
  {
    t * Ten(d) <= x < (t + 1) * Ten(d) && (d > 0 ==> Ten(d - 1) <= x)
  }

  lemma {:induction false} CountOne(x: nat, t: nat, d: nat)
    requires Counting(x, t, d) && t > 0
    ensures Counting(x, t / 10, d + 1)
  {
    CountStep(x, t, Ten(d), t / 10);
  }

  lemma {:induction false} CountStep(x: nat, t: nat, p: nat, h: nat)
    requires t * p <= x < (t + 1) * p && 10 * h <= t < 10 * (h + 1) && t > 0
    ensures p <= x && h * (10 * p) <= x < (h + 1) * (10 * p)
  {
    MulMono(1, t, p);
    MulMono(10 * h, t, p);
    MulMono(t + 1, 10 * (h + 1), p);
    TenTimes(h, p);
    TenTimes(h + 1, p);
  }

  lemma {:induction false} TenTimes(h: nat, p: nat)
    ensures 10 * h * p == h * (10 * p)
  {
  }

  lemma {:induction false} Counted(x: nat, d: nat)
    requires Counting(x, 0, d)
    ensures HasDigits(x, d)
  {
    assert 1 * Ten(d) == Ten(d);
  }

  lemma {:induction false} DigitsAbove(low: nat, x: nat, n: nat, d: nat)
    requires low < Ten(9 * n) && x > 0 && HasDigits(x, d)
    ensures HasDigits(low + Ten(9 * n) * x, n * 9 + d)
  {
    hide Ten;
    var p := Ten(9 * n);
    TenAdd(9 * n, d);
    TenAdd(9 * n, d - 1);
    MulMono(Ten(d - 1), x, p);
    MulNext(x, Ten(d), p);
    MulMono(1, x, p);
  }

  // ---- Newton's steps ----

  /** A guess that is not below the root. */
  ghost predicate NotBelow(a: nat, x: nat)
  {
    a < (x + 1) * (x + 1)
  }

  /** The mean of a guess and the quotient by it is not below the root either. */
  lemma {:induction false} MeanNotBelow(a: nat, x: nat, q: nat, y: nat)
    requires x > 0 && a < x * (q + 1) && x + q <= 2 * y + 1
    ensures NotBelow(a, y)
  {
    SquareMean(x, q + 1);
    SquareMonotonic(x + (q + 1), 2 * (y + 1));
    assert (2 * (y + 1)) * (2 * (y + 1)) == 4 * ((y + 1) * (y + 1));
  }

  lemma {:induction false} SquareMean(x: int, s: int)
    ensures 4 * (x * s) <= (x + s) * (x + s)
  {
    assert (x + s) * (x + s) == x * (x + s) + s * (x + s);
    assert (x - s) * (x - s) == x * (x - s) - s * (x - s);
    assert (x - s) * (x - s) >= 0;
  }

  /** When the guess does not become less, it is the root. */
  lemma {:induction false} RootReached(a: nat, x: nat, q: nat, r: nat, y: nat)
    requires NotBelow(a, x) && a == q * x + r && 2 * y <= x + q && y >= x
    ensures IsRoot(a, x)
  {
    MulMono(x, q, x);
  }

  lemma {:induction false} GuessAbove(a: nat, digits: nat, x: nat)
    requires HasDigits(a, digits) && x == Ten((digits + 1) / 2)
    ensures NotBelow(a, x)
  {
    var h := (digits + 1) / 2;
    TenAdd(h, h);
    TenMonotonic(digits, h + h);
    SquareMonotonic(x, x + 1);
  }

  /** A guess from above stays above zero. */
  lemma {:induction false} GuessPositive(a: nat, y: nat)
    requires NotBelow(a, y) && a > 0
    ensures y > 0
  {
  }

  method NewtonStep(a: seq<limb>, x: seq<limb>) returns (y: seq<limb>, ghost q: nat, ghost rest: nat)
    requires Trimmed(a) && Trimmed(x) && Val(x) > 0
    ensures Trimmed(y) && Val(a) == q * Val(x) + rest && rest < Val(x)
    ensures 2 * Val(y) <= Val(x) + q <= 2 * Val(y) + 1
  {
    assert Val([]) == 0;
    hide Val, Pow, Trimmed;
    var quotient, r := DivMod(a, x);
    var s := Add(x, quotient);
    var rem;
    y, rem := DivideSmall(s, 2);
    q, rest := Val(quotient), Val(r);
  }

  lemma {:induction false} MeanFrom(a: nat, x: nat, q: nat, rest: nat, y: nat)
    requires x > 0 && a == q * x + rest && rest < x && x + q <= 2 * y + 1
    ensures NotBelow(a, y)
  {
    assert x * (q + 1) == q * x + x;
    MeanNotBelow(a, x, q, y);
  }

  method SquareRoot(a: seq<limb>) returns (x: seq<limb>)
    requires Trimmed(a)
    ensures Trimmed(x) && IsRoot(Val(a), Val(x))
  {
    if |a| == 0 {
      assert Val([]) == 0;
      return [];
    }
    TrimmedBound(a);
    hide Val, Pow, Ten, Trimmed, IsRoot, NotBelow;
    var digits := Digits(a);
    var one := FromLong(1);
    x := ShiftUp(one, (digits + 1) / 2);
    GuessAbove(Val(a), digits, Val(x));
    while true
      invariant Trimmed(x) && NotBelow(Val(a), Val(x))
      decreases Val(x)
    {
      GuessPositive(Val(a), Val(x));
      var y, q, rest := NewtonStep(a, x);
      var c := Compare(y, x);
      if c >= 0 {
        RootReached(Val(a), Val(x), q, rest, Val(y));
        break;
      }
      MeanFrom(Val(a), Val(x), q, rest, Val(y));
      x := y;
    }
  }
}
