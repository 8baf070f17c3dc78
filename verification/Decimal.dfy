/** Powers of ten on bc's magnitudes. */
module Decimal {
  import opened Arith
  import opened Limbs
  import opened Magnitude

  function Ten(n: nat): (p: nat)
    ensures p >= 1
  {
    if n == 0 then 1 else 10 * Ten(n - 1)
  }

  lemma {:induction false} TenNext(n: nat)
    requires n > 0
    ensures Ten(n) == 10 * Ten(n - 1)
  {
  }

  lemma {:induction false} TenAdd(m: nat, n: nat)
    ensures Ten(m + n) == Ten(m) * Ten(n)
  {
    hide Ten;
    if m > 0 {
      TenAdd(m - 1, n);
      TenNext(m);
      TenNext(m + n);
      assert 10 * Ten(m - 1) * Ten(n) == 10 * (Ten(m - 1) * Ten(n));
    } else {
      TenNone(m);
    }
  }

  lemma {:induction false} TenMonotonic(m: nat, n: nat)
    requires m <= n
    ensures Ten(m) <= Ten(n)
  {
    if m < n {
      TenMonotonic(m, n - 1);
    }
  }

  lemma {:induction false} TenNine()
    ensures Ten(9) == BASE
  {
    assert Ten(3) == 10 * Ten(2) && Ten(2) == 10 * Ten(1);
    assert Ten(6) == 10 * Ten(5) && Ten(5) == 10 * Ten(4) && Ten(4) == 10 * Ten(3);
    assert Ten(9) == 10 * Ten(8) && Ten(8) == 10 * Ten(7) && Ten(7) == 10 * Ten(6);
  }

  /** A limb is nine decimal digits. */
  lemma {:induction false} PowIsTen(n: nat)
    ensures Pow(n) == Ten(9 * n)
  {
    if n > 0 {
      PowIsTen(n - 1);
      TenNine();
      TenAdd(9, 9 * (n - 1));
    }
  }

  lemma {:induction false} TenFits(k: nat)
    requires k < 9
    ensures Ten(k) < BASE
  {
    TenNine();
    assert Ten(9) == 10 * Ten(8);
    TenMonotonic(k, 8);
  }

  /** pow10_small */
  function SmallTen(k: nat): limb
    requires k < 9
  {
    TenFits(k);
    Ten(k)
  }

  lemma {:induction false} WholeLimbs(k: nat)
    ensures Ten(k) == Ten(k % 9) * Pow(k / 9)
  {
    PowIsTen(k / 9);
    TenAdd(k % 9, 9 * (k / 9));
  }

  /** mag_shift_up: limbs of zeros below, the rest of the power as a factor. */
  method ShiftUp(a: seq<limb>, k: int) returns (r: seq<limb>)
    requires Trimmed(a) && k >= 0
    ensures Trimmed(r) && Val(r) == Val(a) * Ten(k)
  {
    if |a| == 0 || k <= 0 {
      Nothing(a, k);
      return a;
    }
    hide Val, Pow, Ten, SmallTen;
    var limbs := k / 9;
    SmallTenIs(k % 9);
    var t := MultiplySmall(a, SmallTen(k % 9), 0);
    var zeros := seq(limbs, _ => 0 as limb);
    ValZeros(zeros);
    ValConcat(zeros, t);
    WholeLimbs(k);
    Regroup(Pow(limbs), Val(a), Ten(k % 9));
    r := Trim(zeros + t);
  }

  lemma {:induction false} SmallTenIs(k: nat)
    requires k < 9
    ensures SmallTen(k) == Ten(k) < BASE
  {
  }

  lemma {:induction false} Nothing(a: seq<limb>, k: nat)
    requires |a| == 0 || k == 0
    ensures Val(a) * Ten(k) == Val(a)
  {
  }

  lemma {:induction false} Regroup(p: nat, v: nat, t: nat)
    ensures p * (v * t) == v * (t * p)
  {
  }

  /** mag_shift_down: limbs are dropped, then the rest of the power is divided out. */
  method ShiftDown(a: seq<limb>, k: int) returns (r: seq<limb>)
    requires Trimmed(a) && k >= 0
    ensures Trimmed(r) && Val(r) * Ten(k) <= Val(a) < (Val(r) + 1) * Ten(k)
  {
    hide Val, Pow, Ten, SmallTen, Trimmed;
    if k <= 0 {
      TenNone(k);
      return a;
    }
    var limbs := k / 9;
    WholeLimbs(k);
    TenPositive(k % 9);
    if limbs >= |a| {
      NothingLeft(a, k);
      return [];
    }
    var t := a[limbs..];
    ValSplit(a, limbs);
    ValBound(a[..limbs]);
    var rem := 0;
    if k % 9 != 0 {
      SmallTenIs(k % 9);
      r, rem := DivideSmall(t, SmallTen(k % 9));
    } else {
      r := t;
      TenNone(k % 9);
    }
    Dropped(Val(a[..limbs]), Pow(limbs), Val(t), Val(r), Ten(k % 9), rem);
    r := Trim(r);
  }

  lemma {:induction false} TenPositive(k: nat)
    ensures Ten(k) >= 1
  {
  }

  lemma {:induction false} TenNone(k: nat)
    requires k == 0
    ensures Ten(k) == 1
  {
  }

  lemma {:induction false} NothingLeft(a: seq<limb>, k: nat)
    requires k / 9 >= |a|
    ensures Trimmed([]) && Val([]) == 0 && Val(a) < Ten(k)
  {
    ValBound(a);
    PowIsTen(|a|);
    TenMonotonic(9 * |a|, k);
  }

  lemma {:induction false} Dropped(low: nat, p: nat, t: nat, r: nat, f: nat, rem: nat)
    requires low < p && t == r * f + rem && rem < f
    ensures r * (f * p) <= low + p * t < (r + 1) * (f * p)
  {
    assert p * t == r * (f * p) + p * rem;
    assert (r + 1) * (f * p) == r * (f * p) + f * p;
    MulNext(rem, f, p);
  }
}
