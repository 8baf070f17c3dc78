/** bc's magnitudes: digits in base 10^9, least significant first. */
module Limbs {
  import opened Arith

  const BASE := 1_000_000_000

  type limb = x: int | 0 <= x < BASE
  type u64 = x: int | 0 <= x < 0x1_0000_0000_0000_0000
  type i64 = x: int | -0x8000_0000_0000_0000 <= x < 0x8000_0000_0000_0000

  function Pow(n: nat): (p: nat)
    ensures p >= 1
  {
    if n == 0 then 1 else BASE * Pow(n - 1)
  }

  /** The number that limbs stand for. */
  function Val(s: seq<limb>): nat
  {
    if s == [] then 0 else s[0] + BASE * Val(s[1..])
  }

  lemma {:induction false} PowAdd(m: nat, n: nat)
    ensures Pow(m + n) == Pow(m) * Pow(n)
  {
    if m > 0 {
      PowAdd(m - 1, n);
      assert Pow(m) * Pow(n) == BASE * (Pow(m - 1) * Pow(n));
    }
  }

  lemma {:induction false} PowNext(n: nat)
    ensures Pow(n + 1) == BASE * Pow(n)
  {
  }

  lemma {:induction false} PowMonotonic(m: nat, n: nat)
    requires m <= n
    ensures Pow(m) <= Pow(n)
  {
    if m < n {
      PowMonotonic(m, n - 1);
    }
  }

  lemma {:induction false} ConcatStep(x: int, y: int, p: int, z: int, q: int)
    requires q == BASE * p
    ensures x + BASE * (y + p * z) == (x + BASE * y) + q * z
  {
    assert BASE * (p * z) == (BASE * p) * z;
  }

  lemma {:induction false} ValConcat(a: seq<limb>, b: seq<limb>)
    ensures Val(a + b) == Val(a) + Pow(|a|) * Val(b)
  {
    if a == [] {
      assert a + b == b;
    } else {
      ValConcat(a[1..], b);
      assert (a + b)[1..] == a[1..] + b;
      ConcatStep(a[0], Val(a[1..]), Pow(|a| - 1), Val(b), Pow(|a|));
    }
  }

  lemma {:induction false} ValSplit(s: seq<limb>, i: nat)
    requires i <= |s|
    ensures Val(s) == Val(s[..i]) + Pow(i) * Val(s[i..])
  {
    ValConcat(s[..i], s[i..]);
    assert s == s[..i] + s[i..];
  }

  lemma {:induction false} ValOne(x: limb)
    ensures Val([x]) == x
  {
    assert [x][1..] == [];
    assert Val([]) == 0;
  }

  /** One limb more at the high end. */
  lemma {:induction false} ValSnoc(s: seq<limb>, i: nat)
    requires i < |s|
    ensures Val(s[..i + 1]) == Val(s[..i]) + Pow(i) * s[i]
  {
    ValConcat(s[..i], [s[i]]);
    ValOne(s[i]);
    assert s[..i + 1] == s[..i] + [s[i]];
  }

  /** One limb more at the low end. */
  lemma {:induction false} ValCons(s: seq<limb>, i: nat)
    requires i < |s|
    ensures Val(s[i..]) == s[i] + BASE * Val(s[i + 1..])
  {
    assert s[i..][1..] == s[i + 1..];
  }

  lemma {:induction false} ValBound(s: seq<limb>)
    ensures Val(s) < Pow(|s|)
  {
    if s != [] {
      ValBound(s[1..]);
    }
  }

  lemma {:induction false} ValZeros(s: seq<limb>)
    requires forall i :: 0 <= i < |s| ==> s[i] == 0
    ensures Val(s) == 0
  {
    if s != [] {
      ValZeros(s[1..]);
    }
  }

  /** Limbs are determined by their number and how many they are. */
  lemma {:induction false} ValInjective(a: seq<limb>, b: seq<limb>)
    requires |a| == |b| && Val(a) == Val(b)
    ensures a == b
  {
    if a != [] {
      SameLimb(a[0], Val(a[1..]), b[0], Val(b[1..]));
      hide Val;
      ValInjective(a[1..], b[1..]);
      assert a == [a[0]] + a[1..] && b == [b[0]] + b[1..];
    }
  }

  lemma {:induction false} SameLimb(x: nat, v: nat, y: nat, w: nat)
    requires x < BASE && y < BASE && x + BASE * v == y + BASE * w
    ensures x == y && v == w
  {
  }

  // ---- magnitudes without leading zeros ----

  ghost predicate Trimmed(s: seq<limb>)
  {
    s != [] ==> s[|s| - 1] > 0
  }

  lemma {:induction false} TrimmedBound(s: seq<limb>)
    requires Trimmed(s) && s != []
    ensures s[|s| - 1] * Pow(|s| - 1) <= Val(s) && Pow(|s| - 1) <= Val(s)
  {
    var n := |s| - 1;
    ValSnoc(s, n);
    assert s[..n + 1] == s;
    MulMono(1, s[n], Pow(n));
  }

  /** Trimmed magnitudes are the same when their numbers are. */
  lemma {:induction false} TrimmedUnique(a: seq<limb>, b: seq<limb>)
    requires Trimmed(a) && Trimmed(b) && Val(a) == Val(b)
    ensures a == b
  {
    if |a| < |b| {
      ValBound(a);
      TrimmedBound(b);
      PowMonotonic(|a|, |b| - 1);
    } else if |b| < |a| {
      ValBound(b);
      TrimmedBound(a);
      PowMonotonic(|b|, |a| - 1);
    } else {
      ValInjective(a, b);
    }
  }

  /** trim: no leading zero limbs. */
  method Trim(s: seq<limb>) returns (r: seq<limb>)
    ensures Trimmed(r) && Val(r) == Val(s) && |r| <= |s|
  {
    var n := |s|;
    assert s[..n] == s;
    while n > 0 && s[n - 1] == 0
      invariant n <= |s| && Val(s[..n]) == Val(s)
    {
      ValSnoc(s, n - 1);
      n := n - 1;
    }
    r := s[..n];
  }
}
