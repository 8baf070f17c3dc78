/** mag_mul: the school method, which skips zero limbs and carries beyond each row. */
module Multiply {
  import opened Arith
  import opened Limbs
  import opened Magnitude

  lemma {:induction false} SetStep(p: int, v: int, v': int, x: int, d: int, c: int, c': int, y: int)
    requires v' == v + (d - x) * p && y + x + c == c' * BASE + d
    ensures v' + c' * (BASE * p) == v + c * p + y * p
  {
    assert (y + x + c) * p == y * p + x * p + c * p;
    assert (c' * BASE + d) * p == c' * (BASE * p) + d * p;
    assert (d - x) * p == d * p - x * p;
  }

  /** Changing a limb. */
  lemma {:induction false} ValSet(r: seq<limb>, i: nat, d: limb)
    requires i < |r|
    ensures Val(r[i := d]) == Val(r) + (d - r[i]) * Pow(i)
  {
    var s := r[i := d];
    ValSplit(r, i);
    ValSplit(s, i);
    ValCons(r, i);
    ValCons(s, i);
    assert s[..i] == r[..i] && s[i + 1..] == r[i + 1..];
    Differ(Pow(i), r[i], d, BASE * Val(r[i + 1..]));
  }

  lemma {:induction false} Differ(p: int, x: int, d: int, h: int)
    ensures p * (d + h) == p * (x + h) + (d - x) * p
  {
    assert p * (d + h) - p * (x + h) == p * (d - x);
  }

  /** A row is being added: the carry stands above the limbs that are done. */
  ghost predicate Carrying(r: seq<limb>, carry: int, k: nat, total: int)
  {
    0 <= carry < BASE && Val(r) + carry * Pow(k) == total
  }

  method RowLimb(r: array<limb>, ai: limb, b: seq<limb>, i: nat, j: nat, carry: u64, ghost row: nat) returns (carry': u64)
    requires j < |b| && i + j < r.Length && Carrying(r[..], carry, i + j, row + ai * Val(b[..j]) * Pow(i))
    modifies r
    ensures Carrying(r[..], carry', i + j + 1, row + ai * Val(b[..j + 1]) * Pow(i))
  {
    hide Val, Pow;
    ProductFits(ai, b[j], r[i + j] + carry);
    var t: u64 := ai * b[j] + r[i + j] + carry;
    carry' := t / BASE;
    ValSnoc(b, j);
    PowAdd(i, j);
    PowNext(i + j);
    ValSet(r[..], i + j, t % BASE);
    SetStep(Pow(i + j), Val(r[..]), Val(r[..][i + j := t % BASE]), r[i + j], t % BASE, carry, carry', ai * b[j]);
    RowNext(ai, Val(b[..j]), b[j], Pow(j), Pow(i));
    r[i + j] := t % BASE;
  }

  lemma {:induction false} RowNext(a: int, v: int, x: int, q: int, p: int)
    ensures a * (v + q * x) * p == a * v * p + (a * x) * (p * q)
  {
    assert a * (v + q * x) == a * v + a * (q * x);
    assert a * (q * x) == (a * x) * q;
    assert (a * v + (a * x) * q) * p == a * v * p + ((a * x) * q) * p;
    assert ((a * x) * q) * p == (a * x) * (p * q);
  }

  /** The carry of a row goes on as far as it has to. */
  method CarryOn(r: array<limb>, carry: u64, k: nat, ghost total: nat)
    requires Carrying(r[..], carry, k, total) && total < Pow(r.Length)
    modifies r
    ensures Val(r[..]) == total
  {
    hide Val, Pow;
    var c: u64, i := carry, k;
    while c != 0
      invariant Carrying(r[..], c, i, total)
      decreases r.Length - i
    {
      CarryInside(r[..], c, i, total);
      var t: u64 := r[i] + c;
      PowNext(i);
      ValSet(r[..], i, t % BASE);
      SetStep(Pow(i), Val(r[..]), Val(r[..][i := t % BASE]), r[i], t % BASE, c, t / BASE, 0);
      r[i] := t % BASE;
      c := t / BASE;
      i := i + 1;
    }
  }

  lemma {:induction false} CarryInside(r: seq<limb>, carry: int, k: nat, total: nat)
    requires Carrying(r, carry, k, total) && carry > 0 && total < Pow(|r|)
    ensures k < |r|
  {
    MulMono(1, carry, Pow(k));
    if k >= |r| {
      PowMonotonic(|r|, k);
    }
  }

  /** The first limb that is not zero. */
  method LowZeros(a: seq<limb>) returns (t: nat)
    ensures t <= |a| && Val(a[..t]) == 0
  {
    t := 0;
    while t < |a| && a[t] == 0
      invariant t <= |a| && forall i :: 0 <= i < t ==> a[i] == 0
    {
      t := t + 1;
    }
    ValZeros(a[..t]);
  }

  /** A limb times the other factor, added at its place. */
  method AddRow(r: array<limb>, ai: limb, b: seq<limb>, tb: nat, i: nat, ghost row: nat)
    requires i + |b| <= r.Length && tb <= |b| && Val(b[..tb]) == 0 && Val(r[..]) == row && row + ai * Val(b) * Pow(i) < Pow(r.Length)
    modifies r
    ensures Val(r[..]) == row + ai * Val(b) * Pow(i)
  {
    hide Val, Pow;
    var carry: u64, j := 0, tb;
    while j < |b|
      invariant tb <= j <= |b| && Carrying(r[..], carry, i + j, row + ai * Val(b[..j]) * Pow(i))
    {
      carry := RowLimb(r, ai, b, i, j, carry, row);
      j := j + 1;
    }
    assert b[..j] == b;
    CarryOn(r, carry, i + |b|, row + ai * Val(b) * Pow(i));
  }

  lemma {:induction false} PartialFits(a: seq<limb>, b: seq<limb>, i: nat)
    requires i < |a|
    ensures Val(a[..i]) * Val(b) + a[i] * Val(b) * Pow(i) == Val(a[..i + 1]) * Val(b) < Pow(|a| + |b|)
  {
    hide Val, Pow;
    ValSnoc(a, i);
    ValBound(a[..i + 1]);
    ValBound(b);
    PowMonotonic(i + 1, |a|);
    PowAdd(|a|, |b|);
    RowSum(Val(a[..i]), a[i], Pow(i), Val(b));
    ProductLess(Val(a[..i + 1]), Pow(|a|), Val(b), Pow(|b|));
  }

  lemma {:induction false} RowSum(v: int, x: int, p: int, b: int)
    ensures v * b + x * b * p == (v + p * x) * b
  {
    assert (p * x) * b == x * b * p;
  }

  lemma {:induction false} ProductLess(x: nat, p: nat, y: nat, q: nat)
    requires x < p && y < q
    ensures x * y < p * q
  {
    MulMono(x, p, y);
    MulNext(y, q, p);
  }

  method Multiply(a: seq<limb>, b: seq<limb>) returns (s: seq<limb>)
    ensures Trimmed(s) && Val(s) == Val(a) * Val(b)
  {
    if |a| == 0 || |b| == 0 {
      ValNothing();
      return [];
    }
    hide Val, Pow;
    var ta := LowZeros(a);
    var tb := LowZeros(b);
    var r := new limb[|a| + |b|](_ => 0);
    ValZeros(r[..]);
    var i := ta;
    while i < |a|
      invariant ta <= i <= |a| && Val(r[..]) == Val(a[..i]) * Val(b)
    {
      PartialFits(a, b, i);
      if a[i] != 0 {
        AddRow(r, a[i], b, tb, i, Val(a[..i]) * Val(b));
      }
      i := i + 1;
    }
    assert a[..i] == a;
    s := Trim(r[..]);
  }

  lemma {:induction false} ValNothing()
    ensures Val([]) == 0
  {
  }
}
