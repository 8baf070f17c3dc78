/** Bytes, bits and powers of two: the ground on which both compressed formats stand.
    Bit strings are written least significant bit first, as in both formats. */
module Bits {

  type byte = b: int | 0 <= b < 256

  /** Equality, without looking inside what is equal. */
  ghost predicate Same<T>(a: T, b: T)
  {
    a == b
  }

  function Reversed<T>(s: seq<T>): (r: seq<T>)
    ensures |r| == |s| && forall i :: 0 <= i < |s| ==> r[i] == s[|s| - 1 - i]
  {
    seq(|s|, i requires 0 <= i < |s| => s[|s| - 1 - i])
  }

  lemma {:induction false} Assoc(a: seq<bool>, b: seq<bool>, c: seq<bool>)
    ensures (a + b) + c == a + (b + c)
  {
  }

  /** The first part of a string, and what follows it. */
  lemma {:induction false} Split2(s: seq<bool>, a: seq<bool>, b: seq<bool>, rest: seq<bool>) returns (s1: seq<bool>)
    requires Same(s, (a + b) + rest)
    ensures Same(s, a + s1) && Same(s1, b + rest)
  {
    s1 := b + rest;
    Assoc(a, b, rest);
  }

  lemma {:induction false} Split3(s: seq<bool>, a: seq<bool>, b: seq<bool>, c: seq<bool>, rest: seq<bool>) returns (s1: seq<bool>, s2: seq<bool>)
    requires Same(s, (a + (b + c)) + rest)
    ensures Same(s, a + s1) && Same(s1, b + s2) && Same(s2, c + rest)
  {
    s1 := Split2(s, a, b + c, rest);
    s2 := Split2(s1, b, c, rest);
  }

  lemma {:induction false} Split4(s: seq<bool>, a: seq<bool>, b: seq<bool>, c: seq<bool>, d: seq<bool>, rest: seq<bool>)
    returns (s1: seq<bool>, s2: seq<bool>, s3: seq<bool>)
    requires Same(s, (a + (b + (c + d))) + rest)
    ensures Same(s, a + s1) && Same(s1, b + s2) && Same(s2, c + s3) && Same(s3, d + rest)
  {
    s1 := Split2(s, a, b + (c + d), rest);
    s2, s3 := Split3(s1, b, c, d, rest);
  }

  lemma {:induction false} AppendNone(a: seq<bool>, b: seq<bool>)
    requires |b| == 0
    ensures Same(a, a + b)
  {
    assert a == a + b;
  }

  lemma {:induction false} AppendToNone(a: seq<bool>, b: seq<bool>)
    requires |a| == 0
    ensures Same(a + b, b)
  {
    assert a + b == b;
  }

  function Repeat<T>(x: T, n: nat): (s: seq<T>)
    ensures |s| == n && forall i :: 0 <= i < n ==> s[i] == x
  {
    seq(n, _ => x)
  }

  function Pow2(n: nat): (r: nat)
    ensures 1 <= r
  {
    if n == 0 then 1 else 2 * Pow2(n - 1)
  }

  lemma {:induction false} Pow2Add(m: nat, n: nat)
    ensures Pow2(m + n) == Pow2(m) * Pow2(n)
  {
    if m > 0 {
      Pow2Add(m - 1, n);
    }
  }

  lemma {:induction false} Pow2Positive(n: nat)
    ensures 0 < Pow2(n)
  {
  }

  lemma {:induction false} Pow2Times(n: nat, k: int)
    requires n > 0
    ensures Pow2(n) * k == 2 * (Pow2(n - 1) * k)
  {
  }

  lemma {:induction false} Halves(x: nat, k: nat)
    ensures (x + 2 * k) % 2 == x % 2 && (x + 2 * k) / 2 == x / 2 + k
  {
  }

  lemma {:induction false} Pow2Monotonic(m: nat, n: nat)
    requires m <= n
    ensures Pow2(m) <= Pow2(n)
  {
    if m < n {
      Pow2Monotonic(m, n - 1);
    }
  }

  lemma {:induction false} Pow2Values()
    ensures Pow2(1) == 2 && Pow2(2) == 4 && Pow2(3) == 8 && Pow2(4) == 16 && Pow2(5) == 32
    ensures Pow2(6) == 64 && Pow2(7) == 128 && Pow2(8) == 256 && Pow2(9) == 512 && Pow2(10) == 1024
    ensures Pow2(11) == 2048 && Pow2(12) == 4096 && Pow2(13) == 8192 && Pow2(14) == 16384
    ensures Pow2(15) == 32768 && Pow2(16) == 65536
  {
    assert Pow2(4) == 16;
    assert Pow2(8) == 256;
    assert Pow2(12) == 4096;
  }

  /** The n low bits of v. */
  function ToBits(v: nat, n: nat): (s: seq<bool>)
    ensures |s| == n
  {
    if n == 0 then [] else [v % 2 == 1] + ToBits(v / 2, n - 1)
  }

  function FromBits(s: seq<bool>): nat
  {
    if s == [] then 0 else (if s[0] then 1 else 0) + 2 * FromBits(s[1..])
  }

  lemma {:induction false} FromToBits(v: nat, n: nat)
    requires v < Pow2(n)
    ensures FromBits(ToBits(v, n)) == v
  {
    if n > 0 {
      FromToBits(v / 2, n - 1);
    }
  }

  lemma {:induction false} ToFromBits(s: seq<bool>)
    ensures FromBits(s) < Pow2(|s|)
    ensures ToBits(FromBits(s), |s|) == s
  {
    if s != [] {
      ToFromBits(s[1..]);
      var v := FromBits(s);
      assert v / 2 == FromBits(s[1..]);
      assert s == [s[0]] + s[1..];
    }
  }

  lemma {:induction false} FromBitsConcat(a: seq<bool>, b: seq<bool>)
    ensures FromBits(a + b) == FromBits(a) + Pow2(|a|) * FromBits(b)
  {
    if a == [] {
      assert a + b == b;
    } else {
      FromBitsConcat(a[1..], b);
      assert (a + b)[1..] == a[1..] + b;
      Pow2Times(|a|, FromBits(b));
    }
  }

  lemma {:induction false} ToBitsConcat(x: nat, m: nat, y: nat, n: nat)
    requires x < Pow2(m)
    ensures ToBits(x + Pow2(m) * y, m + n) == ToBits(x, m) + ToBits(y, n)
  {
    if m > 0 {
      Pow2Times(m, y);
      Halves(x, Pow2(m - 1) * y);
      ToBitsConcat(x / 2, m - 1, y, n);
    }
  }

  /** The bits of a byte string. */
  function Unpack(bs: seq<byte>): (s: seq<bool>)
    ensures |s| == 8 * |bs|
  {
    if bs == [] then [] else ToBits(bs[0], 8) + Unpack(bs[1..])
  }

  lemma {:induction false} UnpackHead(bs: seq<byte>, b: byte, rest: seq<byte>)
    requires Same(bs, [b] + rest)
    ensures Same(Unpack(bs), ToBits(b, 8) + Unpack(rest))
  {
    assert bs[1..] == rest;
  }

  lemma {:induction false} UnpackConcat(a: seq<byte>, b: seq<byte>)
    ensures Unpack(a + b) == Unpack(a) + Unpack(b)
  {
    if a == [] {
      assert a + b == b;
      AppendToNone(Unpack(a), Unpack(b));
    } else {
      UnpackConcat(a[1..], b);
      assert a + b == [a[0]] + (a[1..] + b);
      UnpackHead(a + b, a[0], a[1..] + b);
      Assoc(ToBits(a[0], 8), Unpack(a[1..]), Unpack(b));
    }
  }

  lemma {:induction false} UnpackOne(b: byte)
    ensures Unpack([b]) == ToBits(b, 8)
  {
    assert [b][1..] == [];
    assert Unpack([]) == [];
  }

  /** Different byte strings have different bits. */
  lemma {:induction false} UnpackInjective(a: seq<byte>, b: seq<byte>)
    requires Unpack(a) == Unpack(b)
    ensures a == b
  {
    assert 8 * |a| == 8 * |b|;
    if a != [] {
      var p, q := ToBits(a[0], 8), ToBits(b[0], 8);
      assert Unpack(a)[..8] == p && Unpack(b)[..8] == q;
      assert Unpack(a)[8..] == Unpack(a[1..]) && Unpack(b)[8..] == Unpack(b[1..]);
      UnpackInjective(a[1..], b[1..]);
      Pow2Values();
      FromToBits(a[0], 8);
      FromToBits(b[0], 8);
    }
  }

  /** The number of which the bytes are the digits, low byte first. */
  function LowFirst(g: seq<byte>): nat
  {
    if g == [] then 0 else g[0] + 256 * LowFirst(g[1..])
  }
}
