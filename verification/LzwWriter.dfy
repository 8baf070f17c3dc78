/** lzw.c's output: codes into groups of eight, padded when the width of the codes changes. */
module LzwWriter {
  import opened Arith
  import opened Bits
  import opened LzwFormat

  // ---- bytes as a number ----

  lemma {:induction false} UnpackIsVal(g: seq<byte>)
    ensures LowFirst(g) < Pow2(8 * |g|) && Same(Unpack(g), ToBits(LowFirst(g), 8 * |g|))
  {
    Pow2Values();
    if g != [] {
      UnpackIsVal(g[1..]);
      Pow2Add(8, 8 * |g[1..]|);
      ToBitsConcat(g[0], 8, LowFirst(g[1..]), 8 * |g[1..]|);
    }
  }

  lemma {:induction false} ValConcat(a: seq<byte>, b: seq<byte>)
    ensures LowFirst(a + b) == LowFirst(a) + Pow2(8 * |a|) * LowFirst(b)
  {
    if a == [] {
      assert a + b == b;
    } else {
      ValConcat(a[1..], b);
      assert (a + b)[1..] == a[1..] + b;
      Pow2Add(8, 8 * |a[1..]|);
      Pow2Values();
      ValStep(a[0], LowFirst(a[1..]), Pow2(8 * |a[1..]|), LowFirst(b), Pow2(8 * |a|));
    }
  }

  lemma {:induction false} ValStep(x: nat, y: nat, p: nat, z: nat, q: nat)
    requires q == 256 * p
    ensures x + 256 * (y + p * z) == (x + 256 * y) + q * z
  {
    assert 256 * (p * z) == (256 * p) * z;
  }

  /** Adding to a byte adds so many times its place value. */
  lemma {:induction false} ValUpdate(g: seq<byte>, p: nat, x: nat)
    requires p < |g| && g[p] + x < 256
    ensures LowFirst(g[p := g[p] + x]) == LowFirst(g) + x * Pow2(8 * p)
  {
    var h := g[p := g[p] + x];
    var a, b := g[..p], g[p..];
    assert g == a + b;
    assert h == a + b[0 := g[p] + x];
    ValConcat(a, b);
    ValConcat(a, b[0 := g[p] + x]);
    assert b[0 := g[p] + x][1..] == b[1..];
    Distribute(Pow2(8 * p), LowFirst(b), x);
  }

  lemma {:induction false} Distribute(p: nat, v: nat, x: nat)
    ensures p * (v + x) == p * v + x * p
  {
  }

  /** A byte's part in the number. */
  lemma {:induction false} ValAtLeast(g: seq<byte>, p: nat)
    requires p < |g|
    ensures g[p] * Pow2(8 * p) <= LowFirst(g)
  {
    var a, b := g[..p], g[p..];
    assert g == a + b;
    ValConcat(a, b);
    MulMono(g[p], LowFirst(b), Pow2(8 * p));
  }

  /** Bytes beyond the first n bits of a number are zero, and the byte in which they end is small. */
  lemma {:induction false} SmallByte(g: seq<byte>, p: nat, r: nat)
    requires p < |g| && LowFirst(g) < Pow2(8 * p + r)
    ensures g[p] < Pow2(r)
  {
    hide LowFirst, Pow2;
    ValAtLeast(g, p);
    Pow2Add(8 * p, r);
    if g[p] >= Pow2(r) {
      MulMono(Pow2(r), g[p], Pow2(8 * p));
    }
  }

  lemma {:induction false} ZeroBytes(g: seq<byte>, n: nat)
    requires LowFirst(g) < Pow2(8 * n)
    ensures forall q :: n <= q < |g| ==> g[q] == 0
  {
    forall q | n <= q < |g| ensures g[q] == 0 {
      Pow2Monotonic(8 * n, 8 * q);
      SmallByte(g, q, 0);
    }
  }

  lemma {:induction false} ValZeros(g: seq<byte>)
    requires forall q :: 0 <= q < |g| ==> g[q] == 0
    ensures LowFirst(g) == 0
  {
    if g != [] {
      ValZeros(g[1..]);
    }
  }

  /** The first n bytes of a number of at most 8n bits are those bits, and zeros. */
  lemma {:induction false} GroupBits(g: seq<byte>, n: nat, off: nat)
    requires n <= |g| && off <= 8 * n && LowFirst(g) < Pow2(off)
    ensures Same(Unpack(g[..n]), ToBits(LowFirst(g), off) + ToBits(0, 8 * n - off))
  {
    hide LowFirst, Pow2, ToBits, Unpack;
    Pow2Monotonic(off, 8 * n);
    ZeroBytes(g, n);
    var a, b := g[..n], g[n..];
    assert g == a + b;
    ValConcat(a, b);
    ValZeros(b);
    UnpackIsVal(a);
    ToBitsConcat(LowFirst(g), off, 0, 8 * n - off);
    assert LowFirst(g) + Pow2(off) * 0 == LowFirst(g);
  }

  // ---- a code into the group ----

  /** What is still to be put in the group, from byte p on: v; there is room for it. */
  ghost predicate Putting(g: seq<byte>, p: nat, v: nat, total: nat)
  {
    && total == LowFirst(g) + v * Pow2(8 * p)
    && (p < |g| ==> g[p] + v % 256 < 256) && forall q :: p < q < |g| ==> g[q] == 0
  }

  lemma {:induction false} MultipleMod(c: nat, a: nat, b: nat)
    requires a * b == 256 && a > 0
    ensures (c * a) % 256 + a <= 256
  {
    var v := c * a;
    var q := v / 256;
    assert v == 256 * q + v % 256;
    assert 256 * q == a * (b * q);
    assert v % 256 == a * (c - b * q);
    if c - b * q >= b {
      MulMono(b, c - b * q, a);
    } else {
      MulMono(c - b * q, b - 1, a);
      assert a * (b - 1) == 256 - a;
    }
  }

  lemma {:induction false} StartPutting(g: seq<byte>, off: nat, p: nat, r: nat, code: nat, v: nat, total: nat)
    requires LowFirst(g) < Pow2(off) && off == 8 * p + r && r < 8 && v == code * Pow2(r) && total == LowFirst(g) + code * Pow2(off)
    ensures Putting(g, p, v, total)
  {
    hide LowFirst, Pow2;
    Pow2Add(8 * p, r);
    SplitPlace(code, Pow2(8 * p), Pow2(r), Pow2(off), v);
    StartRoom(code, r, v);
    if p < |g| {
      SmallByte(g, p, r);
    }
    Pow2Monotonic(off, 8 * (p + 1));
    ZeroBytes(g, p + 1);
  }

  lemma {:induction false} SplitPlace(code: nat, a: nat, b: nat, c: nat, v: nat)
    requires c == a * b && v == code * b
    ensures code * c == v * a
  {
    assert code * (a * b) == (code * b) * a;
  }

  lemma {:induction false} StartRoom(code: nat, r: nat, v: nat)
    requires r < 8 && v == code * Pow2(r)
    ensures v % 256 + Pow2(r) <= 256
  {
    Pow2Add(r, 8 - r);
    Pow2Values();
    MultipleMod(code, Pow2(r), Pow2(8 - r));
  }

  lemma {:induction false} PutDone(g: seq<byte>, p: nat, total: nat)
    requires Putting(g, p, 0, total)
    ensures LowFirst(g) == total
  {
  }

  lemma {:induction false} PutNext(g: seq<byte>, p: nat, v: nat, total: nat)
    requires Putting(g, p, v, total) && p < |g|
    ensures g[p] + v % 256 < 256 && Putting(g[p := g[p] + v % 256], p + 1, v / 256, total)
  {
    ValUpdate(g, p, v % 256);
    Pow2Add(8 * p, 8);
    Pow2Values();
    NextPlace(v, v / 256, v % 256, Pow2(8 * p), Pow2(8 * (p + 1)));
  }

  lemma {:induction false} NextPlace(v: nat, q: nat, r: nat, a: nat, b: nat)
    requires v == 256 * q + r && b == a * 256
    ensures v * a == r * a + q * b
  {
    assert (256 * q) * a == q * (a * 256);
  }

  /** There is room in the group for what is to be put there. */
  lemma {:induction false} PutFits(g: seq<byte>, p: nat, v: nat, total: nat, n: nat)
    requires Putting(g, p, v, total) && v > 0 && total < Pow2(8 * n)
    ensures p < n
  {
    MulMono(1, v, Pow2(8 * p));
    if p >= n {
      Pow2Monotonic(8 * n, 8 * p);
    }
  }

  /** The bits of a code after those before it. */
  lemma {:induction false} CodeBits(x: nat, off: nat, code: nat, n: nat)
    requires x < Pow2(off) && code < Pow2(n)
    ensures x + code * Pow2(off) < Pow2(off + n)
    ensures Same(ToBits(x + code * Pow2(off), off + n), ToBits(x, off) + ToBits(code, n))
  {
    Pow2Add(off, n);
    MulNext(code, Pow2(n), Pow2(off));
    assert code * Pow2(off) == Pow2(off) * code;
    ToBitsConcat(x, off, code, n);
  }

  class LzwWriter {
    const bits: nat
    const group: array<byte>
    var out: seq<byte>
    var nBits: nat
    var maxcode: nat
    var offset: nat
    var bytesOut: nat

    ghost predicate Valid()
      reads this, group
    {
      group.Length == 24 && GoodWidth(Current(), bits) && LowFirst(group[..]) < Pow2(offset)
    }

    ghost function Current(): Width
      reads this
    {
      Width(nBits, maxcode, offset)
    }

    /** All the bits written. */
    ghost function Stream(): (s: seq<bool>)
      reads this, group
    {
      Unpack(out) + ToBits(LowFirst(group[..]), offset)
    }

    /** Three bytes of header have been written elsewhere. */
    constructor (bits: nat)
      requires 9 <= bits <= 16
      ensures Valid() && this.bits == bits && Current() == StartWidth() && Stream() == [] && bytesOut == 3 && fresh(group)
    {
      this.bits := bits;
      group := new byte[24](_ => 0);
      out := [];
      nBits := INIT_BITS;
      maxcode := Pow2(INIT_BITS) - 1;
      offset := 0;
      bytesOut := 3;
      new;
      StartGood(bits);
      ValZeros(group[..]);
    }

    /** put_group: n bytes of the group, and an empty group. */
    method PutGroup(n: nat)
      requires group.Length == 24 && n <= 24 && offset <= 8 * n && LowFirst(group[..]) < Pow2(offset)
      modifies this`out, this`bytesOut, this`offset, group
      ensures offset == 0 && LowFirst(group[..]) == 0 && out == old(out) + old(group[..n]) && bytesOut == old(bytesOut) + n
      ensures Same(Stream(), old(Stream()) + ToBits(0, 8 * n - old(offset)))
    {
      hide Unpack, ToBits, LowFirst, Pow2;
      ghost var g, off, o := group[..], offset, out;
      GroupBits(g, n, off);
      out := out + group[..n];
      bytesOut := bytesOut + n;
      offset := 0;
      forall i | 0 <= i < 24 {
        group[i] := 0;
      }
      ValZeros(group[..]);
      UnpackConcat(o, g[..n]);
      Assoc(Unpack(o), ToBits(LowFirst(g), off), ToBits(0, 8 * n - off));
      AppendNone(Unpack(out), ToBits(0, 0));
    }

    /** The bits of a code after those of the group. */
    method PutCode(code: nat)
      requires group.Length == 24 && LowFirst(group[..]) < Pow2(offset) && code < Pow2(nBits) && offset + nBits <= 8 * 16
      modifies this`offset, group
      ensures LowFirst(group[..]) < Pow2(offset) && offset == old(offset) + nBits
      ensures Same(Stream(), old(Stream()) + ToBits(code, nBits))
    {
      hide Unpack, ToBits, LowFirst, Pow2, Putting;
      ghost var g := group[..];
      MulMono(0, code, Pow2(offset));
      MulMono(0, code, Pow2(offset % 8));
      ghost var total := LowFirst(g) + code * Pow2(offset);
      CodeBits(LowFirst(g), offset, code, nBits);
      Pow2Monotonic(offset + nBits, 8 * 16);
      var v, p := code * Pow2(offset % 8), offset / 8;
      StartPutting(g, offset, p, offset % 8, code, v, total);
      while v > 0
        invariant v >= 0 && p >= 0 && Putting(group[..], p, v, total)
        modifies group
      {
        PutFits(group[..], p, v, total, 16);
        PutNext(group[..], p, v, total);
        // the bits do not meet those in the byte already
        group[p] := group[p] + v % 256;
        v := v / 256;
        p := p + 1;
      }
      PutDone(group[..], p, total);
      Assoc(Unpack(out), ToBits(LowFirst(g), offset), ToBits(code, nBits));
      offset := offset + nBits;
    }

    /** A code in its group. */
    method WriteCode(code: nat)
      requires Valid() && code < Pow2(nBits)
      modifies this`out, this`offset, this`bytesOut, group
      ensures Valid() && Current() == Advance(old(Current()))
      ensures Same(Stream(), old(Stream()) + ToBits(code, nBits)) && bytesOut >= old(bytesOut)
    {
      hide Unpack, ToBits, LowFirst, Pow2;
      AdvanceGood(Current(), bits);
      PutCode(code);
      if offset == nBits * 8 {
        AppendNone(Stream(), ToBits(0, 0));
        PutGroup(nBits);
      }
    }

    /** A group that has been begun is written whole. */
    method EndGroup()
      requires Valid()
      modifies this`out, this`offset, this`bytesOut, group
      ensures Valid() && offset == 0 && bytesOut >= old(bytesOut)
      ensures Same(Stream(), old(Stream()) + ToBits(0, if old(offset) > 0 then 8 * nBits - old(offset) else 0))
    {
      hide Unpack, ToBits, LowFirst, Pow2;
      AdvanceGood(Current(), bits);
      if offset > 0 {
        PutGroup(nBits);
      } else {
        AppendNone(Stream(), ToBits(0, 0));
      }
      EmptyGroup();
    }

    /** output, for a code; free is the next new code, and clear says that it was CLEAR.  A new width
        starts with a new group. */
    method Output(code: nat, free: nat, clear: bool)
      requires Valid() && code < Pow2(nBits) && free <= Pow2(bits)
      modifies this`out, this`nBits, this`maxcode, this`offset, this`bytesOut, group
      ensures Valid() && Current() == Settle(Advance(old(Current())), bits, free, clear)
      ensures Same(Stream(), (old(Stream()) + ToBits(code, old(nBits))) + ToBits(0, LzwFormat.Unused(Advance(old(Current())), free, clear)))
      ensures bytesOut >= old(bytesOut)
    {
      hide Unpack, ToBits, LowFirst, Pow2, GoodWidth;
      WriteCode(code);
      ghost var w := Current();
      SettleGood(w, bits, free, clear);
      GroupStarted(w, bits);
      if free > maxcode || clear {
        EndGroup();
        if clear {
          nBits := INIT_BITS;
          maxcode := Pow2(nBits) - 1;
        } else {
          nBits := nBits + 1;
          maxcode := if nBits == bits then Pow2(bits) else Pow2(nBits) - 1;
        }
      } else {
        AppendNone(Stream(), ToBits(0, 0));
      }
    }

    /** output, for the end: what there is of a group. */
    method Finish() returns (ghost k: nat)
      requires Valid()
      modifies this`out, this`bytesOut, this`offset, group
      ensures k < 8 && Same(Unpack(out), old(Stream()) + ToBits(0, k))
    {
      hide Unpack, ToBits, LowFirst, Pow2;
      AdvanceGood(Current(), bits);
      k := 0;
      if offset > 0 {
        k := 8 * ((offset + 7) / 8) - offset;
        PutGroup((offset + 7) / 8);
      } else {
        AppendNone(Stream(), ToBits(0, 0));
      }
      AppendNone(Unpack(out), ToBits(LowFirst(group[..]), offset));
      offset := 0;
    }
  }

  lemma {:induction false} StartGood(bits: nat)
    requires 9 <= bits <= 16
    ensures GoodWidth(StartWidth(), bits) && Pow2(0) == 1 && Unpack([]) == []
  {
  }

  lemma {:induction false} EmptyGroup()
    ensures 0 < Pow2(0)
  {
  }

  lemma {:induction false} GroupStarted(w: Width, bits: nat)
    requires GoodWidth(w, bits)
    ensures w.off < 8 * w.n
  {
  }
}
