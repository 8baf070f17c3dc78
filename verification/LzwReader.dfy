/** lzw.c's getcode: codes out of groups, which are read whole. */
module LzwReader {
  import opened Bits
  import opened LzwFormat
  import opened LzwWriter

  /** Bits from the middle of a number. */
  lemma {:induction false} SliceBits(v: nat, r: nat, x: nat, n: nat, y: nat, m: nat, z: nat, q: nat)
    requires x < Pow2(r) && y < Pow2(n) && v == x + Pow2(r) * q && q == y + Pow2(n) * z
    ensures Same(ToBits(v, r + n + m)[r..r + n], ToBits(y, n))
  {
    hide ToBits, Pow2;
    ToBitsConcat(x, r, q, n + m);
    ToBitsConcat(y, n, z, m);
    assert (ToBits(x, r) + (ToBits(y, n) + ToBits(z, m)))[r..r + n] == ToBits(y, n);
  }

  lemma {:induction false} Quotient(v: nat, p: nat) returns (q: nat, r: nat)
    requires p > 0
    ensures q == v / p && r == v % p && v == r + p * q && r < p
  {
    q, r := v / p, v % p;
  }

  /** The bits of a few bytes, as a number. */
  lemma {:induction false} BytesSlice(g: seq<byte>, r: nat, n: nat, code: nat)
    requires r + n <= 8 * |g| && code == LowFirst(g) / Pow2(r) % Pow2(n)
    ensures FromBits(Unpack(g)[r..r + n]) == code
  {
    hide ToBits, FromBits, Unpack, LowFirst, Pow2;
    UnpackIsVal(g);
    var q, x := Quotient(LowFirst(g), Pow2(r));
    var z, y := Quotient(q, Pow2(n));
    SliceBits(LowFirst(g), r, x, n, y, 8 * |g| - r - n, z, q);
    FromToBits(y, n);
  }

  /** Bytes from the middle. */
  lemma {:induction false} UnpackSlice(b: seq<byte>, p: nat, q: nat, i: nat, j: nat)
    requires p <= q <= |b| && 8 * p <= i <= j <= 8 * q
    ensures Same(Unpack(b)[i..j], Unpack(b[p..q])[i - 8 * p..j - 8 * p])
  {
    hide Unpack;
    var x, y, z := b[..p], b[p..q], b[q..];
    assert b == x + (y + z);
    UnpackConcat(x, y + z);
    UnpackConcat(y, z);
    assert (Unpack(x) + (Unpack(y) + Unpack(z)))[i..j] == Unpack(y)[i - 8 * p..j - 8 * p];
  }

  /** The code at the front of what is left of a buffer. */
  lemma {:induction false} CodeInBuffer(b: seq<byte>, have: nat, off: nat, n: nat, tail: seq<bool>, s: seq<bool>)
    requires have <= |b| && off + n <= 8 * have && Same(s, Unpack(b[..have])[off..] + tail)
    ensures |s| >= n && Same(s[..n], Unpack(b)[off..off + n]) && Same(s[n..], Unpack(b[..have])[off + n..] + tail)
  {
    UnpackSlice(b, 0, have, off, off + n);
    hide Unpack;
    var u := Unpack(b[..have]);
    assert b[0..have] == b[..have];
    assert s[..n] == u[off..off + n];
    assert s[n..] == u[off + n..] + tail;
  }

  /** How far the stream is in a group. */
  function Position(offset: nat, n: nat): nat
  {
    if offset == 8 * n then 0 else offset
  }

  class LzwReader {
    const bits: nat
    const input: seq<byte>
    const rbuf: array<byte>
    var ipos: nat
    var nBits: nat
    var maxcode: nat
    var offset: nat
    var rsize: int
    /** How many bytes of the group were read. */
    ghost var have: nat

    ghost predicate Valid()
      reads this, rbuf
    {
      && rbuf.Length == 16 && ipos <= |input| && 9 <= nBits <= 16 && GoodWidth(Raw(), bits)
      && have <= nBits && offset <= 8 * have && (have > 0 ==> offset > 0)
      && (have < nBits && have > 0 ==> ipos == |input|)
      && (if have == 0 then rsize <= 0 else rsize == 8 * have - (nBits - 1))
    }

    /** The width of the code before, and how far the group is used. */
    ghost function Raw(): Width
      reads this
    {
      Width(nBits, maxcode, Position(offset, nBits))
    }

    ghost function Rest(): seq<bool>
      requires rbuf.Length == 16 && have <= 16 && offset <= 8 * have && ipos <= |input|
      reads this, rbuf
    {
      Unpack(rbuf[..have])[offset..] + Unpack(input[ipos..])
    }

    constructor (bits: nat, input: seq<byte>)
      requires 9 <= bits <= 16
      ensures Valid() && this.bits == bits && Raw() == StartWidth() && Same(Rest(), Unpack(input)) && fresh(rbuf)
    {
      this.bits := bits;
      this.input := input;
      rbuf := new byte[16];
      ipos, nBits, maxcode, offset, rsize, have := 0, INIT_BITS, Pow2(INIT_BITS) - 1, 0, 0, 0;
      new;
      StartGood(bits);
      assert input[0..] == input;
      AppendToNone(Unpack(rbuf[..0])[0..], Unpack(input));
    }

    /** A group from the input, or what there is of one. */
    method Refill() returns (n: nat)
      requires rbuf.Length == 16 && ipos <= |input| && nBits <= 16
      modifies this`ipos, this`offset, this`rsize, this`have, rbuf
      ensures ipos <= |input| && offset == 0 && n == have <= nBits && have <= |input| - old(ipos)
      ensures have == nBits || ipos == |input|
      ensures rsize == 8 * have - (nBits - 1) && ipos == old(ipos) + have
      ensures Same(Rest(), Unpack(input[old(ipos)..]))
    {
      n := 0;
      ghost var start := ipos;
      while n < nBits && ipos < |input|
        invariant n <= nBits && ipos == start + n <= |input|
        invariant forall k :: 0 <= k < n ==> rbuf[k] == input[start + k]
      {
        rbuf[n] := input[ipos];
        ipos := ipos + 1;
        n := n + 1;
      }
      have := n;
      offset := 0;
      rsize := 8 * n - (nBits - 1);
      assert rbuf[..have] == input[start..ipos];
      assert input[start..] == input[start..ipos] + input[ipos..];
      UnpackConcat(input[start..ipos], input[ipos..]);
    }

    /** The next code is in the buffer, at offset: w and s say how the stream stands. */
    ghost predicate Ready(w: Width, s: seq<bool>)
      reads this, rbuf
    {
      && rbuf.Length == 16 && ipos <= |input| && 9 <= nBits <= 16 && GoodWidth(w, bits) && w == Width(nBits, maxcode, offset)
      && have <= nBits && offset + nBits <= 8 * have && (have < nBits ==> ipos == |input|) && rsize == 8 * have - (nBits - 1)
      && Same(Rest(), s)
    }

    /** A new group is due: after CLEAR, when codes get wider, and when the old one is used up. */
    ghost predicate Due(free: nat, clear: bool)
      reads this
    {
      clear || offset >= rsize || free > maxcode
    }

    /** What is left when a new group is due. */
    lemma {:induction false} LeftWhenDue(free: nat, clear: bool, w: Width, s: seq<bool>)
      requires Valid() && free <= Pow2(bits) && Due(free, clear)
      requires w == Settle(Raw(), bits, free, clear) && Same(s, Drop(Rest(), LzwFormat.Unused(Raw(), free, clear)))
      ensures rbuf.Length == 16 && ipos <= |input| && 9 <= w.n <= 16 && GoodWidth(w, bits)
      ensures (Same(s, Unpack(input[ipos..])) && w.off == 0) || (Unpack(input[ipos..]) == [] && |s| < w.n && w.off > 0)
    {
      hide Unpack, Pow2, ToBits, GoodWidth, InGroup, Settle;
      SettleGood(Raw(), bits, free, clear);
      SettleCases(Raw(), bits, free, clear);
      WidthBounds(w, bits);
      WidthBounds(Raw(), bits);
      GroupDropped(rbuf[..], have, nBits, offset, Unpack(input[ipos..]), Rest());
      DueRest(have, nBits, offset, rsize, Rest(), Unpack(input[ipos..]), s, w, free > maxcode || clear);
    }

    method SetWidth(free: nat, clear: bool, ghost w: Width)
      requires w == Settle(Raw(), bits, free, clear)
      modifies this`nBits, this`maxcode
      ensures nBits == w.n && maxcode == w.m
    {
      if free > maxcode {
        nBits := nBits + 1;
        maxcode := if nBits == bits then Pow2(bits) else Pow2(nBits) - 1;
      }
      if clear {
        nBits := INIT_BITS;
        maxcode := Pow2(nBits) - 1;
      }
    }

    /** A new group, and its width; or the end of the input; or a group of one byte. */
    method StartGroup(free: nat, clear: bool, ghost w: Width, ghost s: seq<bool>) returns (end: bool, stale: bool)
      requires Valid() && free <= Pow2(bits) && Due(free, clear)
      requires w == Settle(Raw(), bits, free, clear) && Same(s, Drop(Rest(), LzwFormat.Unused(Raw(), free, clear)))
      modifies this`ipos, this`nBits, this`maxcode, this`offset, this`rsize, this`have, rbuf
      ensures if end then |s| < w.n && !(w.off == 0 && |s| == 8) else if stale then w.off == 0 && |s| == 8 && |s| < w.n else Ready(w, s)
    {
      hide Unpack, Pow2, ToBits, GoodWidth, InGroup, Settle, Valid, Drop, LzwFormat.Unused;
      LeftWhenDue(free, clear, w, s);
      SetWidth(free, clear, w);
      var n := Refill();
      end := n == 0;
      stale := rsize <= 0;
    }

    /** getcode: the next code, when free is the next new code and clear says that the last one was
        CLEAR; or -1 at the end.  A group of one byte is stale: there is less than a code in it. */
    method GetCode(free: nat, clear: bool) returns (code: int, stale: bool)
      requires Valid() && free <= Pow2(bits)
      modifies this`ipos, this`nBits, this`maxcode, this`offset, this`rsize, this`have, rbuf
      ensures GotCode(Settle(old(Raw()), bits, free, clear), Drop(old(Rest()), LzwFormat.Unused(old(Raw()), free, clear)), code, stale)
    {
      hide Unpack, FromBits, LowFirst, Pow2, ToBits, GoodWidth, InGroup;
      ghost var w, s := Settle(Raw(), bits, free, clear), Drop(Rest(), LzwFormat.Unused(Raw(), free, clear));
      var end := false;
      stale := false;
      if clear || offset >= rsize || free > maxcode {
        end, stale := StartGroup(free, clear, w, s);
        if end {
          return -1, false;
        }
        if stale {
          return 0, true;
        }
      } else {
        StillReady(w, s, free);
      }
      code := ReadCode(w, s);
    }

    method ReadCode(ghost w: Width, ghost s: seq<bool>) returns (code: nat)
      requires Ready(w, s)
      modifies this`offset
      ensures GotCode(w, s, code, false)
    {
      hide Unpack, FromBits, LowFirst, Pow2, GoodWidth, InGroup;
      AdvanceGood(w, bits);
      code := CodeAt();
      CodeInBuffer(rbuf[..], have, offset, nBits, Unpack(input[ipos..]), s);
      offset := offset + nBits;
    }

    /** The group goes on. */
    lemma {:induction false} StillReady(w: Width, s: seq<bool>, free: nat)
      requires Valid() && !Due(free, false) && w == Settle(Raw(), bits, free, false)
      requires Same(s, Drop(Rest(), LzwFormat.Unused(Raw(), free, false)))
      ensures Ready(w, s)
    {
      hide Unpack, Pow2;
      assert Rest()[0..] == Rest();
    }

    /** What has become of the settled width and bits. */
    ghost predicate GotCode(w: Width, s: seq<bool>, code: int, stale: bool)
      reads this, rbuf
    {
      if stale then w.off == 0 && |s| == 8 && |s| < w.n
      else if code < 0 then |s| < w.n && !(w.off == 0 && |s| == 8)
      else Valid() && |s| >= w.n && code == FromBits(s[..w.n]) && Raw() == Advance(w) && Same(Rest(), s[w.n..])
    }

    /** The code at offset. */
    method CodeAt() returns (code: nat)
      requires rbuf.Length == 16 && have <= 16 && offset + nBits <= 8 * have && 9 <= nBits <= 16
      ensures code == FromBits(Unpack(rbuf[..])[offset..offset + nBits])
    {
      hide Unpack, FromBits, LowFirst, Pow2;
      var p, r := offset / 8, offset % 8;
      var v := 0;
      ghost var q := p;
      ValOfNone();
      assert p < 16 && rbuf[p..p] == [];
      for k := 0 to 3
        invariant q == (if p + k < 16 then p + k else 16) && v == LowFirst(rbuf[p..q])
      {
        if p + k < 16 {
          ValConcat(rbuf[p..q], [rbuf[q]]);
          ValOfOne(rbuf[q]);
          assert rbuf[p..q] + [rbuf[q]] == rbuf[p..q + 1];
          v := v + rbuf[p + k] * Pow2(8 * k);
          q := q + 1;
        }
      }
      code := v / Pow2(r) % Pow2(nBits);
      BytesSlice(rbuf[p..q], r, nBits, code);
      UnpackSlice(rbuf[..], p, q, offset, offset + nBits);
      assert rbuf[..][p..q] == rbuf[p..q];
    }
  }

  /** What is left of a group is dropped before a new one is read. */
  lemma {:induction false} GroupDropped(b: seq<byte>, have: nat, n: nat, off: nat, u: seq<bool>, s: seq<bool>)
    requires have <= |b| && have <= n && off <= 8 * have && (have > 0 ==> off > 0) && (0 < have < n ==> u == [])
    requires Same(s, Unpack(b[..have])[off..] + u)
    ensures Same(Drop(s, if 0 < Position(off, n) < 8 * n then 8 * n - Position(off, n) else 0), u)
    ensures off == 8 * n || have == 0 ==> Same(s, u)
  {
    hide Unpack;
    var v := Unpack(b[..have])[off..];
    if have == n {
      assert (v + u)[|v|..] == u;
      assert v == [] ==> v + u == u;
    } else if have == 0 {
      assert v + u == u;
    }
    assert s[0..] == s;
  }

  /** When a new group is due, either it holds all that is left, or less than a code is left of the
      last one. */
  lemma {:induction false} DueRest(have: nat, n: nat, off: nat, rsize: int, rest: seq<bool>, u: seq<bool>, s: seq<bool>, w: Width, wider: bool)
    requires have <= n && off <= 8 * have && (have > 0 ==> off > 0) && (if have == 0 then rsize <= 0 else rsize == 8 * have - (n - 1))
    requires |rest| == 8 * have - off + |u| && (0 < have < n ==> u == []) && (wider ==> Same(s, u)) && (off == 8 * n || have == 0 ==> Same(rest, u))
    requires !wider ==> off >= rsize && Same(s, rest) && w.n == n && w.off == Position(off, n)
    requires (wider ==> w.off == 0) && InGroup(Position(off, n), n)
    ensures (Same(s, u) && w.off == 0) || (u == [] && |s| < w.n && w.off > 0)
  {
  }

  lemma {:induction false} SettleCases(w: Width, bits: nat, free: nat, clear: bool)
    ensures if clear || free > w.m then Settle(w, bits, free, clear).off == 0 else Settle(w, bits, free, clear) == w
  {
  }

  lemma {:induction false} WidthBounds(w: Width, bits: nat)
    requires GoodWidth(w, bits)
    ensures 9 <= w.n <= 16 && InGroup(w.off, w.n)
  {
  }

  lemma {:induction false} ValOfNone()
    ensures LowFirst([]) == 0
  {
  }

  lemma {:induction false} ValOfOne(b: byte)
    ensures LowFirst([b]) == b
  {
    assert [b][1..] == [];
  }
}
