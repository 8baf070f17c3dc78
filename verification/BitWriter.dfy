/** gzip.c's put_bits and align_bits, on top of the bytes written. */
module BitWriter {
  import opened Arith
  import opened Bits

  /** How many bits are missing to a byte boundary. */
  function Padding(n: nat): (p: nat)
    ensures p < 8
  {
    (8 - n % 8) % 8
  }

  class BitWriter {
    var out: seq<byte>
    var obits: nat
    var ocnt: nat

    ghost predicate Valid()
      reads this
    {
      ocnt < 8 && obits < Pow2(ocnt)
    }

    /** All the bits written. */
    ghost function Stream(): (s: seq<bool>)
      reads this
      ensures |s| == 8 * |out| + ocnt
    {
      Unpack(out) + ToBits(obits, ocnt)
    }

    constructor ()
      ensures Valid() && out == [] && ocnt == 0 && Stream() == []
    {
      out := [];
      obits := 0;
      ocnt := 0;
    }

    ghost predicate Holds()
      reads this
    {
      obits < Pow2(ocnt)
    }

    /** The first eight of the pending bits are written. */
    method WriteByte()
      requires Holds() && ocnt >= 8
      modifies this
      ensures Holds() && ocnt == old(ocnt) - 8 && Same(Stream(), old(Stream()))
    {
      hide ToBits, Unpack, Pow2;
      ByteSplit(out, obits, ocnt);
      out := out + [obits % 256];
      obits := obits / 256;
      ocnt := ocnt - 8;
    }

    /** v fits in n bits, so the new bits do not meet the old ones, and 23 bits are enough for
        both. */
    method PutBits(v: nat, n: nat)
      requires Valid() && n <= 16 && v < Pow2(n)
      modifies this
      ensures Valid() && Same(Stream(), old(Stream()) + ToBits(v, n))
    {
      hide ToBits, Unpack, Pow2;
      ghost var goal := Stream() + ToBits(v, n);
      PutSplit(Unpack(out), obits, ocnt, v, n);
      obits := obits + v * Pow2(ocnt);
      ocnt := ocnt + n;
      while ocnt >= 8
        invariant Holds() && Same(Stream(), goal)
      {
        WriteByte();
      }
    }

    method AlignBits()
      requires Valid()
      modifies this
      ensures Valid() && ocnt == 0 && Same(Stream(), old(Stream()) + ToBits(0, Padding(|old(Stream())|)))
    {
      ghost var before := Stream();
      PaddingOfSum(|out|, ocnt);
      Pow2Positive(8 - ocnt);
      if ocnt > 0 {
        PutBits(0, 8 - ocnt);
      } else {
        assert before == before + ToBits(0, 0);
      }
      assert |Stream()| == 8 * |out| + ocnt == |before| + Padding(|before|);
      PaddingDone(|before|, |out|, ocnt);
    }

    /** Bytes as they are, at a byte boundary. */
    method PutBytes(p: seq<byte>)
      requires Valid() && ocnt == 0
      modifies this`out
      ensures Valid() && out == old(out) + p && Same(Stream(), old(Stream()) + Unpack(p))
    {
      UnpackConcat(out, p);
      assert Unpack(out) + ToBits(obits, 0) + Unpack(p) == Unpack(out + p) + ToBits(obits, 0);
      out := out + p;
    }
  }

  lemma {:induction false} PaddingOfSum(n: nat, c: nat)
    requires c < 8
    ensures Padding(8 * n + c) == if c == 0 then 0 else 8 - c
  {
    assert (8 * n + c) % 8 == c;
  }

  lemma {:induction false} PaddingDone(b: nat, n: nat, c: nat)
    requires c < 8 && 8 * n + c == b + Padding(b)
    ensures c == 0
  {
    var q, r := b / 8, b % 8;
    assert b == 8 * q + r;
  }

  /** The new bits after the old ones. */
  lemma {:induction false} PutSplit(u: seq<bool>, o: nat, c: nat, v: nat, n: nat)
    requires o < Pow2(c) && v < Pow2(n)
    ensures o + v * Pow2(c) < Pow2(c + n)
    ensures Same((u + ToBits(o, c)) + ToBits(v, n), u + ToBits(o + v * Pow2(c), c + n))
  {
    Pow2Add(c, n);
    MulNext(v, Pow2(n), Pow2(c));
    assert v * Pow2(c) == Pow2(c) * v;
    ToBitsConcat(o, c, v, n);
    assert (u + ToBits(o, c)) + ToBits(v, n) == u + (ToBits(o, c) + ToBits(v, n));
  }

  /** The first byte of the pending bits. */
  lemma {:induction false} ByteSplit(out: seq<byte>, o: nat, c: nat)
    requires c >= 8 && o < Pow2(c)
    ensures o % 256 < 256 && o / 256 < Pow2(c - 8)
    ensures Same(Unpack(out) + ToBits(o, c), Unpack(out + [o % 256]) + ToBits(o / 256, c - 8))
  {
    Pow2Values();
    Pow2Add(8, c - 8);
    ByteSplitAt(out, o, c, o % 256, o / 256);
  }

  lemma {:induction false} ByteSplitAt(out: seq<byte>, o: nat, c: nat, b: byte, q: nat)
    requires c >= 8 && o == b + 256 * q && Pow2(8) == 256
    ensures Same(Unpack(out) + ToBits(o, c), Unpack(out + [b]) + ToBits(q, c - 8))
  {
    hide ToBits, Unpack, Pow2;
    ToBitsConcat(b, 8, q, c - 8);
    UnpackConcat(out, [b]);
    UnpackOne(b);
    Assoc(Unpack(out), ToBits(b, 8), ToBits(q, c - 8));
  }
}
