/** gzip.c's input: bytes, and bits out of them. */
module BitReader {
  import opened Arith
  import opened Bits
  import opened Deflate
  import opened Tokens

  class BitReader {
    const input: seq<byte>
    var ipos: nat
    var bitbuf: nat
    var bitcnt: nat
    /** The first error. */
    var derr: ErrorOption

    ghost predicate Valid()
      reads this
    {
      ipos <= |input| && bitcnt < 16 && bitbuf < Pow2(bitcnt) && (derr == NoError ==> bitcnt < 8)
    }

    /** The bits that have not been taken. */
    ghost function Rest(): seq<bool>
      requires ipos <= |input|
      reads this
    {
      ToBits(bitbuf, bitcnt) + Unpack(input[ipos..])
    }

    constructor (input: seq<byte>)
      ensures Valid() && derr == NoError && Same(Rest(), Unpack(input)) && bitcnt == 0 && this.input == input
    {
      this.input := input;
      ipos, bitbuf, bitcnt, derr := 0, 0, 0, NoError;
      new;
      assert input[0..] == input;
      assert ToBits(0, 0) + Unpack(input) == Unpack(input);
    }

    /** in_byte: the next byte, or -1. */
    method InByte() returns (c: int)
      requires ipos <= |input|
      modifies this`ipos
      ensures old(ipos) == |input| ==> c == -1 && ipos == old(ipos)
      ensures old(ipos) < |input| ==> c == input[old(ipos)] && ipos == old(ipos) + 1
    {
      if ipos == |input| {
        return -1;
      }
      c := input[ipos];
      ipos := ipos + 1;
    }

    ghost predicate Holds()
      reads this
    {
      ipos <= |input| && bitbuf < Pow2(bitcnt)
    }

    /** A byte more, if there is one. */
    method More() returns (ok: bool)
      requires Holds()
      modifies this`ipos, this`bitbuf, this`bitcnt
      ensures Holds() && Same(Rest(), old(Rest())) && ok == (old(ipos) < |input|)
      ensures bitcnt == if ok then old(bitcnt) + 8 else old(bitcnt)
    {
      ghost var before := input[ipos..];
      var c := InByte();
      if c < 0 {
        return false;
      }
      OneByte(bitbuf, bitcnt, c, before, input[ipos..]);
      bitbuf := bitbuf + c * Pow2(bitcnt);
      bitcnt := bitcnt + 8;
      ok := true;
    }

    /** As many bytes as n bits need, as far as there are. */
    method Need(n: nat) returns (ok: bool)
      requires Holds() && n <= 16
      modifies this`ipos, this`bitbuf, this`bitcnt
      ensures Holds() && Same(Rest(), old(Rest()))
      ensures ok ==> n <= bitcnt && (bitcnt == old(bitcnt) || bitcnt < n + 8)
      ensures !ok ==> bitcnt < n && |Rest()| == bitcnt
    {
      ok := true;
      while bitcnt < n
        invariant Holds() && Same(Rest(), old(Rest()))
        invariant bitcnt == old(bitcnt) || bitcnt < n + 8
        decreases n + 8 - bitcnt
      {
        ok := More();
        if !ok {
          return;
        }
      }
    }

    /** bits: the next n bits as a number, low bit first; 0 and an error at the end of the input. */
    method Bits(n: nat) returns (v: nat)
      requires Valid() && n <= 16
      modifies this`ipos, this`bitbuf, this`bitcnt, this`derr
      ensures Valid() && v < Pow2(n)
      ensures old(derr) != NoError ==> derr == old(derr)
      ensures old(derr) == NoError && n <= |old(Rest())| ==> derr == NoError && Same(Take(old(Rest()), n), Taken.Bits(v, Rest()))
      ensures old(derr) == NoError && n > |old(Rest())| ==> derr == Some(UnexpectedEof)
    {
      var ok := Need(n);
      if !ok {
        if derr == NoError {
          derr := Some(UnexpectedEof);
        }
        Pow2Positive(n);
        return 0;
      }
      v := TakeLow(n);
    }

    method TakeLow(n: nat) returns (v: nat)
      requires Holds() && n <= bitcnt
      modifies this`bitbuf, this`bitcnt
      ensures Holds() && v < Pow2(n) && bitcnt == old(bitcnt) - n && Same(Take(old(Rest()), n), Taken.Bits(v, Rest()))
    {
      ghost var before := Rest();
      var w := bitbuf / Pow2(n);
      v := bitbuf % Pow2(n);
      Quotient(bitbuf, bitcnt, n, w, v);
      SplitBits(bitbuf, bitcnt, n, v, w, Unpack(input[ipos..]), before);
      bitbuf := w;
      bitcnt := bitcnt - n;
    }

    /** Bits left of a byte are dropped. */
    method DropBits()
      requires Valid() && derr == NoError
      modifies this`bitbuf, this`bitcnt
      ensures Valid() && bitcnt == 0 && Same(Rest(), Align(old(Rest()))) && Same(Rest(), Unpack(input[ipos..]))
    {
      AlignBits(ToBits(bitbuf, bitcnt), Unpack(input[ipos..]));
      bitbuf := 0;
      bitcnt := 0;
      AppendToNone(ToBits(bitbuf, bitcnt), Unpack(input[ipos..]));
    }
  }

  lemma {:induction false} AlignBits(a: seq<bool>, b: seq<bool>)
    requires |a| < 8 && |b| % 8 == 0
    ensures Same(Align(a + b), b)
  {
    assert |a + b| % 8 == |a|;
    assert (a + b)[|a|..] == b;
  }

  /** A byte moves from the input to the bits. */
  lemma {:induction false} OneByte(o: nat, k: nat, c: byte, s: seq<byte>, t: seq<byte>)
    requires o < Pow2(k) && |s| > 0 && c == s[0] && Same(t, s[1..])
    ensures o + c * Pow2(k) < Pow2(k + 8)
    ensures Same(ToBits(o + c * Pow2(k), k + 8) + Unpack(t), ToBits(o, k) + Unpack(s))
  {
    Pow2Add(k, 8);
    Pow2Values();
    MulNext(c, 256, Pow2(k));
    assert c * Pow2(k) == Pow2(k) * c;
    ToBitsConcat(o, k, c, 8);
    Assoc(ToBits(o, k), ToBits(c, 8), Unpack(t));
  }

  /** The n low bits are the next ones. */
  lemma {:induction false} SplitBits(o: nat, k: nat, n: nat, v: nat, w: nat, u: seq<bool>, s: seq<bool>)
    requires n <= k && o == v + Pow2(n) * w && v < Pow2(n) && Same(s, ToBits(o, k) + u)
    ensures Same(Take(s, n), Taken.Bits(v, ToBits(w, k - n) + u))
  {
    ToBitsConcat(v, n, w, k - n);
    Assoc(ToBits(v, n), ToBits(w, k - n), u);
    TakeBack(v, n, s, ToBits(w, k - n) + u);
  }

  lemma {:induction false} Quotient(o: nat, k: nat, n: nat, w: nat, v: nat)
    requires n <= k && o < Pow2(k) && w == o / Pow2(n) && v == o % Pow2(n)
    ensures v < Pow2(n) && w < Pow2(k - n) && o == v + Pow2(n) * w
  {
    Pow2Add(n, k - n);
    QuotientBound(o, Pow2(n), Pow2(k - n));
  }

  lemma {:induction false} QuotientBound(o: nat, p: nat, q: nat)
    requires p > 0 && o < p * q
    ensures o / p < q && o % p < p && o == o % p + p * (o / p)
  {
    if o / p >= q {
      MulMono(q, o / p, p);
    }
  }
}
