/** Cyclic redundancy checks: the remainder of a division of polynomials over the two-element
    field, done one message bit at a time, and the table that does eight bits at once.  A 32-bit
    register is the string of its bits, the coefficient of the highest power first; gzip keeps
    that bit in the low end of a machine word and cksum in the high end. */
module Crc {
  import opened Bits

  type word = w: seq<bool> | |w| == 32 witness Repeat(false, 32)

  function Xor(a: seq<bool>, b: seq<bool>): (c: seq<bool>)
    requires |a| == |b|
    ensures |c| == |a|
    ensures forall i :: 0 <= i < |a| ==> c[i] == (a[i] != b[i])
  {
    seq(|a|, i requires 0 <= i < |a| => a[i] != b[i])
  }

  function Shift(c: word): word
  {
    c[1..] + [false]
  }

  /** Multiply the remainder c by x, modulo the polynomial p. */
  function Step(p: word, c: word): word
  {
    if c[0] then Xor(p, Shift(c)) else Shift(c)
  }

  function Steps(p: word, c: word, k: nat): word
    decreases k
  {
    if k == 0 then c else Steps(p, Step(p, c), k - 1)
  }

  /** The reference: the message bits enter the division one by one. */
  function Divide(p: word, c: word, message: seq<bool>): word
    decreases |message|
  {
    if message == [] then c
    else Divide(p, Step(p, c[0 := c[0] != message[0]]), message[1..])
  }

  lemma {:induction false} DivideConcat(p: word, c: word, a: seq<bool>, b: seq<bool>)
    ensures Divide(p, c, a + b) == Divide(p, Divide(p, c, a), b)
    decreases |a|
  {
    if a == [] {
      assert a + b == b;
    } else {
      assert (a + b)[1..] == a[1..] + b;
      DivideConcat(p, Step(p, c[0 := c[0] != a[0]]), a[1..], b);
    }
  }

  lemma {:induction false} StepLinear(p: word, a: word, b: word)
    ensures Step(p, Xor(a, b)) == Xor(Step(p, a), Step(p, b))
  {
    var l, r := Step(p, Xor(a, b)), Xor(Step(p, a), Step(p, b));
    assert forall i :: 0 <= i < 32 ==> l[i] == r[i];
  }

  lemma {:induction false} StepsLinear(p: word, a: word, b: word, k: nat)
    ensures Steps(p, Xor(a, b), k) == Xor(Steps(p, a, k), Steps(p, b, k))
    decreases k
  {
    if k > 0 {
      StepLinear(p, a, b);
      StepsLinear(p, Step(p, a), Step(p, b), k - 1);
    }
  }

  /** s in the first bits of a register. */
  function Pad(s: seq<bool>): word
    requires |s| <= 32
  {
    s + Repeat(false, 32 - |s|)
  }

  /** Feeding bits one by one is the same as putting them all in first. */
  lemma {:induction false} DivideAsSteps(p: word, c: word, s: seq<bool>)
    requires |s| <= 32
    ensures Divide(p, c, s) == Steps(p, Xor(c, Pad(s)), |s|)
    decreases |s|
  {
    if s == [] {
      assert Xor(c, Pad(s)) == c;
    } else {
      var c0: word, t: word := c[0 := c[0] != s[0]], Pad(s)[0 := false];
      assert Xor(c, Pad(s)) == Xor(c0, t);
      StepLinear(p, c0, t);
      assert Step(p, t) == Pad(s[1..]);
      DivideAsSteps(p, Step(p, c0), s[1..]);
    }
  }

  /** Zero bits at the front are only shifted out. */
  lemma {:induction false} StepsShift(p: word, c: word, k: nat)
    requires k <= 32
    requires forall i :: 0 <= i < k ==> !c[i]
    ensures Steps(p, c, k) == Pad(c[k..])
    decreases k
  {
    if k == 0 {
      assert c == Pad(c[0..]);
    } else {
      var d: word := Shift(c);
      assert Step(p, c) == d;
      StepsShift(p, d, k - 1);
      assert Pad(d[k - 1..]) == Pad(c[k..]);
    }
  }

  /** Eight steps at once: the remainder of the first byte of the register (with the message byte
      in it), and the other three bytes moved up. */
  lemma {:induction false} ByteAtATime(p: word, c: word, s: seq<bool>)
    requires |s| == 8
    ensures Divide(p, c, s) == Xor(Steps(p, Pad(Xor(c[..8], s)), 8), Pad(c[8..]))
  {
    hide Divide, Steps, Step, Shift;
    DivideAsSteps(p, c, s);
    var lo: word := Pad(Xor(c[..8], s));
    var hi: word := Pad([])[..8] + c[8..];
    assert Xor(c, Pad(s)) == Xor(lo, hi);
    StepsLinear(p, lo, hi, 8);
    StepsShift(p, hi, 8);
    assert hi[8..] == c[8..];
  }

  /** The polynomial of ISO/IEC 8802-3, by the exponents of its terms below x^32: the number
      0xedb88320 with its low bit first, or 0x04c11db7 with its high bit first. */
  function Poly(): word
  {
    seq(32, i => 31 - i in {26, 23, 22, 16, 12, 11, 10, 8, 7, 5, 4, 2, 1, 0})
  }

  function Not(c: word): word
  {
    seq(32, i requires 0 <= i < 32 => !c[i])
  }

  /** The CRC-32 of RFC 1952: preset to ones and complemented, low bit of each byte first. */
  function Crc32(data: seq<byte>): word
  {
    Not(Divide(Poly(), Not(Repeat(false, 32)), Unpack(data)))
  }

  function Zeros(): word
  {
    Repeat(false, 32)
  }

  /** gzip.c's crc_table. */
  class CrcTable {
    const table: array<word>

    ghost predicate Valid()
      reads table
    {
      table.Length == 256 && forall n :: 0 <= n < 256 ==> table[n] == Steps(Poly(), ToBits(n, 32), 8)
    }

    constructor ()
      ensures Valid() && fresh(table)
    {
      table := new word[256](_ => Zeros());
      new;
      Fill(table);
    }

    /** make_crc_table */
    static method Fill(t: array<word>)
      requires t.Length == 256
      modifies t
      ensures forall n :: 0 <= n < 256 ==> t[n] == Steps(Poly(), ToBits(n, 32), 8)
    {
      hide *;
      for n := 0 to 256
        invariant forall m :: 0 <= m < n ==> t[m] == Steps(Poly(), ToBits(m, 32), 8)
      {
        var c := EightSteps(n);
        t[n] := c;
      }
    }

    static method EightSteps(n: nat) returns (c: word)
      ensures c == Steps(Poly(), ToBits(n, 32), 8)
    {
      c := ToBits(n, 32);
      for k := 0 to 8
        invariant Steps(Poly(), c, 8 - k) == Steps(Poly(), ToBits(n, 32), 8)
      {
        c := if c[0] then Xor(Poly(), Shift(c)) else Shift(c);
      }
    }

    /** The CRC of a message, from the CRC of what came before p. */
    method Update(crc: word, p: seq<byte>) returns (r: word)
      requires Valid()
      ensures r == Not(Divide(Poly(), Not(crc), Unpack(p)))
    {
      r := Not(crc);
      for i := 0 to |p|
        invariant Divide(Poly(), r, Unpack(p[i..])) == Divide(Poly(), Not(crc), Unpack(p))
      {
        var x := Xor(r[..8], ToBits(p[i], 8));
        TableEntry(x, r, p[i], p[i..]);
        r := Xor(table[FromBits(x)], Pad(r[8..]));
      }
      r := Not(r);
    }
  }

  /** What one byte does to the remainder, through the table. */
  lemma {:induction false} TableEntry(x: seq<bool>, c: word, b: byte, data: seq<byte>)
    requires x == Xor(c[..8], ToBits(b, 8)) && data != [] && data[0] == b
    ensures FromBits(x) < 256
    ensures Divide(Poly(), c, Unpack(data))
         == Divide(Poly(), Xor(Steps(Poly(), ToBits(FromBits(x), 32), 8), Pad(c[8..])), Unpack(data[1..]))
  {
    ToFromBits(x);
    Pow2Values();
    ByteAtATime(Poly(), c, ToBits(b, 8));
    DivideConcat(Poly(), c, ToBits(b, 8), Unpack(data[1..]));
    ZeroExtend(FromBits(x), 8, 32);
  }

  lemma {:induction false} ZeroExtend(v: nat, m: nat, n: nat)
    requires v < Pow2(m) && m <= n
    ensures ToBits(v, n) == ToBits(v, m) + Repeat(false, n - m)
  {
    if m > 0 {
      ZeroExtend(v / 2, m - 1, n - 1);
    } else if n > 0 {
      ZeroExtend(0, 0, n - 1);
    }
  }

  /** Pieces of a message update the CRC to that of the whole. */
  lemma {:induction false} CrcConcat(a: seq<byte>, b: seq<byte>)
    ensures Crc32(a + b) == Not(Divide(Poly(), Not(Crc32(a)), Unpack(b)))
  {
    UnpackConcat(a, b);
    DivideConcat(Poly(), Not(Repeat(false, 32)), Unpack(a), Unpack(b));
    var d := Divide(Poly(), Not(Repeat(false, 32)), Unpack(a));
    assert Not(Not(d)) == d;
  }
}
