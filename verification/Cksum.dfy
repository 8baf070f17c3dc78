/** cksum's CRC: the high bit of each byte first, the length appended, by a table. */
module Cksum {
  import opened Bits
  import opened Crc

  /** A byte, its high bit first. */
  function High(b: byte): (s: seq<bool>)
    ensures |s| == 8
  {
    Reversed(ToBits(b, 8))
  }

  function HighBits(data: seq<byte>): seq<bool>
  {
    if data == [] then [] else High(data[0]) + HighBits(data[1..])
  }

  /** The octets of a number, the least significant first, up to the last that is not zero. */
  function Octets(n: nat): seq<byte>
  {
    if n == 0 then [] else
      var b: byte := n % 256;
      [b] + Octets(n / 256)
  }

  /** They are the number, and no more than it takes. */
  lemma {:induction false} OctetsAre(n: nat)
    ensures LowFirst(Octets(n)) == n && (Octets(n) != [] ==> Octets(n)[|Octets(n)| - 1] != 0)
  {
    if n > 0 {
      OctetsAre(n / 256);
      assert Octets(n)[1..] == Octets(n / 256);
    }
  }

  /** The checksum of the standard: the remainder of the message with its length after it,
      complemented. */
  function Checksum(data: seq<byte>): word
  {
    Not(Divide(Poly(), Zeros(), HighBits(data + Octets(|data|))))
  }

  lemma {:induction false} HighConcat(a: seq<byte>, b: seq<byte>)
    ensures HighBits(a + b) == HighBits(a) + HighBits(b)
  {
    hide High, HighBits;
    if a == [] {
      assert a + b == b;
      HighNone();
    } else {
      HighConcat(a[1..], b);
      assert (a + b)[1..] == a[1..] + b;
      HighFirst(a);
      HighFirst(a + b);
      Assoc(High(a[0]), HighBits(a[1..]), HighBits(b));
    }
  }

  lemma {:induction false} HighNone()
    ensures forall s: seq<bool> :: HighBits([]) + s == s
  {
  }

  lemma {:induction false} HighFirst(a: seq<byte>)
    requires a != []
    ensures HighBits(a) == High(a[0]) + HighBits(a[1..])
  {
  }

  /** The byte that eight bits are, the high bit first. */
  function Index(x: seq<bool>): (n: nat)
    requires |x| == 8
  {
    FromBits(Reversed(x))
  }

  lemma {:induction false} IndexIs(x: seq<bool>)
    requires |x| == 8
    ensures Index(x) < 256 && Same(High(Index(x)), x)
  {
    hide ToBits, FromBits, Pow2;
    ToFromBits(Reversed(x));
    Pow2Values();
    assert Reversed(Reversed(x)) == x;
  }

  /** What one byte does to the remainder, through the table. */
  lemma {:induction false} ByteStep(c: word, b: byte, data: seq<byte>, x: seq<bool>)
    requires data != [] && data[0] == b && Same(x, Xor(c[..8], High(b)))
    ensures Index(x) < 256
    ensures Divide(Poly(), c, HighBits(data))
         == Divide(Poly(), Xor(Entry(Index(x)), Pad(c[8..])), HighBits(data[1..]))
  {
    hide Divide, Steps, Xor, Pad, Poly, High, Index;
    IndexIs(x);
    ByteAtATime(Poly(), c, High(b));
    DivideConcat(Poly(), c, High(b), HighBits(data[1..]));
  }

  lemma {:induction false} StepIs(c: word, k: nat)
    requires k > 0
    ensures Steps(Poly(), c, k) == Steps(Poly(), if c[0] then Xor(Shift(c), Poly()) else Shift(c), k - 1)
  {
    XorCommutes(Shift(c), Poly());
  }

  lemma {:induction false} NoSteps(c: word)
    ensures Steps(Poly(), c, 0) == c
  {
  }

  /** What the table has for a byte: its eight steps from the high end. */
  function Entry(b: byte): word
  {
    Steps(Poly(), Pad(High(b)), 8)
  }

  ghost predicate Filled(t: seq<word>, n: nat)
  {
    n <= |t| && n <= 256 && forall b: byte :: b < n ==> t[b] == Entry(b)
  }

  lemma {:induction false} FilledNone(t: seq<word>)
    ensures Filled(t, 0)
  {
  }

  lemma {:induction false} FilledNext(t: seq<word>, i: byte, c: word)
    requires Filled(t, i) && i < |t| && c == Entry(i)
    ensures Filled(t[i := c], i + 1)
  {
    hide Entry;
  }

  class CksumTable {
    const table: array<word>

    ghost predicate Valid()
      reads table
    {
      table.Length == 256 && Filled(table[..], 256)
    }

    /** make_table */
    constructor ()
      ensures Valid() && fresh(table)
    {
      var t := CksumTable.MakeTable();
      table := t;
    }

    static method MakeTable() returns (t: array<word>)
      ensures fresh(t) && t.Length == 256 && Filled(t[..], 256)
    {
      hide Entry, Filled, Repeat;
      t := new word[256](_ => Zeros());
      FilledNone(t[..]);
      for i := 0 to 256
        invariant Filled(t[..], i)
      {
        var c := EightSteps(i);
        FilledNext(t[..], i, c);
        t[i] := c;
      }
    }

    static method EightSteps(i: byte) returns (c: word)
      ensures c == Entry(i)
    {
      hide Steps, Poly, Pad, High, Xor, Shift, Step;
      c := Pad(High(i));
      for k := 0 to 8
        invariant Steps(Poly(), c, 8 - k) == Steps(Poly(), Pad(High(i)), 8)
      {
        StepIs(c, 8 - k);
        c := if c[0] then Xor(Shift(c), Poly()) else Shift(c);
      }
      NoSteps(c);
    }

    /** A byte is taken into the remainder. */
    method Take(c: word, b: byte, ghost data: seq<byte>) returns (r: word)
      requires Valid() && data != [] && data[0] == b
      ensures Divide(Poly(), c, HighBits(data)) == Divide(Poly(), r, HighBits(data[1..]))
    {
      hide Divide, Steps, Poly;
      var x := Xor(c[..8], High(b));
      ByteStep(c, b, data, x);
      r := Xor(Pad(c[8..]), table[Index(x)]);
      XorCommutes(Pad(c[8..]), table[Index(x)]);
    }

    method TakeAll(c: word, p: seq<byte>) returns (r: word)
      requires Valid()
      ensures r == Divide(Poly(), c, HighBits(p))
    {
      hide Poly;
      r := c;
      assert p[0..] == p;
      for i := 0 to |p|
        invariant Divide(Poly(), r, HighBits(p[i..])) == Divide(Poly(), c, HighBits(p))
      {
        r := Take(r, p[i], p[i..]);
        assert p[i..][1..] == p[i + 1..];
      }
    }

    /** sum: the pieces that are read, then the octets of the length. */
    method Sum(pieces: seq<seq<byte>>) returns (crc: word, size: nat)
      requires Valid()
      ensures crc == Checksum(Whole(pieces)) && size == |Whole(pieces)|
    {
      hide Poly, Divide;
      var c := Repeat(false, 32);
      size := 0;
      WholeNone(pieces[..0]);
      for i := 0 to |pieces|
        invariant c == Divide(Poly(), Zeros(), HighBits(Whole(pieces[..i]))) && size == |Whole(pieces[..i])|
      {
        WholeNext(pieces, i);
        HighConcat(Whole(pieces[..i]), pieces[i]);
        DivideConcat(Poly(), Zeros(), HighBits(Whole(pieces[..i])), HighBits(pieces[i]));
        c := TakeAll(c, pieces[i]);
        size := size + |pieces[i]|;
      }
      assert pieces[..|pieces|] == pieces;
      HighConcat(Whole(pieces), Octets(size));
      DivideConcat(Poly(), Zeros(), HighBits(Whole(pieces)), HighBits(Octets(size)));
      c := TakeLength(c, size);
      crc := Not(c);
    }

    method TakeLength(c: word, size: nat) returns (r: word)
      requires Valid()
      ensures r == Divide(Poly(), c, HighBits(Octets(size)))
    {
      hide Poly, Divide;
      r := c;
      var len := size;
      while len > 0
        invariant len >= 0 && Divide(Poly(), r, HighBits(Octets(len))) == Divide(Poly(), c, HighBits(Octets(size)))
      {
        OctetsNext(len);
        r := Take(r, len % 256, Octets(len));
        len := len / 256;
      }
      NothingDivided(r);
    }
  }

  lemma {:induction false} NothingDivided(r: word)
    ensures Divide(Poly(), r, HighBits(Octets(0))) == r
  {
  }

  lemma {:induction false} OctetsNext(n: nat)
    requires n > 0
    ensures Octets(n) != [] && Octets(n)[0] == n % 256 && Octets(n)[1..] == Octets(n / 256)
  {
  }

  lemma {:induction false} XorCommutes(a: word, b: word)
    ensures Xor(a, b) == Xor(b, a)
  {
  }

  /** All that was read. */
  function Whole(pieces: seq<seq<byte>>): seq<byte>
  {
    if pieces == [] then [] else Whole(pieces[..|pieces| - 1]) + pieces[|pieces| - 1]
  }

  lemma {:induction false} WholeNone(pieces: seq<seq<byte>>)
    requires pieces == []
    ensures Whole(pieces) == [] && Divide(Poly(), Zeros(), HighBits([])) == Zeros()
  {
  }

  lemma {:induction false} WholeNext(pieces: seq<seq<byte>>, i: nat)
    requires i < |pieces|
    ensures Whole(pieces[..i + 1]) == Whole(pieces[..i]) + pieces[i]
  {
    assert pieces[..i + 1][..i] == pieces[..i];
  }
}
