/** .Z files come back as they were. */
module LzwRoundTrip {
  import opened Bits
  import opened LzwFormat
  import LzwCompress
  import LzwDecompress

  /** lzw_decompress undoes lzw_compress, for every input and every largest code size. */
  method RoundTrip(input: seq<byte>, bits: nat) returns (file: seq<byte>, r: Result)
    requires 9 <= bits <= 16
    ensures |file| >= 3 && file[0] == 0x1f && file[1] == 0x9d
    ensures r == Done(input)
  {
    hide *;
    file := LzwCompress.Compress(input, bits);
    r := LzwDecompress.Decompress(file[2..]);
  }

  /** The header asks for codes of at most nine bits, but they grow to ten when the table is full: the
      width changes when there are 512 codes, and the bound on it was passed before. */
  lemma {:induction false} NineBitsBecomeTen()
    ensures Settle(Advance(StartWidth()), 9, 512, false).n == 10
    ensures forall bits: nat, w: Width :: 10 <= bits <= 16 && GoodWidth(w, bits) ==> w.n <= bits
  {
    Pow2Values();
    forall bits: nat, w: Width | 10 <= bits <= 16 && GoodWidth(w, bits)
      ensures w.n <= bits
    {
    }
  }
}
