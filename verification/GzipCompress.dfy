/** gzip_compress: any input at any level becomes a member that holds it. */
module GzipCompress {
  import opened Bits
  import opened Crc
  import opened BitWriter
  import opened BlockStream
  import opened SymbolBuffer
  import opened FlushBlock
  import opened BlockMaker
  import opened Window
  import opened Chains
  import opened Matches
  import opened Compressor
  import opened Options
  import opened GzipHeader
  import opened GzipMember

  // ---- the header and the trailer ----

  lemma {:induction false} FourBytes(v: nat, b: seq<byte>)
    requires v <= 0xffff_ffff && b == [v % 256, v / 0x100 % 256, v / 0x1_0000 % 256, v / 0x100_0000 % 256]
    ensures LowFirst(b) == v
  {
    LastByte(v / 0x100_0000, b[3..]);
    MoreLow(v / 0x1_0000, b[2..]);
    MoreLow(v / 0x100, b[1..]);
    MoreLow(v, b);
  }

  lemma {:induction false} LastByte(v: nat, b: seq<byte>)
    requires v < 0x100 && |b| == 1 && b[0] == v % 256
    ensures LowFirst(b) == v
  {
    assert b[1..] == [];
  }

  lemma {:induction false} MoreLow(v: nat, b: seq<byte>)
    requires b != [] && b[0] == v % 256 && LowFirst(b[1..]) == v / 256
    ensures LowFirst(b) == v
  {
  }

  /** The header: the modification time if it fits, a hint at the level, and Unix. */
  function HeaderBytes(level: nat, mtime: int): (hdr: seq<byte>)
    ensures |hdr| == 10 && hdr[0] == 0x1f && hdr[1] == 0x8b && hdr[2] == 8 && hdr[3] == 0
    ensures LowFirst(hdr[4..8]) == if 0 < mtime <= 0xffff_ffff then mtime else 0
    ensures (hdr[8] == 2 <==> level == 9) && (hdr[8] == 4 <==> level == 1) && hdr[8] in {0, 2, 4} && hdr[9] == 3
  {
    var mt := if 0 < mtime <= 0xffff_ffff then mtime else 0;
    var time: seq<byte> := [mt % 256, mt / 0x100 % 256, mt / 0x1_0000 % 256, mt / 0x100_0000 % 256];
    FourBytes(mt, time);
    var hdr: seq<byte> := [0x1f, 0x8b, 8, 0] + time + [if level == 9 then 2 else if level == 1 then 4 else 0, 3];
    assert hdr[4..8] == time;
    hdr
  }

  lemma {:induction false} ByteOfBits(s: seq<bool>)
    requires |s| == 8
    ensures FromBits(s) < 256 && Same(ToBits(FromBits(s), 8), s)
  {
    ToFromBits(s);
    Pow2Values();
  }

  lemma {:induction false} SplitByte(v: nat, k: nat)
    ensures Same(ToBits(v, 8 + k), ToBits(v % 256, 8) + ToBits(v / 256, k))
  {
    Pow2Values();
    ToBitsConcat(v % 256, 8, v / 256, k);
  }

  lemma {:induction false} LowBits(v: nat, n: nat, r: nat, q: nat, p: nat)
    requires p == Pow2(n) && v == r + p * q && r < p
    ensures Same(ToBits(v, n), ToBits(r, n))
  {
    hide ToBits, Pow2;
    ToBitsConcat(r, n, q, 0);
    AppendNone(ToBits(r, n), ToBits(q, 0));
  }

  lemma {:induction false} MoreBytes(a: seq<byte>, b: byte, s: seq<bool>, t: seq<bool>, u: seq<bool>)
    requires Same(s, Unpack(a) + t) && Same(t, ToBits(b, 8) + u)
    ensures Same(s, Unpack(a + [b]) + u)
  {
    UnpackConcat(a, [b]);
    UnpackOne(b);
    Assoc(Unpack(a), ToBits(b, 8), u);
  }

  /** The CRC, low byte first. */
  method CrcBytes(crc: word) returns (a: seq<byte>)
    ensures |a| == 4 && Same(crc, Unpack(a))
  {
    a := [];
    assert crc == Unpack([]) + crc[0..];
    for i := 0 to 4
      invariant |a| == i && Same(crc, Unpack(a) + crc[8 * i..])
    {
      var s := crc[8 * i..8 * i + 8];
      ByteOfBits(s);
      assert crc[8 * i..] == s + crc[8 * (i + 1)..];
      MoreBytes(a, FromBits(s), crc, crc[8 * i..], crc[8 * (i + 1)..]);
      a := a + [FromBits(s)];
    }
    assert Unpack(a) + crc[32..] == Unpack(a);
  }

  /** The 32 low bits of the size, low byte first. */
  method SizeBytes(size: nat) returns (b: seq<byte>)
    ensures |b| == 4 && Same(Unpack(b), ToBits(size % 0x1_0000_0000, 32))
  {
    b := [];
    var sz := size;
    assert ToBits(size, 32) == Unpack([]) + ToBits(size, 32);
    for i := 0 to 4
      invariant |b| == i && Same(ToBits(size, 32), Unpack(b) + ToBits(sz, 32 - 8 * i))
    {
      SplitByte(sz, 24 - 8 * i);
      MoreBytes(b, sz % 256, ToBits(size, 32), ToBits(sz, 32 - 8 * i), ToBits(sz / 256, 24 - 8 * i));
      b := b + [sz % 256];
      sz := sz / 256;
    }
    assert Unpack(b) + ToBits(sz, 0) == Unpack(b);
    Pow2Of32();
    LowBits(size, 32, size % 0x1_0000_0000, size / 0x1_0000_0000, 0x1_0000_0000);
  }

  method TrailerBytes(crc: word, size: nat, ghost data: seq<byte>) returns (tr: seq<byte>)
    requires Same(crc, Crc32(data)) && size == |data|
    ensures Same(Unpack(tr), TrailerBits(data))
  {
    var a := CrcBytes(crc);
    var b := SizeBytes(size);
    tr := a + b;
    UnpackConcat(a, b);
  }

  // ---- a whole member ----

  /** Bytes whose first bits are those of other bytes begin with them. */
  lemma {:induction false} PrefixBytes(m: seq<byte>, hdr: seq<byte>, x: seq<bool>)
    requires Same(Unpack(m), Unpack(hdr) + x)
    ensures |hdr| <= |m| && Same(m[..|hdr|], hdr) && Same(Unpack(m[|hdr|..]), x)
  {
    assert 8 * |m| == 8 * |hdr| + |x|;
    var a, b := m[..|hdr|], m[|hdr|..];
    assert m == a + b;
    UnpackConcat(a, b);
    assert Unpack(m)[..8 * |hdr|] == Unpack(a) == Unpack(hdr);
    assert Unpack(m)[8 * |hdr|..] == Unpack(b) == x;
    UnpackInjective(a, hdr);
  }

  lemma {:induction false} AfterMagic(m: seq<byte>, hdr: seq<byte>, x: seq<bool>)
    requires |hdr| == 10 && Same(Unpack(m), Unpack(hdr) + x)
    ensures |m| >= 10 && m[..10] == hdr && Same(Unpack(m[2..]), Unpack(hdr[2..]) + x)
  {
    PrefixBytes(m, hdr, x);
    assert m[2..] == hdr[2..] + m[10..];
    UnpackConcat(hdr[2..], m[10..]);
  }

  lemma {:induction false} WholeMember(m: seq<byte>, hdr: seq<byte>, pre: seq<bool>, blocks: seq<bool>, pad: seq<bool>, tr: seq<bool>,
                                       data: seq<byte>, s1: seq<bool>, s2: seq<bool>, s3: seq<bool>)
    requires |hdr| == 10 && hdr[0] == 0x1f && hdr[1] == 0x8b && hdr[2] == 8 && hdr[3] == 0 && Same(pre, Unpack(hdr))
    requires Reads(blocks, true, data) && |pad| == Padding(|s1|) && Same(tr, TrailerBits(data))
    requires Same(s1, pre + blocks) && Same(s2, s1 + pad) && Same(s3, s2 + tr) && Same(s3, Unpack(m))
    ensures HasParts(m, data, hdr[2..], blocks, pad) && |pad| == Padding(|blocks|) && |m| >= 10 && m[..10] == hdr
  {
    hide Reads, TrailerBits, IsHeader;
    Assoc(pre, blocks, pad);
    Assoc(pre, blocks + pad, tr);
    AfterMagic(m, hdr, (blocks + pad) + tr);
    Assoc(blocks, pad, tr);
    PaddingShift(80, |blocks|);
    PaddedWhole(|blocks|);
    NoFields(hdr[2..]);
  }

  /** A header without fields. */
  lemma {:induction false} NoFields(hdr: seq<byte>)
    requires |hdr| == 8 && hdr[0] == 8 && hdr[1] == 0
    ensures IsHeader(hdr)
  {
    var h := Fields(false, hdr[2..], None, None, None, None);
    assert FieldBytes(h) == hdr;
  }

  lemma {:induction false} PaddedWhole(n: nat)
    ensures (n + Padding(n)) % 8 == 0
  {
  }

  /** What is left in the block in the end. */
  method LastBlock(wn: Window, bm: BlockMaker, avail: bool) returns (ghost blocks: seq<bool>)
    requires wn.Valid() && bm.Valid() && wn.base + wn.strstart == |wn.input| && (avail ==> wn.strstart >= 1)
    requires Covers(wn, bm, |wn.input| - Waiting(avail)) && bm.b.nsym < SYMS
    modifies bm, bm.w, bm.b, bm.b.symDist, bm.b.symLc, bm.b.litFreq, bm.b.distFreq
    ensures bm.w.Valid() && StoredSoFar(bm.w.Stream(), bm.pre, blocks, true, wn.input)
  {
    if avail {
      TallyLiteral(wn, bm);
    }
    blocks := FinishBlock(wn, bm);
  }

  method FinishBlock(wn: Window, bm: BlockMaker) returns (ghost blocks: seq<bool>)
    requires wn.Valid() && bm.Valid() && wn.base + wn.strstart == |wn.input| && Covers(wn, bm, |wn.input|)
    modifies bm.w, bm.b, bm.b.litFreq, bm.b.distFreq
    ensures bm.w.Valid() && StoredSoFar(bm.w.Stream(), bm.pre, blocks, true, wn.input)
  {
    BlockSize(wn, bm, |wn.input|);
    var raw := wn.win[wn.blockStart..wn.blockStart + bm.b.symBytes];
    RawPart(wn.win[..], wn.strstart + wn.lookahead, wn.input, wn.base, wn.blockStart, wn.blockStart + bm.b.symBytes, raw, bm.done, bm.cur);
    assert wn.input[..|wn.input|] == wn.input;
    blocks := bm.Finish(raw);
  }

  /** align_bits and the trailer. */
  method Close(w: BitWriter, crc: word, size: nat, ghost hdr: seq<byte>, ghost pre: seq<bool>, ghost blocks: seq<bool>, ghost data: seq<byte>)
    returns (out: seq<byte>)
    requires w.Valid() && StoredSoFar(w.Stream(), pre, blocks, true, data) && Same(crc, Crc32(data)) && size == |data|
    requires |hdr| == 10 && hdr[0] == 0x1f && hdr[1] == 0x8b && hdr[2] == 8 && hdr[3] == 0 && Same(pre, Unpack(hdr))
    modifies w
    ensures HasParts(out, data, hdr[2..], blocks, ToBits(0, Padding(|blocks|))) && |out| >= 10 && out[..10] == hdr
  {
    ghost var s1 := w.Stream();
    w.AlignBits();
    ghost var s2 := w.Stream();
    var tr := TrailerBytes(crc, size, data);
    w.PutBytes(tr);
    out := w.out;
    AppendNone(Unpack(out), ToBits(w.obits, 0));
    WholeMember(out, hdr, pre, blocks, ToBits(0, Padding(|s1|)), Unpack(tr), data, s1, s2, w.Stream());
  }

  /** The header is written and no block. */
  method Begin(hdr: seq<byte>) returns (bm: BlockMaker)
    ensures bm.Valid() && bm.cur == [] && bm.done == [] && bm.b.nsym == 0 && Same(bm.pre, Unpack(hdr))
    ensures fresh(bm) && fresh(bm.w) && fresh(bm.b) && fresh(bm.b.symDist) && fresh(bm.b.symLc) && fresh(bm.b.litFreq) && fresh(bm.b.distFreq)
  {
    var w := new BitWriter();
    w.PutBytes(hdr);
    AppendNone(Unpack(hdr), ToBits(w.obits, 0));
    assert [] + hdr == hdr;
    bm := new BlockMaker(w);
  }

  /** Nothing has been read. */
  method Prepare(input: seq<byte>, hdr: seq<byte>) returns (wn: Window, ch: Chains, bm: BlockMaker)
    ensures Ready(wn, ch, bm, Lazy(2, 0, false)) && wn.input == input && wn.ipos == 0 && Same(bm.pre, Unpack(hdr))
    ensures fresh(wn) && fresh(wn.win) && fresh(ch) && fresh(ch.head) && fresh(ch.prev)
    ensures fresh(bm) && fresh(bm.w) && fresh(bm.b) && fresh(bm.b.symDist) && fresh(bm.b.symLc) && fresh(bm.b.litFreq) && fresh(bm.b.distFreq)
  {
    hide Shows, HeadsOk, PrevsOk, Below, IsMatch, BlockMaker.Written, Unpack;
    bm := Begin(hdr);
    wn := new Window(input);
    ch := new Chains();
    assert input[..0] == [];
  }

  /** gzip_compress. */
  method Compress(input: seq<byte>, level: nat, mtime: int) returns (out: seq<byte>)
    requires 1 <= level <= 9
    ensures IsMember(out, input) && |out| >= 10 && out[..10] == HeaderBytes(level, mtime)
  {
    hide *;
    var table := new CrcTable();
    var hdr := HeaderBytes(level, mtime);
    var wn, ch, bm := Prepare(input, hdr);
    var crc, avail := Run(wn, ch, bm, table, Config(level));
    SumsAll(crc, input);
    ghost var blocks := LastBlock(wn, bm, avail);
    out := Close(bm.w, crc, |input|, hdr, bm.pre, blocks, input);
    PartsOfMember(out, input, hdr[2..], blocks, ToBits(0, Padding(|blocks|)));
  }

  lemma {:induction false} PartsOfMember(m: seq<byte>, data: seq<byte>, hdr: seq<byte>, blocks: seq<bool>, pad: seq<bool>)
    requires HasParts(m, data, hdr, blocks, pad)
    ensures IsMember(m, data)
  {
  }

  lemma {:induction false} SumsAll(crc: word, input: seq<byte>)
    requires Sums(crc, input, |input|)
    ensures Same(crc, Crc32(input))
  {
    assert input[..|input|] == input;
  }
}
