/** gzip members (RFC 1952, section 2.3): header, blocks, trailer; and
    what gzip_decompress makes of them, alone or one after another. */
module GzipMember {
  import opened Bits
  import opened Crc
  import opened Deflate
  import opened Tokens
  import opened BlockStream
  import opened GzipHeader

  /** What follows a member decides how decompression ends; out is what the members so far give. */
  function AfterMember(rest: seq<bool>, out: seq<byte>): Result
  {
    match NextMember(rest)
    case End => Result(NoError, out)
    case Garbage => Result(Some(TrailingGarbage), out)
    case Member(s) => Gunzip(s, out)
  }

  /** After its magic number, the member is decompressed to data, whatever comes before and after. */
  ghost predicate MemberHolds(body: seq<bool>, data: seq<byte>)
  {
    forall rest: seq<bool>, out: seq<byte> {:trigger Gunzip(body + rest, out)} ::
      |rest| % 8 == 0 ==> Same(Gunzip(body + rest, out), AfterMember(rest, out + data))
  }

  // ---- the trailer ----

  /** The trailer of data. */
  function TrailerBits(data: seq<byte>): seq<bool>
  {
    Crc32(data) + ToBits(|data| % 0x1_0000_0000, 32)
  }

  // ---- the form of a member ----

  /** The magic number, the rest of a header, blocks that are read as data, bits up to a whole
      byte, and the CRC and the length of data. */
  ghost predicate HasParts(m: seq<byte>, data: seq<byte>, hdr: seq<byte>, blocks: seq<bool>, pad: seq<bool>)
  {
    && |m| >= 2 && m[0] == 0x1f && m[1] == 0x8b
    && IsHeader(hdr) && Reads(blocks, true, data) && |pad| < 8 && (|blocks| + |pad|) % 8 == 0
    && Same(Unpack(m[2..]), Unpack(hdr) + (blocks + (pad + TrailerBits(data))))
  }

  /** Bytes that are a member for data. */
  ghost predicate IsMember(m: seq<byte>, data: seq<byte>)
  {
    exists hdr, blocks, pad :: HasParts(m, data, hdr, blocks, pad)
  }

  lemma {:induction false} ReadTrailer(data: seq<byte>, s: seq<bool>, rest: seq<bool>)
    requires Same(s, TrailerBits(data) + rest)
    ensures Trailer(s, data) == NoError && Same(s[64..], rest)
  {
    var n := |data| % 0x1_0000_0000;
    var c := Crc32(data);
    Assoc(c, ToBits(n, 32), rest);
    assert s[..32] == c && s[32..] == ToBits(n, 32) + rest;
    Pow2Of32();
    TakeBack(n, 32, s[32..], rest);
    assert s[64..] == rest;
  }

  lemma {:induction false} Pow2Of32()
    ensures Pow2(32) == 0x1_0000_0000
  {
    Pow2Values();
    Pow2Add(16, 16);
  }

  // ---- a whole member ----

  lemma {:induction false} ReadMember(hdr: seq<byte>, blocks: seq<bool>, pad: seq<bool>, data: seq<byte>, s: seq<bool>, rest: seq<bool>, out: seq<byte>)
    requires IsHeader(hdr) && Reads(blocks, true, data) && (|blocks| + |pad|) % 8 == 0 && |pad| < 8 && |rest| % 8 == 0
    requires Same(s, Unpack(hdr) + (blocks + (pad + (TrailerBits(data) + rest))))
    ensures Same(Gunzip(s, out), AfterMember(rest, out + data))
  {
    hide Gunzip, Reads, TrailerBits, Unpack, IsHeader, Header, Trailer, Blocks;
    TrailerSize(data);
    var s4 := TrailerBits(data) + rest;
    var s3 := pad + s4;
    var s2 := blocks + s3;
    HeaderReads(hdr, s, s2);
    WholeBytes(|blocks|, |pad|, |rest|);
    ReadLastBlocks(blocks, data, s2, s3);
    AlignedAfter(pad, s4, s3);
    ReadTrailer(data, s4, rest);
    MemberParts(s, s2, s3, s4, rest, data, out);
  }

  lemma {:induction false} Regroup(a: seq<bool>, b: seq<bool>, c: seq<bool>, d: seq<bool>, rest: seq<bool>, s: seq<bool>)
    requires Same(s, a + (b + (c + d)))
    ensures Same(s + rest, a + (b + (c + (d + rest))))
  {
    Assoc(a, b + (c + d), rest);
    Assoc(b, c + d, rest);
    Assoc(c, d, rest);
  }

  /** What has the form of a member is decompressed to its content, whatever comes before and after. */
  lemma {:induction false} MemberDecodes(m: seq<byte>, data: seq<byte>)
    requires IsMember(m, data)
    ensures |m| >= 2 && m[0] == 0x1f && m[1] == 0x8b && MemberHolds(Unpack(m[2..]), data)
  {
    hide Reads, Gunzip, TrailerBits, IsHeader;
    var hdr, blocks, pad :| HasParts(m, data, hdr, blocks, pad);
    var body := Unpack(m[2..]);
    forall rest: seq<bool>, out: seq<byte> | |rest| % 8 == 0
      ensures Same(Gunzip(body + rest, out), AfterMember(rest, out + data))
    {
      Regroup(Unpack(hdr), blocks, pad, TrailerBits(data), rest, body);
      ReadMember(hdr, blocks, pad, data, body + rest, rest, out);
    }
  }

  lemma {:induction false} TrailerSize(data: seq<byte>)
    ensures |TrailerBits(data)| == 64
  {
  }

  lemma {:induction false} WholeBytes(a: nat, b: nat, c: nat)
    requires (a + b) % 8 == 0 && c % 8 == 0
    ensures (a + (b + (64 + c))) % 8 == 0 && (64 + c) % 8 == 0
  {
  }

  lemma {:induction false} ReadLastBlocks(blocks: seq<bool>, data: seq<byte>, s: seq<bool>, rest: seq<bool>)
    requires Reads(blocks, true, data) && (|blocks| + |rest|) % 8 == 0 && Same(s, blocks + rest)
    ensures Same(Blocks(s, []), Ok(rest, data))
  {
    ReadsAt(blocks, true, data, rest);
  }

  lemma {:induction false} AlignedAfter(pad: seq<bool>, s: seq<bool>, t: seq<bool>)
    requires Same(t, pad + s) && |pad| < 8 && |s| % 8 == 0
    ensures Same(Align(t), s)
  {
    assert |t| % 8 == |pad|;
    assert t[|pad|..] == s;
  }

  lemma {:induction false} MemberParts(s: seq<bool>, s2: seq<bool>, s3: seq<bool>, s4: seq<bool>, rest: seq<bool>, data: seq<byte>, out: seq<byte>)
    requires Same(Header(s), HeaderOk(s2)) && Same(Blocks(s2, []), Ok(s3, data)) && Same(Align(s3), s4)
    requires Trailer(s4, data) == NoError && Same(s4[64..], rest)
    ensures Same(Gunzip(s, out), AfterMember(rest, out + data))
  {
  }
}
