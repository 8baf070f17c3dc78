/** Which files gzip_decompress takes without an error (RFC 1952, section 2.2): members, each with a
    header, blocks, bits up to a whole byte, and the CRC and the length of what the blocks mean. */
module GzipForm {
  import opened Bits
  import opened Crc
  import opened Deflate
  import opened Tokens
  import opened BlockStream
  import opened GzipHeader
  import opened GzipMember
  import opened DeflateForm
  import opened BlocksForm

  datatype Form = Form(header: Fields, blocks: seq<Body>, pad: seq<bool>)

  function Content(m: Form): seq<byte>
  {
    BlocksOut(m.blocks, [])
  }

  function MemberBits(m: Form): seq<bool>
  {
    if !FieldsOk(m.header) || m.blocks == [] then []
    else Unpack(FieldBytes(m.header)) + (BlocksBits(m.blocks) + (m.pad + TrailerBits(Content(m))))
  }

  /** A member, when so many bits, which are whole bytes, come after it. */
  ghost predicate FormOk(m: Form, after: nat)
  {
    after % 8 == 0 && FieldsOk(m.header) && BlocksOk(m.blocks, [], |m.pad| + (64 + after)) && |m.pad| < 8
  }

  function Magic(): (s: seq<bool>)
    ensures |s| == 16
  {
    Unpack([0x1f, 0x8b])
  }

  /** One member after the other, the magic number before each but the first. */
  function FileBits(ms: seq<Form>): seq<bool>
    requires ms != []
  {
    MemberBits(ms[0]) + if |ms| == 1 then [] else Magic() + FileBits(ms[1..])
  }

  ghost predicate FileOk(ms: seq<Form>, after: nat)
  {
    ms != [] && if |ms| == 1 then FormOk(ms[0], after)
                else FormOk(ms[0], 16 + |FileBits(ms[1..])| + after) && FileOk(ms[1..], after)
  }

  function FileOut(ms: seq<Form>): seq<byte>
  {
    if ms == [] then [] else Content(ms[0]) + FileOut(ms[1..])
  }

  // ---- the trailer ----

  /** Just the CRC and the length are accepted. */
  lemma {:induction false} TrailerIs(s: seq<bool>, data: seq<byte>)
    ensures Trailer(s, data) == NoError <==> |s| >= 64 && s[..64] == TrailerBits(data)
  {
    hide Crc32;
    if |s| >= 64 {
      var n := |data| % 0x1_0000_0000;
      Pow2Of32();
      FromToBits(n, 32);
      ToFromBits(s[32..][..32]);
      assert s[32..][..32] == s[32..64] && s[..64] == s[..32] + s[32..64];
      assert TrailerBits(data)[..32] == Crc32(data) && TrailerBits(data)[32..] == ToBits(n, 32);
    }
  }

  // ---- the magic number ----

  lemma {:induction false} MagicIs(s: seq<bool>)
    ensures NextMember(s) == if s == [] then End else if Magic() <= s then Member(s[16..]) else Garbage
  {
    if |s| >= 16 {
      var a := ByteAhead(s, s[8..]);
      var b := ByteAhead(s[8..], s[8..][8..]);
      assert s[8..][8..] == s[16..];
      OneThen(a, [b], []);
      OneThen(b, [], []);
      MagicBytes(a, b, s);
    }
  }

  lemma {:induction false} MagicBytes(a: byte, b: byte, s: seq<bool>)
    requires |s| >= 16 && Same(s, ToBits(a, 8) + s[8..]) && Same(s[8..], ToBits(b, 8) + s[8..][8..])
    ensures Magic() <= s <==> a == 0x1f && b == 0x8b
  {
    var t := Unpack([a, b]);
    assert t == ToBits(a, 8) + ToBits(b, 8) by {
      assert [a, b][1..] == [b];
      UnpackOne(b);
    }
    assert s[..16] == t;
    if Magic() <= s {
      UnpackInjective([a, b], [0x1f, 0x8b]);
      assert [a, b][0] == a && [a, b][1] == b;
    }
  }

  // ---- a member ----

  /** A member is read as its content, and then what comes after it. */
  lemma {:induction false} FormRead(m: Form, s: seq<bool>, rest: seq<bool>, out: seq<byte>)
    requires FormOk(m, |rest|) && Same(s, MemberBits(m) + rest)
    ensures Same(Gunzip(s, out), AfterMember(rest, out + Content(m)))
  {
    hide Gunzip, FieldsOk, FieldBytes, BlocksOk, BlocksBits, BlocksOut, TrailerBits, Unpack, Header, Trailer, Blocks, Align, AfterMember, IsHeader;
    var hdr, data := FieldBytes(m.header), Content(m);
    NotNone(m.blocks, |m.pad| + (64 + |rest|));
    TrailerSize(data);
    var s1, s2, s3 := Split4(s, Unpack(hdr), BlocksBits(m.blocks), m.pad, TrailerBits(data), rest);
    HeaderOf(m.header);
    HeaderReads(hdr, s, s1);
    BlocksRead(m.blocks, s1, s2, []);
    var s4 := TrailerBits(data) + rest;
    AlignedAfter(m.pad, s4, s2);
    ReadTrailer(data, s4, rest);
    MemberParts(s, s1, s2, s4, rest, data, out);
  }

  lemma {:induction false} HeaderOf(h: Fields)
    requires FieldsOk(h)
    ensures IsHeader(FieldBytes(h))
  {
  }

  lemma {:induction false} NotNone(fs: seq<Body>, after: nat)
    requires BlocksOk(fs, [], after)
    ensures fs != []
  {
  }

  /** The parts of a member that is read without an error. */
  lemma {:induction false} MemberRead(s: seq<bool>, out: seq<byte>) returns (s1: seq<bool>, s2: seq<bool>, data: seq<byte>)
    requires Gunzip(s, out).error == NoError
    ensures Same(Header(s), HeaderOk(s1)) && |s1| < |s| && Same(Blocks(s1, []), Ok(s2, data)) && |s2| < |s|
    ensures Trailer(Align(s2), data) == NoError && |Align(s2)| >= 64 && Same(Gunzip(s, out), AfterMember(Align(s2)[64..], out + data))
  {
    var h := Header(s);
    s1 := h.rest;
    var r := Blocks(s1, []);
    s2, data := r.rest, r.out;
    hide Header, Blocks, Align, Trailer;
  }

  /** What is read as a member without an error is one of these. */
  lemma {:induction false} FormIs(s: seq<bool>, out: seq<byte>) returns (m: Form, rest: seq<bool>)
    requires Gunzip(s, out).error == NoError && |s| % 8 == 0
    ensures FormOk(m, |rest|) && |rest| < |s| && Same(s, MemberBits(m) + rest)
    ensures Same(Gunzip(s, out), AfterMember(rest, out + Content(m)))
  {
    hide Gunzip, FieldsOk, FieldBytes, BlocksOk, BlocksBits, BlocksOut, TrailerBits, Unpack, Header, Trailer, Blocks, Align, AfterMember, IsHeader;
    var s1, s2, data := MemberRead(s, out);
    var hdr := HeaderIs(s, s1);
    var h := FieldsOfHeader(hdr);
    var blocks := BlocksAre(s1, [], s2, data);
    NotNone(blocks, |s2|);
    var s3 := Align(s2);
    var pad := AlignIs(s2, s3);
    TrailerIs(s3, data);
    TrailerSize(data);
    rest := s3[64..];
    assert s3 == TrailerBits(data) + rest;
    m := Form(h, blocks, pad);
    Assoc(Unpack(hdr), BlocksBits(blocks) + (pad + TrailerBits(data)), rest);
    Assoc(BlocksBits(blocks), pad + TrailerBits(data), rest);
    Assoc(pad, TrailerBits(data), rest);
    WholeRest(|s3|, 8, |rest|);
  }

  lemma {:induction false} FieldsOfHeader(hdr: seq<byte>) returns (h: Fields)
    requires IsHeader(hdr)
    ensures FieldsOk(h) && hdr == FieldBytes(h)
  {
    hide FieldBytes, FieldsOk;
    h :| FieldsOk(h) && hdr == FieldBytes(h);
  }

  // ---- a file ----

  lemma {:induction false} AfterIs(s: seq<bool>, out: seq<byte>)
    ensures AfterMember(s, out) == if s == [] then Result(NoError, out) else if Magic() <= s then Gunzip(s[16..], out) else Result(Some(TrailingGarbage), out)
  {
    hide Gunzip, Magic;
    MagicIs(s);
  }

  /** All members of a file are read, and then it ends, or there is garbage. */
  lemma {:induction false} FileRead(ms: seq<Form>, s: seq<bool>, rest: seq<bool>, out: seq<byte>)
    requires FileOk(ms, |rest|) && !(Magic() <= rest) && Same(s, FileBits(ms) + rest)
    ensures Gunzip(s, out) == Result(if rest == [] then NoError else Some(TrailingGarbage), out + FileOut(ms))
    decreases |ms|
  {
    hide Gunzip, FormOk, MemberBits, Content, Magic;
    var c := Content(ms[0]);
    if |ms| == 1 {
      assert FileBits(ms) == MemberBits(ms[0]);
      FormRead(ms[0], s, rest, out);
      AfterIs(rest, out + c);
      assert ms[1..] == [] && c + [] == c;
    } else {
      var more := FileBits(ms[1..]) + rest;
      var t := Magic() + more;
      Assoc(MemberBits(ms[0]), Magic() + FileBits(ms[1..]), rest);
      Assoc(Magic(), FileBits(ms[1..]), rest);
      FormRead(ms[0], s, t, out);
      AfterIs(t, out + c);
      assert t[16..] == more;
      FileRead(ms[1..], more, rest, out + c);
      assert out + c + FileOut(ms[1..]) == out + FileOut(ms);
    }
  }

  /** What is read as a file without an error is one of these. */
  lemma {:induction false} FileIs(s: seq<bool>, out: seq<byte>, data: seq<byte>) returns (ms: seq<Form>)
    requires Gunzip(s, out) == Result(NoError, data) && |s| % 8 == 0
    ensures ms != [] && FileOk(ms, 0) && Same(s, FileBits(ms)) && Same(data, out + FileOut(ms))
    decreases |s|
  {
    hide Gunzip, FormOk, MemberBits, Content, Magic;
    var m, rest := FormIs(s, out);
    AfterIs(rest, out + Content(m));
    if rest == [] {
      ms := [m];
      assert [m][1..] == [] && Content(m) + [] == Content(m);
      AppendNone(MemberBits(m), rest);
    } else {
      var t := rest[16..];
      assert rest == Magic() + t;
      WholeAfter(m, |rest|);
      var more := FileIs(t, out + Content(m), data);
      ms := [m] + more;
      assert ms[1..] == more;
      assert out + Content(m) + FileOut(more) == out + FileOut(ms);
    }
  }

  lemma {:induction false} WholeAfter(m: Form, n: nat)
    requires FormOk(m, n)
    ensures n % 8 == 0 && (n - 16) % 8 == 0
  {
    hide FieldsOk, BlocksOk;
  }

  /** gzip_decompress takes just the files of this form without an error, and gives what they mean. */
  lemma {:induction false} Accepted(file: seq<byte>, data: seq<byte>)
    ensures Gunzip(Unpack(file), []) == Result(NoError, data)
      <==> exists ms :: ms != [] && FileOk(ms, 0) && Unpack(file) == FileBits(ms) && data == FileOut(ms)
  {
    hide Gunzip, FileOk, FileBits, FileOut, Unpack;
    if Gunzip(Unpack(file), []) == Result(NoError, data) {
      var ms := FileIs(Unpack(file), [], data);
      assert [] + FileOut(ms) == FileOut(ms);
    }
    forall ms | ms != [] && FileOk(ms, 0) && Unpack(file) == FileBits(ms) && data == FileOut(ms)
      ensures Gunzip(Unpack(file), []) == Result(NoError, data)
    {
      AppendNone(FileBits(ms), []);
      FileRead(ms, Unpack(file), [], []);
      assert [] + FileOut(ms) == FileOut(ms);
    }
  }

  // ---- errors ----

  /** A member of which the CRC is another is refused, and so is one of which just the length is; what
      was made of it has been written. */
  lemma {:induction false} OtherTrailer(m: Form, t: seq<bool>, rest: seq<bool>, s: seq<bool>, out: seq<byte>)
    requires FormOk(m, |rest|) && |t| == 64 && t != TrailerBits(Content(m))
    requires Same(s, Unpack(FieldBytes(m.header)) + (BlocksBits(m.blocks) + (m.pad + (t + rest))))
    ensures Gunzip(s, out) == Result(Some(if t[..32] != Crc32(Content(m)) then CrcError else LengthError), out + Content(m))
  {
    hide Gunzip, FieldsOk, FieldBytes, BlocksOk, BlocksBits, BlocksOut, TrailerBits, Unpack, Header, Trailer, Blocks, Align, IsHeader, Crc32;
    var hdr, data := FieldBytes(m.header), Content(m);
    NotNone(m.blocks, |m.pad| + (64 + |rest|));
    var s2, s4 := m.pad + (t + rest), t + rest;
    HeaderOf(m.header);
    HeaderReads(hdr, s, BlocksBits(m.blocks) + s2);
    BlocksRead(m.blocks, BlocksBits(m.blocks) + s2, s2, []);
    AlignedAfter(m.pad, s4, s2);
    assert s4[..64] == t && s4[..32] == t[..32];
    TrailerIs(s4, data);
    TrailerError(s4, data);
    RefusedByParts(s, BlocksBits(m.blocks) + s2, s2, s4, data, out);
  }

  lemma {:induction false} TrailerError(s: seq<bool>, data: seq<byte>)
    requires |s| >= 64 && Trailer(s, data) != NoError
    ensures Trailer(s, data) == Some(if s[..32] != Crc32(data) then CrcError else LengthError)
  {
  }

  lemma {:induction false} RefusedByParts(s: seq<bool>, s1: seq<bool>, s2: seq<bool>, s3: seq<bool>, data: seq<byte>, out: seq<byte>)
    requires Same(Header(s), HeaderOk(s1)) && Same(Blocks(s1, []), Ok(s2, data)) && Same(Align(s2), s3) && Trailer(s3, data) != NoError
    ensures Gunzip(s, out) == Result(Some(Trailer(s3, data).error), out + data)
  {
  }
}
