/** The header of a gzip member (RFC 1952, section 2.3): what its bytes may be, and that these and no
    others are read as one. */
module GzipHeader {
  import opened Bits
  import opened Options
  import opened Deflate
  import opened Tokens

  /** What follows the magic number: a mark for text, six bytes for time, level and system, and fields
      that may be missing. */
  datatype Fields = Fields(text: bool, fixed: seq<byte>, extra: Option<seq<byte>>, name: Option<seq<byte>>,
                           comment: Option<seq<byte>>, check: Option<seq<byte>>)

  predicate FieldsOk(h: Fields)
  {
    && |h.fixed| == 6
    && (h.extra.Some? ==> |h.extra.value| < 0x1_0000)
    && (h.name.Some? ==> 0 !in h.name.value)
    && (h.comment.Some? ==> 0 !in h.comment.value)
    && (h.check.Some? ==> |h.check.value| == 2)
  }

  function One(b: bool): (n: nat)
    ensures n <= 1
  {
    if b then 1 else 0
  }

  /** A bit for each field. */
  function FlagsOf(text: bool, check: bool, extra: bool, name: bool, comment: bool): (f: nat)
    ensures f < 0x20
  {
    One(text) + 2 * One(check) + 4 * One(extra) + 8 * One(name) + 16 * One(comment)
  }

  function Low(n: nat): byte
  {
    n % 256
  }

  function High(n: nat): byte
    requires n < 0x1_0000
  {
    n / 256
  }

  function ExtraBytes(x: Option<seq<byte>>): seq<byte>
    requires x.Some? ==> |x.value| < 0x1_0000
  {
    if x.Some? then [Low(|x.value|), High(|x.value|)] + x.value else []
  }

  function StringBytes(x: Option<seq<byte>>): seq<byte>
  {
    if x.Some? then x.value + [0] else []
  }

  function CheckBytes(x: Option<seq<byte>>): seq<byte>
  {
    if x.Some? then x.value else []
  }

  function AfterFlags(h: Fields): seq<byte>
    requires FieldsOk(h)
  {
    h.fixed + (ExtraBytes(h.extra) + (StringBytes(h.name) + (StringBytes(h.comment) + CheckBytes(h.check))))
  }

  /** The bytes of a header after the magic number: the method, the flags, and the fields. */
  function FieldBytes(h: Fields): seq<byte>
    requires FieldsOk(h)
  {
    [8, FlagsOf(h.text, h.check.Some?, h.extra.Some?, h.name.Some?, h.comment.Some?)] + AfterFlags(h)
  }

  ghost predicate IsHeader(hdr: seq<byte>)
  {
    exists h :: FieldsOk(h) && hdr == FieldBytes(h)
  }

  // ---- flags ----

  lemma {:induction false} FlagsBack(text: bool, check: bool, extra: bool, name: bool, comment: bool)
    ensures var f := FlagsOf(text, check, extra, name, comment);
      (Flag(f, 2) <==> check) && (Flag(f, 4) <==> extra) && (Flag(f, 8) <==> name) && (Flag(f, 16) <==> comment)
  {
  }

  lemma {:induction false} FlagsFrom(f: nat)
    requires f < 0x20
    ensures f == FlagsOf(f % 2 == 1, Flag(f, 2), Flag(f, 4), Flag(f, 8), Flag(f, 16))
  {
  }

  // ---- bytes ----

  /** Whole bytes are the bits of some bytes. */
  lemma {:induction false} Packed(s: seq<bool>, n: nat) returns (p: seq<byte>)
    requires |s| == 8 * n
    ensures |p| == n && Same(s, Unpack(p))
    decreases n
  {
    if n == 0 {
      p := [];
    } else {
      var v := ByteAhead(s, s[8..]);
      var q := Packed(s[8..], n - 1);
      p := [v] + q;
      UnpackHead(p, v, q);
    }
  }

  lemma {:induction false} ByteAhead(s: seq<bool>, rest: seq<bool>) returns (v: byte)
    requires |s| >= 8 && Same(rest, s[8..])
    ensures Same(Take(s, 8), Taken.Bits(v, rest)) && Same(s, ToBits(v, 8) + rest)
  {
    Pow2Values();
    ToFromBits(s[..8]);
    v := FromBits(s[..8]);
    assert s == s[..8] + s[8..];
  }

  lemma {:induction false} ByteTaken(v: byte, s: seq<bool>, rest: seq<bool>)
    requires Same(s, ToBits(v, 8) + rest)
    ensures |s| >= 8 && Same(Take(s, 8), Taken.Bits(v, rest)) && Same(s[8..], rest)
  {
    Pow2Values();
    TakeBack(v, 8, s, rest);
    assert s[8..] == rest;
  }

  lemma {:induction false} BytesThen(a: seq<byte>, b: seq<byte>, x: seq<bool>)
    ensures Same(Unpack(a + b) + x, Unpack(a) + (Unpack(b) + x))
  {
    UnpackConcat(a, b);
    Assoc(Unpack(a), Unpack(b), x);
  }

  lemma {:induction false} OneThen(v: byte, b: seq<byte>, x: seq<bool>)
    ensures Same(Unpack([v] + b) + x, ToBits(v, 8) + (Unpack(b) + x))
  {
    UnpackHead([v] + b, v, b);
    Assoc(ToBits(v, 8), Unpack(b), x);
  }

  lemma {:induction false} NoneThen(x: seq<bool>)
    ensures Same(Unpack([]) + x, x)
  {
    AppendToNone(Unpack([]), x);
  }

  // ---- parts that are skipped ----

  lemma {:induction false} SkipReads(p: seq<byte>, s: seq<bool>, x: seq<bool>)
    requires Same(s, Unpack(p) + x)
    ensures Same(Skip(s, |p|), HeaderOk(x))
  {
    assert s[8 * |p|..] == x;
  }

  lemma {:induction false} SkipIs(s: seq<bool>, n: nat, x: seq<bool>) returns (p: seq<byte>)
    requires Same(Skip(s, n), HeaderOk(x))
    ensures |p| == n && Same(s, Unpack(p) + x)
  {
    p := Packed(s[..8 * n], n);
    assert s == s[..8 * n] + s[8 * n..];
  }

  lemma {:induction false} StringStep(s: seq<bool>, v: byte, rest: seq<bool>)
    requires Same(s, ToBits(v, 8) + rest)
    ensures Same(SkipString(s), if v == 0 then HeaderOk(rest) else SkipString(rest))
  {
    ByteTaken(v, s, rest);
  }

  lemma {:induction false} StringReads(p: seq<byte>, s: seq<bool>, x: seq<bool>)
    requires 0 !in p && Same(s, Unpack(p + [0]) + x)
    ensures Same(SkipString(s), HeaderOk(x))
    decreases |p|
  {
    hide SkipString;
    if p == [] {
      assert p + [0] == [0] + [];
      OneThen(0, [], x);
      NoneThen(x);
      StringStep(s, 0, x);
    } else {
      var t := Unpack(p[1..] + [0]) + x;
      assert p + [0] == [p[0]] + (p[1..] + [0]);
      OneThen(p[0], p[1..] + [0], x);
      assert p[0] in p;
      StringStep(s, p[0], t);
      StringReads(p[1..], t, x);
    }
  }

  lemma {:induction false} StringIs(s: seq<bool>, x: seq<bool>) returns (p: seq<byte>)
    requires Same(SkipString(s), HeaderOk(x))
    ensures 0 !in p && Same(s, Unpack(p + [0]) + x)
    decreases |s|
  {
    var rest := s[8..];
    var v := ByteAhead(s, rest);
    StringStep(s, v, rest);
    hide SkipString;
    if v == 0 {
      p := [];
      assert p + [0] == [0] + [];
      OneThen(0, [], x);
      NoneThen(x);
    } else {
      var q := StringIs(rest, x);
      p := [v] + q;
      assert p + [0] == [v] + (q + [0]);
      OneThen(v, q + [0], x);
    }
  }

  lemma {:induction false} TwoThen(a: byte, b: byte, p: seq<byte>, x: seq<bool>)
    ensures Same(Unpack([a, b] + p) + x, ToBits(a, 8) + (ToBits(b, 8) + (Unpack(p) + x)))
  {
    assert [a, b] + p == [a] + ([b] + p);
    OneThen(a, [b] + p, x);
    OneThen(b, p, x);
  }

  lemma {:induction false} LowHigh(a: byte, b: byte, n: nat)
    requires n == a + 256 * b
    ensures n < 0x1_0000 && Low(n) == a && High(n) == b
  {
  }

  lemma {:induction false} HighLow(n: nat)
    requires n < 0x1_0000
    ensures Low(n) + 256 * High(n) == n
  {
  }

  lemma {:induction false} ExtraStep(flags: nat, s: seq<bool>, a: byte, b: byte, s1: seq<bool>, s2: seq<bool>)
    requires Flag(flags, 4) && Same(s, ToBits(a, 8) + s1) && Same(s1, ToBits(b, 8) + s2)
    ensures Same(HeaderExtra(flags, s), Skip(s2, a + 256 * b))
  {
    ByteTaken(a, s, s1);
    ByteTaken(b, s1, s2);
    assert s[16..] == s1[8..];
  }

  lemma {:induction false} ExtraReads(flags: nat, e: Option<seq<byte>>, s: seq<bool>, x: seq<bool>)
    requires (e.Some? ==> |e.value| < 0x1_0000) && Flag(flags, 4) == e.Some? && Same(s, Unpack(ExtraBytes(e)) + x)
    ensures Same(HeaderExtra(flags, s), HeaderOk(x))
  {
    hide Unpack, Low, High;
    if e.Some? {
      var a, b := Low(|e.value|), High(|e.value|);
      var s2 := Unpack(e.value) + x;
      TwoThen(a, b, e.value, x);
      ExtraStep(flags, s, a, b, ToBits(b, 8) + s2, s2);
      HighLow(|e.value|);
      SkipReads(e.value, s2, x);
    } else {
      NoneThen(x);
    }
  }

  lemma {:induction false} ExtraAhead(flags: nat, s: seq<bool>, x: seq<bool>) returns (a: byte, b: byte, s2: seq<bool>, n: nat)
    requires Flag(flags, 4) && Same(HeaderExtra(flags, s), HeaderOk(x))
    ensures Same(s, ToBits(a, 8) + (ToBits(b, 8) + s2)) && n == a + 256 * b && Same(Skip(s2, n), HeaderOk(x))
  {
    hide Skip, Take;
    a := ByteAhead(s, s[8..]);
    b := ByteAhead(s[8..], s[8..][8..]);
    s2 := s[8..][8..];
    ExtraStep(flags, s, a, b, s[8..], s2);
    n := a as nat + 256 * b as nat;
  }

  lemma {:induction false} ExtraIs(flags: nat, s: seq<bool>, x: seq<bool>) returns (e: Option<seq<byte>>)
    requires Same(HeaderExtra(flags, s), HeaderOk(x))
    ensures (e.Some? ==> |e.value| < 0x1_0000) && Flag(flags, 4) == e.Some? && Same(s, Unpack(ExtraBytes(e)) + x)
  {
    if Flag(flags, 4) {
      hide HeaderExtra, Flag, Unpack, ExtraBytes;
      var a, b, s2, n := ExtraAhead(flags, s, x);
      var p := SkipIs(s2, n, x);
      e := Option.Some(p);
      ExtraIsTwo(a, b, n, p, s, s2, x);
    } else {
      e := None;
      NoneThen(x);
    }
  }

  lemma {:induction false} ExtraIsTwo(a: byte, b: byte, n: nat, p: seq<byte>, s: seq<bool>, s2: seq<bool>, x: seq<bool>)
    requires n == a + 256 * b && |p| == n && Same(s, ToBits(a, 8) + (ToBits(b, 8) + s2)) && Same(s2, Unpack(p) + x)
    ensures |p| < 0x1_0000 && Same(s, Unpack(ExtraBytes(Option.Some(p))) + x)
  {
    hide Unpack, Low, High;
    LowHigh(a, b, n);
    TwoThen(a, b, p, x);
  }

  lemma {:induction false} StringIfReads(present: bool, e: Option<seq<byte>>, s: seq<bool>, x: seq<bool>)
    requires (e.Some? ==> 0 !in e.value) && present == e.Some? && Same(s, Unpack(StringBytes(e)) + x)
    ensures Same(SkipStringIf(present, s), HeaderOk(x))
  {
    hide SkipString, Unpack;
    if e.Some? {
      StringReads(e.value, s, x);
    } else {
      NoneThen(x);
    }
  }

  lemma {:induction false} StringIfIs(present: bool, s: seq<bool>, x: seq<bool>) returns (e: Option<seq<byte>>)
    requires Same(SkipStringIf(present, s), HeaderOk(x))
    ensures (e.Some? ==> 0 !in e.value) && present == e.Some? && Same(s, Unpack(StringBytes(e)) + x)
  {
    hide SkipString, Unpack;
    if present {
      var p := StringIs(s, x);
      e := Option.Some(p);
    } else {
      e := None;
      NoneThen(x);
    }
  }

  lemma {:induction false} CheckReads(flags: nat, e: Option<seq<byte>>, s: seq<bool>, x: seq<bool>)
    requires (e.Some? ==> |e.value| == 2) && Flag(flags, 2) == e.Some? && Same(s, Unpack(CheckBytes(e)) + x)
    ensures Same(if Flag(flags, 2) then Skip(s, 2) else HeaderOk(s), HeaderOk(x))
  {
    hide Unpack;
    if e.Some? {
      SkipReads(e.value, s, x);
    } else {
      NoneThen(x);
    }
  }

  lemma {:induction false} CheckIs(flags: nat, s: seq<bool>, x: seq<bool>) returns (e: Option<seq<byte>>)
    requires Same(if Flag(flags, 2) then Skip(s, 2) else HeaderOk(s), HeaderOk(x))
    ensures (e.Some? ==> |e.value| == 2) && Flag(flags, 2) == e.Some? && Same(s, Unpack(CheckBytes(e)) + x)
  {
    hide Unpack;
    if Flag(flags, 2) {
      var p := SkipIs(s, 2, x);
      e := Option.Some(p);
    } else {
      e := None;
      NoneThen(x);
    }
  }

  // ---- the fields together ----

  /** The fields in their order, and what is left after each. */
  ghost predicate InOrder(h: Fields, s: seq<bool>, s1: seq<bool>, s2: seq<bool>, s3: seq<bool>, s4: seq<bool>, x: seq<bool>)
    requires FieldsOk(h)
  {
    && Same(s, Unpack(h.fixed) + s1) && Same(s1, Unpack(ExtraBytes(h.extra)) + s2)
    && Same(s2, Unpack(StringBytes(h.name)) + s3) && Same(s3, Unpack(StringBytes(h.comment)) + s4)
    && Same(s4, Unpack(CheckBytes(h.check)) + x)
  }

  lemma {:induction false} FiveParts(a: seq<byte>, b: seq<byte>, c: seq<byte>, d: seq<byte>, e: seq<byte>, x: seq<bool>)
    ensures Same(Unpack(a + (b + (c + (d + e)))) + x, Unpack(a) + (Unpack(b) + (Unpack(c) + (Unpack(d) + (Unpack(e) + x)))))
  {
    hide Unpack;
    BytesThen(a, b + (c + (d + e)), x);
    BytesThen(b, c + (d + e), x);
    BytesThen(c, d + e, x);
    BytesThen(d, e, x);
  }

  lemma {:induction false} FieldsApart(h: Fields, x: seq<bool>) returns (s1: seq<bool>, s2: seq<bool>, s3: seq<bool>, s4: seq<bool>)
    requires FieldsOk(h)
    ensures InOrder(h, Unpack(AfterFlags(h)) + x, s1, s2, s3, s4, x)
  {
    hide ExtraBytes, StringBytes, CheckBytes, Unpack;
    FiveParts(h.fixed, ExtraBytes(h.extra), StringBytes(h.name), StringBytes(h.comment), CheckBytes(h.check), x);
    s4 := Unpack(CheckBytes(h.check)) + x;
    s3 := Unpack(StringBytes(h.comment)) + s4;
    s2 := Unpack(StringBytes(h.name)) + s3;
    s1 := Unpack(ExtraBytes(h.extra)) + s2;
  }

  lemma {:induction false} FieldsTogether(h: Fields, s: seq<bool>, s1: seq<bool>, s2: seq<bool>, s3: seq<bool>, s4: seq<bool>, x: seq<bool>)
    requires FieldsOk(h) && InOrder(h, s, s1, s2, s3, s4, x)
    ensures Same(s, Unpack(AfterFlags(h)) + x)
  {
    hide ExtraBytes, StringBytes, CheckBytes, Unpack;
    FiveParts(h.fixed, ExtraBytes(h.extra), StringBytes(h.name), StringBytes(h.comment), CheckBytes(h.check), x);
  }

  ghost predicate FlagsFit(flags: nat, h: Fields)
  {
    Flag(flags, 4) == h.extra.Some? && Flag(flags, 8) == h.name.Some? && Flag(flags, 16) == h.comment.Some? && Flag(flags, 2) == h.check.Some?
  }

  lemma {:induction false} FieldsRead(h: Fields, flags: nat, s1: seq<bool>, s2: seq<bool>, s3: seq<bool>, s4: seq<bool>, s: seq<bool>, x: seq<bool>)
    requires FieldsOk(h) && FlagsFit(flags, h) && InOrder(h, s, s1, s2, s3, s4, x)
    ensures Same(Skip(s, 6), HeaderOk(s1)) && Same(HeaderFields(flags, s1), HeaderOk(x))
  {
    hide ExtraBytes, StringBytes, CheckBytes, Unpack, HeaderExtra, SkipStringIf, Skip, Flag;
    SkipReads(h.fixed, s, s1);
    ExtraReads(flags, h.extra, s1, s2);
    StringIfReads(Flag(flags, 8), h.name, s2, s3);
    StringIfReads(Flag(flags, 16), h.comment, s3, s4);
    CheckReads(flags, h.check, s4, x);
  }

  lemma {:induction false} FieldsAre(text: bool, flags: nat, s: seq<bool>, s1: seq<bool>, x: seq<bool>) returns (h: Fields)
    requires Same(Skip(s, 6), HeaderOk(s1)) && Same(HeaderFields(flags, s1), HeaderOk(x))
    ensures FieldsOk(h) && FlagsFit(flags, h) && h.text == text && Same(s, Unpack(AfterFlags(h)) + x)
  {
    hide ExtraBytes, StringBytes, CheckBytes, Unpack, HeaderExtra, SkipStringIf, Skip, Flag, AfterFlags;
    var s2 := HeaderExtra(flags, s1).rest;
    var s3 := SkipStringIf(Flag(flags, 8), s2).rest;
    var s4 := SkipStringIf(Flag(flags, 16), s3).rest;
    var fixed := SkipIs(s, 6, s1);
    var extra := ExtraIs(flags, s1, s2);
    var name := StringIfIs(Flag(flags, 8), s2, s3);
    var comment := StringIfIs(Flag(flags, 16), s3, s4);
    var check := CheckIs(flags, s4, x);
    h := Fields(text, fixed, extra, name, comment, check);
    FieldsTogether(h, s, s1, s2, s3, s4, x);
  }

  // ---- the whole header ----

  /** The method and the flags decide how a header is read. */
  lemma {:induction false} HeaderStep(s: seq<bool>, m: byte, f: byte, s1: seq<bool>, s2: seq<bool>)
    requires Same(s, ToBits(m, 8) + s1) && Same(s1, ToBits(f, 8) + s2)
    ensures Same(Header(s), if m != 8 then HeaderErr(UnknownMethod) else if f >= 0x20 then HeaderErr(UnknownFlags)
      else match Skip(s2, 6) case HeaderErr(e) => HeaderErr(e) case HeaderOk(s3) => HeaderFields(f, s3))
  {
    hide Skip, HeaderFields;
    ByteTaken(m, s, s1);
    ByteTaken(f, s1, s2);
    assert s[16..] == s1[8..];
  }

  /** Every header is read to its end, whatever follows. */
  lemma {:induction false} HeaderReads(hdr: seq<byte>, s: seq<bool>, x: seq<bool>)
    requires IsHeader(hdr) && Same(s, Unpack(hdr) + x)
    ensures Same(Header(s), HeaderOk(x))
  {
    hide Unpack, AfterFlags, FlagsOf, HeaderFields, Skip, Header;
    var h :| FieldsOk(h) && hdr == FieldBytes(h);
    var f := FlagsOf(h.text, h.check.Some?, h.extra.Some?, h.name.Some?, h.comment.Some?);
    FlagsBack(h.text, h.check.Some?, h.extra.Some?, h.name.Some?, h.comment.Some?);
    var t := Unpack(AfterFlags(h)) + x;
    TwoThen(8, f, AfterFlags(h), x);
    HeaderStep(s, 8, f, ToBits(f, 8) + t, t);
    var s1, s2, s3, s4 := FieldsApart(h, x);
    FieldsRead(h, f, s1, s2, s3, s4, t, x);
  }

  /** What is read as a header is one. */
  lemma {:induction false} HeaderIs(s: seq<bool>, x: seq<bool>) returns (hdr: seq<byte>)
    requires Same(Header(s), HeaderOk(x))
    ensures IsHeader(hdr) && Same(s, Unpack(hdr) + x)
  {
    var m := ByteAhead(s, s[8..]);
    var f := ByteAhead(s[8..], s[8..][8..]);
    var t := s[8..][8..];
    HeaderStep(s, m, f, s[8..], t);
    hide Unpack, AfterFlags, FlagsOf, HeaderFields, Skip, Header, Flag;
    var s1 := Skip(t, 6).rest;
    var h := FieldsAre(f % 2 == 1, f, t, s1, x);
    FlagsFrom(f);
    hdr := FieldBytes(h);
    TwoThen(8, f, AfterFlags(h), x);
  }

  // ---- headers that are refused ----

  lemma {:induction false} StringError(s: seq<bool>)
    ensures SkipString(s).HeaderErr? ==> SkipString(s) == HeaderErr(UnexpectedEof)
    decreases |s|
  {
    if |s| >= 8 && Take(s, 8).v != 0 {
      StringError(s[8..]);
    }
  }

  lemma {:induction false} FieldsError(flags: nat, s: seq<bool>)
    ensures HeaderFields(flags, s).HeaderErr? ==> HeaderFields(flags, s) == HeaderErr(UnexpectedEof)
  {
    hide SkipString, Flag;
    var e := HeaderExtra(flags, s);
    if e.HeaderOk? {
      StringError(e.rest);
      var n := SkipStringIf(Flag(flags, 8), e.rest);
      if n.HeaderOk? {
        StringError(n.rest);
      }
    }
  }

  /** Bits that begin with those of bytes are those of bytes that begin with them. */
  lemma {:induction false} PrefixOf(file: seq<byte>, hdr: seq<byte>, x: seq<bool>)
    requires Same(Unpack(file), Unpack(hdr) + x)
    ensures hdr <= file
  {
    assert 8 * |file| == 8 * |hdr| + |x|;
    var a, b := file[..|hdr|], file[|hdr|..];
    assert file == a + b;
    UnpackConcat(a, b);
    assert Unpack(file)[..8 * |hdr|] == Unpack(a) == Unpack(hdr);
    UnpackInjective(a, hdr);
  }

  /** Bytes that do not begin with a header are refused: for their method, their flags, or because they
      end too soon. */
  lemma {:induction false} HeaderRefused(file: seq<byte>)
    requires forall hdr: seq<byte> :: IsHeader(hdr) ==> !(hdr <= file)
    ensures Header(Unpack(file)) == HeaderErr(
      if |file| < 2 then UnexpectedEof else if file[0] != 8 then UnknownMethod else if file[1] >= 0x20 then UnknownFlags else UnexpectedEof)
  {
    hide HeaderFields, Skip, IsHeader;
    var s := Unpack(file);
    if Header(s).HeaderOk? {
      hide Header;
      var hdr := HeaderIs(s, Header(s).rest);
      PrefixOf(file, hdr, Header(s).rest);
    }
    if |file| >= 2 {
      hide Header;
      var s2 := Unpack(file[2..]);
      assert file == [file[0], file[1]] + file[2..];
      TwoThen(file[0], file[1], file[2..], []);
      assert s + [] == s && s2 + [] == s2;
      HeaderStep(s, file[0], file[1], ToBits(file[1], 8) + s2, s2);
      SkipError(s2);
      if Skip(s2, 6).HeaderOk? {
        FieldsError(file[1], Skip(s2, 6).rest);
      }
    }
  }

  lemma {:induction false} SkipError(s: seq<bool>)
    ensures Skip(s, 6).HeaderErr? ==> Skip(s, 6) == HeaderErr(UnexpectedEof)
  {
  }
}
