/** gzip_decompress: members one after another. */
module GzipDecompress {
  import opened Bits
  import opened Crc
  import opened Deflate
  import opened Tokens
  import opened BitReader
  import opened OutWindow
  import opened Inflate
  import opened GzipMember

  // ---- blocks ----

  method ReadBlock(b: BitReader, o: OutWindow, kind: nat, ghost goal: Outcome)
    requires b.Valid() && b.derr == NoError && o.Valid() && Same(Block(kind, b.Rest(), o.made), goal)
    modifies b`ipos, b`bitbuf, b`bitcnt, b`derr, o, o.window
    ensures b.Valid() && o.Valid() && o.before == old(o.before) && Did(goal, b, o)
  {
    if kind == 0 {
      ReadStored(b, o);
    } else if kind == 1 {
      ReadFixed(b, o);
    } else if kind == 2 {
      ReadDynamic(b, o);
    } else {
      b.derr := Some(InvalidBlockType);
    }
  }

  /** Reading the blocks to come is goal. */
  ghost predicate BlocksOnTheWay(b: BitReader, o: OutWindow, goal: Outcome)
    reads b, o, o.window, o.table.table
  {
    b.Valid() && o.Valid() && b.derr == NoError && Same(Blocks(b.Rest(), o.made), goal)
  }

  lemma {:induction false} BlockHeader(s: seq<bool>, v: nat, s1: seq<bool>, kind: nat, s2: seq<bool>, out: seq<byte>, goal: Outcome)
    requires Same(Take(s, 1), Taken.Bits(v, s1)) && Same(Take(s1, 2), Taken.Bits(kind, s2)) && Same(Blocks(s, out), goal)
    ensures |s2| < |s|
    ensures var r := Block(kind, s2, out); if r.Ok? && v == 0 then Same(Blocks(r.rest, r.out), goal) else Same(r, goal)
  {
    assert s[..1] == [s[0]];
    assert [s[0]][1..] == [];
    assert FromBits([s[0]]) == if s[0] then 1 else 0;
    assert s[1..] == s1;
  }

  lemma {:induction false} BlockHeaderMissing(s: seq<bool>, out: seq<byte>, goal: Outcome)
    requires |s| < 3 && Same(Blocks(s, out), goal)
    ensures Same(goal, Err(UnexpectedEof, out))
  {
  }

  /** The last-block bit and the kind of a block. */
  method ReadBlockHeader(b: BitReader, ghost out: seq<byte>, ghost goal: Outcome) returns (last: nat, kind: nat, ghost r: Outcome)
    requires b.Valid() && b.derr == NoError && Same(Blocks(b.Rest(), out), goal)
    modifies b`ipos, b`bitbuf, b`bitcnt, b`derr
    ensures b.Valid()
    ensures b.derr != NoError ==> b.derr == Some(UnexpectedEof) && Same(goal, Err(UnexpectedEof, out))
    ensures b.derr == NoError ==> Same(Block(kind, b.Rest(), out), r) && |b.Rest()| < |old(b.Rest())|
    ensures b.derr == NoError ==> if r.Ok? && last == 0 then Same(Blocks(r.rest, r.out), goal) else Same(r, goal)
  {
    ghost var s := b.Rest();
    last := b.Bits(1);
    ghost var s1 := b.Rest();
    kind := b.Bits(2);
    r := Block(kind, b.Rest(), out);
    if b.derr == NoError {
      BlockHeader(s, last, s1, kind, b.Rest(), out, goal);
    } else {
      BlockHeaderMissing(s, out, goal);
    }
  }

  method OneBlock(b: BitReader, o: OutWindow, ghost goal: Outcome) returns (more: bool)
    requires BlocksOnTheWay(b, o, goal)
    modifies b`ipos, b`bitbuf, b`bitcnt, b`derr, o, o.window
    ensures b.Valid() && o.Valid() && o.before == old(o.before)
    ensures if more then BlocksOnTheWay(b, o, goal) && |b.Rest()| < |old(b.Rest())| else Did(goal, b, o)
  {
    var last, kind;
    ghost var r;
    last, kind, r := ReadBlockHeader(b, o.made, goal);
    if b.derr != NoError {
      return false;
    }
    ReadBlock(b, o, kind, r);
    more := last == 0 && b.derr == NoError;
  }

  method ReadBlocks(b: BitReader, o: OutWindow)
    requires b.Valid() && b.derr == NoError && o.Valid()
    modifies b`ipos, b`bitbuf, b`bitcnt, b`derr, o, o.window
    ensures b.Valid() && o.Valid() && o.before == old(o.before)
    ensures Did(Blocks(old(b.Rest()), old(o.made)), b, o)
  {
    ghost var goal := Blocks(b.Rest(), o.made);
    var more := true;
    while more
      invariant b.Valid() && o.Valid() && o.before == old(o.before)
      invariant if more then BlocksOnTheWay(b, o, goal) else Did(goal, b, o)
      decreases more, |b.Rest()|
    {
      more := OneBlock(b, o, goal);
    }
  }

  // ---- the header of a member ----

  /** Between members and in headers there are only whole bytes. */
  ghost predicate AtByte(b: BitReader)
    reads b
  {
    b.Valid() && b.bitcnt == 0 && b.derr == NoError
  }

  /** How reading a part of the header has gone. */
  ghost predicate DidHeader(h: HeaderRead, b: BitReader, e: ErrorOption)
    requires b.Valid()
    reads b
  {
    match h
    case HeaderOk(rest) => e == NoError && Same(b.Rest(), rest)
    case HeaderErr(x) => e == Some(x)
  }

  lemma {:induction false} SkipOne(s: seq<bool>, n: nat, c: nat, rest: seq<bool>)
    requires n > 0 && Same(Take(s, 8), Taken.Bits(c, rest))
    ensures Same(Skip(s, n), Skip(rest, n - 1))
  {
    if |s| >= 8 * n {
      assert s[8 * n..] == rest[8 * (n - 1)..];
    }
  }

  method SkipBytes(b: BitReader, n: nat) returns (e: ErrorOption)
    requires AtByte(b)
    modifies b`ipos
    ensures AtByte(b) && DidHeader(Skip(old(b.Rest()), n), b, e)
  {
    ghost var goal := Skip(b.Rest(), n);
    var k := n;
    while k > 0
      invariant AtByte(b) && Same(Skip(b.Rest(), k), goal)
    {
      ghost var s := b.Rest();
      var c := NextByte(b);
      if c < 0 {
        return Some(UnexpectedEof);
      }
      SkipOne(s, k, c, b.Rest());
      k := k - 1;
    }
    e := NoError;
    assert b.Rest()[0..] == b.Rest();
  }

  lemma {:induction false} SkipChar(s: seq<bool>, c: nat, rest: seq<bool>)
    requires Same(Take(s, 8), Taken.Bits(c, rest))
    ensures |rest| < |s| && Same(SkipString(s), if c == 0 then HeaderOk(rest) else SkipString(rest))
  {
  }

  lemma {:induction false} SkipNothing(s: seq<bool>)
    requires |s| < 8
    ensures Same(SkipString(s), HeaderErr(UnexpectedEof))
  {
  }

  /** skip_string: up to a zero byte. */
  method SkipZeroTerminated(b: BitReader) returns (e: ErrorOption)
    requires AtByte(b)
    modifies b`ipos
    ensures AtByte(b) && DidHeader(SkipString(old(b.Rest())), b, e)
  {
    ghost var goal := SkipString(b.Rest());
    while true
      invariant AtByte(b) && Same(SkipString(b.Rest()), goal)
      decreases |b.Rest()|
    {
      ghost var s := b.Rest();
      var c := NextByte(b);
      if c < 0 {
        SkipNothing(s);
        return Some(UnexpectedEof);
      }
      SkipChar(s, c, b.Rest());
      if c == 0 {
        return NoError;
      }
    }
  }

  /** FEXTRA: a length of two bytes, low byte first, and so many bytes. */
  method ReadExtra(b: BitReader, flags: nat) returns (e: ErrorOption)
    requires AtByte(b)
    modifies b`ipos
    ensures AtByte(b) && DidHeader(HeaderExtra(flags, old(b.Rest())), b, e)
  {
    if !Flag(flags, 4) {
      return NoError;
    }
    ghost var s := b.Rest();
    var x, y, ok := TwoBytes(b);
    if !ok {
      return Some(UnexpectedEof);
    }
    e := SkipBytes(b, x + 256 * y);
  }

  method TwoBytes(b: BitReader) returns (x: nat, y: nat, ok: bool)
    requires AtByte(b)
    modifies b`ipos
    ensures AtByte(b)
    ensures if ok then TwoAhead(old(b.Rest()), x, y, b.Rest()) else |old(b.Rest())| < 16
  {
    x, y := 0, 0;
    ghost var s := b.Rest();
    var c := NextByte(b);
    ghost var s1 := b.Rest();
    var d := NextByte(b);
    ok := c >= 0 && d >= 0;
    if ok {
      x, y := c, d;
      TwoTaken(s, x, s1, y, b.Rest());
    }
  }

  /** Two bytes and what follows. */
  ghost predicate TwoAhead(s: seq<bool>, x: nat, y: nat, rest: seq<bool>)
  {
    |s| >= 16 && x < 256 && y < 256 && Take(s, 8).v == x && Take(s[8..], 8).v == y && Same(s[16..], rest)
  }

  lemma {:induction false} TwoTaken(s: seq<bool>, x: nat, s1: seq<bool>, y: nat, s2: seq<bool>)
    requires Same(Take(s, 8), Taken.Bits(x, s1)) && Same(Take(s1, 8), Taken.Bits(y, s2)) && x < 256 && y < 256
    ensures TwoAhead(s, x, y, s2)
  {
    assert s[8..] == s1;
    assert s[16..] == s1[8..];
  }

  method SkipStringIfPresent(b: BitReader, present: bool) returns (e: ErrorOption)
    requires AtByte(b)
    modifies b`ipos
    ensures AtByte(b) && DidHeader(SkipStringIf(present, old(b.Rest())), b, e)
  {
    e := NoError;
    if present {
      e := SkipZeroTerminated(b);
    }
  }

  /** The optional fields of the header. */
  method ReadFields(b: BitReader, flags: nat) returns (e: ErrorOption)
    requires AtByte(b)
    modifies b`ipos
    ensures AtByte(b) && DidHeader(HeaderFields(flags, old(b.Rest())), b, e)
  {
    e := ReadExtra(b, flags);
    if e != NoError {
      return;
    }
    e := SkipStringIfPresent(b, Flag(flags, 8));
    if e != NoError {
      return;
    }
    e := SkipStringIfPresent(b, Flag(flags, 16));
    if e != NoError {
      return;
    }
    if Flag(flags, 2) {
      e := SkipBytes(b, 2);
    }
  }

  /** The rest of the header after the magic number: method, flags, time, level and system, and the
      optional fields. */
  method ReadHeader(b: BitReader) returns (e: ErrorOption)
    requires AtByte(b)
    modifies b`ipos
    ensures AtByte(b) && DidHeader(Header(old(b.Rest())), b, e)
  {
    var cm, flags, ok := TwoBytes(b);
    if !ok {
      return Some(UnexpectedEof);
    }
    if cm != 8 {
      return Some(UnknownMethod);
    }
    if flags >= 0x20 {
      return Some(UnknownFlags);
    }
    e := SkipBytes(b, 6);
    if e != NoError {
      return;
    }
    e := ReadFields(b, flags);
  }

  // ---- the trailer ----

  /** get4: four bytes as a number, low byte first; or nothing. */
  method Get4(b: BitReader) returns (v: nat, ok: bool)
    requires AtByte(b)
    modifies b`ipos
    ensures AtByte(b)
    ensures if ok then Same(Take(old(b.Rest()), 32), Taken.Bits(v, b.Rest())) else |old(b.Rest())| < 32
  {
    hide TakenSoFar, Same, Take, Pow2, b.Rest;
    v := 0;
    ghost var s := b.Rest();
    ok := true;
    var i, p := 0, 1;
    NoneTaken(s);
    Pow2None();
    while i < 4
      invariant AtByte(b) && i <= 4 && p == Pow2(8 * i) && TakenSoFar(s, 8 * i, v, b.Rest())
    {
      ghost var s1 := b.Rest();
      var c := NextByte(b);
      if c < 0 {
        TakenShort(s, 8 * i, v, s1);
        return 0, false;
      }
      TakenByte(s, 8 * i, v, s1, c, b.Rest(), p);
      v := v + c * p;
      p := p * 256;
      i := i + 1;
    }
    TakenIs(s, 8 * i, v, b.Rest());
  }

  lemma {:induction false} Pow2None()
    ensures Pow2(0) == 1
  {
  }

  lemma {:induction false} TakenShort(s: seq<bool>, n: nat, v: nat, rest: seq<bool>)
    requires TakenSoFar(s, n, v, rest) && |rest| < 8
    ensures |s| < n + 8
  {
  }

  lemma {:induction false} TakenIs(s: seq<bool>, n: nat, v: nat, rest: seq<bool>)
    requires TakenSoFar(s, n, v, rest)
    ensures Same(Take(s, n), Taken.Bits(v, rest))
  {
  }

  /** v is the first n bits of s, and rest follows them. */
  ghost predicate TakenSoFar(s: seq<bool>, n: nat, v: nat, rest: seq<bool>)
  {
    Same(Take(s, n), Taken.Bits(v, rest))
  }

  lemma {:induction false} NoneTaken(s: seq<bool>)
    ensures TakenSoFar(s, 0, 0, s)
  {
    assert s[..0] == [];
    assert s[0..] == s;
  }

  lemma {:induction false} TakenByte(s: seq<bool>, n: nat, v: nat, s1: seq<bool>, c: nat, s2: seq<bool>, p: nat)
    requires TakenSoFar(s, n, v, s1) && Same(Take(s1, 8), Taken.Bits(c, s2)) && p == Pow2(n)
    ensures TakenSoFar(s, n + 8, v + c * p, s2) && p * 256 == Pow2(n + 8) && c * p >= 0
  {
    hide FromBits;
    ByteMore(n, p);
    assert s[..n + 8] == s[..n] + s1[..8];
    assert s[n + 8..] == s2;
    FromBitsConcat(s[..n], s1[..8]);
    Commutes(p, c);
  }

  lemma {:induction false} ByteMore(n: nat, p: nat)
    requires p == Pow2(n)
    ensures p * 256 == Pow2(n + 8)
  {
    Pow2Add(n, 8);
    Pow2Values();
  }

  lemma {:induction false} Commutes(p: nat, c: nat)
    ensures c * p == p * c >= 0
  {
  }

  /** The trailer against the CRC and the size of what was made. */
  method CheckTrailer(b: BitReader, crc: word, total: nat, ghost made: seq<byte>) returns (e: ErrorOption)
    requires AtByte(b) && Same(crc, Crc32(made)) && total == |made|
    modifies b`ipos
    ensures AtByte(b) && e == Trailer(old(b.Rest()), made)
    ensures e == NoError ==> Same(b.Rest(), old(b.Rest())[64..])
  {
    ghost var s := b.Rest();
    var c, ok1 := Get4(b);
    ghost var s1 := b.Rest();
    var size, ok2 := Get4(b);
    if !ok1 || !ok2 {
      return Some(UnexpectedEof);
    }
    TrailerTaken(s, c, s1, size, b.Rest(), crc, made);
    if c != FromBits(crc) {
      return Some(CrcError);
    }
    if size != total % 0x1_0000_0000 {
      return Some(LengthError);
    }
    e := NoError;
  }

  lemma {:induction false} TrailerTaken(s: seq<bool>, c: nat, s1: seq<bool>, size: nat, s2: seq<bool>, crc: word, made: seq<byte>)
    requires Same(Take(s, 32), Taken.Bits(c, s1)) && Same(Take(s1, 32), Taken.Bits(size, s2)) && Same(crc, Crc32(made))
    ensures Same(s[64..], s2)
    ensures Trailer(s, made) == if c != FromBits(crc) then Some(CrcError)
                                else if size != |made| % 0x1_0000_0000 then Some(LengthError) else NoError
  {
    assert s[32..] == s1 && s[64..] == s1[32..];
    ToFromBits(crc);
    ToFromBits(s[..32]);
  }

  // ---- members ----

  /** The next member's magic number, or the end, or garbage. */
  method ReadMagic(b: BitReader) returns (more: bool, e: ErrorOption)
    requires AtByte(b)
    modifies b`ipos
    ensures AtByte(b)
    ensures match NextMember(old(b.Rest()))
            case End => !more && e == NoError
            case Garbage => !more && e == Some(TrailingGarbage)
            case Member(rest) => more && e == NoError && Same(b.Rest(), rest)
  {
    ghost var s := b.Rest();
    var m1 := NextByte(b);
    ghost var s1 := b.Rest();
    if m1 < 0 {
      return false, NoError;
    }
    var m2 := NextByte(b);
    if m2 >= 0 {
      TwoTaken(s, m1, s1, m2, b.Rest());
    }
    if m1 != 0x1f || m2 != 0x8b {
      return false, Some(TrailingGarbage);
    }
    more, e := true, NoError;
  }

  /** What is made of a member after its blocks, which have given m; all is everything so far. */
  function FromTrailer(s: seq<bool>, m: seq<byte>, all: seq<byte>): Result
  {
    match Trailer(s, m)
    case Some(e) => Result(Some(e), all)
    case NoError => AfterMember(s[64..], all)
  }

  function FromBlocks(r: Outcome, prev: seq<byte>): Result
  {
    match r
    case Err(e, m) => Result(Some(e), prev + m)
    case Ok(s, m) => FromTrailer(Align(s), m, prev + m)
  }

  lemma {:induction false} GunzipByParts(s: seq<bool>, prev: seq<byte>, goal: Result)
    requires Same(Gunzip(s, prev), goal)
    ensures match Header(s)
            case HeaderErr(e) => Same(goal, Result(Some(e), prev))
            case HeaderOk(s1) => |s1| < |s| && Same(goal, FromBlocks(Blocks(s1, []), prev))
  {
  }

  /** The blocks of a member, and the window written. */
  method ReadMemberBlocks(b: BitReader, o: OutWindow, ghost prev: seq<byte>) returns (ghost r: Outcome)
    requires AtByte(b) && o.Flushed() && Same(o.before + o.made, prev)
    modifies b`ipos, b`bitbuf, b`bitcnt, b`derr, o, o.window
    ensures b.Valid() && o.Flushed() && Same(o.before, prev) && Same(r, Blocks(old(b.Rest()), [])) && Did(r, b, o)
  {
    hide Blocks, Keeps, Written, Placed, Unpack, ToBits;
    o.Start();
    r := Blocks(b.Rest(), []);
    ReadBlocks(b, o);
    o.FlushWindow();
  }

  /** The trailer of a member and what comes next. */
  method FinishMember(b: BitReader, o: OutWindow, ghost all: seq<byte>, ghost goal: Result) returns (more: bool, e: ErrorOption)
    requires b.Valid() && b.derr == NoError && o.Flushed() && Same(FromTrailer(Align(b.Rest()), o.made, all), goal)
    modifies b`ipos, b`bitbuf, b`bitcnt
    ensures if more then AtByte(b) && Same(Gunzip(b.Rest(), all), goal) && |b.Rest()| < |old(b.Rest())| else Same(goal, Result(e, all))
  {
    b.DropBits();
    AllWritten(o.crc, o.out, o.before, o.made);
    more := false;
    e := CheckTrailer(b, o.crc, o.total, o.made);
    if e != NoError {
      return;
    }
    more, e := ReadMagic(b);
  }

  method OneMember(b: BitReader, o: OutWindow, ghost prev: seq<byte>, ghost goal: Result) returns (more: bool, e: ErrorOption, ghost all: seq<byte>)
    requires AtByte(b) && o.Flushed() && Same(o.before + o.made, prev) && Same(Gunzip(b.Rest(), prev), goal)
    modifies b`ipos, b`bitbuf, b`bitcnt, b`derr, o, o.window
    ensures o.Flushed() && Same(o.before + o.made, all)
    ensures if more then AtByte(b) && Same(Gunzip(b.Rest(), all), goal) && |b.Rest()| < |old(b.Rest())| else Same(goal, Result(e, all))
  {
    GunzipByParts(b.Rest(), prev, goal);
    more, all := false, prev;
    e := ReadHeader(b);
    if e != NoError {
      return;
    }
    ghost var r := ReadMemberBlocks(b, o, prev);
    all := prev + o.made;
    if b.derr != NoError {
      e := b.derr;
      return;
    }
    more, e := FinishMember(b, o, all, goal);
  }

  method ReadMembers(b: BitReader, o: OutWindow, ghost goal: Result) returns (e: ErrorOption)
    requires AtByte(b) && o.Flushed() && o.before == o.made == [] && Same(Gunzip(b.Rest(), []), goal)
    modifies b`ipos, b`bitbuf, b`bitcnt, b`derr, o, o.window
    ensures Same(goal, Result(e, o.out))
  {
    ghost var all := [];
    var more := true;
    e := NoError;
    assert [] + [] == all;
    while more
      invariant o.Flushed() && Same(o.before + o.made, all)
      invariant if more then AtByte(b) && Same(Gunzip(b.Rest(), all), goal) else Same(goal, Result(e, all))
      decreases more, if more then |b.Rest()| else 0
    {
      more, e, all := OneMember(b, o, all, goal);
    }
    AllWritten(o.crc, o.out, o.before, o.made);
  }

  /** gzip_decompress, after the magic number of the first member. */
  method Decompress(input: seq<byte>) returns (r: Result)
    ensures Same(r, Gunzip(Unpack(input), []))
  {
    var b := new BitReader(input);
    var o := new OutWindow();
    var e := ReadMembers(b, o, Gunzip(Unpack(input), []));
    r := Result(e, o.out);
  }
}
