/** gzip.c's inflater: the decoder functions step by step, with a window for the last 32768 bytes. */
module Inflate {
  import opened Bits
  import opened Crc
  import opened Canonical
  import opened Huffman
  import opened Deflate
  import opened Tokens
  import opened BlockStream
  import opened BitReader
  import opened OutWindow

  // ---- decode ----

  /** The symbol at its place in the table. */
  lemma {:induction false} SymbolAt(h: Table, len: lengths, l: nat, k: nat)
    requires Tabulates(h, len) && 1 <= l <= MAXBITS && k < Counts(len)[l]
    ensures Offset(Counts(len), l) + k < |h.symbol| && h.symbol[Offset(Counts(len), l) + k] == Nth(len, l, k, |len|)
  {
    hide Rank, Offset, Counts, Nth, Roomy;
    OffsetsRoomy(len);
    var i := Nth(len, l, k, |len|);
    assert Holds(h.symbol, Offsets(Counts(len))[len[i]] + Rank(len, len[i], i), i);
  }

  /** With l - 1 bits of a code word read, the rest of it is to come in s. */
  ghost predicate Reading(c: counts, l: nat, code: nat, s: seq<bool>, r: Read)
  {
    1 <= l <= MAXBITS + 1 && First(c, l) <= code && Same(ReadWord(c, l, code, s), r)
  }

  lemma {:induction false} NextBit(c: counts, l: nat, code: nat, s: seq<bool>, r: Read, v: nat, rest: seq<bool>)
    requires Reading(c, l, code, s, r) && l <= MAXBITS && Same(Take(s, 1), Taken.Bits(v, rest)) && |s| >= 1 && v < 2
    ensures code + v < First(c, l) + c[l] ==> Same(r, Word(l, code + v - First(c, l), rest))
    ensures code + v >= First(c, l) + c[l] ==> Reading(c, l + 1, 2 * (code + v), rest, r)
    ensures code + v >= First(c, l)
  {
    assert s[..1] == [s[0]];
    assert s[1..] == rest;
    assert FromBits([s[0]]) == Bit(s[0]) by {
      assert [s[0]][1..] == [];
    }
  }

  /** What decode has found: a symbol, or an error. */
  ghost predicate Decoding(d: Decoded, b: BitReader, sym: int)
    requires b.Valid()
    reads b
  {
    match d
    case Symbol(s, rest) => b.derr == NoError && sym == s && Same(b.Rest(), rest)
    case Eof => b.derr == Some(UnexpectedEof) && sym == -1
    case Invalid => b.derr == Some(InvalidCode) && sym == -1
  }

  lemma {:induction false} NoBit(c: counts, l: nat, code: nat, s: seq<bool>, r: Read)
    requires Reading(c, l, code, s, r) && l <= MAXBITS && |s| < 1
    ensures Same(r, EndOfInput)
  {
  }

  /** One bit more, code so far; or an error. */
  method ReadBit(b: BitReader, ghost c: counts, l: nat, code: nat, ghost r: Read) returns (code': nat)
    requires b.Valid() && b.derr == NoError && l <= MAXBITS && Reading(c, l, code, b.Rest(), r)
    modifies b`ipos, b`bitbuf, b`bitcnt, b`derr
    ensures b.Valid()
    ensures b.derr != NoError ==> b.derr == Some(UnexpectedEof) && Same(r, EndOfInput)
    ensures b.derr == NoError ==> BitRead(c, l, code', b.Rest(), r)
  {
    hide ReadWord, First, Unpack, ToBits, Pow2;
    ghost var s := b.Rest();
    var v := b.Bits(1);
    code' := code + v;
    if b.derr == NoError {
      Pow2Values();
      NextBit(c, l, code, s, r, v, b.Rest());
    } else {
      NoBit(c, l, code, s, r);
    }
  }

  /** The code word ends with this bit, or it goes on. */
  ghost predicate BitRead(c: counts, l: nat, code: nat, rest: seq<bool>, r: Read)
  {
    && 1 <= l <= MAXBITS && code >= First(c, l)
    && (code < First(c, l) + c[l] ==> Same(r, Word(l, code - First(c, l), rest)))
    && (code >= First(c, l) + c[l] ==> Reading(c, l + 1, 2 * code, rest, r))
  }

  /** What the code word found means. */
  lemma {:induction false} DecodedAs(len: lengths, s: seq<bool>, r: Read, d: Decoded)
    requires Same(ReadWord(Counts(len), 1, 0, s), r) && Same(Huffman.Decode(len, s), d)
    ensures match r
            case Word(l, k, rest) => Same(d, Symbol(Nth(len, l, k, |len|), rest))
            case EndOfInput => Same(d, Eof)
            case NoCode => Same(d, Invalid)
  {
  }

  /** The first code word of l bits and its place in the table. */
  ghost predicate Level(c: counts, l: nat, first: nat, index: nat)
  {
    1 <= l <= MAXBITS + 1 && first == First(c, l) && index == Offset(c, l)
  }

  lemma {:induction false} FirstLevel(len: lengths, s: seq<bool>) returns (r: Read, d: Decoded)
    ensures First(Counts(len), 1) <= 0 && Same(ReadWord(Counts(len), 1, 0, s), r) && Same(Huffman.Decode(len, s), d)
    ensures Level(Counts(len), 1, 0, 0) && Reading(Counts(len), 1, 0, s, r)
  {
    r, d := ReadWord(Counts(len), 1, 0, s), Huffman.Decode(len, s);
    assert Offset(Counts(len), 1) == Offset(Counts(len), 0) + Counts(len)[0];
  }

  lemma {:induction false} NextLevel(c: counts, l: nat, first: nat, index: nat)
    requires Level(c, l, first, index) && l <= MAXBITS
    ensures Level(c, l + 1, 2 * (first + c[l]), index + c[l])
  {
  }

  lemma {:induction false} CountAt(h: Table, len: lengths, l: nat)
    requires Tabulates(h, len) && 1 <= l <= MAXBITS
    ensures |h.count| == MAXBITS + 1 && h.count[l] == Counts(len)[l]
  {
  }

  /** The code word has come to its end with this bit, or goes on. */
  lemma {:induction false} EndOfWord(h: Table, len: lengths, l: nat, code: nat, first: nat, index: nat, s: seq<bool>, rest: seq<bool>, r: Read, d: Decoded)
    requires Tabulates(h, len) && 1 <= l <= MAXBITS && Level(Counts(len), l, first, index) && BitRead(Counts(len), l, code, rest, r)
    requires Same(ReadWord(Counts(len), 1, 0, s), r) && Same(Huffman.Decode(len, s), d)
    ensures |h.count| == MAXBITS + 1 && h.count[l] == Counts(len)[l] && code >= first
    ensures code < first + h.count[l] ==> index + (code - first) < |h.symbol| && Same(d, Symbol(h.symbol[index + (code - first)], rest))
    ensures code >= first + h.count[l] ==> Reading(Counts(len), l + 1, 2 * code, rest, r)
  {
    hide Tabulates, Counts, First, Offset, Nth, ReadWord, Huffman.Decode, Reading;
    CountAt(h, len, l);
    if code < first + h.count[l] {
      SymbolAt(h, len, l, code - first);
      DecodedAs(len, s, r, d);
    }
  }

  /** decode: the next symbol of the code in table h, or -1. */
  method Decode(b: BitReader, h: Table, ghost len: lengths) returns (sym: int)
    requires b.Valid() && b.derr == NoError && Tabulates(h, len)
    modifies b`ipos, b`bitbuf, b`bitcnt, b`derr
    ensures b.Valid() && Decoding(Huffman.Decode(len, old(b.Rest())), b, sym)
  {
    hide Huffman.Decode, ReadWord, Reading, Level, BitRead, Tabulates, Counts, First, Offset, Nth, Unpack, ToBits, Pow2;
    ghost var s, c := b.Rest(), Counts(len);
    ghost var r, d := FirstLevel(len, s);
    var code, first, index := 0, 0, 0;
    var l := 1;
    while l <= MAXBITS
      invariant b.Valid() && b.derr == NoError && 1 <= l <= MAXBITS + 1
      invariant Reading(c, l, code, b.Rest(), r) && Level(c, l, first, index)
    {
      code := ReadBit(b, c, l, code, r);
      if b.derr != NoError {
        DecodedAs(len, s, r, d);
        return -1;
      }
      EndOfWord(h, len, l, code, first, index, s, b.Rest(), r, d);
      NextLevel(c, l, first, index);
      var count := h.count[l];
      if code < first + count {
        return h.symbol[index + (code - first)];
      }
      index := index + count;
      first := first + count;
      first := 2 * first;
      code := 2 * code;
      l := l + 1;
    }
    NoWordLeft(len, s, code, b.Rest(), r, d);
    b.derr := Some(InvalidCode);
    return -1;
  }

  lemma {:induction false} NoWordLeft(len: lengths, s: seq<bool>, code: nat, rest: seq<bool>, r: Read, d: Decoded)
    requires Reading(Counts(len), MAXBITS + 1, code, rest, r)
    requires Same(ReadWord(Counts(len), 1, 0, s), r) && Same(Huffman.Decode(len, s), d)
    ensures Same(d, Invalid)
  {
    DecodedAs(len, s, r, d);
  }

  // ---- codes ----

  ghost predicate DidMatch(m: Command, b: BitReader, n: nat, d: nat)
    requires b.Valid()
    reads b
  {
    match m
    case BadMatch(e) => b.derr == Some(e)
    case Match(n', d', rest) => b.derr == NoError && n == n' && d == d' && Same(b.Rest(), rest)
  }

  /** The distance of a match of n bytes. */
  method MatchDistance(b: BitReader, dist: Table, ghost dl: lengths, ghost c: nat, n: nat, ghost s: seq<bool>, ghost x: nat) returns (d: nat)
    requires b.Valid() && b.derr == NoError && Tabulates(dist, dl) && n == LenBase(c) + x
    requires Same(Take(s, LenExtra(c)), Taken.Bits(x, b.Rest()))
    modifies b`ipos, b`bitbuf, b`bitcnt, b`derr
    ensures b.Valid() && DidMatch(MatchCommand(dl, c, s), b, n, d)
  {
    d := 0;
    var e := Decode(b, dist, dl);
    if e < 0 {
      return;
    }
    if e >= 30 {
      b.derr := Some(InvalidDistanceCode);
      return;
    }
    var y := b.Bits(DistExtra(e));
    d := DistBase(e) + y;
  }

  method ReadMatch(b: BitReader, dist: Table, ghost dl: lengths, c: nat) returns (n: nat, d: nat)
    requires b.Valid() && b.derr == NoError && Tabulates(dist, dl) && c < 29
    modifies b`ipos, b`bitbuf, b`bitcnt, b`derr
    ensures b.Valid() && DidMatch(MatchCommand(dl, c, old(b.Rest())), b, n, d)
  {
    ghost var s := b.Rest();
    d := 0;
    var x := b.Bits(LenExtra(c));
    n := LenBase(c) + x;
    if b.derr != NoError {
      return;
    }
    d := MatchDistance(b, dist, dl, c, n, s, x);
  }

  lemma {:induction false} CopyStep(out: seq<byte>, n: nat, d: nat)
    requires n > 0 && 1 <= d <= |out|
    ensures Same(Copy(out, n, d), Copy(out + [out[|out| - d]], n - 1, d))
  {
  }

  method CopyOne(o: OutWindow, n: nat, d: nat, ghost goal: seq<byte>)
    requires o.Valid() && 1 <= d <= |o.made| && d <= WSIZE && n > 0 && Same(Copy(o.made, n, d), goal)
    modifies o, o.window
    ensures o.Valid() && o.before == old(o.before) && d <= |o.made| && Same(Copy(o.made, n - 1, d), goal)
  {
    hide Copy, Keeps, Written, Placed;
    CopyStep(o.made, n, d);
    var c := o.Back(d);
    o.PutByte(c);
  }

  method CopyBack(o: OutWindow, n: nat, d: nat)
    requires o.Valid() && 1 <= d <= |o.made| && d <= WSIZE
    modifies o, o.window
    ensures o.Valid() && o.before == old(o.before) && Same(o.made, Copy(old(o.made), n, d))
  {
    hide Copy, Keeps, Written, Placed;
    ghost var goal := Copy(o.made, n, d);
    var len := n;
    while len > 0
      invariant o.Valid() && o.before == old(o.before) && d <= |o.made| && Same(Copy(o.made, len, d), goal)
    {
      CopyOne(o, len, d, goal);
      len := len - 1;
    }
    CopyDone(o.made, d);
  }

  lemma {:induction false} CopyDone(out: seq<byte>, d: nat)
    requires 1 <= d <= |out|
    ensures Same(Copy(out, 0, d), out)
  {
  }

  /** How reading a block has gone. */
  ghost predicate Did(r: Outcome, b: BitReader, o: OutWindow)
    requires b.Valid()
    reads b, o
  {
    match r
    case Ok(rest, out) => b.derr == NoError && Same(b.Rest(), rest) && Same(o.made, out)
    case Err(e, out) => b.derr == Some(e) && Same(o.made, out)
  }

  /** What is still to be read is the rest of goal. */
  ghost predicate OnTheWay(ll: lengths, dl: lengths, b: BitReader, o: OutWindow, goal: Outcome)
    reads b, o, o.window, o.table.table
  {
    b.Valid() && o.Valid() && b.derr == NoError && Same(Codes(ll, dl, b.Rest(), o.made), goal)
  }

  method OneMatch(b: BitReader, o: OutWindow, dist: Table, ghost ll: lengths, ghost dl: lengths, c: nat,
                  ghost s: seq<bool>, ghost goal: Outcome) returns (more: bool)
    requires b.Valid() && o.Valid() && b.derr == NoError && Tabulates(dist, dl) && c < 29
    requires Same(Huffman.Decode(ll, s), Symbol(257 + c, b.Rest())) && Same(Codes(ll, dl, s, o.made), goal)
    modifies b`ipos, b`bitbuf, b`bitcnt, b`derr, o, o.window
    ensures b.Valid() && o.Valid() && o.before == old(o.before)
    ensures if more then OnTheWay(ll, dl, b, o, goal) && |b.Rest()| < |s| else Did(goal, b, o)
  {
    hide MatchCommand, Tabulates, Unpack, ToBits, Take;
    var n, d := ReadMatch(b, dist, dl, c);
    if b.derr != NoError {
      return false;
    }
    if d > o.total || d > WSIZE {
      b.derr := Some(DistanceTooFar);
      return false;
    }
    CopyBack(o, n, d);
    more := true;
  }

  /** A symbol of a block and what goes with it. */
  method OneCode(b: BitReader, o: OutWindow, lit: Table, dist: Table, ghost ll: lengths, ghost dl: lengths, ghost goal: Outcome) returns (more: bool)
    requires OnTheWay(ll, dl, b, o, goal) && Tabulates(lit, ll) && Tabulates(dist, dl)
    modifies b`ipos, b`bitbuf, b`bitcnt, b`derr, o, o.window
    ensures b.Valid() && o.Valid() && o.before == old(o.before)
    ensures if more then OnTheWay(ll, dl, b, o, goal) && |b.Rest()| < |old(b.Rest())| else Did(goal, b, o)
  {
    hide MatchCommand, Tabulates, Unpack, ToBits, Take, Huffman.Decode;
    ghost var s := b.Rest();
    var sym := Decode(b, lit, ll);
    if sym < 0 {
      return false;
    }
    if sym < 256 {
      o.PutByte(sym);
      return true;
    }
    if sym == 256 {
      return false;
    }
    if sym - 257 >= 29 {
      b.derr := Some(InvalidLengthCode);
      return false;
    }
    more := OneMatch(b, o, dist, ll, dl, sym - 257, s, goal);
  }

  method ReadCodes(b: BitReader, o: OutWindow, lit: Table, dist: Table, ghost ll: lengths, ghost dl: lengths)
    requires b.Valid() && o.Valid() && b.derr == NoError && Tabulates(lit, ll) && Tabulates(dist, dl)
    modifies b`ipos, b`bitbuf, b`bitcnt, b`derr, o, o.window
    ensures b.Valid() && o.Valid() && o.before == old(o.before)
    ensures Did(Codes(ll, dl, old(b.Rest()), old(o.made)), b, o)
  {
    ghost var goal := Codes(ll, dl, b.Rest(), o.made);
    var more := true;
    while more
      invariant b.Valid() && o.Valid() && o.before == old(o.before)
      invariant if more then OnTheWay(ll, dl, b, o, goal) else Did(goal, b, o)
      decreases more, |b.Rest()|
    {
      more := OneCode(b, o, lit, dist, ll, dl, goal);
    }
  }

  // ---- stored blocks ----

  /** At a byte boundary, a byte is the next eight bits. */
  method NextByte(b: BitReader) returns (c: int)
    requires b.Valid() && b.bitcnt == 0
    modifies b`ipos
    ensures b.Valid()
    ensures c >= 0 ==> c < 256 && Same(Take(old(b.Rest()), 8), Taken.Bits(c, b.Rest()))
    ensures c < 0 ==> |old(b.Rest())| < 8
  {
    ghost var s := b.input[b.ipos..];
    c := b.InByte();
    if c >= 0 {
      FirstByte(s, b.input[b.ipos..], ToBits(b.bitbuf, 0));
    }
  }

  lemma {:induction false} FirstByte(s: seq<byte>, t: seq<byte>, none: seq<bool>)
    requires |s| > 0 && Same(t, s[1..]) && |none| == 0
    ensures Same(Take(none + Unpack(s), 8), Taken.Bits(s[0], none + Unpack(t)))
  {
    Pow2Values();
    AppendToNone(none, Unpack(s));
    AppendToNone(none, Unpack(t));
    TakeBack(s[0], 8, Unpack(s), Unpack(t));
  }

  ghost predicate StoredOn(b: BitReader, o: OutWindow, n: nat, goal: Outcome)
    reads b, o, o.window, o.table.table
  {
    b.Valid() && b.derr == NoError && b.bitcnt == 0 && o.Valid() && Same(StoredBytes(b.Rest(), n, o.made), goal)
  }

  method OneStored(b: BitReader, o: OutWindow, n: nat, ghost goal: Outcome) returns (more: bool)
    requires StoredOn(b, o, n, goal) && n > 0
    modifies b`ipos, b`derr, o, o.window
    ensures b.Valid() && o.Valid() && o.before == old(o.before)
    ensures if more then StoredOn(b, o, n - 1, goal) else Did(goal, b, o)
  {
    var c := NextByte(b);
    if c < 0 {
      b.derr := Some(UnexpectedEof);
      return false;
    }
    o.PutByte(c);
    more := true;
  }

  method CopyStored(b: BitReader, o: OutWindow, n: nat)
    requires b.Valid() && b.derr == NoError && b.bitcnt == 0 && o.Valid()
    modifies b`ipos, b`derr, o, o.window
    ensures b.Valid() && o.Valid() && o.before == old(o.before)
    ensures Did(StoredBytes(old(b.Rest()), n, old(o.made)), b, o)
  {
    ghost var goal := StoredBytes(b.Rest(), n, o.made);
    StartStored(b, o, n, goal);
    CopyOn(b, o, n, goal);
  }

  method CopyOn(b: BitReader, o: OutWindow, n: nat, ghost goal: Outcome)
    requires StoredOn(b, o, n, goal)
    modifies b`ipos, b`derr, o, o.window
    ensures b.Valid() && o.Valid() && o.before == old(o.before) && Did(goal, b, o)
  {
    hide *;
    var len := n;
    while len > 0
      invariant StoredOn(b, o, len, goal) && o.before == old(o.before)
    {
      var more := OneStored(b, o, len, goal);
      if !more {
        return;
      }
      len := len - 1;
    }
    EndStored(b, o, goal);
  }

  lemma {:induction false} StartStored(b: BitReader, o: OutWindow, n: nat, goal: Outcome)
    requires b.Valid() && b.derr == NoError && b.bitcnt == 0 && o.Valid() && goal == StoredBytes(b.Rest(), n, o.made)
    ensures StoredOn(b, o, n, goal)
  {
  }

  lemma {:induction false} EndStored(b: BitReader, o: OutWindow, goal: Outcome)
    requires StoredOn(b, o, 0, goal)
    ensures b.Valid() && o.Valid() && Did(goal, b, o)
  {
  }

  /** Two numbers of sixteen bits. */
  ghost predicate TwoSizes(s: seq<bool>, len: nat, nlen: nat, rest: seq<bool>)
  {
    |s| >= 32 && Same(Take(s, 16), Taken.Bits(len, s[16..])) && Same(Take(s[16..], 16), Taken.Bits(nlen, rest))
  }

  /** The length of stored bytes and its complement. */
  method ReadSize(b: BitReader) returns (len: nat, nlen: nat)
    requires b.Valid() && b.derr == NoError && b.bitcnt == 0
    modifies b`ipos, b`bitbuf, b`bitcnt, b`derr
    ensures b.Valid() && nlen < 0x1_0000
    ensures |old(b.Rest())| < 32 ==> b.derr == Some(UnexpectedEof)
    ensures |old(b.Rest())| >= 32 ==> b.derr == NoError && b.bitcnt == 0 && TwoSizes(old(b.Rest()), len, nlen, b.Rest())
  {
    Pow2Values();
    ghost var s := b.Rest();
    len := b.Bits(16);
    nlen := b.Bits(16);
    if |s| >= 32 {
      ByteBoundary(|s|, |b.input|, b.ipos, b.bitcnt);
    }
  }

  lemma {:induction false} ByteBoundary(n: nat, m: nat, i: nat, c: nat)
    requires n % 8 == 0 && n - 32 == c + 8 * (m - i) && c < 8
    ensures c == 0
  {
  }

  lemma {:induction false} StoredAfterSize(s: seq<bool>, len: nat, nlen: nat, rest: seq<bool>, out: seq<byte>)
    requires TwoSizes(Align(s), len, nlen, rest)
    ensures Same(Stored(s, out), if len != 0xffff - nlen then Err(InvalidStoredLength, out) else StoredBytes(rest, len, out))
  {
  }

  lemma {:induction false} StoredWithoutSize(s: seq<bool>, out: seq<byte>)
    requires |Align(s)| < 32
    ensures Same(Stored(s, out), Err(UnexpectedEof, out))
  {
  }

  method ReadStored(b: BitReader, o: OutWindow)
    requires b.Valid() && b.derr == NoError && o.Valid()
    modifies b`ipos, b`bitbuf, b`bitcnt, b`derr, o, o.window
    ensures b.Valid() && o.Valid() && o.before == old(o.before)
    ensures Did(Stored(old(b.Rest()), old(o.made)), b, o)
  {
    hide Stored, StoredBytes, TwoSizes, Unpack, ToBits;
    ghost var s := b.Rest();
    b.DropBits();
    var len, nlen := ReadSize(b);
    if b.derr != NoError {
      StoredWithoutSize(s, o.made);
      return;
    }
    StoredAfterSize(s, len, nlen, b.Rest(), o.made);
    if len != 0xffff - nlen {
      b.derr := Some(InvalidStoredLength);
      return;
    }
    CopyStored(b, o, len);
  }

  // ---- fixed codes ----

  method FixedTables() returns (lit: Table, dist: Table)
    ensures Tabulates(lit, FixedLit()) && Tabulates(dist, FixedDist())
  {
    FixedLitFits();
    FixedDistFits();
    var ok;
    ok, lit := Build(FixedLit());
    ok, dist := Build(FixedDist());
  }

  method ReadFixed(b: BitReader, o: OutWindow)
    requires b.Valid() && b.derr == NoError && o.Valid()
    modifies b`ipos, b`bitbuf, b`bitcnt, b`derr, o, o.window
    ensures b.Valid() && o.Valid() && o.before == old(o.before)
    ensures Did(Codes(FixedLit(), FixedDist(), old(b.Rest()), old(o.made)), b, o)
  {
    var lit, dist := FixedTables();
    ReadCodes(b, o, lit, dist, FixedLit(), FixedDist());
  }

  // ---- dynamic codes ----

  lemma {:induction false} SizesRead(s: seq<bool>, x: nat, s1: seq<bool>, y: nat, s2: seq<bool>, z: nat, s3: seq<bool>)
    requires Same(Take(s, 5), Taken.Bits(x, s1)) && Same(Take(s1, 5), Taken.Bits(y, s2)) && Same(Take(s2, 4), Taken.Bits(z, s3))
    ensures Same(DynamicTrees(s), TreesOf(x + 257, y + 1, z + 4, s3))
  {
  }

  lemma {:induction false} SizesMissing(s: seq<bool>)
    requires |s| < 14
    ensures Same(DynamicTrees(s), NoTrees(UnexpectedEof))
  {
  }

  /** The sizes in the header of a dynamic block. */
  method ReadSizes(b: BitReader) returns (nlen: nat, ndist: nat, ncode: nat)
    requires b.Valid() && b.derr == NoError
    modifies b`ipos, b`bitbuf, b`bitcnt, b`derr
    ensures b.Valid() && nlen >= 257 && ndist >= 1 && 4 <= ncode <= 19
    ensures b.derr != NoError ==> Same(DynamicTrees(old(b.Rest())), NoTrees(UnexpectedEof)) && b.derr == Some(UnexpectedEof)
    ensures b.derr == NoError ==> Same(DynamicTrees(old(b.Rest())), TreesOf(nlen, ndist, ncode, b.Rest()))
  {
    hide DynamicTrees, TreesOf, Unpack, ToBits;
    Pow2Values();
    ghost var s := b.Rest();
    var x := b.Bits(5);
    ghost var s1 := b.Rest();
    var y := b.Bits(5);
    ghost var s2 := b.Rest();
    var z := b.Bits(4);
    if b.derr == NoError {
      SizesRead(s, x, s1, y, s2, z, b.Rest());
    } else {
      SizesMissing(s);
    }
    nlen, ndist, ncode := x + 257, y + 1, z + 4;
  }

  /** The code length code as far as it has been read: v in the order of the format. */
  ghost predicate ClSoFar(len: seq<nat>, v: seq<nat>)
  {
    |len| == 19 && |v| <= 19 && (forall i :: 0 <= i < |v| ==> v[i] < 8)
    && forall c :: 0 <= c < 19 ==> len[c] == if ClPlace(c) < |v| then v[ClPlace(c)] else 0
  }

  lemma {:induction false} ClMore(len: seq<nat>, v: seq<nat>, x: nat)
    requires ClSoFar(len, v) && |v| < 19 && x < 8
    ensures ClSoFar(len[ClOrder(|v|) := x], v + [x])
  {
    forall c | 0 <= c < 19
      ensures len[ClOrder(|v|) := x][c] == if ClPlace(c) < |v| + 1 then (v + [x])[ClPlace(c)] else 0
    {
      ClOrderIsPermutation(c);
      OrderOf(|v|);
    }
  }

  lemma {:induction false} OrderOf(i: nat)
    requires i < 19
    ensures ClPlace(ClOrder(i)) == i
  {
  }

  /** Reading n more lengths of three bits, after v, is goal; or it has failed. */
  ghost predicate ClOnTheWay(b: BitReader, n: nat, v: seq<nat>, goal: Lens)
    reads b
  {
    && b.Valid() && (forall i :: 0 <= i < |v| ==> v[i] < 8)
    && if b.derr == NoError then Same(ClLens(b.Rest(), n, v), goal) else b.derr == Some(UnexpectedEof) && Same(goal, LensErr(UnexpectedEof))
  }

  method OneClLength(b: BitReader, n: nat, ghost v: seq<nat>, ghost goal: Lens) returns (x: nat)
    requires ClOnTheWay(b, n, v, goal) && n > 0
    modifies b`ipos, b`bitbuf, b`bitcnt, b`derr
    ensures x < 8 && ClOnTheWay(b, n - 1, v + [x], goal)
  {
    Pow2Values();
    x := b.Bits(3);
  }

  method ReadClLengths(b: BitReader, ncode: nat) returns (len: seq<nat>, ghost v: seq<nat>)
    requires b.Valid() && b.derr == NoError && ncode <= 19
    modifies b`ipos, b`bitbuf, b`bitcnt, b`derr
    ensures b.Valid() && ClSoFar(len, v)
    ensures b.derr == NoError ==> Same(ClLens(old(b.Rest()), ncode, []), LensOk(v, b.Rest()))
    ensures b.derr != NoError ==> b.derr == Some(UnexpectedEof) && Same(ClLens(old(b.Rest()), ncode, []), LensErr(UnexpectedEof))
  {
    hide ClLens, Unpack, ToBits, Take;
    len, v := Repeat(0, 19), [];
    ghost var goal := ClLens(b.Rest(), ncode, []);
    for i := 0 to ncode
      invariant ClSoFar(len, v) && |v| == i && ClOnTheWay(b, ncode - i, v, goal)
    {
      var x := OneClLength(b, ncode - i, v, goal);
      ClMore(len, v, x);
      len := len[ClOrder(i) := x];
      v := v + [x];
    }
    ClDone(b.Rest(), v);
  }

  lemma {:induction false} ClDone(s: seq<bool>, v: seq<nat>)
    requires forall i :: 0 <= i < |v| ==> v[i] < 8
    ensures Same(ClLens(s, 0, v), LensOk(v, s))
  {
  }

  lemma {:induction false} ClRead(len: seq<nat>, v: seq<nat>)
    requires ClSoFar(len, v)
    ensures Same(len, ClCode(v))
  {
    assert len == ClCode(v);
  }

  /** Reading lengths up to n of them, after len, is goal. */
  ghost predicate LensOnTheWay(cll: lengths, b: BitReader, n: nat, len: seq<nat>, goal: Lens)
    reads b
  {
    && b.Valid() && b.derr == NoError && |cll| == 19 && |len| <= n && (forall i :: 0 <= i < |len| ==> len[i] <= MAXBITS)
    && Same(CodeLens(cll, b.Rest(), n, len), goal)
  }

  ghost predicate LensFailed(b: BitReader, goal: Lens)
    reads b
  {
    b.Valid() && b.derr.Some? && Same(goal, LensErr(b.derr.error))
  }

  /** How often a repeat symbol repeats. */
  method ReadRepeat(b: BitReader, sym: nat) returns (rep: nat)
    requires b.Valid() && b.derr == NoError && 16 <= sym < 19
    modifies b`ipos, b`bitbuf, b`bitcnt, b`derr
    ensures b.Valid()
    ensures b.derr == NoError ==> rep >= RepeatBase(sym) && Same(Take(old(b.Rest()), RepeatBits(sym)), Taken.Bits(rep - RepeatBase(sym), b.Rest()))
    ensures b.derr != NoError ==> b.derr == Some(UnexpectedEof) && Same(Take(old(b.Rest()), RepeatBits(sym)), NoBits)
  {
    var x := b.Bits(if sym == 16 then 2 else if sym == 17 then 3 else 7);
    rep := (if sym == 18 then 11 else 3) + x;
  }

  lemma {:induction false} LengthRead(cll: lengths, s: seq<bool>, n: nat, len: lengths, c: nat, s1: seq<bool>)
    requires |cll| == 19 && |len| < n && Same(Huffman.Decode(cll, s), Symbol(c, s1))
    ensures c < 16 ==> Same(CodeLens(cll, s, n, len), CodeLens(cll, s1, n, len + [c]))
    ensures c == 16 && len == [] ==> Same(CodeLens(cll, s, n, len), LensErr(RepeatWithNoFirst))
    ensures c >= 16 && (len == [] ==> c > 16) && Take(s1, RepeatBits(c)).NoBits? ==> Same(CodeLens(cll, s, n, len), LensErr(UnexpectedEof))
  {
  }

  lemma {:induction false} RepeatRead(cll: lengths, s: seq<bool>, n: nat, len: lengths, c: nat, s1: seq<bool>, rep: nat, s2: seq<bool>, v: nat)
    requires |cll| == 19 && |len| < n && Same(Huffman.Decode(cll, s), Symbol(c, s1)) && c >= 16 && rep >= RepeatBase(c)
    requires if c == 16 then len != [] && v == len[|len| - 1] else v == 0
    requires Same(Take(s1, RepeatBits(c)), Taken.Bits(rep - RepeatBase(c), s2))
    ensures |len| + rep > n ==> Same(CodeLens(cll, s, n, len), LensErr(TooManyLengths))
    ensures |len| + rep <= n ==> Same(CodeLens(cll, s, n, len), CodeLens(cll, s2, n, len + Repeat(v, rep)))
  {
  }

  /** The lengths of a repeat symbol. */
  method OneRepeat(b: BitReader, ghost cll: lengths, n: nat, len: seq<nat>, sym: nat, ghost s: seq<bool>, ghost goal: Lens) returns (len': seq<nat>)
    requires b.Valid() && b.derr == NoError && |cll| == 19 && |len| < n && (forall i :: 0 <= i < |len| ==> len[i] <= MAXBITS)
    requires 16 <= sym < 19 && Same(Huffman.Decode(cll, s), Symbol(sym, b.Rest())) && Same(CodeLens(cll, s, n, len), goal)
    modifies b`ipos, b`bitbuf, b`bitcnt, b`derr
    ensures if b.derr == NoError then LensOnTheWay(cll, b, n, len', goal) && |len'| > |len| else LensFailed(b, goal)
  {
    len' := len;
    ghost var s1 := b.Rest();
    LengthRead(cll, s, n, len, sym, s1);
    var v := 0;
    if sym == 16 {
      if |len| == 0 {
        b.derr := Some(RepeatWithNoFirst);
        return;
      }
      v := len[|len| - 1];
    }
    var rep := ReadRepeat(b, sym);
    if b.derr != NoError {
      return;
    }
    RepeatRead(cll, s, n, len, sym, s1, rep, b.Rest(), v);
    if |len| + rep > n {
      b.derr := Some(TooManyLengths);
      return;
    }
    len' := len + Repeat(v, rep);
  }

  method OneLength(b: BitReader, cl: Table, ghost cll: lengths, n: nat, len: seq<nat>, ghost goal: Lens) returns (len': seq<nat>)
    requires LensOnTheWay(cll, b, n, len, goal) && |len| < n && Tabulates(cl, cll)
    modifies b`ipos, b`bitbuf, b`bitcnt, b`derr
    ensures if b.derr == NoError then LensOnTheWay(cll, b, n, len', goal) && |len'| > |len| else LensFailed(b, goal)
  {
    len' := len;
    ghost var s := b.Rest();
    var sym := Decode(b, cl, cll);
    if sym < 0 {
      return;
    }
    LengthRead(cll, s, n, len, sym, b.Rest());
    if sym < 16 {
      len' := len + [sym];
      return;
    }
    len' := OneRepeat(b, cll, n, len, sym, s, goal);
  }

  method ReadLengths(b: BitReader, cl: Table, ghost cll: lengths, n: nat, ghost goal: Lens) returns (len: seq<nat>)
    requires b.Valid() && b.derr == NoError && |cll| == 19 && Tabulates(cl, cll) && Same(CodeLens(cll, b.Rest(), n, []), goal)
    modifies b`ipos, b`bitbuf, b`bitcnt, b`derr
    ensures b.Valid() && if b.derr == NoError then Same(goal, LensOk(len, b.Rest())) else LensFailed(b, goal)
  {
    len := [];
    while |len| < n
      invariant LensOnTheWay(cll, b, n, len, goal)
    {
      len := OneLength(b, cl, cll, n, len, goal);
      if b.derr != NoError {
        return;
      }
    }
  }

  ghost predicate DidTrees(t: Trees, b: BitReader, lit: Table, dist: Table, ll: lengths, dl: lengths)
    requires b.Valid()
    reads b
  {
    match t
    case NoTrees(e) => b.derr == Some(e)
    case Trees(x, y, rest) => b.derr == NoError && Same(x, ll) && Same(y, dl) && Same(b.Rest(), rest) && Tabulates(lit, ll) && Tabulates(dist, dl)
  }

  lemma {:induction false} BuildIsBuildable(len: lengths)
    ensures Buildable(len) <==> Fits(Counts(len)) && (Rank(len, 0, |len|) >= |len| - 1 || Left(Counts(len), MAXBITS) == 0)
  {
  }

  method BuildTable(len: lengths) returns (ok: bool, h: Table)
    requires |len| <= TABLE_SIZE
    ensures ok == Buildable(len) && (ok ==> Tabulates(h, len))
  {
    BuildIsBuildable(len);
    ok, h := Build(len);
  }

  /** What the code lengths of a dynamic block come to. */
  function TreesFrom(nlen: nat, len: lengths, s: seq<bool>): Trees
    requires 257 <= nlen <= |len|
  {
    if len[256] == 0 then NoTrees(NoEndOfBlock)
    else if !Buildable(len[..nlen]) || !Buildable(len[nlen..]) then NoTrees(InvalidTrees)
    else Trees(len[..nlen], len[nlen..], s)
  }

  /** The trees are those that the lengths come to. */
  ghost predicate TreesWith(g: Lens, nlen: nat, t: Trees)
  {
    match g
    case LensErr(e) => Same(t, NoTrees(e))
    case LensOk(len, s) => 257 <= nlen <= |len| && (forall i :: 0 <= i < |len| ==> len[i] <= MAXBITS) && Same(t, TreesFrom(nlen, len, s))
  }

  lemma {:induction false} TreesByParts(nlen: nat, ndist: nat, ncode: nat, s: seq<bool>, v: seq<nat>, cll: lengths, s1: seq<bool>, t: Trees)
    requires 257 <= nlen <= 286 && 1 <= ndist <= 30 && (forall i :: 0 <= i < |v| ==> v[i] < 8) && |cll| == 19
    requires Same(ClLens(s, ncode, []), LensOk(v, s1)) && Same(ClCode(v), cll) && Same(TreesOf(nlen, ndist, ncode, s), t)
    ensures !Buildable(cll) ==> Same(t, NoTrees(InvalidCodeLengths))
    ensures Buildable(cll) ==> TreesWith(CodeLens(cll, s1, nlen + ndist, []), nlen, t)
  {
  }

  /** The codes made of the lengths. */
  method MakeTables(b: BitReader, nlen: nat, ndist: nat, len: lengths, ghost goal: Trees) returns (lit: Table, dist: Table, ghost ll: lengths, ghost dl: lengths)
    requires b.Valid() && b.derr == NoError && 257 <= nlen <= 286 && 1 <= ndist <= 30 && |len| == nlen + ndist
    requires Same(TreesFrom(nlen, len, b.Rest()), goal)
    modifies b`derr
    ensures b.Valid() && DidTrees(goal, b, lit, dist, ll, dl)
  {
    lit, dist, ll, dl := Table([], []), Table([], []), len[..nlen], len[nlen..];
    if len[256] == 0 {
      b.derr := Some(NoEndOfBlock);
      return;
    }
    var ok1, ok2;
    ok1, lit := BuildTable(len[..nlen]);
    ok2, dist := BuildTable(len[nlen..]);
    if !ok1 || !ok2 {
      b.derr := Some(InvalidTrees);
    }
  }

  method ReadSymbolTables(b: BitReader, cl: Table, ghost cll: lengths, nlen: nat, ndist: nat, ghost g: Lens, ghost goal: Trees)
    returns (lit: Table, dist: Table, ghost ll: lengths, ghost dl: lengths)
    requires b.Valid() && b.derr == NoError && 257 <= nlen <= 286 && 1 <= ndist <= 30 && |cll| == 19 && Tabulates(cl, cll)
    requires Same(CodeLens(cll, b.Rest(), nlen + ndist, []), g) && TreesWith(g, nlen, goal) && (g.LensOk? ==> |g.len| == nlen + ndist)
    modifies b`ipos, b`bitbuf, b`bitcnt, b`derr
    ensures b.Valid() && DidTrees(goal, b, lit, dist, ll, dl)
  {
    lit, dist, ll, dl := Table([], []), Table([], []), [], [];
    var len := ReadLengths(b, cl, cll, nlen + ndist, g);
    if b.derr != NoError {
      return;
    }
    lit, dist, ll, dl := MakeTables(b, nlen, ndist, len, goal);
  }

  method ReadTreesOf(b: BitReader, nlen: nat, ndist: nat, ncode: nat, ghost goal: Trees) returns (lit: Table, dist: Table, ghost ll: lengths, ghost dl: lengths)
    requires b.Valid() && b.derr == NoError && 257 <= nlen <= 286 && 1 <= ndist <= 30 && ncode <= 19
    requires Same(TreesOf(nlen, ndist, ncode, b.Rest()), goal)
    modifies b`ipos, b`bitbuf, b`bitcnt, b`derr
    ensures b.Valid() && DidTrees(goal, b, lit, dist, ll, dl)
  {
    lit, dist, ll, dl := Table([], []), Table([], []), [], [];
    ghost var s := b.Rest();
    ghost var v;
    var cll;
    cll, v := ReadClLengths(b, ncode);
    if b.derr != NoError {
      return;
    }
    ClRead(cll, v);
    TreesByParts(nlen, ndist, ncode, s, v, cll, b.Rest(), goal);
    var ok, cl := BuildTable(cll);
    if !ok {
      b.derr := Some(InvalidCodeLengths);
      return;
    }
    lit, dist, ll, dl := ReadSymbolTables(b, cl, cll, nlen, ndist, CodeLens(cll, b.Rest(), nlen + ndist, []), goal);
  }

  method ReadTrees(b: BitReader) returns (lit: Table, dist: Table, ghost ll: lengths, ghost dl: lengths)
    requires b.Valid() && b.derr == NoError
    modifies b`ipos, b`bitbuf, b`bitcnt, b`derr
    ensures b.Valid() && DidTrees(DynamicTrees(old(b.Rest())), b, lit, dist, ll, dl)
  {
    lit, dist, ll, dl := Table([], []), Table([], []), [], [];
    ghost var goal := DynamicTrees(b.Rest());
    var nlen, ndist, ncode := ReadSizes(b);
    if b.derr != NoError {
      return;
    }
    if nlen > 286 || ndist > 30 {
      b.derr := Some(TooManyCodes);
      return;
    }
    lit, dist, ll, dl := ReadTreesOf(b, nlen, ndist, ncode, goal);
  }

  method ReadDynamic(b: BitReader, o: OutWindow)
    requires b.Valid() && b.derr == NoError && o.Valid()
    modifies b`ipos, b`bitbuf, b`bitcnt, b`derr, o, o.window
    ensures b.Valid() && o.Valid() && o.before == old(o.before)
    ensures Did(Dynamic(old(b.Rest()), old(o.made)), b, o)
  {
    ghost var s := b.Rest();
    var lit, dist;
    ghost var ll, dl;
    lit, dist, ll, dl := ReadTrees(b);
    if b.derr != NoError {
      return;
    }
    ReadCodes(b, o, lit, dist, ll, dl);
  }
}
