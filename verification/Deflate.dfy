/** The formats as gzip.c reads them: DEFLATE (RFC 1951) and gzip members (RFC 1952), as functions
    from the bits that remain to what they mean. */
module Deflate {
  import opened Bits
  import opened Crc
  import opened Canonical
  import opened Huffman

  datatype Error =
    | UnexpectedEof
    | UnknownMethod
    | UnknownFlags
    | InvalidBlockType
    | InvalidStoredLength
    | TooManyCodes
    | InvalidCodeLengths
    | RepeatWithNoFirst
    | TooManyLengths
    | NoEndOfBlock
    | InvalidTrees
    | InvalidCode
    | InvalidLengthCode
    | InvalidDistanceCode
    | DistanceTooFar
    | CrcError
    | LengthError
    | TrailingGarbage

  const WSIZE := 32768

  // ---- the tables ----

  // Each length code takes up where the one before ends, and so does each distance code; only the
  // last length code stands for the greatest length alone.

  function LenExtra(c: nat): nat
  {
    if c < 4 || c == 28 then 0 else c / 4 - 1
  }

  function LenBase(c: nat): nat
  {
    if c == 0 then 3 else if c == 28 then 258 else LenBase(c - 1) + Pow2(LenExtra(c - 1))
  }

  function DistExtra(c: nat): nat
  {
    if c < 2 then 0 else c / 2 - 1
  }

  function DistBase(c: nat): (b: nat)
    ensures b >= 1
  {
    if c == 0 then 1 else DistBase(c - 1) + Pow2(DistExtra(c - 1))
  }

  /** gzip.c's len_base. */
  lemma {:induction false} LenBaseTable()
    ensures LenBase(0) == 3 && LenBase(1) == 4 && LenBase(2) == 5 && LenBase(3) == 6 && LenBase(4) == 7
    ensures LenBase(5) == 8 && LenBase(6) == 9 && LenBase(7) == 10 && LenBase(8) == 11 && LenBase(9) == 13
    ensures LenBase(10) == 15 && LenBase(11) == 17 && LenBase(12) == 19 && LenBase(13) == 23 && LenBase(14) == 27
    ensures LenBase(15) == 31 && LenBase(16) == 35 && LenBase(17) == 43 && LenBase(18) == 51 && LenBase(19) == 59
    ensures LenBase(20) == 67 && LenBase(21) == 83 && LenBase(22) == 99 && LenBase(23) == 115 && LenBase(24) == 131
    ensures LenBase(25) == 163 && LenBase(26) == 195 && LenBase(27) == 227 && LenBase(28) == 258
  {
  }

  /** gzip.c's dist_base. */
  lemma {:induction false} DistBaseTable()
    ensures DistBase(0) == 1 && DistBase(1) == 2 && DistBase(2) == 3 && DistBase(3) == 4 && DistBase(4) == 5
    ensures DistBase(5) == 7 && DistBase(6) == 9 && DistBase(7) == 13 && DistBase(8) == 17 && DistBase(9) == 25
    ensures DistBase(10) == 33 && DistBase(11) == 49 && DistBase(12) == 65 && DistBase(13) == 97 && DistBase(14) == 129
    ensures DistBase(15) == 193 && DistBase(16) == 257 && DistBase(17) == 385 && DistBase(18) == 513 && DistBase(19) == 769
    ensures DistBase(20) == 1025 && DistBase(21) == 1537 && DistBase(22) == 2049 && DistBase(23) == 3073 && DistBase(24) == 4097
    ensures DistBase(25) == 6145 && DistBase(26) == 8193 && DistBase(27) == 12289 && DistBase(28) == 16385 && DistBase(29) == 24577
  {
    Pow2Values();
  }

  /** gzip.c's len_extra. */
  lemma {:induction false} LenExtraTable()
    ensures LenExtra(0) == 0 && LenExtra(1) == 0 && LenExtra(2) == 0 && LenExtra(3) == 0 && LenExtra(4) == 0
    ensures LenExtra(5) == 0 && LenExtra(6) == 0 && LenExtra(7) == 0 && LenExtra(8) == 1 && LenExtra(9) == 1
    ensures LenExtra(10) == 1 && LenExtra(11) == 1 && LenExtra(12) == 2 && LenExtra(13) == 2 && LenExtra(14) == 2
    ensures LenExtra(15) == 2 && LenExtra(16) == 3 && LenExtra(17) == 3 && LenExtra(18) == 3 && LenExtra(19) == 3
    ensures LenExtra(20) == 4 && LenExtra(21) == 4 && LenExtra(22) == 4 && LenExtra(23) == 4 && LenExtra(24) == 5
    ensures LenExtra(25) == 5 && LenExtra(26) == 5 && LenExtra(27) == 5 && LenExtra(28) == 0
  {
  }

  /** gzip.c's dist_extra. */
  lemma {:induction false} DistExtraTable()
    ensures DistExtra(0) == 0 && DistExtra(1) == 0 && DistExtra(2) == 0 && DistExtra(3) == 0 && DistExtra(4) == 1
    ensures DistExtra(5) == 1 && DistExtra(6) == 2 && DistExtra(7) == 2 && DistExtra(8) == 3 && DistExtra(9) == 3
    ensures DistExtra(10) == 4 && DistExtra(11) == 4 && DistExtra(12) == 5 && DistExtra(13) == 5 && DistExtra(14) == 6
    ensures DistExtra(15) == 6 && DistExtra(16) == 7 && DistExtra(17) == 7 && DistExtra(18) == 8 && DistExtra(19) == 8
    ensures DistExtra(20) == 9 && DistExtra(21) == 9 && DistExtra(22) == 10 && DistExtra(23) == 10 && DistExtra(24) == 11
    ensures DistExtra(25) == 11 && DistExtra(26) == 12 && DistExtra(27) == 12 && DistExtra(28) == 13 && DistExtra(29) == 13
  {
  }

  /** The order of the code length code lengths: the repeats, 0, and then from 8 outwards. */
  function ClOrder(i: nat): (c: nat)
    requires i < 19
    ensures c < 19
  {
    if i < 3 then 16 + i else if i == 3 then 0 else if i % 2 == 0 then 6 + i / 2 else (19 - i) / 2
  }

  /** Where a symbol stands in that order. */
  function ClPlace(c: nat): (i: nat)
    requires c < 19
    ensures i < 19
  {
    if c >= 16 then c - 16 else if c == 0 then 3 else if c >= 8 then 2 * (c - 6) else 19 - 2 * c
  }

  /** gzip.c's cl_order. */
  lemma {:induction false} ClOrderTable()
    ensures ClOrder(0) == 16 && ClOrder(1) == 17 && ClOrder(2) == 18 && ClOrder(3) == 0 && ClOrder(4) == 8
    ensures ClOrder(5) == 7 && ClOrder(6) == 9 && ClOrder(7) == 6 && ClOrder(8) == 10 && ClOrder(9) == 5
    ensures ClOrder(10) == 11 && ClOrder(11) == 4 && ClOrder(12) == 12 && ClOrder(13) == 3 && ClOrder(14) == 13
    ensures ClOrder(15) == 2 && ClOrder(16) == 14 && ClOrder(17) == 1 && ClOrder(18) == 15
  {
  }

  lemma {:induction false} ClOrderIsPermutation(c: nat)
    requires c < 19
    ensures ClOrder(ClPlace(c)) == c
  {
  }

  // ---- bits ----

  datatype Taken = Bits(v: nat, rest: seq<bool>) | NoBits

  /** The next n bits, low bit first. */
  function Take(s: seq<bool>, n: nat): (t: Taken)
    ensures t.Bits? <==> n <= |s|
    ensures t.Bits? ==> |t.rest| == |s| - n && t.v < Pow2(n)
  {
    if n <= |s| then ToFromBits(s[..n]); Bits(FromBits(s[..n]), s[n..]) else NoBits
  }

  /** The bits from the next byte boundary on; the whole input is a number of bytes. */
  function Align(s: seq<bool>): (r: seq<bool>)
    ensures |r| <= |s|
  {
    s[|s| % 8..]
  }

  // ---- DEFLATE blocks ----

  /** Reading goes on with the rest of the bits, or has failed; out is what the member holds so
      far. */
  datatype Outcome = Ok(rest: seq<bool>, out: seq<byte>) | Err(error: Error, out: seq<byte>)

  /** The last bytes of out again, from distance d on, n of them. */
  function Copy(out: seq<byte>, n: nat, d: nat): (r: seq<byte>)
    requires 1 <= d <= |out|
    ensures |r| == |out| + n
    decreases n
  {
    if n == 0 then out else Copy(out + [out[|out| - d]], n - 1, d)
  }

  datatype Command = Match(n: nat, d: nat, rest: seq<bool>) | BadMatch(error: Error)

  /** The rest of a match whose length code is c. */
  function MatchCommand(dist: lengths, c: nat, s: seq<bool>): (m: Command)
    ensures m.Match? ==> |m.rest| < |s| && m.d >= 1
  {
    match Take(s, LenExtra(c))
    case NoBits => BadMatch(UnexpectedEof)
    case Bits(x, s1) =>
      match Decode(dist, s1)
      case Eof => BadMatch(UnexpectedEof)
      case Invalid => BadMatch(InvalidCode)
      case Symbol(d, s2) =>
        if d >= 30 then BadMatch(InvalidDistanceCode)
        else
          match Take(s2, DistExtra(d))
          case NoBits => BadMatch(UnexpectedEof)
          case Bits(y, s3) =>
            Match(LenBase(c) + x, DistBase(d) + y, s3)
  }

  /** The symbols of a block up to its end, in the codes lit and dist. */
  function Codes(lit: lengths, dist: lengths, s: seq<bool>, out: seq<byte>): (r: Outcome)
    ensures r.Ok? ==> |r.rest| < |s|
    decreases |s|
  {
    match Decode(lit, s)
    case Eof => Err(UnexpectedEof, out)
    case Invalid => Err(InvalidCode, out)
    case Symbol(sym, s1) =>
      if sym < 256 then Codes(lit, dist, s1, out + [sym])
      else if sym == 256 then Ok(s1, out)
      else if sym - 257 >= 29 then Err(InvalidLengthCode, out)
      else
        match MatchCommand(dist, sym - 257, s1)
        case BadMatch(e) => Err(e, out)
        case Match(n, d, s2) =>
          if d > |out| || d > WSIZE then Err(DistanceTooFar, out)
          else Codes(lit, dist, s2, Copy(out, n, d))
  }

  function StoredBytes(s: seq<bool>, n: nat, out: seq<byte>): (r: Outcome)
    ensures r.Ok? ==> |r.rest| <= |s|
    decreases n
  {
    if n == 0 then Ok(s, out)
    else
      match Take(s, 8)
      case NoBits => Err(UnexpectedEof, out)
      case Bits(b, s1) => Pow2Values(); StoredBytes(s1, n - 1, out + [b])
  }

  function Stored(s: seq<bool>, out: seq<byte>): (r: Outcome)
    ensures r.Ok? ==> |r.rest| <= |s|
  {
    match Take(Align(s), 16)
    case NoBits => Err(UnexpectedEof, out)
    case Bits(n, s1) =>
      match Take(s1, 16)
      case NoBits => Err(UnexpectedEof, out)
      case Bits(m, s2) =>
        if n != 0xffff - m then Err(InvalidStoredLength, out) else StoredBytes(s2, n, out)
  }

  /** The fixed codes. */
  function FixedLit(): (len: lengths)
    ensures |len| == 288
    ensures forall i :: 0 <= i < 288 ==> len[i] == if i < 144 then 8 else if i < 256 then 9 else if i < 280 then 7 else 8
  {
    seq(288, i => if i < 144 then 8 else if i < 256 then 9 else if i < 280 then 7 else 8)
  }

  function FixedDist(): (len: lengths)
    ensures |len| == 30 && forall i :: 0 <= i < 30 ==> len[i] == 5
  {
    Repeat(5, 30)
  }

  /** The codes that build accepts. */
  predicate Buildable(len: lengths)
  {
    && (forall l :: 0 <= l <= MAXBITS ==> Left(Counts(len), l) >= 0)
    && (Rank(len, 0, |len|) >= |len| - 1 || Left(Counts(len), MAXBITS) == 0)
  }

  datatype Lens = LensOk(len: seq<nat>, rest: seq<bool>) | LensErr(error: Error)

  /** n code lengths of three bits, after those in acc. */
  function ClLens(s: seq<bool>, n: nat, acc: seq<nat>): (r: Lens)
    requires forall i :: 0 <= i < |acc| ==> acc[i] < 8
    ensures r.LensOk? ==> |r.len| == |acc| + n && |r.rest| <= |s| && forall i :: 0 <= i < |r.len| ==> r.len[i] < 8
    decreases n
  {
    if n == 0 then LensOk(acc, s)
    else
      match Take(s, 3)
      case NoBits => LensErr(UnexpectedEof)
      case Bits(v, s1) => Pow2Values(); ClLens(s1, n - 1, acc + [v])
  }

  /** The code length code from the lengths in the order of the format. */
  function ClCode(v: seq<nat>): (len: lengths)
    requires forall i :: 0 <= i < |v| ==> v[i] < 8
    ensures |len| == 19 && forall c :: 0 <= c < 19 ==> len[c] == if ClPlace(c) < |v| then v[ClPlace(c)] else 0
  {
    seq(19, c requires 0 <= c < 19 => if ClPlace(c) < |v| then v[ClPlace(c)] else 0)
  }

  /** The code lengths of a dynamic block up to n of them, after those in acc. */
  function CodeLens(cl: lengths, s: seq<bool>, n: nat, acc: lengths): (r: Lens)
    requires |cl| == 19 && |acc| <= n
    ensures r.LensOk? ==> |r.len| == n && |r.rest| <= |s| && forall i :: 0 <= i < |r.len| ==> r.len[i] <= MAXBITS
    decreases |s|
  {
    if |acc| == n then LensOk(acc, s)
    else
      match Decode(cl, s)
      case Eof => LensErr(UnexpectedEof)
      case Invalid => LensErr(InvalidCode)
      case Symbol(c, s1) =>
        if c < 16 then CodeLens(cl, s1, n, acc + [c])
        else if c == 16 && acc == [] then LensErr(RepeatWithNoFirst)
        else
          match Take(s1, RepeatBits(c))
          case NoBits => LensErr(UnexpectedEof)
          case Bits(x, s2) =>
            var rep := RepeatBase(c) + x;
            if |acc| + rep > n then LensErr(TooManyLengths)
            else CodeLens(cl, s2, n, acc + Repeat(if c == 16 then acc[|acc| - 1] else 0, rep))
  }

  function RepeatBits(c: nat): nat
  {
    if c == 16 then 2 else if c == 17 then 3 else 7
  }

  function RepeatBase(c: nat): nat
  {
    if c == 18 then 11 else 3
  }

  datatype Trees = Trees(lit: lengths, dist: lengths, rest: seq<bool>) | NoTrees(error: Error)

  /** The header of a dynamic block. */
  function DynamicTrees(s: seq<bool>): (t: Trees)
    ensures t.Trees? ==> |t.rest| <= |s| && 257 <= |t.lit| <= 286 && 1 <= |t.dist| <= 30
  {
    if |s| < 14 then NoTrees(UnexpectedEof)
    else
      var a := Take(s, 5);
      var b := Take(a.rest, 5);
      var c := Take(b.rest, 4);
      TreesOf(a.v + 257, b.v + 1, c.v + 4, c.rest)
  }

  function TreesOf(nlen: nat, ndist: nat, ncode: nat, s: seq<bool>): (t: Trees)
    requires nlen >= 257 && ndist >= 1
    ensures t.Trees? ==> |t.rest| <= |s| && 257 <= |t.lit| <= 286 && 1 <= |t.dist| <= 30
  {
    if nlen > 286 || ndist > 30 then NoTrees(TooManyCodes)
    else
      match ClLens(s, ncode, [])
      case LensErr(e) => NoTrees(e)
      case LensOk(v, s1) =>
        if !Buildable(ClCode(v)) then NoTrees(InvalidCodeLengths)
        else
          match CodeLens(ClCode(v), s1, nlen + ndist, [])
          case LensErr(e) => NoTrees(e)
          case LensOk(len, s2) =>
            if len[256] == 0 then NoTrees(NoEndOfBlock)
            else if !Buildable(len[..nlen]) || !Buildable(len[nlen..]) then NoTrees(InvalidTrees)
            else Trees(len[..nlen], len[nlen..], s2)
  }

  function Dynamic(s: seq<bool>, out: seq<byte>): (r: Outcome)
    ensures r.Ok? ==> |r.rest| <= |s|
  {
    match DynamicTrees(s)
    case NoTrees(e) => Err(e, out)
    case Trees(lit, dist, s1) => Codes(lit, dist, s1, out)
  }

  /** The blocks of a member up to the last one. */
  function Blocks(s: seq<bool>, out: seq<byte>): (r: Outcome)
    ensures r.Ok? ==> |r.rest| < |s|
    decreases |s|
  {
    if |s| < 3 then Err(UnexpectedEof, out)
    else
      var last, kind := s[0], Take(s[1..], 2);
      var r := Block(kind.v, kind.rest, out);
      if r.Ok? && !last then Blocks(r.rest, r.out) else r
  }

  function Block(kind: nat, s: seq<bool>, out: seq<byte>): (r: Outcome)
    ensures r.Ok? ==> |r.rest| <= |s|
  {
    if kind == 0 then Stored(s, out)
    else if kind == 1 then Codes(FixedLit(), FixedDist(), s, out)
    else if kind == 2 then Dynamic(s, out)
    else Err(InvalidBlockType, out)
  }

  // ---- gzip members ----

  datatype HeaderRead = HeaderOk(rest: seq<bool>) | HeaderErr(error: Error)

  /** Skip n bytes. */
  function Skip(s: seq<bool>, n: nat): (h: HeaderRead)
    ensures h.HeaderOk? ==> |h.rest| == |s| - 8 * n
  {
    if |s| < 8 * n then HeaderErr(UnexpectedEof) else HeaderOk(s[8 * n..])
  }

  /** Skip a zero-terminated string. */
  function SkipString(s: seq<bool>): (h: HeaderRead)
    ensures h.HeaderOk? ==> |h.rest| < |s|
  {
    if |s| < 8 then HeaderErr(UnexpectedEof)
    else if Take(s, 8).v == 0 then HeaderOk(s[8..])
    else SkipString(s[8..])
  }

  function SkipStringIf(present: bool, s: seq<bool>): (h: HeaderRead)
    ensures h.HeaderOk? ==> |h.rest| <= |s|
  {
    if present then SkipString(s) else HeaderOk(s)
  }

  predicate Flag(flags: nat, bit: nat)
    requires bit > 0
  {
    flags / bit % 2 == 1
  }

  /** The fields of a member's header after the two magic bytes. */
  function Header(s: seq<bool>): (h: HeaderRead)
    ensures h.HeaderOk? ==> |h.rest| < |s|
  {
    if |s| < 16 then HeaderErr(UnexpectedEof)
    else
      var cm, flags := Take(s, 8).v, Take(s[8..], 8).v;
      if cm != 8 then HeaderErr(UnknownMethod)
      else if flags >= 0x20 then HeaderErr(UnknownFlags)
      else
        match Skip(s[16..], 6)
        case HeaderErr(e) => HeaderErr(e)
        case HeaderOk(s1) => HeaderFields(flags, s1)
  }

  function HeaderFields(flags: nat, s: seq<bool>): (h: HeaderRead)
    ensures h.HeaderOk? ==> |h.rest| <= |s|
  {
    match HeaderExtra(flags, s)
    case HeaderErr(e) => HeaderErr(e)
    case HeaderOk(s2) =>
      match SkipStringIf(Flag(flags, 8), s2)
      case HeaderErr(e) => HeaderErr(e)
      case HeaderOk(s3) =>
        match SkipStringIf(Flag(flags, 16), s3)
        case HeaderErr(e) => HeaderErr(e)
        case HeaderOk(s4) => if Flag(flags, 2) then Skip(s4, 2) else HeaderOk(s4)
  }

  function HeaderExtra(flags: nat, s: seq<bool>): (h: HeaderRead)
    ensures h.HeaderOk? ==> |h.rest| <= |s|
  {
    if !Flag(flags, 4) then HeaderOk(s)
    else if |s| < 16 then HeaderErr(UnexpectedEof)
    else Skip(s[16..], Take(s, 8).v + 256 * Take(s[8..], 8).v)
  }

  /** What a decompressor makes: an error, if any, and all the bytes written. */
  datatype Result = Result(error: ErrorOption, out: seq<byte>)
  datatype ErrorOption = NoError | Some(error: Error)

  /** The 32-bit CRC and length after the last block. */
  function Trailer(s: seq<bool>, out: seq<byte>): (e: ErrorOption)
    ensures e.NoError? ==> |s| >= 64
  {
    if |s| < 64 then Some(UnexpectedEof)
    else if s[..32] != Crc32(out) then Some(CrcError)
    else if Take(s[32..], 32).v != |out| % 0x1_0000_0000 then Some(LengthError)
    else NoError
  }

  /** The members after a magic number; out is what members before have given. */
  function Gunzip(s: seq<bool>, out: seq<byte>): Result
    decreases |s|
  {
    match Header(s)
    case HeaderErr(e) => Result(Some(e), out)
    case HeaderOk(s1) =>
      match Blocks(s1, [])
      case Err(e, m) => Result(Some(e), out + m)
      case Ok(s2, m) =>
        var s3 := Align(s2);
        match Trailer(s3, m)
        case Some(e) => Result(Some(e), out + m)
        case NoError =>
          match NextMember(s3[64..])
          case End => Result(NoError, out + m)
          case Garbage => Result(Some(TrailingGarbage), out + m)
          case Member(s4) => Gunzip(s4, out + m)
  }

  datatype Next = End | Garbage | Member(rest: seq<bool>)

  /** What follows a member: nothing, or the magic number of another one. */
  function NextMember(s: seq<bool>): (n: Next)
    ensures n.Member? ==> |n.rest| < |s|
  {
    if s == [] then End
    else if |s| < 16 || Take(s, 8).v != 0x1f || Take(s[8..], 8).v != 0x8b then Garbage
    else Member(s[16..])
  }
}
