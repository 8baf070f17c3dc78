/** The symbols of a DEFLATE block as the compressor thinks of them, literals and matches; their
    bits, and that reading those bits gives back what they stand for. */
module Tokens {
  import opened Bits
  import opened Canonical
  import opened Huffman
  import opened Deflate

  const MIN_MATCH := 3
  const MAX_MATCH := 258

  datatype Token = Literal(b: byte) | Pair(n: nat, d: nat)

  // ---- length and distance codes ----

  function LenCodeFrom(n: nat, c: nat): (r: nat)
    requires c < 29
    ensures r < 29
    decreases n, 29 - c
  {
    if c < 28 && LenBase(c + 1) <= n then LenCodeFrom(n, c + 1) else c
  }

  function DistCodeFrom(d: nat, c: nat): (r: nat)
    requires c < 30
    ensures r < 30
    decreases d, 30 - c
  {
    if c < 29 && DistBase(c + 1) <= d then DistCodeFrom(d, c + 1) else c
  }

  function LenCode(n: nat): (r: nat)
    ensures r < 29
  {
    LenCodeFrom(n, 0)
  }

  function DistCode(d: nat): (r: nat)
    ensures r < 30
  {
    DistCodeFrom(d, 0)
  }

  /** Length code c stands for n and its neighbours. */
  ghost predicate LenCovers(c: nat, n: nat)
  {
    LenBase(c) <= n < LenBase(c) + Pow2(LenExtra(c)) && LenExtra(c) <= 5
  }

  ghost predicate DistCovers(c: nat, d: nat)
  {
    DistBase(c) <= d < DistBase(c) + Pow2(DistExtra(c)) && DistExtra(c) <= 13
  }

  /** The code found for a length covers it. */
  lemma {:induction false} LenCodeFits(n: nat, c: nat)
    requires c < 29 && LenBase(c) <= n <= MAX_MATCH
    ensures LenCovers(LenCodeFrom(n, c), n)
    decreases n, 29 - c
  {
    if c < 28 {
      if LenBase(c + 1) <= n {
        LenCodeFits(n, c + 1);
      } else if c == 27 {
        LenBaseTable();
        Pow2Values();
      }
    }
  }

  /** The code found for a distance covers it. */
  lemma {:induction false} DistCodeFits(d: nat, c: nat)
    requires c < 30 && DistBase(c) <= d <= WSIZE
    ensures DistCovers(DistCodeFrom(d, c), d)
    decreases d, 30 - c
  {
    if c == 29 {
      DistBaseTable();
      Pow2Values();
    } else if DistBase(c + 1) <= d {
      DistCodeFits(d, c + 1);
    }
  }

  // ---- the meaning of tokens ----

  predicate ValidToken(t: Token, out: seq<byte>)
  {
    t.Pair? ==> MIN_MATCH <= t.n <= MAX_MATCH && 1 <= t.d <= |out| && t.d <= WSIZE
  }

  function Apply(out: seq<byte>, t: Token): seq<byte>
    requires ValidToken(t, out)
  {
    match t
    case Literal(b) => out + [b]
    case Pair(n, d) => Copy(out, n, d)
  }

  /** The history that grows from out with the first n tokens, as far as they are valid. */
  function Made(ts: seq<Token>, n: nat, out: seq<byte>): seq<byte>
    requires n <= |ts|
  {
    if n == 0 then out
    else
      var mid := Made(ts, n - 1, out);
      if ValidToken(ts[n - 1], mid) then Apply(mid, ts[n - 1]) else mid
  }

  ghost predicate AllValid(ts: seq<Token>, n: nat, out: seq<byte>)
    requires n <= |ts|
  {
    n == 0 || (AllValid(ts, n - 1, out) && ValidToken(ts[n - 1], Made(ts, n - 1, out)))
  }

  /** The first n tokens make history grow from out to result. */
  ghost predicate Means(ts: seq<Token>, n: nat, out: seq<byte>, result: seq<byte>)
    requires n <= |ts|
  {
    AllValid(ts, n, out) && Same(result, Made(ts, n, out))
  }

  /** What the tokens before the last make, which the last adds to. */
  lemma {:induction false} LastToken(ts: seq<Token>, n: nat, out: seq<byte>, result: seq<byte>) returns (mid: seq<byte>)
    requires 0 < n <= |ts| && Means(ts, n, out, result)
    ensures Means(ts, n - 1, out, mid) && ValidToken(ts[n - 1], mid) && Same(result, Apply(mid, ts[n - 1]))
  {
    mid := Made(ts, n - 1, out);
  }

  // ---- the bits of tokens ----

  /** The code of a literal or a length. */
  function LitSymbol(t: Token): nat
  {
    if t.Literal? then t.b else 257 + LenCode(t.n)
  }

  /** The token's code words are there. */
  ghost predicate Coded(lit: lengths, dist: lengths, t: Token)
  {
    && LitSymbol(t) < |lit| && lit[LitSymbol(t)] > 0
    && (t.Pair? ==> DistCode(t.d) < |dist| && dist[DistCode(t.d)] > 0)
  }

  ghost predicate AllCoded(lit: lengths, dist: lengths, ts: seq<Token>)
  {
    && 256 < |lit| && lit[256] > 0
    && forall i :: 0 <= i < |ts| ==> Coded(lit, dist, ts[i])
  }

  /** The extra bits of a length whose code is c, and a distance in its code e and extra bits. */
  function PairBits(dist: lengths, c: nat, x: nat, e: nat, y: nat): seq<bool>
    requires e < |dist|
  {
    ToBits(x, LenExtra(c)) + (CodeBits(dist, e) + ToBits(y, DistExtra(e)))
  }

  ghost predicate InTables(t: Token)
  {
    t.Pair? ==> t.n >= LenBase(LenCode(t.n)) && t.d >= DistBase(DistCode(t.d))
  }

  lemma {:induction false} ValidInTables(t: Token)
    requires t.Pair? ==> MIN_MATCH <= t.n <= MAX_MATCH && 1 <= t.d <= WSIZE
    ensures InTables(t)
  {
    if t.Pair? {
      LenCodeFits(t.n, 0);
      DistCodeFits(t.d, 0);
    }
  }

  ghost predicate AllInTables(ts: seq<Token>)
  {
    forall i :: 0 <= i < |ts| ==> InTables(ts[i])
  }

  function TokenBits(lit: lengths, dist: lengths, t: Token): seq<bool>
    requires Coded(lit, dist, t) && InTables(t)
  {
    match t
    case Literal(b) => CodeBits(lit, b)
    case Pair(n, d) =>
      var c, e := LenCode(n), DistCode(d);
      CodeBits(lit, 257 + c) + PairBits(dist, c, n - LenBase(c), e, d - DistBase(e))
  }

  lemma {:induction false} TokenAt(lit: lengths, dist: lengths, ts: seq<Token>, i: nat)
    requires i < |ts| && AllCoded(lit, dist, ts) && AllInTables(ts)
    ensures Coded(lit, dist, ts[i]) && InTables(ts[i])
  {
  }

  function TokensBits(lit: lengths, dist: lengths, ts: seq<Token>, n: nat): seq<bool>
    requires n <= |ts| && AllCoded(lit, dist, ts) && AllInTables(ts)
  {
    if n == 0 then [] else TokensBits(lit, dist, ts, n - 1) + TokenBits(lit, dist, ts[n - 1])
  }

  // ---- reading them back ----

  lemma {:induction false} TakeBack(v: nat, n: nat, s: seq<bool>, rest: seq<bool>)
    requires v < Pow2(n) && Same(s, ToBits(v, n) + rest)
    ensures Same(Take(s, n), Taken.Bits(v, rest))
  {
    FromToBits(v, n);
    assert s[..n] == ToBits(v, n) && s[n..] == rest;
  }

  lemma {:induction false} MatchByParts(dist: lengths, c: nat, s: seq<bool>, x: nat, s1: seq<bool>, e: nat, s2: seq<bool>, y: nat, rest: seq<bool>)
    requires Same(Take(s, LenExtra(c)), Taken.Bits(x, s1)) && Same(Decode(dist, s1), Symbol(e, s2)) && e < 30
    requires Same(Take(s2, DistExtra(e)), Taken.Bits(y, rest))
    ensures Same(MatchCommand(dist, c, s), Match(LenBase(c) + x, DistBase(e) + y, rest))
  {
  }

  /** Reading the extra bits of a length, a distance code and its extra bits. */
  lemma {:induction false} ReadPair(dist: lengths, c: nat, x: nat, e: nat, y: nat, s: seq<bool>, rest: seq<bool>)
    requires Fits(Counts(dist)) && e < |dist| && dist[e] > 0 && e < 30
    requires x < Pow2(LenExtra(c)) && y < Pow2(DistExtra(e)) && Same(s, PairBits(dist, c, x, e, y) + rest)
    ensures Same(MatchCommand(dist, c, s), Match(LenBase(c) + x, DistBase(e) + y, rest))
  {
    var s1, s2 := Split3(s, ToBits(x, LenExtra(c)), CodeBits(dist, e), ToBits(y, DistExtra(e)), rest);
    TakeBack(x, LenExtra(c), s, s1);
    DecodeWord(dist, e, s1, s2);
    TakeBack(y, DistExtra(e), s2, rest);
    MatchByParts(dist, c, s, x, s1, e, s2, y, rest);
  }

  /** x is what a length n has beyond its code c. */
  ghost predicate LenParts(n: nat, c: nat, x: nat)
  {
    c == LenCode(n) && LenBase(c) + x == n && x < Pow2(LenExtra(c)) && LenExtra(c) <= 5
  }

  ghost predicate DistParts(d: nat, e: nat, y: nat)
  {
    e == DistCode(d) && DistBase(e) + y == d && y < Pow2(DistExtra(e)) && DistExtra(e) <= 13
  }

  lemma {:induction false} LenPartsOf(n: nat) returns (c: nat, x: nat)
    requires MIN_MATCH <= n <= MAX_MATCH
    ensures LenParts(n, c, x) && c < 29
  {
    assert LenBase(0) == 3;
    LenCodeFits(n, 0);
    hide LenCodeFrom, LenBase, LenExtra, Pow2;
    c := LenCode(n);
    x := n - LenBase(c);
  }

  lemma {:induction false} DistPartsOf(d: nat) returns (e: nat, y: nat)
    requires 1 <= d <= WSIZE
    ensures DistParts(d, e, y) && e < 30
  {
    assert DistBase(0) == 1;
    DistCodeFits(d, 0);
    hide DistCodeFrom, DistBase, DistExtra, Pow2;
    e := DistCode(d);
    y := d - DistBase(e);
  }

  lemma {:induction false} PairByParts(lit: lengths, dist: lengths, n: nat, d: nat, c: nat, x: nat, e: nat, y: nat)
    requires LenParts(n, c, x) && DistParts(d, e, y) && Coded(lit, dist, Pair(n, d)) && InTables(Pair(n, d))
    ensures 257 + c < |lit| && lit[257 + c] > 0 && e < |dist| && dist[e] > 0
    ensures Same(TokenBits(lit, dist, Pair(n, d)), CodeBits(lit, 257 + c) + PairBits(dist, c, x, e, y))
  {
    hide LenCode, DistCode, LenBase, DistBase, LenExtra, DistExtra, Pow2, CodeBits, PairBits;
  }

  lemma {:induction false} LiteralByParts(lit: lengths, dist: lengths, b: byte, s: seq<bool>, rest: seq<bool>, out: seq<byte>)
    requires Same(Decode(lit, s), Symbol(b, rest))
    ensures Same(Codes(lit, dist, s, out), Codes(lit, dist, rest, Apply(out, Literal(b))))
  {
  }

  lemma {:induction false} CopyByParts(lit: lengths, dist: lengths, n: nat, d: nat, c: nat, s: seq<bool>, s1: seq<bool>, rest: seq<bool>, out: seq<byte>)
    requires c < 29 && Same(Decode(lit, s), Symbol(257 + c, s1)) && Same(MatchCommand(dist, c, s1), Match(n, d, rest))
    requires ValidToken(Pair(n, d), out)
    ensures Same(Codes(lit, dist, s, out), Codes(lit, dist, rest, Apply(out, Pair(n, d))))
  {
  }

  lemma {:induction false} ReadToken(lit: lengths, dist: lengths, t: Token, s: seq<bool>, rest: seq<bool>, out: seq<byte>)
    requires Fits(Counts(lit)) && Fits(Counts(dist))
    requires Coded(lit, dist, t) && InTables(t) && ValidToken(t, out) && Same(s, TokenBits(lit, dist, t) + rest)
    ensures Same(Codes(lit, dist, s, out), Codes(lit, dist, rest, Apply(out, t)))
  {
    match t
    case Literal(b) =>
      DecodeWord(lit, b, s, rest);
      LiteralByParts(lit, dist, b, s, rest, out);
    case Pair(n, d) =>
      ReadPairToken(lit, dist, n, d, s, rest, out);
  }

  lemma {:induction false} ReadPairToken(lit: lengths, dist: lengths, n: nat, d: nat, s: seq<bool>, rest: seq<bool>, out: seq<byte>)
    requires Fits(Counts(lit)) && Fits(Counts(dist)) && Coded(lit, dist, Pair(n, d)) && InTables(Pair(n, d))
    requires ValidToken(Pair(n, d), out) && Same(s, TokenBits(lit, dist, Pair(n, d)) + rest)
    ensures Same(Codes(lit, dist, s, out), Codes(lit, dist, rest, Apply(out, Pair(n, d))))
  {
    hide LenCode, DistCode, LenBase, DistBase, LenExtra, DistExtra, Pow2, CodeBits, PairBits, TokenBits, Codes, MatchCommand, Decode;
    var c, x := LenPartsOf(n);
    var e, y := DistPartsOf(d);
    PairByParts(lit, dist, n, d, c, x, e, y);
    var s1 := Split2(s, CodeBits(lit, 257 + c), PairBits(dist, c, x, e, y), rest);
    DecodeWord(lit, 257 + c, s, s1);
    ReadPair(dist, c, x, e, y, s1, rest);
    CopyByParts(lit, dist, n, d, c, s, s1, rest, out);
  }

  ghost predicate Readable(lit: lengths, dist: lengths, ts: seq<Token>)
  {
    Fits(Counts(lit)) && Fits(Counts(dist)) && AllCoded(lit, dist, ts) && AllInTables(ts)
  }

  lemma {:induction false} ReadNoTokens(lit: lengths, dist: lengths, ts: seq<Token>, s: seq<bool>, rest: seq<bool>, out: seq<byte>, result: seq<byte>)
    requires Readable(lit, dist, ts) && Means(ts, 0, out, result) && Same(s, TokensBits(lit, dist, ts, 0) + rest)
    ensures Same(Codes(lit, dist, s, out), Codes(lit, dist, rest, result))
  {
    AppendToNone(TokensBits(lit, dist, ts, 0), rest);
  }

  /** The last token is read after the others. */
  lemma {:induction false} ReadLastToken(lit: lengths, dist: lengths, ts: seq<Token>, n: nat, s: seq<bool>, rest: seq<bool>,
                                         out: seq<byte>, result: seq<byte>) returns (mid: seq<byte>, s1: seq<bool>)
    requires Readable(lit, dist, ts) && 0 < n <= |ts| && Means(ts, n, out, result) && Same(s, TokensBits(lit, dist, ts, n) + rest)
    ensures Means(ts, n - 1, out, mid) && Same(s, TokensBits(lit, dist, ts, n - 1) + s1)
    ensures Same(Codes(lit, dist, s1, mid), Codes(lit, dist, rest, result))
  {
    mid := LastToken(ts, n, out, result);
    TokenAt(lit, dist, ts, n - 1);
    s1 := Split2(s, TokensBits(lit, dist, ts, n - 1), TokenBits(lit, dist, ts[n - 1]), rest);
    ReadToken(lit, dist, ts[n - 1], s1, rest, mid);
  }

  /** Reading the bits of a block's tokens and its end makes the history they mean. */
  lemma {:induction false} ReadTokens(lit: lengths, dist: lengths, ts: seq<Token>, n: nat, s: seq<bool>, rest: seq<bool>,
                                      out: seq<byte>, result: seq<byte>)
    requires Readable(lit, dist, ts) && n <= |ts| && Means(ts, n, out, result) && Same(s, TokensBits(lit, dist, ts, n) + rest)
    ensures Same(Codes(lit, dist, s, out), Codes(lit, dist, rest, result))
    decreases n
  {
    hide *;
    if n == 0 {
      ReadNoTokens(lit, dist, ts, s, rest, out, result);
    } else {
      var mid, s1 := ReadLastToken(lit, dist, ts, n, s, rest, out, result);
      ReadTokens(lit, dist, ts, n - 1, s, s1, out, mid);
    }
  }

  /** The bits of a whole block in the codes lit and dist. */
  function BlockBits(lit: lengths, dist: lengths, ts: seq<Token>): seq<bool>
    requires AllCoded(lit, dist, ts) && AllInTables(ts)
  {
    TokensBits(lit, dist, ts, |ts|) + CodeBits(lit, 256)
  }

  lemma {:induction false} ReadBlock(lit: lengths, dist: lengths, ts: seq<Token>, s: seq<bool>, rest: seq<bool>, out: seq<byte>, result: seq<byte>)
    requires Fits(Counts(lit)) && Fits(Counts(dist)) && AllCoded(lit, dist, ts)
    requires AllInTables(ts) && Means(ts, |ts|, out, result)
    requires Same(s, BlockBits(lit, dist, ts) + rest)
    ensures Same(Codes(lit, dist, s, out), Ok(rest, result))
  {
    var s1 := Split2(s, TokensBits(lit, dist, ts, |ts|), CodeBits(lit, 256), rest);
    ReadTokens(lit, dist, ts, |ts|, s, s1, out, result);
    DecodeWord(lit, 256, s1, rest);
  }
}
