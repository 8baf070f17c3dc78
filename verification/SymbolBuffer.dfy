/** gzip.c's buffer of the symbols of a block, with their frequencies: tally and write_symbols. */
module SymbolBuffer {
  import opened Bits
  import opened Huffman
  import opened Deflate
  import opened Tokens

  const SYMS := 16384
  const LIT_CODES := 286
  const DIST_CODES := 30

  /** How many of the first n tokens have the literal or length symbol i. */
  function LitFreq(ts: seq<Token>, n: nat, i: nat): (c: nat)
    requires n <= |ts|
    ensures c <= n
  {
    if n == 0 then 0 else LitFreq(ts, n - 1, i) + if LitSymbol(ts[n - 1]) == i then 1 else 0
  }

  /** How many of the first n tokens have the distance code i. */
  function DistFreq(ts: seq<Token>, n: nat, i: nat): (c: nat)
    requires n <= |ts|
    ensures c <= n
  {
    if n == 0 then 0 else DistFreq(ts, n - 1, i) + if ts[n - 1].Pair? && DistCode(ts[n - 1].d) == i then 1 else 0
  }

  lemma {:induction false} FreqSame(ts: seq<Token>, us: seq<Token>, n: nat, i: nat)
    requires n <= |ts| && ts <= us
    ensures LitFreq(us, n, i) == LitFreq(ts, n, i) && DistFreq(us, n, i) == DistFreq(ts, n, i)
  {
    if n > 0 {
      FreqSame(ts, us, n - 1, i);
    }
  }

  lemma {:induction false} FreqPositive(ts: seq<Token>, n: nat, k: nat)
    requires k < n <= |ts|
    ensures LitFreq(ts, n, LitSymbol(ts[k])) > 0
    ensures ts[k].Pair? ==> DistFreq(ts, n, DistCode(ts[k].d)) > 0
    decreases n
  {
    if k < n - 1 {
      FreqPositive(ts, n - 1, k);
    }
  }

  /** The token that a distance and a literal or length stand for. */
  function TokenOf(dist: nat, lc: nat): (t: Token)
    requires dist == 0 ==> lc < 256
    ensures t.Literal? <==> dist == 0
  {
    if dist == 0 then Literal(lc) else Pair(lc + MIN_MATCH, dist)
  }

  /** len_code. */
  method FindLenCode(len: nat) returns (c: nat)
    ensures c == LenCode(len) && c < 29 && (c < 28 ==> len < LenBase(c + 1))
    ensures MIN_MATCH <= len <= MAX_MATCH ==> LenCovers(c, len)
  {
    c := 0;
    while c < 28 && LenBase(c + 1) <= len
      invariant c < 29 && LenCodeFrom(len, c) == LenCode(len)
    {
      c := c + 1;
    }
    if MIN_MATCH <= len <= MAX_MATCH {
      LenCodeFits(len, 0);
    }
  }

  /** dist_code. */
  method FindDistCode(d: nat) returns (c: nat)
    ensures c == DistCode(d) && c < 30 && (c < 29 ==> d < DistBase(c + 1))
    ensures 1 <= d <= WSIZE ==> DistCovers(c, d)
  {
    c := 0;
    while c < 29 && DistBase(c + 1) <= d
      invariant c < 30 && DistCodeFrom(d, c) == DistCode(d)
    {
      c := c + 1;
    }
    if 1 <= d <= WSIZE {
      DistCodeFits(d, 0);
    }
  }

  /** The codes that write the code words of len. */
  ghost predicate Writes(len: lengths, ll: seq<nat>, lc: seq<nat>)
  {
    && |len| <= |ll| && |len| <= |lc|
    && forall i :: 0 <= i < |len| && len[i] > 0 ==> ll[i] == len[i] && IsCode(len, i, lc[i])
  }

  class SymbolBuffer {
    const symDist: array<nat>
    const symLc: array<nat>
    const litFreq: array<nat>
    const distFreq: array<nat>
    var nsym: nat
    var symBytes: nat
    ghost var ts: seq<Token>

    ghost predicate Valid()
      reads this, symDist, symLc, litFreq, distFreq
    {
      && symDist.Length == SYMS && symLc.Length == SYMS && litFreq.Length == LIT_CODES && distFreq.Length == DIST_CODES
      && symDist != symLc && symDist != litFreq && symDist != distFreq && symLc != litFreq && symLc != distFreq
      && litFreq != distFreq
      && nsym == |ts| <= SYMS
      && HoldsTokens(symDist[..], symLc[..], ts)
      && symBytes == TokenBytes(ts, |ts|)
      && CountsTokens(litFreq[..], distFreq[..], ts)
    }

    constructor ()
      ensures Valid() && ts == [] && fresh(symDist) && fresh(symLc) && fresh(litFreq) && fresh(distFreq)
    {
      symDist := new nat[SYMS];
      symLc := new nat[SYMS];
      litFreq := new nat[LIT_CODES](_ => 0);
      distFreq := new nat[DIST_CODES](_ => 0);
      nsym := 0;
      symBytes := 0;
      ts := [];
    }

    /** One more literal (distance 0) or match. */
    method Tally(dist: nat, lc: nat)
      requires Valid() && nsym < SYMS && lc < 256 && dist <= WSIZE
      modifies this, symDist, symLc, litFreq, distFreq
      ensures Valid() && ts == old(ts) + [TokenOf(dist, lc)]
    {
      hide HoldsTokens, CountsTokens, TokenBytes, LenBase, DistBase, Pow2, LenCodeFrom, DistCodeFrom;
      symDist[nsym] := dist;
      symLc[nsym] := lc;
      nsym := nsym + 1;
      symBytes := symBytes + if dist == 0 then 1 else lc + MIN_MATCH;
      if dist == 0 {
        litFreq[lc] := litFreq[lc] + 1;
      } else {
        var l := FindLenCode(lc + MIN_MATCH);
        litFreq[257 + l] := litFreq[257 + l] + 1;
        var c := FindDistCode(dist);
        distFreq[c] := distFreq[c] + 1;
      }
      HoldsMore(old(symDist[..]), old(symLc[..]), ts, dist, lc);
      TallyMore(old(litFreq[..]), old(distFreq[..]), ts, TokenOf(dist, lc));
      BytesMore(ts, TokenOf(dist, lc));
      ts := ts + [TokenOf(dist, lc)];
    }

    /** The start of a new block. */
    method Clear()
      requires Valid()
      modifies this, litFreq, distFreq
      ensures Valid() && ts == []
    {
      symBytes := 0;
      nsym := 0;
      forall i | 0 <= i < litFreq.Length {
        litFreq[i] := 0;
      }
      forall i | 0 <= i < distFreq.Length {
        distFreq[i] := 0;
      }
      ts := [];
    }
  }

  /** The arrays hold the tokens. */
  ghost predicate HoldsTokens(sd: seq<nat>, sl: seq<nat>, ts: seq<Token>)
  {
    && |ts| <= |sd| && |ts| <= |sl|
    && forall i :: 0 <= i < |ts| ==> (sd[i] == 0 ==> sl[i] < 256) && sl[i] < 256 && sd[i] <= WSIZE && ts[i] == TokenOf(sd[i], sl[i])
  }

  /** The arrays count the tokens. */
  ghost predicate CountsTokens(lf: seq<nat>, df: seq<nat>, ts: seq<Token>)
  {
    && (forall i :: 0 <= i < |lf| ==> lf[i] == LitFreq(ts, |ts|, i))
    && (forall i :: 0 <= i < |df| ==> df[i] == DistFreq(ts, |ts|, i))
  }

  /** The input bytes that tokens stand for. */
  function TokenBytes(ts: seq<Token>, n: nat): nat
    requires n <= |ts|
  {
    if n == 0 then 0 else TokenBytes(ts, n - 1) + if ts[n - 1].Literal? then 1 else ts[n - 1].n
  }

  lemma {:induction false} BytesSame(ts: seq<Token>, us: seq<Token>, n: nat)
    requires n <= |ts| && ts <= us
    ensures TokenBytes(us, n) == TokenBytes(ts, n)
  {
    if n > 0 {
      BytesSame(ts, us, n - 1);
    }
  }

  lemma {:induction false} BytesMore(ts: seq<Token>, t: Token)
    ensures TokenBytes(ts + [t], |ts| + 1) == TokenBytes(ts, |ts|) + if t.Literal? then 1 else t.n
  {
    BytesSame(ts, ts + [t], |ts|);
  }

  lemma {:induction false} HoldsMore(sd: seq<nat>, sl: seq<nat>, ts: seq<Token>, dist: nat, lc: nat)
    requires HoldsTokens(sd, sl, ts) && |ts| < |sd| && |ts| < |sl| && lc < 256 && dist <= WSIZE
    ensures HoldsTokens(sd[|ts| := dist], sl[|ts| := lc], ts + [TokenOf(dist, lc)])
  {
  }

  lemma {:induction false} TallyMore(lf: seq<nat>, df: seq<nat>, ts: seq<Token>, t: Token)
    requires CountsTokens(lf, df, ts) && LitSymbol(t) < |lf| && (t.Pair? ==> DistCode(t.d) < |df|)
    ensures CountsTokens(lf[LitSymbol(t) := lf[LitSymbol(t)] + 1],
                         if t.Pair? then df[DistCode(t.d) := df[DistCode(t.d)] + 1] else df, ts + [t])
  {
    forall i: nat
      ensures LitFreq(ts + [t], |ts|, i) == LitFreq(ts, |ts|, i) && DistFreq(ts + [t], |ts|, i) == DistFreq(ts, |ts|, i)
    {
      FreqSame(ts, ts + [t], |ts|, i);
    }
  }
}
