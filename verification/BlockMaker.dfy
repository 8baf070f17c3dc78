/** The compressor around its blocks: what has been written, what the block in the making stands
    for, and that the rest of the input will follow. */
module BlockMaker {
  import opened Bits
  import opened Deflate
  import opened Tokens
  import opened BitWriter
  import opened BlockStream
  import opened SymbolBuffer
  import opened FlushBlock

  lemma {:induction false} MeansSize(ts: seq<Token>, n: nat, out: seq<byte>, result: seq<byte>)
    requires n <= |ts| && Means(ts, n, out, result)
    ensures |result| == |out| + TokenBytes(ts, n)
    decreases n
  {
    if n > 0 {
      var mid := LastToken(ts, n, out, result);
      MeansSize(ts, n - 1, out, mid);
    }
  }

  lemma {:induction false} MadeSame(ts: seq<Token>, us: seq<Token>, n: nat, out: seq<byte>)
    requires n <= |ts| && ts <= us
    ensures Same(Made(us, n, out), Made(ts, n, out)) && AllValid(us, n, out) == AllValid(ts, n, out)
    decreases n
  {
    if n > 0 {
      MadeSame(ts, us, n - 1, out);
    }
  }

  lemma {:induction false} OneMoreMade(ts: seq<Token>, t: Token, us: seq<Token>, out: seq<byte>, cur: seq<byte>)
    requires Means(ts, |ts|, out, cur) && ValidToken(t, cur) && Same(us, ts + [t])
    ensures |us| == |ts| + 1 && Means(us, |us|, out, Apply(cur, t))
  {
    MadeSame(ts, us, |ts|, out);
    assert us[|ts|] == t;
  }

  lemma {:induction false} OneMoreInTables(ts: seq<Token>, t: Token, us: seq<Token>)
    requires AllInTables(ts) && InTables(t) && Same(us, ts + [t])
    ensures AllInTables(us)
  {
  }

  lemma {:induction false} OneMoreToken(ts: seq<Token>, t: Token, out: seq<byte>, cur: seq<byte>)
    requires CanRead(ts, out, cur) && ValidToken(t, cur)
    ensures CanRead(ts + [t], out, Apply(cur, t))
  {
    ValidInTables(t);
    OneMoreMade(ts, t, ts + [t], out, cur);
    OneMoreInTables(ts, t, ts + [t]);
  }

  lemma {:induction false} EmptyBlock(out: seq<byte>)
    ensures CanRead([], out, out) && TokenBytes([], 0) == 0
  {
  }

  class BlockMaker {
    const w: BitWriter
    const b: SymbolBuffer
    /** The bits before the blocks, the blocks, and what they read as. */
    ghost const pre: seq<bool>
    ghost var body: seq<bool>
    ghost var done: seq<byte>
    /** What they read as with the tokens of the next block. */
    ghost var cur: seq<byte>

    ghost predicate Written()
      reads this, w, b, b.symDist, b.symLc, b.litFreq, b.distFreq
    {
      && w.Valid() && b.Valid() && |pre| % 8 == 0
      && StoredSoFar(w.Stream(), pre, body, false, done) && CanRead(b.ts, done, cur)
    }

    ghost predicate Valid()
      reads this, w, b, b.symDist, b.symLc, b.litFreq, b.distFreq
    {
      Written() && |cur| == |done| + b.symBytes && b.nsym == |b.ts| <= SYMS
    }

    constructor (w: BitWriter)
      requires w.Valid() && w.ocnt == 0
      ensures Valid() && fresh(b) && fresh(b.symDist) && fresh(b.symLc) && fresh(b.litFreq) && fresh(b.distFreq)
      ensures this.w == w && Same(pre, w.Stream()) && cur == [] && done == [] && b.ts == []
    {
      hide CanRead, Reads, Unpack, ToBits, TokenBytes, HoldsTokens, CountsTokens;
      this.w := w;
      b := new SymbolBuffer();
      pre := w.Stream();
      body := [];
      done := [];
      cur := [];
      new;
      ReadsNothing();
      AppendNone(pre, []);
      EmptyBlock([]);
    }

    method Tally(dist: nat, lc: nat)
      requires Valid() && b.nsym < SYMS && lc < 256 && dist <= WSIZE && ValidToken(TokenOf(dist, lc), cur)
      modifies this`cur, b, b.symDist, b.symLc, b.litFreq, b.distFreq
      ensures Valid() && cur == Apply(old(cur), TokenOf(dist, lc)) && b.nsym == old(b.nsym) + 1
    {
      OneMoreToken(b.ts, TokenOf(dist, lc), done, cur);
      b.Tally(dist, lc);
      cur := Apply(cur, TokenOf(dist, lc));
      MeansSize(b.ts, |b.ts|, done, cur);
    }

    /** flush_block, with the raw bytes that the tokens stand for. */
    method Flush(raw: seq<byte>)
      requires Valid() && Same(cur, done + raw)
      modifies this, w, b, b.litFreq, b.distFreq
      ensures Valid() && done == cur == old(cur) && b.ts == []
    {
      hide StoredSoFar, CanRead, CheapestForm, Unpack, ToBits, TokenBytes;
      ghost var p;
      body, p := FlushBlock.Flush(w, b, raw, false, pre, body, done, cur);
      done := cur;
      EmptyBlock(cur);
    }

    /** The last block. */
    method Finish(raw: seq<byte>) returns (ghost all: seq<bool>)
      requires Valid() && Same(cur, done + raw)
      modifies w, b, b.litFreq, b.distFreq
      ensures w.Valid() && StoredSoFar(w.Stream(), pre, all, true, cur)
    {
      ghost var p;
      all, p := FlushBlock.Flush(w, b, raw, true, pre, body, done, cur);
    }
  }
}
