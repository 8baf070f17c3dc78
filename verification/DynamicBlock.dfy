/** A whole dynamic block read back: header, code lengths, symbols. */
module DynamicBlock {
  import opened Bits
  import opened Canonical
  import opened Huffman
  import opened Deflate
  import opened Tokens
  import opened Runs

  /** A code that uses up the code space, or no code at all. */
  ghost predicate CompleteOrEmpty(len: lengths)
  {
    (Fits(Counts(len)) && Left(Counts(len), MAXBITS) == 0) || forall i :: 0 <= i < |len| ==> len[i] == 0
  }

  lemma {:induction false} RankAllZero(len: lengths, n: nat)
    requires n <= |len| && forall i :: 0 <= i < |len| ==> len[i] == 0
    ensures Rank(len, 0, n) == n
  {
    if n > 0 {
      RankAllZero(len, n - 1);
    }
  }

  lemma {:induction false} CompleteIsBuildable(len: lengths)
    requires CompleteOrEmpty(len) && |len| <= TABLE_SIZE
    ensures Buildable(len) && Fits(Counts(len))
  {
    if !(Fits(Counts(len)) && Left(Counts(len), MAXBITS) == 0) {
      RankAllZero(len, |len|);
      EmptyCode(len);
    }
  }

  /** What a dynamic block's header says fits together. */
  ghost predicate GoodTrees(lit: lengths, dist: lengths, cll: lengths, rs: seq<Run>, hclen: nat)
  {
    && 257 <= |lit| <= 286 && 1 <= |dist| <= 30 && |cll| == 19
    && CompleteOrEmpty(lit) && CompleteOrEmpty(dist) && CompleteOrEmpty(cll)
    && lit[256] > 0
    && 4 <= hclen && Octal(cll) && Trimmed(cll, hclen)
    && RunsCoded(cll, rs) && ValidRuns(rs, |rs|) && Same(Expand(rs, |rs|), lit + dist)
  }

  lemma {:induction false} GoodTreesBuild(lit: lengths, dist: lengths, cll: lengths, rs: seq<Run>, hclen: nat)
    requires GoodTrees(lit, dist, cll, rs, hclen)
    ensures Buildable(cll) && Buildable(lit) && Buildable(dist)
    ensures Fits(Counts(cll)) && Fits(Counts(lit)) && Fits(Counts(dist))
  {
    CompleteIsBuildable(cll);
    CompleteIsBuildable(lit);
    CompleteIsBuildable(dist);
  }

  /** Reading the code length code. */
  lemma {:induction false} ReadClCode(cll: lengths, hclen: nat, s: seq<bool>, s1: seq<bool>) returns (v: seq<nat>)
    requires |cll| == 19 && Octal(cll) && Trimmed(cll, hclen) && Same(s, ClBits(cll, hclen) + s1)
    ensures Octal(v) && Same(ClLens(s, hclen, []), LensOk(v, s1)) && Same(ClCode(v), cll)
  {
    v := ClValues(cll, hclen);
    ReadCl(cll, hclen, s, s1, 0);
    ClCodeBack(cll, hclen);
  }

  lemma {:induction false} TreesOfParts(lit: lengths, dist: lengths, cll: lengths, ncode: nat, s: seq<bool>,
                                        v: seq<nat>, s1: seq<bool>, all: lengths, rest: seq<bool>)
    requires 257 <= |lit| <= 286 && 1 <= |dist| <= 30 && |cll| == 19 && Octal(v)
    requires Same(ClLens(s, ncode, []), LensOk(v, s1)) && Same(ClCode(v), cll)
    requires Same(CodeLens(cll, s1, |all|, []), LensOk(all, rest)) && Same(all, lit + dist)
    requires Buildable(cll) && Buildable(lit) && Buildable(dist) && lit[256] > 0
    ensures Same(TreesOf(|lit|, |dist|, ncode, s), Trees(lit, dist, rest))
  {
    hide ClLens, CodeLens, Buildable, ClCode, Octal;
    assert all[..|lit|] == lit && all[|lit|..] == dist;
  }

  lemma {:induction false} ReadTrees(lit: lengths, dist: lengths, cll: lengths, rs: seq<Run>, hclen: nat,
                                     s: seq<bool>, s1: seq<bool>, rest: seq<bool>)
    requires GoodTrees(lit, dist, cll, rs, hclen)
    requires Same(s, ClBits(cll, hclen) + s1) && Same(s1, RunsBits(cll, rs, |rs|) + rest)
    ensures Same(TreesOf(|lit|, |dist|, hclen, s), Trees(lit, dist, rest))
  {
    GoodTreesBuild(lit, dist, cll, rs, hclen);
    var v := ReadClCode(cll, hclen, s, s1);
    var all: lengths := lit + dist;
    ReadAllRuns(cll, rs, s1, rest, all);
    TreesOfParts(lit, dist, cll, hclen, s, v, s1, all, rest);
  }

  function SizeBits(hlit: nat, hdist: nat, hclen: nat): seq<bool>
    requires hlit >= 257 && hdist >= 1 && hclen >= 4
  {
    ToBits(hlit - 257, 5) + (ToBits(hdist - 1, 5) + ToBits(hclen - 4, 4))
  }

  lemma {:induction false} SizesTaken(s: seq<bool>, hlit: nat, s1: seq<bool>, hdist: nat, s2: seq<bool>, hclen: nat, rest: seq<bool>)
    requires hlit >= 257 && hdist >= 1 && hclen >= 4
    requires Same(Take(s, 5), Taken.Bits(hlit - 257, s1)) && Same(Take(s1, 5), Taken.Bits(hdist - 1, s2))
    requires Same(Take(s2, 4), Taken.Bits(hclen - 4, rest))
    ensures Same(DynamicTrees(s), TreesOf(hlit, hdist, hclen, rest))
  {
  }

  lemma {:induction false} ReadSizes(hlit: nat, hdist: nat, hclen: nat, s: seq<bool>, rest: seq<bool>)
    requires 257 <= hlit <= 286 && 1 <= hdist <= 30 && 4 <= hclen <= 19
    requires Same(s, SizeBits(hlit, hdist, hclen) + rest)
    ensures Same(DynamicTrees(s), TreesOf(hlit, hdist, hclen, rest))
  {
    Pow2Values();
    var a, b, c := ToBits(hlit - 257, 5), ToBits(hdist - 1, 5), ToBits(hclen - 4, 4);
    var s1, s2 := Split3(s, a, b, c, rest);
    TakeBack(hlit - 257, 5, s, s1);
    TakeBack(hdist - 1, 5, s1, s2);
    TakeBack(hclen - 4, 4, s2, rest);
    SizesTaken(s, hlit, s1, hdist, s2, hclen, rest);
  }

  function DynamicBits(lit: lengths, dist: lengths, cll: lengths, rs: seq<Run>, hclen: nat, ts: seq<Token>): seq<bool>
    requires |lit| >= 257 && |dist| >= 1 && 4 <= hclen <= 19 && |cll| == 19 && RunsCoded(cll, rs)
    requires AllCoded(lit, dist, ts) && AllInTables(ts)
  {
    SizeBits(|lit|, |dist|, hclen) + (ClBits(cll, hclen) + (RunsBits(cll, rs, |rs|) + BlockBits(lit, dist, ts)))
  }

  /** A dynamic block reads back as the tokens in it. */
  lemma {:induction false} ReadDynamic(lit: lengths, dist: lengths, cll: lengths, rs: seq<Run>, hclen: nat, ts: seq<Token>,
                                       s: seq<bool>, rest: seq<bool>, out: seq<byte>, result: seq<byte>)
    requires GoodTrees(lit, dist, cll, rs, hclen)
    requires AllCoded(lit, dist, ts) && AllInTables(ts) && Means(ts, |ts|, out, result)
    requires Same(s, DynamicBits(lit, dist, cll, rs, hclen, ts) + rest)
    ensures Same(Dynamic(s, out), Ok(rest, result))
  {
    var a, b, c, d := SizeBits(|lit|, |dist|, hclen), ClBits(cll, hclen), RunsBits(cll, rs, |rs|), BlockBits(lit, dist, ts);
    var s1, s2, s3 := Split4(s, a, b, c, d, rest);
    ReadSizes(|lit|, |dist|, hclen, s, s1);
    ReadTrees(lit, dist, cll, rs, hclen, s1, s2, s3);
    GoodTreesBuild(lit, dist, cll, rs, hclen);
    ReadBlock(lit, dist, ts, s3, rest, out, result);
  }
}
