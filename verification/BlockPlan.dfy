/** The codes and the header that flush_block makes for a dynamic block. */
module BlockPlan {
  import opened Bits
  import opened Canonical
  import opened Huffman
  import opened CodeLengths
  import opened HuffmanTree
  import opened Tokens
  import opened Runs
  import opened RunCoder
  import opened DynamicBlock
  import opened SymbolBuffer
  import opened Costs

  datatype Plan = Plan(ll: lengths, dl: lengths, hlit: nat, hdist: nat, rs: seq<Run>, cll: lengths, hclen: nat)
  {
    ghost predicate Sized()
    {
      |ll| == LIT_CODES && |dl| == DIST_CODES && |cll| == 19 && 257 <= hlit <= LIT_CODES && 1 <= hdist <= DIST_CODES && 4 <= hclen <= 19
    }

    /** The code that the decoder is told. */
    function Lit(): lengths
      requires hlit <= |ll|
    {
      ll[..hlit]
    }

    function Dist(): lengths
      requires hdist <= |dl|
    {
      dl[..hdist]
    }
  }

  /** The plan for a block of tokens: its trees can be read back, and there is a code word for each
      symbol of the block. */
  ghost predicate GoodPlan(p: Plan, ts: seq<Token>)
  {
    && p.Sized() && Unused(p.ll, p.hlit) && Unused(p.dl, p.hdist)
    && GoodTrees(p.Lit(), p.Dist(), p.cll, p.rs, p.hclen)
    && AllCoded(p.Lit(), p.Dist(), ts)
  }

  /** Every symbol that is used has a code word, and it is not left out at the end. */
  lemma {:induction false} UsedAreCoded(lf: seq<nat>, df: seq<nat>, ts: seq<Token>, ll: lengths, dl: lengths, hlit: nat, hdist: nat, i: nat)
    requires WithEnd(lf, ts) && DistCounts(df, ts) && GoodLengths(lf, MAXBITS, ll) && GoodLengths(df, MAXBITS, dl)
    requires Unused(ll, hlit) && Unused(dl, hdist) && i < |ts|
    ensures Coded(ll[..hlit], dl[..hdist], ts[i])
  {
    FreqPositive(ts, |ts|, i);
    var t := ts[i];
    assert lf[LitSymbol(t)] > 0;
    if t.Pair? {
      assert df[DistCode(t.d)] > 0;
    }
  }

  lemma {:induction false} AllUsedCoded(lf: seq<nat>, df: seq<nat>, ts: seq<Token>, ll: lengths, dl: lengths, hlit: nat, hdist: nat)
    requires WithEnd(lf, ts) && DistCounts(df, ts) && GoodLengths(lf, MAXBITS, ll) && GoodLengths(df, MAXBITS, dl)
    requires Unused(ll, hlit) && Unused(dl, hdist)
    ensures AllCoded(ll[..hlit], dl[..hdist], ts)
  {
    assert lf[256] > 0;
    forall i | 0 <= i < |ts| ensures Coded(ll[..hlit], dl[..hdist], ts[i]) {
      UsedAreCoded(lf, df, ts, ll, dl, hlit, hdist, i);
    }
  }

  /** The literal and length code, and the distance code. */
  method SymbolCodes(lf: seq<nat>, df: seq<nat>, ghost ts: seq<Token>) returns (ll: lengths, dl: lengths, hlit: nat, hdist: nat)
    requires WithEnd(lf, ts) && DistCounts(df, ts) && |ts| <= SYMS
    ensures |ll| == LIT_CODES && |dl| == DIST_CODES && 257 <= hlit && 1 <= hdist
    ensures Unused(ll, hlit) && Unused(dl, hdist) && AllCoded(ll[..hlit], dl[..hdist], ts)
    ensures CompleteOrEmpty(ll[..hlit]) && CompleteOrEmpty(dl[..hdist])
  {
    FibValues();
    ghost var k;
    ll, k := Lengths(lf, MAXBITS);
    dl, k := Lengths(df, MAXBITS);
    hlit := Trim(ll, 257);
    hdist := Trim(dl, 1);
    AllUsedCoded(lf, df, ts, ll, dl, hlit, hdist);
    GoodIsComplete(lf, MAXBITS, ll, hlit);
    GoodIsComplete(df, MAXBITS, dl, hdist);
  }

  /** The run-length symbols for all the lengths, and their code. */
  method LengthCode(all: lengths) returns (rs: seq<Run>, cll: lengths, hclen: nat)
    requires |all| <= LIT_CODES + DIST_CODES
    ensures ValidRuns(rs, |rs|) && Same(Expand(rs, |rs|), all) && RunsCoded(cll, rs)
    ensures CompleteOrEmpty(cll) && Octal(cll) && 4 <= hclen && Trimmed(cll, hclen)
  {
    FibValues();
    rs := RunLengths(all);
    RunSyms(rs, |rs|);
    var freq := CountRuns(rs);
    ghost var k;
    cll, k := Lengths(freq, 7);
    hclen := TrimCl(cll);
    GoodIsComplete(freq, 7, cll, 19);
    assert cll[..19] == cll;
  }

  method MakePlan(lf: seq<nat>, df: seq<nat>, ghost ts: seq<Token>) returns (p: Plan)
    requires WithEnd(lf, ts) && DistCounts(df, ts) && |ts| <= SYMS
    ensures GoodPlan(p, ts)
  {
    var ll, dl, hlit, hdist := SymbolCodes(lf, df, ts);
    var all: lengths := ll[..hlit] + dl[..hdist];
    var rs, cll, hclen := LengthCode(all);
    p := Plan(ll, dl, hlit, hdist, rs, cll, hclen);
  }
}
