/** What flush_block reckons each way of writing a block to cost, and that it is the number of bits
    written. */
module Costs {
  import opened Huffman
  import opened Deflate
  import opened Tokens
  import opened Runs
  import opened SymbolBuffer

  /** The bits of a literal or length symbol with its extra bits. */
  function LitCost(ll: seq<nat>, i: nat): nat
    requires i < |ll|
  {
    ll[i] + if i > 256 then LenExtra(i - 257) else 0
  }

  function DistCost(dl: seq<nat>, i: nat): nat
    requires i < |dl|
  {
    dl[i] + DistExtra(i)
  }

  /** n times c. */
  function Price(n: nat, c: nat): nat
  {
    if n == 0 then 0 else Price(n - 1, c) + c
  }

  lemma {:induction false} PriceIsProduct(n: nat, c: nat)
    ensures Price(n, c) == n * c
  {
    if n > 0 {
      PriceIsProduct(n - 1, c);
      assert n * c == (n - 1) * c + c;
    }
  }

  /** The cost of the first n tokens, symbol by symbol, for the symbols below k. */
  function LitSum(ts: seq<Token>, n: nat, ll: seq<nat>, k: nat): nat
    requires n <= |ts| && k <= |ll|
  {
    if k == 0 then 0 else LitSum(ts, n, ll, k - 1) + Price(LitFreq(ts, n, k - 1), LitCost(ll, k - 1))
  }

  function DistSum(ts: seq<Token>, n: nat, dl: seq<nat>, k: nat): nat
    requires n <= |ts| && k <= |dl|
  {
    if k == 0 then 0 else DistSum(ts, n, dl, k - 1) + Price(DistFreq(ts, n, k - 1), DistCost(dl, k - 1))
  }

  lemma {:induction false} LitSumStep(ts: seq<Token>, n: nat, ll: seq<nat>, k: nat)
    requires 0 < n <= |ts| && k <= |ll|
    ensures LitSum(ts, n, ll, k) == LitSum(ts, n - 1, ll, k) + if LitSymbol(ts[n - 1]) < k then LitCost(ll, LitSymbol(ts[n - 1])) else 0
    decreases k
  {
    if k > 0 {
      LitSumStep(ts, n, ll, k - 1);
    }
  }

  lemma {:induction false} DistSumStep(ts: seq<Token>, n: nat, dl: seq<nat>, k: nat)
    requires 0 < n <= |ts| && k <= |dl|
    ensures DistSum(ts, n, dl, k) == DistSum(ts, n - 1, dl, k)
         + if ts[n - 1].Pair? && DistCode(ts[n - 1].d) < k then DistCost(dl, DistCode(ts[n - 1].d)) else 0
    decreases k
  {
    if k > 0 {
      DistSumStep(ts, n, dl, k - 1);
    }
  }

  lemma {:induction false} SumsOfNone(ts: seq<Token>, ll: seq<nat>, dl: seq<nat>, k: nat)
    ensures k <= |ll| ==> LitSum(ts, 0, ll, k) == 0
    ensures k <= |dl| ==> DistSum(ts, 0, dl, k) == 0
  {
    if k > 0 {
      SumsOfNone(ts, ll, dl, k - 1);
    }
  }

  /** The code lengths of the tables that the decoder knows are those reckoned with. */
  ghost predicate Agrees(len: lengths, ll: seq<nat>)
  {
    forall i :: 0 <= i < |len| && i < |ll| ==> len[i] == ll[i]
  }

  ghost predicate LongEnough(ll: seq<nat>, dl: seq<nat>)
  {
    |ll| >= LIT_CODES && |dl| >= DIST_CODES
  }

  lemma {:induction false} TokenCost(lit: lengths, dist: lengths, t: Token, ll: seq<nat>, dl: seq<nat>)
    requires Coded(lit, dist, t) && InTables(t) && Agrees(lit, ll) && Agrees(dist, dl) && LongEnough(ll, dl)
    ensures |TokenBits(lit, dist, t)| == LitCost(ll, LitSymbol(t)) + if t.Pair? then DistCost(dl, DistCode(t.d)) else 0
  {
  }

  lemma {:induction false} SumsStep(ts: seq<Token>, n: nat, ll: seq<nat>, dl: seq<nat>)
    requires 0 < n <= |ts| && LongEnough(ll, dl)
    ensures LitSum(ts, n, ll, LIT_CODES) + DistSum(ts, n, dl, DIST_CODES)
         == LitSum(ts, n - 1, ll, LIT_CODES) + DistSum(ts, n - 1, dl, DIST_CODES)
          + LitCost(ll, LitSymbol(ts[n - 1])) + if ts[n - 1].Pair? then DistCost(dl, DistCode(ts[n - 1].d)) else 0
  {
    LitSumStep(ts, n, ll, LIT_CODES);
    DistSumStep(ts, n, dl, DIST_CODES);
  }

  /** Counting by symbols is counting by tokens. */
  lemma {:induction false} TokensCost(lit: lengths, dist: lengths, ts: seq<Token>, n: nat, ll: seq<nat>, dl: seq<nat>)
    requires AllCoded(lit, dist, ts) && AllInTables(ts) && n <= |ts|
    requires Agrees(lit, ll) && Agrees(dist, dl) && LongEnough(ll, dl)
    ensures |TokensBits(lit, dist, ts, n)| == LitSum(ts, n, ll, LIT_CODES) + DistSum(ts, n, dl, DIST_CODES)
    decreases n
  {
    hide LitSum, DistSum, TokenBits, LitCost, DistCost, Agrees, InTables, Coded;
    if n == 0 {
      SumsOfNone(ts, ll, dl, LIT_CODES);
      SumsOfNone(ts, ll, dl, DIST_CODES);
    } else {
      TokensCost(lit, dist, ts, n - 1, ll, dl);
      TokenCost(lit, dist, ts[n - 1], ll, dl);
      SumsStep(ts, n, ll, dl);
    }
  }

  /** The frequencies of tokens, with the end of the block counted once. */
  ghost predicate WithEnd(lf: seq<nat>, ts: seq<Token>)
  {
    |lf| == LIT_CODES && forall i :: 0 <= i < LIT_CODES ==> lf[i] == LitFreq(ts, |ts|, i) + if i == 256 then 1 else 0
  }

  ghost predicate DistCounts(df: seq<nat>, ts: seq<Token>)
  {
    |df| == DIST_CODES && forall i :: 0 <= i < DIST_CODES ==> df[i] == DistFreq(ts, |ts|, i)
  }

  method LitCosts(lf: seq<nat>, ll: seq<nat>, ghost ts: seq<Token>) returns (c: nat)
    requires WithEnd(lf, ts) && |ll| >= LIT_CODES
    ensures c == LitSum(ts, |ts|, ll, LIT_CODES) + ll[256]
  {
    c := 0;
    for i := 0 to LIT_CODES
      invariant c == LitSum(ts, |ts|, ll, i) + if i > 256 then ll[256] else 0
    {
      PriceIsProduct(lf[i], LitCost(ll, i));
      if lf[i] != 0 {
        c := c + lf[i] * (ll[i] + if i > 256 then LenExtra(i - 257) else 0);
      }
    }
  }

  method DistCosts(df: seq<nat>, dl: seq<nat>, ghost ts: seq<Token>) returns (c: nat)
    requires DistCounts(df, ts) && |dl| >= DIST_CODES
    ensures c == DistSum(ts, |ts|, dl, DIST_CODES)
  {
    c := 0;
    for i := 0 to DIST_CODES
      invariant c == DistSum(ts, |ts|, dl, i)
    {
      PriceIsProduct(df[i], DistCost(dl, i));
      if df[i] != 0 {
        c := c + df[i] * (dl[i] + DistExtra(i));
      }
    }
  }

  /** sym_cost: the bits of the symbols of a block, its end included. */
  method SymCost(lf: seq<nat>, df: seq<nat>, ll: seq<nat>, dl: seq<nat>, ghost ts: seq<Token>,
                 ghost lit: lengths, ghost dist: lengths) returns (c: nat)
    requires WithEnd(lf, ts) && DistCounts(df, ts) && LongEnough(ll, dl)
    requires AllCoded(lit, dist, ts) && AllInTables(ts)
    requires Agrees(lit, ll) && Agrees(dist, dl)
    ensures c == |BlockBits(lit, dist, ts)|
  {
    var x := LitCosts(lf, ll, ts);
    var y := DistCosts(df, dl, ts);
    TokensCost(lit, dist, ts, |ts|, ll, dl);
    c := x + y;
  }

  // ---- the header of a dynamic block ----

  /** The bits of a run-length symbol. */
  function RunCost(cll: seq<nat>, sym: nat): nat
    requires sym < |cll|
  {
    cll[sym] + if sym == 16 then 2 else if sym == 17 then 3 else if sym == 18 then 7 else 0
  }

  lemma {:induction false} ClBitsSize(cl: lengths, n: nat)
    requires n <= 19 && |cl| == 19
    ensures |ClBits(cl, n)| == 3 * n
  {
    if n > 0 {
      ClBitsSize(cl, n - 1);
    }
  }

  /** The bits of the runs, as flush_block adds them up. */
  method RunsCost(rs: seq<Run>, cll: lengths) returns (c: nat)
    requires RunsCoded(cll, rs)
    ensures c == |RunsBits(cll, rs, |rs|)|
  {
    c := 0;
    for i := 0 to |rs|
      invariant c == |RunsBits(cll, rs, i)|
    {
      c := c + RunCost(cll, rs[i].sym);
    }
  }
}
