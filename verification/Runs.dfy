/** The header of a dynamic block: the code lengths, run-length coded (RFC 1951, section 3.2.7). */
module Runs {
  import opened Bits
  import opened Canonical
  import opened Huffman
  import opened Kraft
  import opened Deflate
  import opened Tokens

  /** A symbol of the code length code and its extra bits. */
  datatype Run = Run(sym: nat, extra: nat)

  function ApplyRun(acc: seq<nat>, r: Run): (res: seq<nat>)
    ensures acc <= res
  {
    if r.sym < 16 then acc + [r.sym]
    else acc + Repeat(if r.sym == 16 && acc != [] then acc[|acc| - 1] else 0, RepeatBase(r.sym) + r.extra)
  }

  ghost predicate ValidRun(acc: seq<nat>, r: Run)
  {
    r.sym < 19 && (r.sym >= 16 ==> r.extra < Pow2(RepeatBits(r.sym))) && (r.sym == 16 ==> acc != [])
  }

  /** The lengths that the first n runs stand for. */
  function Expand(rs: seq<Run>, n: nat): seq<nat>
    requires n <= |rs|
  {
    if n == 0 then [] else ApplyRun(Expand(rs, n - 1), rs[n - 1])
  }

  ghost predicate ValidRuns(rs: seq<Run>, n: nat)
    requires n <= |rs|
  {
    n == 0 || (ValidRuns(rs, n - 1) && ValidRun(Expand(rs, n - 1), rs[n - 1]))
  }

  lemma {:induction false} ExpandSame(rs: seq<Run>, qs: seq<Run>, n: nat)
    requires n <= |rs| && rs <= qs
    ensures Expand(rs, n) == Expand(qs, n) && ValidRuns(rs, n) == ValidRuns(qs, n)
  {
    hide ApplyRun, ValidRun;
    if n > 0 {
      ExpandSame(rs, qs, n - 1);
    }
  }

  // ---- their bits ----

  ghost predicate RunsCoded(cl: lengths, rs: seq<Run>)
  {
    |cl| == 19 && forall i :: 0 <= i < |rs| ==> rs[i].sym < 19 && cl[rs[i].sym] > 0
  }

  function RunBits(cl: lengths, r: Run): seq<bool>
    requires r.sym < |cl|
  {
    CodeBits(cl, r.sym) + if r.sym < 16 then [] else ToBits(r.extra, RepeatBits(r.sym))
  }

  function RunsBits(cl: lengths, rs: seq<Run>, n: nat): seq<bool>
    requires n <= |rs| && RunsCoded(cl, rs)
  {
    if n == 0 then [] else RunsBits(cl, rs, n - 1) + RunBits(cl, rs[n - 1])
  }

  lemma {:induction false} ReadRun(cl: lengths, r: Run, s: seq<bool>, rest: seq<bool>, total: nat, acc: lengths)
    requires |cl| == 19 && Fits(Counts(cl)) && ValidRun(acc, r) && cl[r.sym] > 0
    requires |ApplyRun(acc, r)| <= total && Same(s, RunBits(cl, r) + rest)
    ensures forall i :: 0 <= i < |ApplyRun(acc, r)| ==> ApplyRun(acc, r)[i] <= MAXBITS
    ensures Same(CodeLens(cl, s, total, acc), CodeLens(cl, rest, total, ApplyRun(acc, r)))
  {
    hide CodeLens, CodeBits, ToBits, Take, Decode, Pow2, ApplyRun;
    ApplyRunShort(acc, r);
    var more := if r.sym < 16 then [] else ToBits(r.extra, RepeatBits(r.sym));
    var s1 := Split2(s, CodeBits(cl, r.sym), more, rest);
    DecodeWord(cl, r.sym, s, s1);
    if r.sym >= 16 {
      TakeBack(r.extra, RepeatBits(r.sym), s1, rest);
    } else {
      AppendToNone(more, rest);
    }
    RunTaken(cl, s, r, s1, rest, total, acc);
  }

  lemma {:induction false} ApplyRunShort(acc: lengths, r: Run)
    ensures forall i :: 0 <= i < |ApplyRun(acc, r)| ==> ApplyRun(acc, r)[i] <= MAXBITS
    ensures |ApplyRun(acc, r)| > |acc|
  {
  }

  lemma {:induction false} RunTaken(cl: lengths, s: seq<bool>, r: Run, s1: seq<bool>, rest: seq<bool>, total: nat, acc: lengths)
    requires |cl| == 19 && Same(Decode(cl, s), Symbol(r.sym, s1)) && ValidRun(acc, r) && |acc| < |ApplyRun(acc, r)| <= total
    requires forall i :: 0 <= i < |ApplyRun(acc, r)| ==> ApplyRun(acc, r)[i] <= MAXBITS
    requires if r.sym < 16 then Same(s1, rest) else Same(Take(s1, RepeatBits(r.sym)), Taken.Bits(r.extra, rest))
    ensures Same(CodeLens(cl, s, total, acc), CodeLens(cl, rest, total, ApplyRun(acc, r)))
  {
  }

  ghost predicate ShortLengths(s: seq<nat>)
  {
    forall i :: 0 <= i < |s| ==> s[i] <= MAXBITS
  }

  /** Reading runs gives the lengths they stand for. */
  lemma {:induction false} ReadRuns(cl: lengths, rs: seq<Run>, n: nat, s: seq<bool>, rest: seq<bool>, total: nat)
    requires RunsCoded(cl, rs) && Fits(Counts(cl))
    requires n <= |rs| && ValidRuns(rs, n) && |Expand(rs, n)| <= total && Same(s, RunsBits(cl, rs, n) + rest)
    ensures ShortLengths(Expand(rs, n))
    ensures Same(CodeLens(cl, s, total, []), CodeLens(cl, rest, total, Expand(rs, n)))
    decreases n
  {
    if n == 0 {
      assert s == rest;
    } else {
      var s1 := RunBits(cl, rs[n - 1]) + rest;
      Assoc(RunsBits(cl, rs, n - 1), RunBits(cl, rs[n - 1]), rest);
      ReadRuns(cl, rs, n - 1, s, s1, total);
      ReadRun(cl, rs[n - 1], s1, rest, total, Expand(rs, n - 1));
    }
  }

  lemma {:induction false} ReadAllRuns(cl: lengths, rs: seq<Run>, s: seq<bool>, rest: seq<bool>, all: lengths)
    requires RunsCoded(cl, rs) && Fits(Counts(cl)) && ValidRuns(rs, |rs|)
    requires Same(Expand(rs, |rs|), all) && Same(s, RunsBits(cl, rs, |rs|) + rest)
    ensures Same(CodeLens(cl, s, |all|, []), LensOk(all, rest))
  {
    ReadRuns(cl, rs, |rs|, s, rest, |all|);
  }

  // ---- the code length code ----

  function ClValues(cl: lengths, n: nat): (v: seq<nat>)
    requires n <= 19 && |cl| == 19
    ensures |v| == n && forall i :: 0 <= i < n ==> v[i] == cl[ClOrder(i)]
  {
    seq(n, i requires 0 <= i < n => cl[ClOrder(i)])
  }

  function ClBits(cl: lengths, n: nat): seq<bool>
    requires n <= 19 && |cl| == 19
  {
    if n == 0 then [] else ClBits(cl, n - 1) + ToBits(cl[ClOrder(n - 1)], 3)
  }

  ghost predicate Octal(s: seq<nat>)
  {
    forall i :: 0 <= i < |s| ==> s[i] < 8
  }

  lemma {:induction false} ReadClStep(cl: lengths, n: nat, s: seq<bool>, rest: seq<bool>, m: nat)
    requires 1 <= n <= 19 && |cl| == 19 && Octal(cl) && Same(s, ToBits(cl[ClOrder(n - 1)], 3) + rest)
    ensures Same(ClLens(s, m + 1, ClValues(cl, n - 1)), ClLens(rest, m, ClValues(cl, n)))
  {
    Pow2Values();
    TakeBack(cl[ClOrder(n - 1)], 3, s, rest);
    assert ClValues(cl, n) == ClValues(cl, n - 1) + [cl[ClOrder(n - 1)]];
  }

  lemma {:induction false} ReadCl(cl: lengths, n: nat, s: seq<bool>, rest: seq<bool>, m: nat)
    requires n <= 19 && |cl| == 19 && Octal(cl) && Same(s, ClBits(cl, n) + rest)
    ensures Same(ClLens(s, n + m, []), ClLens(rest, m, ClValues(cl, n)))
    decreases n
  {
    if n == 0 {
      assert s == rest;
      assert ClValues(cl, 0) == [];
    } else {
      var s1 := ToBits(cl[ClOrder(n - 1)], 3) + rest;
      Assoc(ClBits(cl, n - 1), ToBits(cl[ClOrder(n - 1)], 3), rest);
      ReadCl(cl, n - 1, s, s1, m + 1);
      ReadClStep(cl, n, s1, rest, m);
    }
  }

  /** Lengths left out at the end of the order are zero. */
  ghost predicate Trimmed(cl: lengths, n: nat)
    requires |cl| == 19
  {
    n <= 19 && forall i :: n <= i < 19 ==> cl[ClOrder(i)] == 0
  }

  lemma {:induction false} ClCodeBack(cl: lengths, n: nat)
    requires |cl| == 19 && Octal(cl) && Trimmed(cl, n)
    ensures ClCode(ClValues(cl, n)) == cl
  {
    forall c | 0 <= c < 19
      ensures ClCode(ClValues(cl, n))[c] == cl[c]
    {
      ClOrderIsPermutation(c);
    }
  }

  // ---- trailing symbols without code words ----

  /** The symbols from h on have no code words. */
  ghost predicate Unused(len: lengths, h: nat)
  {
    h <= |len| && forall i :: h <= i < |len| ==> len[i] == 0
  }

  lemma {:induction false} RankOfPrefix(len: lengths, h: nat, l: nat, n: nat)
    requires n <= h <= |len|
    ensures Rank(len[..h], l, n) == Rank(len, l, n)
  {
    if n > 0 {
      RankOfPrefix(len, h, l, n - 1);
    }
  }

  lemma {:induction false} RankTail(len: lengths, h: nat, l: nat, n: nat)
    requires Unused(len, h) && h <= n <= |len| && l > 0
    ensures Rank(len, l, n) == Rank(len, l, h)
    decreases n
  {
    if n > h {
      RankTail(len, h, l, n - 1);
    }
  }

  lemma {:induction false} CountsOfPrefix(len: lengths, h: nat)
    requires Unused(len, h)
    ensures Counts(len[..h]) == Counts(len)
  {
    forall l | 1 <= l <= MAXBITS
      ensures Counts(len[..h])[l] == Counts(len)[l]
    {
      RankOfPrefix(len, h, l, h);
      RankTail(len, h, l, |len|);
    }
  }

  /** Leaving them out changes no code word. */
  lemma {:induction false} CodeOfPrefix(len: lengths, h: nat, i: nat)
    requires Unused(len, h) && i < h
    ensures CodeBits(len[..h], i) == CodeBits(len, i)
  {
    CountsOfPrefix(len, h);
    RankOfPrefix(len, h, len[i], i);
  }

  lemma {:induction false} KraftOfPrefix(len: lengths, h: nat, n: nat)
    requires Unused(len, h) && n <= |len|
    ensures KraftSum(len, n) == KraftSum(len[..h], if n < h then n else h)
  {
    if n > 0 {
      KraftOfPrefix(len, h, n - 1);
    }
  }
}
