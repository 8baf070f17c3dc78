/** The header of a dynamic block as flush_block makes it: unused symbols at the end left out, the
    rest of the lengths run-length coded, and the codes for writing. */
module RunCoder {
  import opened Bits
  import opened Huffman
  import opened Kraft
  import opened CodeLengths
  import opened HuffmanTree
  import opened Deflate
  import opened Runs
  import opened DynamicBlock

  // ---- runs ----

  /** The lengths from i on are the same, run of them. */
  ghost predicate IsRun(all: seq<nat>, i: nat, run: nat)
  {
    1 <= run && i + run <= |all| && forall j :: i <= j < i + run ==> all[j] == all[i]
  }

  method RunFrom(all: seq<nat>, i: nat) returns (run: nat)
    requires i < |all|
    ensures IsRun(all, i, run)
  {
    run := 1;
    while i + run < |all| && all[i + run] == all[i]
      invariant IsRun(all, i, run)
    {
      run := run + 1;
    }
  }

  lemma {:induction false} AddRun(rs: seq<Run>, r: Run, acc: seq<nat>)
    requires ValidRuns(rs, |rs|) && Same(Expand(rs, |rs|), acc) && ValidRun(acc, r)
    ensures ValidRuns(rs + [r], |rs + [r]|) && Same(Expand(rs + [r], |rs + [r]|), ApplyRun(acc, r))
  {
    var qs := rs + [r];
    ExpandSame(rs, qs, |rs|);
  }

  ghost predicate RunsTo(rs: seq<Run>, all: seq<nat>, i: nat)
  {
    i <= |all| && |rs| <= i && ValidRuns(rs, |rs|) && Same(Expand(rs, |rs|), all[..i])
  }

  lemma {:induction false} MoreRuns(rs: seq<Run>, all: seq<nat>, i: nat, r: Run, j: nat)
    requires RunsTo(rs, all, i) && i < j <= |all| && ValidRun(all[..i], r) && Same(ApplyRun(all[..i], r), all[..j])
    ensures RunsTo(rs + [r], all, j)
  {
    AddRun(rs, r, all[..i]);
  }

  /** The first k of a run. */
  lemma {:induction false} PartOfRun(all: seq<nat>, i: nat, k: nat, v: nat)
    requires i + k <= |all| && forall j :: i <= j < i + k ==> all[j] == v
    ensures Same(all[..i] + Repeat(v, k), all[..i + k])
  {
    assert all[..i] + Repeat(v, k) == all[..i + k];
  }

  lemma {:induction false} RunExtras(sym: nat, extra: nat)
    requires (sym == 16 && extra < 4) || (sym == 17 && extra < 8) || (sym == 18 && extra < 128)
    ensures extra < Pow2(RepeatBits(sym))
  {
    Pow2Values();
  }

  /** Up to 138 zero lengths, three at least. */
  method ZeroRun(rs: seq<Run>, all: seq<nat>, i: nat, run: nat) returns (qs: seq<Run>, r: nat)
    requires RunsTo(rs, all, i) && IsRun(all, i, run) && run >= 3 && all[i] == 0
    ensures r >= 1 && RunsTo(qs, all, i + r)
  {
    r := if run > 138 then 138 else run;
    var q := if r >= 11 then Run(18, r - 11) else Run(17, r - 3);
    RunExtras(q.sym, q.extra);
    PartOfRun(all, i, r, 0);
    MoreRuns(rs, all, i, q, i + r);
    qs := rs + [q];
  }

  method OneLength(rs: seq<Run>, all: seq<nat>, i: nat) returns (qs: seq<Run>)
    requires RunsTo(rs, all, i) && i < |all| && all[i] < 16
    ensures RunsTo(qs, all, i + 1)
  {
    var q := Run(all[i], 0);
    PartOfRun(all, i, 1, all[i]);
    assert Repeat(all[i], 1) == [all[i]];
    MoreRuns(rs, all, i, q, i + 1);
    qs := rs + [q];
  }

  /** The length before, r times more. */
  method RepeatLast(rs: seq<Run>, all: seq<nat>, i: nat, r: nat) returns (qs: seq<Run>)
    requires RunsTo(rs, all, i) && 1 <= i && 3 <= r <= 6 && IsRun(all, i - 1, r + 1)
    ensures RunsTo(qs, all, i + r)
  {
    var q := Run(16, r - 3);
    RunExtras(16, r - 3);
    PartOfRun(all, i, r, all[i - 1]);
    MoreRuns(rs, all, i, q, i + r);
    qs := rs + [q];
  }

  /** A length and three to six times the same again. */
  method RepeatRun(rs: seq<Run>, all: seq<nat>, i: nat, run: nat) returns (qs: seq<Run>, r: nat)
    requires RunsTo(rs, all, i) && IsRun(all, i, run) && run >= 4 && all[i] < 16
    ensures r >= 1 && RunsTo(qs, all, i + r)
  {
    qs := OneLength(rs, all, i);
    r := if run - 1 > 6 then 6 else run - 1;
    qs := RepeatLast(qs, all, i + 1, r);
    r := 1 + r;
  }

  method NextRun(rs: seq<Run>, all: lengths, i: nat) returns (qs: seq<Run>, j: nat)
    requires RunsTo(rs, all, i) && i < |all|
    ensures i < j && RunsTo(qs, all, j)
  {
    var v := all[i];
    var run := RunFrom(all, i);
    var r := 1;
    if v == 0 && run >= 3 {
      qs, r := ZeroRun(rs, all, i, run);
    } else if v != 0 && run >= 4 {
      qs, r := RepeatRun(rs, all, i, run);
    } else {
      qs := OneLength(rs, all, i);
    }
    j := i + r;
  }

  /** The lengths, run-length coded, in no more symbols than there are lengths. */
  method RunLengths(all: lengths) returns (rs: seq<Run>)
    ensures |rs| <= |all| && ValidRuns(rs, |rs|) && Same(Expand(rs, |rs|), all)
  {
    rs := [];
    var i := 0;
    while i < |all|
      invariant RunsTo(rs, all, i)
      decreases |all| - i
    {
      rs, i := NextRun(rs, all, i);
    }
    assert all[..|all|] == all;
  }

  /** How often each symbol of the code length code is used. */
  method CountRuns(rs: seq<Run>) returns (freq: seq<nat>)
    requires forall i :: 0 <= i < |rs| ==> rs[i].sym < 19
    ensures |freq| == 19 && forall i :: 0 <= i < |rs| ==> freq[rs[i].sym] > 0
    ensures forall c :: 0 <= c < 19 ==> freq[c] <= |rs|
  {
    freq := Repeat(0, 19);
    for i := 0 to |rs|
      invariant |freq| == 19 && forall j :: 0 <= j < i ==> freq[rs[j].sym] > 0
      invariant forall c :: 0 <= c < 19 ==> freq[c] <= i
    {
      freq := freq[rs[i].sym := freq[rs[i].sym] + 1];
    }
  }

  lemma {:induction false} RunSyms(rs: seq<Run>, n: nat)
    requires n <= |rs| && ValidRuns(rs, n)
    ensures forall i :: 0 <= i < n ==> rs[i].sym < 19
  {
    if n > 0 {
      RunSyms(rs, n - 1);
    }
  }

  // ---- the codes of a dynamic block ----

  lemma {:induction false} FibValues()
    ensures Fib(10) == 55 && Fib(18) == 2584
  {
    assert Fib(3) == 2 && Fib(4) == 3 && Fib(5) == 5 && Fib(6) == 8 && Fib(7) == 13 && Fib(8) == 21;
    assert Fib(9) == 34 && Fib(10) == 55 && Fib(11) == 89 && Fib(12) == 144 && Fib(13) == 233;
    assert Fib(14) == 377 && Fib(15) == 610 && Fib(16) == 987 && Fib(17) == 1597;
  }

  /** The number of symbols without the unused ones at the end, least at any rate. */
  method Trim(len: seq<nat>, least: nat) returns (h: nat)
    requires least <= |len|
    ensures least <= h <= |len| && forall i :: h <= i < |len| ==> len[i] == 0
  {
    h := |len|;
    while h > least && len[h - 1] == 0
      invariant least <= h <= |len| && forall i :: h <= i < |len| ==> len[i] == 0
    {
      h := h - 1;
    }
  }

  method TrimCl(cll: seq<nat>) returns (h: nat)
    requires |cll| == 19
    ensures 4 <= h <= 19 && forall i :: h <= i < 19 ==> cll[ClOrder(i)] == 0
  {
    h := 19;
    while h > 4 && cll[ClOrder(h - 1)] == 0
      invariant 4 <= h <= 19 && forall i :: h <= i < 19 ==> cll[ClOrder(i)] == 0
    {
      h := h - 1;
    }
  }

  /** Lengths that lengths made are those of a complete code, or of none. */
  lemma {:induction false} GoodIsComplete(freq: seq<nat>, limit: nat, len: lengths, h: nat)
    requires GoodLengths(freq, limit, len) && Unused(len, h)
    ensures CompleteOrEmpty(len[..h])
  {
    if |Used(freq, |freq|)| > 0 {
      KraftOfPrefix(len, h, |len|);
      KraftInequality(len[..h]);
    } else {
      forall i | 0 <= i < |len| ensures len[i] == 0 {
        assert i !in Used(freq, |freq|);
      }
    }
  }
}
