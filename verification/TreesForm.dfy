/** Which bits are the header of a dynamic block (RFC 1951, section 3.2.7). */
module TreesForm {
  import opened Bits
  import opened Canonical
  import opened Huffman
  import opened Kraft
  import opened Deflate
  import opened Tokens
  import opened Runs
  import opened DynamicBlock
  import opened DeflateForm

  // ---- codes that can be used ----

  predicate AtMostOneWord(len: lengths, n: nat)
    requires n <= |len|
  {
    forall i, j :: 0 <= i < j < n ==> len[i] == 0 || len[j] == 0
  }

  /** The code words fit, and leave nothing over unless there is at most one. */
  ghost predicate Usable(len: lengths)
  {
    KraftSum(len, |len|) == 1.0 || (KraftSum(len, |len|) <= 1.0 && AtMostOneWord(len, |len|))
  }

  lemma {:induction false} ZerosCount(len: lengths, n: nat)
    requires n <= |len|
    ensures Rank(len, 0, n) == n <==> forall i :: 0 <= i < n ==> len[i] == 0
    ensures Rank(len, 0, n) + 1 >= n <==> AtMostOneWord(len, n)
  {
    if n > 0 {
      ZerosCount(len, n - 1);
    }
  }

  lemma {:induction false} UsableIs(len: lengths)
    ensures Usable(len) <==> Buildable(len)
    ensures Usable(len) ==> Fits(Counts(len))
  {
    hide KraftSum, Counts, AtMostOneWord, Rank, Left;
    KraftInequality(len);
    ZerosCount(len, |len|);
    BuildableIs(len);
  }

  lemma {:induction false} BuildableIs(len: lengths)
    ensures Buildable(len) <==> Fits(Counts(len)) && (Rank(len, 0, |len|) + 1 >= |len| || Left(Counts(len), MAXBITS) == 0)
  {
    hide Counts, Rank, Left;
  }

  // ---- lengths of three bits ----

  function OctalBits(v: seq<nat>): seq<bool>
  {
    if v == [] then [] else ToBits(v[0], 3) + OctalBits(v[1..])
  }

  lemma {:induction false} OctalsRead(v: seq<nat>, s: seq<bool>, rest: seq<bool>, acc: seq<nat>)
    requires Octal(v) && Octal(acc) && Same(s, OctalBits(v) + rest)
    ensures Same(ClLens(s, |v|, acc), LensOk(acc + v, rest))
    decreases |v|
  {
    if v == [] {
      assert s == rest && acc + v == acc;
    } else {
      var s1 := OctalBits(v[1..]) + rest;
      Assoc(ToBits(v[0], 3), OctalBits(v[1..]), rest);
      Pow2Values();
      TakeBack(v[0], 3, s, s1);
      OctalsRead(v[1..], s1, rest, acc + [v[0]]);
      assert acc + [v[0]] + v[1..] == acc + v;
    }
  }

  lemma {:induction false} OctalStep(s: seq<bool>, n: nat, acc: seq<nat>, goal: Lens) returns (x: nat, s1: seq<bool>)
    requires n > 0 && Octal(acc) && goal.LensOk? && Same(ClLens(s, n, acc), goal)
    ensures x < 8 && Same(s, ToBits(x, 3) + s1) && Same(ClLens(s1, n - 1, acc + [x]), goal)
  {
    Pow2Values();
    var t := Take(s, 3);
    x, s1 := t.v, t.rest;
    BitsAre(x, 3, s, s1);
  }

  lemma {:induction false} OctalsAre(s: seq<bool>, n: nat, acc: seq<nat>, all: seq<nat>, rest: seq<bool>) returns (v: seq<nat>)
    requires Octal(acc) && Same(ClLens(s, n, acc), LensOk(all, rest))
    ensures |v| == n && Octal(v) && Same(all, acc + v) && Same(s, OctalBits(v) + rest)
    decreases n
  {
    if n == 0 {
      v := [];
      assert acc + v == acc;
      AppendToNone([], rest);
    } else {
      hide ClLens;
      var x, s1 := OctalStep(s, n, acc, LensOk(all, rest));
      var more := OctalsAre(s1, n - 1, acc + [x], all, rest);
      v := [x] + more;
      assert v[1..] == more;
      Assoc(ToBits(x, 3), OctalBits(more), rest);
      assert acc + [x] + more == acc + v;
    }
  }

  lemma {:induction false} PlaceOfOrder(i: nat)
    requires i < 19
    ensures ClPlace(ClOrder(i)) == i
  {
  }

  lemma {:induction false} ValuesOfCode(v: seq<nat>)
    requires Octal(v) && |v| <= 19
    ensures Octal(ClCode(v)) && Runs.Trimmed(ClCode(v), |v|) && ClValues(ClCode(v), |v|) == v
  {
    forall i | 0 <= i < 19
      ensures ClPlace(ClOrder(i)) == i
    {
      PlaceOfOrder(i);
    }
  }

  // ---- run-length coded lengths ----

  function RunsOut(rs: seq<Run>, acc: seq<nat>): seq<nat>
  {
    if rs == [] then acc else RunsOut(rs[1..], ApplyRun(acc, rs[0]))
  }

  ghost predicate RunsOk(cl: lengths, rs: seq<Run>, acc: seq<nat>)
    requires |cl| == 19
  {
    rs == [] || (ValidRun(acc, rs[0]) && cl[rs[0].sym] > 0 && RunsOk(cl, rs[1..], ApplyRun(acc, rs[0])))
  }

  function AllRunBits(cl: lengths, rs: seq<Run>): seq<bool>
    requires |cl| == 19
  {
    if rs == [] then [] else (if rs[0].sym < 19 then RunBits(cl, rs[0]) else []) + AllRunBits(cl, rs[1..])
  }

  lemma {:induction false} RunsGrow(rs: seq<Run>, acc: seq<nat>)
    ensures |RunsOut(rs, acc)| >= |acc| + |rs|
    decreases |rs|
  {
    if rs != [] {
      RunsGrow(rs[1..], ApplyRun(acc, rs[0]));
    }
  }

  lemma {:induction false} NoMoreRuns(cl: lengths, s: seq<bool>, n: nat, acc: lengths)
    requires |cl| == 19 && |acc| == n
    ensures Same(CodeLens(cl, s, n, acc), LensOk(acc, s))
  {
  }

  lemma {:induction false} RunsRead(cl: lengths, rs: seq<Run>, s: seq<bool>, rest: seq<bool>, n: nat, acc: lengths)
    requires |cl| == 19 && Fits(Counts(cl)) && RunsOk(cl, rs, acc) && |RunsOut(rs, acc)| == n && |acc| <= n
    requires Same(s, AllRunBits(cl, rs) + rest)
    ensures Same(CodeLens(cl, s, n, acc), LensOk(RunsOut(rs, acc), rest))
    decreases |rs|
  {
    hide CodeLens, ApplyRun, ValidRun, RunBits;
    if rs == [] {
      AppendToNone([], rest);
      NoMoreRuns(cl, s, n, acc);
    } else {
      var s1 := AllRunBits(cl, rs[1..]) + rest;
      RunFits(acc, rs[0]);
      RunsGrow(rs[1..], ApplyRun(acc, rs[0]));
      Assoc(RunBits(cl, rs[0]), AllRunBits(cl, rs[1..]), rest);
      ReadRun(cl, rs[0], s, s1, n, acc);
      RunsRead(cl, rs[1..], s1, rest, n, ApplyRun(acc, rs[0]));
    }
  }

  lemma {:induction false} RunFits(acc: lengths, r: Run)
    requires ValidRun(acc, r)
    ensures r.sym < 19 && forall i :: 0 <= i < |ApplyRun(acc, r)| ==> ApplyRun(acc, r)[i] <= MAXBITS
  {
  }

  /** How reading goes on after a symbol of the code length code. */
  lemma {:induction false} RunDecoded(cl: lengths, s: seq<bool>, n: nat, acc: lengths, goal: Lens) returns (r: Run, mid: seq<bool>, s1: seq<bool>)
    requires |cl| == 19 && |acc| < n && goal.LensOk? && Same(CodeLens(cl, s, n, acc), goal)
    ensures Same(Decode(cl, s), Symbol(r.sym, mid)) && r.sym < 19 && (r.sym == 16 ==> acc != [])
    ensures if r.sym < 16 then Same(mid, s1) else Same(Take(mid, RepeatBits(r.sym)), Taken.Bits(r.extra, s1))
    ensures |ApplyRun(acc, r)| <= n && forall i :: 0 <= i < |ApplyRun(acc, r)| ==> ApplyRun(acc, r)[i] <= MAXBITS
    ensures Same(CodeLens(cl, s1, n, ApplyRun(acc, r)), goal)
  {
    hide Decode, Take, RepeatBits, RepeatBase;
    var d := Decode(cl, s);
    var t := Take(d.rest, RepeatBits(d.sym));
    mid := d.rest;
    if d.sym < 16 {
      r, s1 := Run(d.sym, 0), mid;
    } else {
      r, s1 := Run(d.sym, t.v), t.rest;
    }
  }

  lemma {:induction false} RunAhead(cl: lengths, s: seq<bool>, n: nat, acc: lengths, goal: Lens) returns (r: Run, s1: seq<bool>)
    requires |cl| == 19 && Fits(Counts(cl)) && |acc| < n && goal.LensOk? && Same(CodeLens(cl, s, n, acc), goal)
    ensures ValidRun(acc, r) && r.sym < 19 && cl[r.sym] > 0 && Same(s, RunBits(cl, r) + s1) && |s1| < |s|
    ensures |ApplyRun(acc, r)| <= n && forall i :: 0 <= i < |ApplyRun(acc, r)| ==> ApplyRun(acc, r)[i] <= MAXBITS
    ensures Same(CodeLens(cl, s1, n, ApplyRun(acc, r)), goal)
  {
    hide Decode, Take, CodeLens, RunBits, ApplyRun, Fits, Counts, RepeatBits, Pow2;
    var mid;
    r, mid, s1 := RunDecoded(cl, s, n, acc, goal);
    WordIs(cl, r.sym, s, mid);
    if r.sym >= 16 {
      BitsAre(r.extra, RepeatBits(r.sym), mid, s1);
    }
    RunBack(cl, r, s, mid, s1);
  }

  lemma {:induction false} RunBack(cl: lengths, r: Run, s: seq<bool>, mid: seq<bool>, s1: seq<bool>)
    requires |cl| == 19 && r.sym < 19 && HasWord(cl, r.sym) && Same(s, WordOf(cl, r.sym) + mid)
    requires if r.sym < 16 then Same(mid, s1) else Same(mid, ToBits(r.extra, RepeatBits(r.sym)) + s1)
    ensures Same(s, RunBits(cl, r) + s1) && |s1| < |s|
  {
    var more := if r.sym < 16 then [] else ToBits(r.extra, RepeatBits(r.sym));
    assert mid == more + s1;
    Assoc(CodeBits(cl, r.sym), more, s1);
  }

  lemma {:induction false} RunsAre(cl: lengths, s: seq<bool>, n: nat, acc: lengths, all: seq<nat>, rest: seq<bool>) returns (rs: seq<Run>)
    requires |cl| == 19 && Fits(Counts(cl)) && |acc| <= n && Same(CodeLens(cl, s, n, acc), LensOk(all, rest))
    ensures RunsOk(cl, rs, acc) && Same(all, RunsOut(rs, acc)) && |all| == n && Same(s, AllRunBits(cl, rs) + rest)
    decreases |s|
  {
    hide CodeLens, ApplyRun, ValidRun, RunBits;
    if |acc| == n {
      NoMoreRuns(cl, s, n, acc);
      rs := [];
      AppendToNone([], rest);
    } else {
      var r, s1 := RunAhead(cl, s, n, acc, LensOk(all, rest));
      var more := RunsAre(cl, s1, n, ApplyRun(acc, r), all, rest);
      rs := [r] + more;
      assert rs[1..] == more;
      Assoc(RunBits(cl, r), AllRunBits(cl, more), rest);
    }
  }

  // ---- the whole header ----

  /** The code length code with its first n lengths written, and the runs that give both codes. */
  ghost predicate TreesOk(cl: lengths, n: nat, rs: seq<Run>, lit: lengths, dist: lengths)
  {
    && |cl| == 19 && 4 <= n <= 19 && Octal(cl) && Runs.Trimmed(cl, n) && Usable(cl)
    && 257 <= |lit| <= 286 && 1 <= |dist| <= 30 && HasWord(lit, 256) && Usable(lit) && Usable(dist)
    && RunsOk(cl, rs, []) && Same(RunsOut(rs, []), lit + dist)
  }

  function TreesBits(cl: lengths, n: nat, rs: seq<Run>, nlit: nat, ndist: nat): seq<bool>
    requires |cl| == 19 && 4 <= n <= 19 && nlit >= 257 && ndist >= 1
  {
    SizeBits(nlit, ndist, n) + (OctalBits(ClValues(cl, n)) + AllRunBits(cl, rs))
  }

  lemma {:induction false} TreesRead(cl: lengths, n: nat, rs: seq<Run>, lit: lengths, dist: lengths, s: seq<bool>, rest: seq<bool>)
    requires TreesOk(cl, n, rs, lit, dist) && Same(s, TreesBits(cl, n, rs, |lit|, |dist|) + rest)
    ensures Same(DynamicTrees(s), Trees(lit, dist, rest))
  {
    hide DynamicTrees, TreesOf, ClLens, CodeLens, SizeBits, OctalBits, AllRunBits, Usable, ClCode, ClValues, RunsOut, RunsOk;
    var v := ClValues(cl, n);
    var s1, s2 := Split3(s, SizeBits(|lit|, |dist|, n), OctalBits(v), AllRunBits(cl, rs), rest);
    ReadSizes(|lit|, |dist|, n, s, s1);
    OctalOf(cl, n);
    OctalsRead(v, s1, s2, []);
    ClCodeBack(cl, n);
    UsableIs(cl);
    UsableIs(lit);
    UsableIs(dist);
    var all: lengths := lit + dist;
    RunsRead(cl, rs, s2, rest, |all|, []);
    assert [] + v == v;
    TreesOfParts(lit, dist, cl, n, s1, v, s2, all, rest);
  }

  lemma {:induction false} OctalOf(cl: lengths, n: nat)
    requires |cl| == 19 && n <= 19 && Octal(cl)
    ensures Octal(ClValues(cl, n)) && |ClValues(cl, n)| == n
  {
  }

  lemma {:induction false} SizesTake(s: seq<bool>) returns (a: Taken, b: Taken, c: Taken)
    requires DynamicTrees(s).Trees?
    ensures a.Bits? && b.Bits? && c.Bits? && Same(Take(s, 5), a) && Same(Take(a.rest, 5), b) && Same(Take(b.rest, 4), c)
    ensures Same(DynamicTrees(s), TreesOf(a.v + 257, b.v + 1, c.v + 4, c.rest))
  {
    hide TreesOf, Take;
    assert |s| >= 14;
    a := Take(s, 5);
    b := Take(a.rest, 5);
    c := Take(b.rest, 4);
  }

  /** The three sizes that come first. */
  lemma {:induction false} SizesAre(s: seq<bool>) returns (nlit: nat, ndist: nat, n: nat, s1: seq<bool>)
    requires DynamicTrees(s).Trees?
    ensures nlit >= 257 && ndist >= 1 && 4 <= n <= 19 && Same(s, SizeBits(nlit, ndist, n) + s1)
    ensures Same(DynamicTrees(s), TreesOf(nlit, ndist, n, s1))
  {
    hide TreesOf, DynamicTrees, Take, Pow2, ToBits, FromBits, SizeBits;
    var a, b, c := SizesTake(s);
    nlit, ndist, n, s1 := a.v + 257, b.v + 1, c.v + 4, c.rest;
    BitsAre(a.v, 5, s, a.rest);
    BitsAre(b.v, 5, a.rest, b.rest);
    BitsAre(c.v, 4, b.rest, s1);
    Sixteen();
    SizesTogether(nlit, ndist, n, s, a.rest, b.rest, s1);
  }

  lemma {:induction false} Sixteen()
    ensures Pow2(4) == 16
  {
    Pow2Values();
  }

  lemma {:induction false} SizesTogether(nlit: nat, ndist: nat, n: nat, s: seq<bool>, s1: seq<bool>, s2: seq<bool>, rest: seq<bool>)
    requires nlit >= 257 && ndist >= 1 && n >= 4
    requires Same(s, ToBits(nlit - 257, 5) + s1) && Same(s1, ToBits(ndist - 1, 5) + s2) && Same(s2, ToBits(n - 4, 4) + rest)
    ensures Same(s, SizeBits(nlit, ndist, n) + rest)
  {
    hide ToBits;
    var a, b, c := ToBits(nlit - 257, 5), ToBits(ndist - 1, 5), ToBits(n - 4, 4);
    Assoc(a, b + c, rest);
    Assoc(b, c, rest);
  }

  /** What comes after the sizes. */
  lemma {:induction false} TreesOfAre(nlit: nat, ndist: nat, n: nat, s: seq<bool>, lit: lengths, dist: lengths, rest: seq<bool>)
    returns (v: seq<nat>, s2: seq<bool>, all: seq<nat>)
    requires nlit >= 257 && ndist >= 1 && Same(TreesOf(nlit, ndist, n, s), Trees(lit, dist, rest))
    ensures nlit <= 286 && ndist <= 30 && Octal(v) && Same(ClLens(s, n, []), LensOk(v, s2)) && Buildable(ClCode(v))
    ensures Same(CodeLens(ClCode(v), s2, nlit + ndist, []), LensOk(all, rest)) && Same(all, lit + dist)
    ensures |lit| == nlit && |dist| == ndist && HasWord(lit, 256) && Buildable(lit) && Buildable(dist)
  {
    hide Buildable, ClCode, ClLens, CodeLens;
    var cs := ClLens(s, n, []);
    v, s2 := cs.len, cs.rest;
    var ls := CodeLens(ClCode(v), s2, nlit + ndist, []);
    all := ls.len;
    assert all == all[..nlit] + all[nlit..];
  }

  lemma {:induction false} TreesAre(s: seq<bool>, lit: lengths, dist: lengths, rest: seq<bool>) returns (cl: lengths, n: nat, rs: seq<Run>)
    requires Same(DynamicTrees(s), Trees(lit, dist, rest))
    ensures TreesOk(cl, n, rs, lit, dist) && Same(s, TreesBits(cl, n, rs, |lit|, |dist|) + rest)
  {
    hide DynamicTrees, TreesOf, ClLens, CodeLens, SizeBits, OctalBits, AllRunBits, Usable, Buildable, ClCode, ClValues, RunsOut, RunsOk;
    var nlit, ndist, s1;
    nlit, ndist, n, s1 := SizesAre(s);
    var v, s2, all := TreesOfAre(nlit, ndist, n, s1, lit, dist, rest);
    var w := OctalsAre(s1, n, [], v, s2);
    assert [] + w == w;
    cl := ClCode(v);
    ValuesOfCode(v);
    UsableIs(cl);
    UsableIs(lit);
    UsableIs(dist);
    rs := RunsAre(cl, s2, nlit + ndist, [], all, rest);
    Assoc(SizeBits(nlit, ndist, n), OctalBits(v) + AllRunBits(cl, rs), rest);
    Assoc(OctalBits(v), AllRunBits(cl, rs), rest);
  }
}
