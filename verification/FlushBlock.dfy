/** gzip.c's flush_block: a block of symbols written in the shortest of three ways. */
module FlushBlock {
  import opened Bits
  import opened Canonical
  import opened Huffman
  import opened Deflate
  import opened Tokens
  import opened Runs
  import opened DynamicBlock
  import opened BitWriter
  import opened BlockStream
  import opened SymbolBuffer
  import opened BlockWriter
  import opened Costs
  import opened BlockPlan

  lemma {:induction false} Chain3(s: seq<bool>, a: seq<bool>, b: seq<bool>, c: seq<bool>, t: seq<bool>)
    requires Same(t, ((s + a) + b) + c)
    ensures Same(t, s + (a + (b + c)))
  {
    Assoc(s + a, b, c);
    Assoc(s, a, b + c);
  }

  method WriteHeader(w: BitWriter, last: bool, kind: nat)
    requires w.Valid() && kind < 3
    modifies w
    ensures w.Valid() && Same(w.Stream(), (old(w.Stream()) + ToBits(Bit(last), 1)) + ToBits(kind, 2))
  {
    Pow2Values();
    w.PutBits(Bit(last), 1);
    w.PutBits(kind, 2);
  }

  // ---- stored bytes ----

  lemma {:induction false} PaddingShift(a: nat, b: nat)
    requires a % 8 == 0
    ensures Padding(a + b) == Padding(b)
  {
    assert (a + b) % 8 == b % 8;
  }

  /** The length of stored bytes and its complement. */
  method WriteSize(w: BitWriter, n: nat)
    requires w.Valid() && w.ocnt == 0 && n <= 0xffff
    modifies w
    ensures w.Valid() && w.ocnt == 0 && Same(w.Stream(), (old(w.Stream()) + ToBits(n, 16)) + ToBits(0xffff - n, 16))
  {
    Pow2Values();
    ghost var before := w.Stream();
    w.PutBits(n, 16);
    w.PutBits(0xffff - n, 16);
    assert |w.Stream()| == |before| + 32;
    BytesAligned(|old(w.out)|, w.ocnt, |w.out|);
  }

  lemma {:induction false} BytesAligned(n: nat, c: nat, k: nat)
    requires 8 * n + 32 == 8 * k + c && c < 8
    ensures c == 0
  {
  }

  /** One stored block. */
  method WritePiece(w: BitWriter, last: bool, p: seq<byte>, ghost pre: seq<bool>, ghost body: seq<bool>) returns (ghost blk: seq<bool>)
    requires w.Valid() && |p| <= 0xffff && |pre| % 8 == 0 && Same(w.Stream(), pre + body)
    modifies w
    ensures w.Valid() && Same(w.Stream(), pre + (body + blk))
    ensures Same(blk, BlockOf(last, 0, StoredBits(|body|, p)))
  {
    WriteHeader(w, last, 0);
    ghost var s2 := w.Stream();
    w.AlignBits();
    PaddingShift(|pre|, |body| + 3);
    ghost var s3 := w.Stream();
    WriteSize(w, |p|);
    ghost var s5 := w.Stream();
    w.PutBytes(p);
    blk := BlockOf(last, 0, StoredBits(|body|, p));
    PieceWritten(pre, body, ToBits(Bit(last), 1), ToBits(0, 2), ToBits(0, Padding(|body| + 3)), ToBits(|p|, 16),
                 ToBits(0xffff - |p|, 16), Unpack(p), s2, s3, s5, w.Stream(), blk);
  }

  lemma {:induction false} PieceWritten(pre: seq<bool>, body: seq<bool>, a: seq<bool>, b: seq<bool>, z: seq<bool>, c: seq<bool>, d: seq<bool>,
                                        u: seq<bool>, s2: seq<bool>, s3: seq<bool>, s5: seq<bool>, s6: seq<bool>, blk: seq<bool>)
    requires Same(s2, ((pre + body) + a) + b) && Same(s3, s2 + z) && Same(s5, (s3 + c) + d) && Same(s6, s5 + u)
    requires Same(blk, a + (b + (z + (c + (d + u)))))
    ensures Same(s6, pre + (body + blk))
  {
    Chain3(s3, c, d, u, s6);
    Assoc(s2, z, c + (d + u));
    Chain3(pre + body, a, b, z + (c + (d + u)), s6);
    Assoc(pre, body, blk);
  }

  /** What flush_block reckons stored blocks to cost: at most 65535 bytes in each, and the greatest
      padding. */
  function StoredCost(raw: nat): nat
  {
    (3 + 7 + 32 + 8 * raw) + if raw > 65535 then (raw / 65535) * (3 + 7 + 32) else 0
  }

  lemma {:induction false} PiecesCost(raw: nat, j: nat)
    requires j == 1 || 65535 * (j - 1) < raw
    ensures 42 * j + 8 * raw <= StoredCost(raw)
  {
  }

  lemma {:induction false} PieceSize(n: nat, last: bool, p: seq<byte>, blk: seq<bool>)
    requires |p| <= 0xffff && Same(blk, BlockOf(last, 0, StoredBits(n, p)))
    ensures |blk| <= 42 + 8 * |p|
  {
  }

  ghost predicate StoredSoFar(s: seq<bool>, pre: seq<bool>, body: seq<bool>, last: bool, out: seq<byte>)
  {
    Same(s, pre + body) && Reads(body, last, out)
  }

  /** The next piece of the raw bytes, from k on. */
  method StoreNext(w: BitWriter, raw: seq<byte>, k: nat, last: bool, ghost pre: seq<bool>, ghost body: seq<bool>, ghost out: seq<byte>)
    returns (n: nat, fin: bool, ghost body': seq<bool>, ghost out': seq<byte>)
    requires w.Valid() && |pre| % 8 == 0 && k <= |raw| && StoredSoFar(w.Stream(), pre, body, false, out)
    modifies w
    ensures n == (if |raw| - k > 65535 then 65535 else |raw| - k) && fin == (last && k + n == |raw|)
    ensures w.Valid() && StoredSoFar(w.Stream(), pre, body', fin, out') && Same(out', out + raw[k..k + n])
    ensures |body'| <= |body| + 42 + 8 * n
  {
    n := if |raw| - k > 65535 then 65535 else |raw| - k;
    fin := last && k + n == |raw|;
    var p := raw[k..k + n];
    ghost var blk := WritePiece(w, fin, p, pre, body);
    StoredReads(|body|, fin, p, out, blk);
    PieceSize(|body|, fin, p, blk);
    body' := body + blk;
    out' := out + p;
    ReadsMore(body, out, blk, fin, out', body');
  }

  lemma {:induction false} RawOneMore(raw: seq<byte>, k: nat, n: nat, out: seq<byte>, o: seq<byte>, o': seq<byte>)
    requires k + n <= |raw| && Same(o, out + raw[..k]) && Same(o', o + raw[k..k + n])
    ensures Same(o', out + raw[..k + n])
  {
    assert (out + raw[..k]) + raw[k..k + n] == out + raw[..k + n];
  }

  method WriteStored(w: BitWriter, raw: seq<byte>, last: bool, ghost pre: seq<bool>, ghost body: seq<bool>, ghost out: seq<byte>)
    returns (ghost body': seq<bool>, ghost out': seq<byte>)
    requires w.Valid() && |pre| % 8 == 0 && StoredSoFar(w.Stream(), pre, body, false, out)
    modifies w
    ensures w.Valid() && StoredSoFar(w.Stream(), pre, body', last, out') && Same(out', out + raw)
    ensures |body'| <= |body| + StoredCost(|raw|)
  {
    var k, more, fin := 0, true, false;
    ghost var j := 0;
    body', out' := body, out;
    assert out + raw[..0] == out;
    while more
      invariant w.Valid() && StoredSoFar(w.Stream(), pre, body', fin, out')
      invariant k <= |raw| && Same(out', out + raw[..k])
      invariant fin == (last && !more)
      invariant more ==> k == 65535 * j && (j == 0 || k < |raw|)
      invariant !more ==> k == |raw| && (j == 1 || 65535 * (j - 1) < |raw|)
      invariant |body'| <= |body| + 42 * j + 8 * k
      decreases |raw| - k, more
    {
      ghost var o := out';
      var n;
      n, fin, body', out' := StoreNext(w, raw, k, last, pre, body', out');
      RawOneMore(raw, k, n, out, o, out');
      k := k + n;
      j := j + 1;
      more := k < |raw|;
    }
    assert raw[..|raw|] == raw;
    PiecesCost(|raw|, j);
  }

  // ---- codes ----

  /** Codes made of all the lengths write what the decoder knows without the unused ones. */
  lemma {:induction false} TrimmedWrites(len: lengths, code: seq<nat>, h: nat)
    requires AreCodes(len, |len|, code) && Unused(len, h)
    ensures Writes(len[..h], len, code)
  {
    forall i | 0 <= i < h && len[i] > 0 ensures IsCode(len[..h], i, code[i]) {
      CodeOfPrefix(len, h, i);
      assert IsCode(len, i, code[i]);
    }
  }

  method CodesFor(len: lengths) returns (code: seq<nat>)
    ensures Writes(len, len, code)
  {
    code := MakeCodes(len);
  }

  ghost predicate CanRead(ts: seq<Token>, out: seq<byte>, out': seq<byte>)
  {
    AllInTables(ts) && Means(ts, |ts|, out, out')
  }

  method FixedLengths() returns (fl: lengths, fd: lengths)
    ensures Same(fl, FixedLit()) && Same(fd, FixedDist())
  {
    fl := seq(288, i => if i < 144 then 8 else if i < 256 then 9 else if i < 280 then 7 else 8);
    fd := seq(30, _ => 5);
    assert fl == FixedLit();
    assert fd == FixedDist();
  }

  lemma {:induction false} BlockWritten(pre: seq<bool>, body: seq<bool>, last: bool, kind: nat, bits: seq<bool>, s: seq<bool>, s': seq<bool>)
    requires Same(s, ((pre + body) + ToBits(Bit(last), 1)) + ToBits(kind, 2)) && Same(s', s + bits)
    ensures Same(s', pre + (body + BlockOf(last, kind, bits)))
  {
    Chain3(pre + body, ToBits(Bit(last), 1), ToBits(kind, 2), bits, s');
    Assoc(pre, body, BlockOf(last, kind, bits));
  }

  /** Codes and tokens that go together. */
  ghost predicate Writable(lit: lengths, dist: lengths, ts: seq<Token>)
  {
    AllCoded(lit, dist, ts) && AllInTables(ts)
  }

  /** A block's header and symbols, the bits head between them. */
  method WriteBody(w: BitWriter, b: SymbolBuffer, ll: seq<nat>, lc: seq<nat>, dl: seq<nat>, dc: seq<nat>, ghost lit: lengths, ghost dist: lengths,
                   ghost ts: seq<Token>, ghost last: bool, ghost kind: nat, ghost head: seq<bool>, ghost pre: seq<bool>, ghost body: seq<bool>,
                   ghost s: seq<bool>) returns (ghost bits: seq<bool>)
    requires w.Valid() && b.Valid() && Same(b.ts, ts) && Writes(lit, ll, lc) && Writes(dist, dl, dc) && Writable(lit, dist, ts)
    requires Same(s, ((pre + body) + ToBits(Bit(last), 1)) + ToBits(kind, 2)) && Same(w.Stream(), s + head)
    modifies w
    ensures w.Valid() && Same(bits, head + BlockBits(lit, dist, ts)) && Same(w.Stream(), pre + (body + BlockOf(last, kind, bits)))
  {
    WriteSymbols(w, b, ll, lc, dl, dc, lit, dist);
    bits := head + BlockBits(lit, dist, ts);
    Assoc(s, head, BlockBits(lit, dist, ts));
    BlockWritten(pre, body, last, kind, bits, s, w.Stream());
  }

  ghost predicate FixedCodes(fl: lengths, fd: lengths)
  {
    Same(fl, FixedLit()) && Same(fd, FixedDist())
  }

  lemma {:induction false} FixedWritten(fl: lengths, fd: lengths, ts: seq<Token>, last: bool, bits: seq<bool>, body: seq<bool>, body': seq<bool>,
                                        out: seq<byte>, out': seq<byte>)
    requires FixedCodes(fl, fd) && CanRead(ts, out, out') && Writable(fl, fd, ts)
    requires Same(bits, [] + BlockBits(fl, fd, ts)) && Reads(body, false, out) && Same(body', body + BlockOf(last, 1, bits))
    ensures Reads(body', last, out') && |body'| == |body| + 3 + |BlockBits(fl, fd, ts)|
  {
    assert bits == BlockBits(fl, fd, ts);
    FixedReads(|body|, last, ts, out, out');
    ReadsMore(body, out, BlockOf(last, 1, bits), last, out', body');
  }

  method WriteFixedBits(w: BitWriter, b: SymbolBuffer, fl: lengths, fd: lengths, last: bool, ghost ts: seq<Token>,
                        ghost pre: seq<bool>, ghost body: seq<bool>) returns (ghost bits: seq<bool>)
    requires w.Valid() && b.Valid() && Same(b.ts, ts) && Writable(fl, fd, ts) && Same(w.Stream(), pre + body)
    modifies w
    ensures w.Valid() && Same(bits, [] + BlockBits(fl, fd, ts)) && Same(w.Stream(), pre + (body + BlockOf(last, 1, bits)))
  {
    var flc := CodesFor(fl);
    var fdc := CodesFor(fd);
    WriteHeader(w, last, 1);
    AppendNone(w.Stream(), []);
    bits := WriteBody(w, b, fl, flc, fd, fdc, fl, fd, ts, last, 1, [], pre, body, w.Stream());
  }

  method WriteFixed(w: BitWriter, b: SymbolBuffer, fl: lengths, fd: lengths, last: bool, ghost ts: seq<Token>,
                    ghost pre: seq<bool>, ghost body: seq<bool>, ghost out: seq<byte>, ghost out': seq<byte>) returns (ghost body': seq<bool>)
    requires w.Valid() && b.Valid() && Same(b.ts, ts) && FixedCodes(fl, fd) && Writable(fl, fd, ts)
    requires StoredSoFar(w.Stream(), pre, body, false, out) && CanRead(ts, out, out')
    modifies w
    ensures w.Valid() && StoredSoFar(w.Stream(), pre, body', last, out')
    ensures |body'| == |body| + 3 + |BlockBits(fl, fd, ts)|
  {
    ghost var bits := WriteFixedBits(w, b, fl, fd, last, ts, pre, body);
    body' := body + BlockOf(last, 1, bits);
    FixedWritten(fl, fd, ts, last, bits, body, body', out, out');
  }

  /** The code length code, in the order of the format. */
  method WriteClLengths(w: BitWriter, cll: lengths, hclen: nat)
    requires w.Valid() && |cll| == 19 && Octal(cll) && hclen <= 19
    modifies w
    ensures w.Valid() && Same(w.Stream(), old(w.Stream()) + ClBits(cll, hclen))
  {
    ghost var s := w.Stream();
    AppendNone(s, ClBits(cll, 0));
    Pow2Values();
    for i := 0 to hclen
      invariant w.Valid() && Same(w.Stream(), s + ClBits(cll, i))
    {
      w.PutBits(cll[ClOrder(i)], 3);
      Assoc(s, ClBits(cll, i), ToBits(cll[ClOrder(i)], 3));
    }
  }

  ghost predicate GoodRun(cll: lengths, r: Run)
  {
    r.sym < 19 == |cll| && cll[r.sym] > 0 && (r.sym >= 16 ==> r.extra < Pow2(RepeatBits(r.sym)))
  }

  method WriteRun(w: BitWriter, r: Run, cll: lengths, clc: seq<nat>)
    requires w.Valid() && GoodRun(cll, r) && Writes(cll, cll, clc)
    modifies w
    ensures w.Valid() && Same(w.Stream(), old(w.Stream()) + RunBits(cll, r))
  {
    ghost var s := w.Stream();
    WriteCode(w, r.sym, cll, clc, cll);
    if r.sym >= 16 {
      w.PutBits(r.extra, if r.sym == 16 then 2 else if r.sym == 17 then 3 else 7);
      Assoc(s, CodeBits(cll, r.sym), ToBits(r.extra, RepeatBits(r.sym)));
    } else {
      Assoc(s, CodeBits(cll, r.sym), []);
      assert w.Stream() + [] == w.Stream();
    }
  }

  lemma {:induction false} RunsAreGood(cll: lengths, rs: seq<Run>, n: nat)
    requires n <= |rs| && ValidRuns(rs, n) && RunsCoded(cll, rs)
    ensures forall i :: 0 <= i < n ==> GoodRun(cll, rs[i])
  {
    if n > 0 {
      RunsAreGood(cll, rs, n - 1);
    }
  }

  method WriteRuns(w: BitWriter, rs: seq<Run>, cll: lengths, clc: seq<nat>)
    requires w.Valid() && RunsCoded(cll, rs) && (forall i :: 0 <= i < |rs| ==> GoodRun(cll, rs[i])) && Writes(cll, cll, clc)
    modifies w
    ensures w.Valid() && Same(w.Stream(), old(w.Stream()) + RunsBits(cll, rs, |rs|))
  {
    ghost var s := w.Stream();
    AppendNone(s, RunsBits(cll, rs, 0));
    for i := 0 to |rs|
      invariant w.Valid() && Same(w.Stream(), s + RunsBits(cll, rs, i))
    {
      WriteRun(w, rs[i], cll, clc);
      Assoc(s, RunsBits(cll, rs, i), RunBits(cll, rs[i]));
    }
  }

  method WriteSizes(w: BitWriter, p: Plan)
    requires w.Valid() && p.Sized()
    modifies w
    ensures w.Valid() && Same(w.Stream(), old(w.Stream()) + SizeBits(p.hlit, p.hdist, p.hclen))
  {
    Pow2Values();
    ghost var s := w.Stream();
    w.PutBits(p.hlit - 257, 5);
    w.PutBits(p.hdist - 1, 5);
    w.PutBits(p.hclen - 4, 4);
    Chain3(s, ToBits(p.hlit - 257, 5), ToBits(p.hdist - 1, 5), ToBits(p.hclen - 4, 4), w.Stream());
  }

  /** All that comes before the symbols of a dynamic block. */
  function TreeBits(p: Plan): seq<bool>
    requires p.Sized() && RunsCoded(p.cll, p.rs)
  {
    SizeBits(p.hlit, p.hdist, p.hclen) + (ClBits(p.cll, p.hclen) + RunsBits(p.cll, p.rs, |p.rs|))
  }

  method WriteTrees(w: BitWriter, p: Plan, clc: seq<nat>)
    requires w.Valid() && p.Sized() && Octal(p.cll) && RunsCoded(p.cll, p.rs) && ValidRuns(p.rs, |p.rs|) && Writes(p.cll, p.cll, clc)
    modifies w
    ensures w.Valid() && Same(w.Stream(), old(w.Stream()) + TreeBits(p))
  {
    ghost var s := w.Stream();
    RunsAreGood(p.cll, p.rs, |p.rs|);
    WriteSizes(w, p);
    WriteClLengths(w, p.cll, p.hclen);
    WriteRuns(w, p.rs, p.cll, clc);
    Chain3(s, SizeBits(p.hlit, p.hdist, p.hclen), ClBits(p.cll, p.hclen), RunsBits(p.cll, p.rs, |p.rs|), w.Stream());
  }

  method PlanCodes(p: Plan, ghost ts: seq<Token>) returns (lc: seq<nat>, dc: seq<nat>, clc: seq<nat>)
    requires GoodPlan(p, ts)
    ensures Writes(p.Lit(), p.ll, lc) && Writes(p.Dist(), p.dl, dc) && Writes(p.cll, p.cll, clc)
  {
    lc := MakeCodes(p.ll);
    dc := MakeCodes(p.dl);
    clc := CodesFor(p.cll);
    TrimmedWrites(p.ll, lc, p.hlit);
    TrimmedWrites(p.dl, dc, p.hdist);
  }

  method WriteDynamicBits(w: BitWriter, b: SymbolBuffer, p: Plan, last: bool, ghost ts: seq<Token>,
                          ghost pre: seq<bool>, ghost body: seq<bool>) returns (ghost bits: seq<bool>)
    requires w.Valid() && b.Valid() && Same(b.ts, ts) && GoodPlan(p, ts) && AllInTables(ts) && Same(w.Stream(), pre + body)
    modifies w
    ensures w.Valid() && Same(bits, TreeBits(p) + BlockBits(p.Lit(), p.Dist(), ts))
    ensures Same(w.Stream(), pre + (body + BlockOf(last, 2, bits)))
  {
    var lc, dc, clc := PlanCodes(p, ts);
    WriteHeader(w, last, 2);
    ghost var s := w.Stream();
    WriteTrees(w, p, clc);
    bits := WriteBody(w, b, p.ll, lc, p.dl, dc, p.Lit(), p.Dist(), ts, last, 2, TreeBits(p), pre, body, s);
  }

  /** The bits of a dynamic block. */
  function PlanBits(p: Plan, ts: seq<Token>): seq<bool>
    requires p.Sized() && RunsCoded(p.cll, p.rs) && AllCoded(p.Lit(), p.Dist(), ts) && AllInTables(ts)
  {
    DynamicBits(p.Lit(), p.Dist(), p.cll, p.rs, p.hclen, ts)
  }

  lemma {:induction false} PlanParts(p: Plan, ts: seq<Token>)
    requires p.Sized() && RunsCoded(p.cll, p.rs) && AllCoded(p.Lit(), p.Dist(), ts) && AllInTables(ts)
    ensures Same(PlanBits(p, ts), TreeBits(p) + BlockBits(p.Lit(), p.Dist(), ts))
  {
    var a, b, c, d := SizeBits(p.hlit, p.hdist, p.hclen), ClBits(p.cll, p.hclen), RunsBits(p.cll, p.rs, |p.rs|), BlockBits(p.Lit(), p.Dist(), ts);
    Assoc(a, b + c, d);
    Assoc(b, c, d);
  }

  lemma {:induction false} DynamicWritten(p: Plan, ts: seq<Token>, last: bool, bits: seq<bool>, body: seq<bool>, body': seq<bool>,
                                          out: seq<byte>, out': seq<byte>)
    requires GoodPlan(p, ts) && CanRead(ts, out, out')
    requires Same(bits, PlanBits(p, ts)) && Reads(body, false, out) && Same(body', body + BlockOf(last, 2, bits))
    ensures Reads(body', last, out') && |body'| == |body| + 3 + |PlanBits(p, ts)|
  {
    DynamicReads(|body|, last, p.Lit(), p.Dist(), p.cll, p.rs, p.hclen, ts, out, out');
    ReadsMore(body, out, BlockOf(last, 2, bits), last, out', body');
  }

  method WriteDynamic(w: BitWriter, b: SymbolBuffer, p: Plan, last: bool, ghost ts: seq<Token>,
                      ghost pre: seq<bool>, ghost body: seq<bool>, ghost out: seq<byte>, ghost out': seq<byte>) returns (ghost body': seq<bool>)
    requires w.Valid() && b.Valid() && Same(b.ts, ts) && GoodPlan(p, ts)
    requires StoredSoFar(w.Stream(), pre, body, false, out) && CanRead(ts, out, out')
    modifies w
    ensures w.Valid() && StoredSoFar(w.Stream(), pre, body', last, out')
    ensures |body'| == |body| + 3 + |PlanBits(p, ts)|
  {
    ghost var bits := WriteDynamicBits(w, b, p, last, ts, pre, body);
    PlanParts(p, ts);
    body' := body + BlockOf(last, 2, bits);
    DynamicWritten(p, ts, last, bits, body, body', out, out');
  }

  // ---- the choice ----

  lemma {:induction false} NoEnd(ts: seq<Token>, n: nat)
    requires n <= |ts|
    ensures LitFreq(ts, n, 256) == 0
  {
    if n > 0 {
      NoEnd(ts, n - 1);
    }
  }

  lemma {:induction false} PlanSize(p: Plan, ts: seq<Token>)
    requires p.Sized() && RunsCoded(p.cll, p.rs) && AllCoded(p.Lit(), p.Dist(), ts) && AllInTables(ts)
    ensures |PlanBits(p, ts)| == 14 + 3 * p.hclen + |RunsBits(p.cll, p.rs, |p.rs|)| + |BlockBits(p.Lit(), p.Dist(), ts)|
  {
    ClBitsSize(p.cll, p.hclen);
  }

  method DynamicCost(p: Plan, lf: seq<nat>, df: seq<nat>, ghost ts: seq<Token>) returns (dyn: nat)
    requires GoodPlan(p, ts) && AllInTables(ts) && WithEnd(lf, ts) && DistCounts(df, ts)
    ensures dyn == 3 + |PlanBits(p, ts)|
  {
    var c := SymCost(lf, df, p.ll, p.dl, ts, p.Lit(), p.Dist());
    var r := RunsCost(p.rs, p.cll);
    PlanSize(p, ts);
    dyn := 3 + 14 + 3 * p.hclen + c + r;
  }

  method FixedCost(fl: lengths, fd: lengths, lf: seq<nat>, df: seq<nat>, ghost ts: seq<Token>) returns (fix: nat)
    requires FixedCodes(fl, fd) && Writable(fl, fd, ts) && WithEnd(lf, ts) && DistCounts(df, ts)
    ensures fix == 3 + |BlockBits(fl, fd, ts)|
  {
    var c := SymCost(lf, df, fl, fd, ts, fl, fd);
    fix := 3 + c;
  }

  /** The frequencies of a block, and the end of the block once. */
  method Frequencies(b: SymbolBuffer) returns (lf: seq<nat>, df: seq<nat>)
    requires b.Valid()
    ensures WithEnd(lf, b.ts) && DistCounts(df, b.ts)
  {
    NoEnd(b.ts, |b.ts|);
    lf := b.litFreq[..];
    lf := lf[256 := 1];
    df := b.distFreq[..];
  }

  /** Added bits are no more than any of the three ways of writing costs. */
  ghost predicate CheapestForm(n: int, p: Plan, raw: nat, ts: seq<Token>)
    requires AllInTables(ts)
  {
    && GoodPlan(p, ts) && AllCoded(FixedLit(), FixedDist(), ts)
    && n <= StoredCost(raw) && n <= 3 + |BlockBits(FixedLit(), FixedDist(), ts)| && n <= 3 + |PlanBits(p, ts)|
  }

  lemma {:induction false} IsCheapest(n: int, sto: nat, fix: nat, dyn: nat, p: Plan, fl: lengths, fd: lengths, raw: nat, ts: seq<Token>)
    requires Writable(fl, fd, ts) && FixedCodes(fl, fd) && GoodPlan(p, ts)
    requires sto == StoredCost(raw) && fix == 3 + |BlockBits(fl, fd, ts)| && dyn == 3 + |PlanBits(p, ts)|
    requires n <= sto && n <= fix && n <= dyn
    ensures CheapestForm(n, p, raw, ts)
  {
  }

  method WriteCheapest(w: BitWriter, b: SymbolBuffer, raw: seq<byte>, last: bool, p: Plan, fl: lengths, fd: lengths,
                       sto: nat, fix: nat, dyn: nat, ghost ts: seq<Token>,
                       ghost pre: seq<bool>, ghost body: seq<bool>, ghost out: seq<byte>, ghost out': seq<byte>) returns (ghost body': seq<bool>)
    requires w.Valid() && b.Valid() && Same(b.ts, ts) && GoodPlan(p, ts) && FixedCodes(fl, fd) && Writable(fl, fd, ts) && |pre| % 8 == 0
    requires StoredSoFar(w.Stream(), pre, body, false, out) && CanRead(ts, out, out') && Same(out', out + raw)
    requires sto == StoredCost(|raw|) && fix == 3 + |BlockBits(fl, fd, ts)| && dyn == 3 + |PlanBits(p, ts)|
    modifies w
    ensures w.Valid() && StoredSoFar(w.Stream(), pre, body', last, out')
    ensures |body'| - |body| <= sto && |body'| - |body| <= fix && |body'| - |body| <= dyn
  {
    if sto <= fix && sto <= dyn {
      ghost var o;
      body', o := WriteStored(w, raw, last, pre, body, out);
    } else if fix <= dyn {
      body' := WriteFixed(w, b, fl, fd, last, ts, pre, body, out, out');
    } else {
      body' := WriteDynamic(w, b, p, last, ts, pre, body, out, out');
    }
  }

  lemma {:induction false} FixedWritable(fl: lengths, fd: lengths, ts: seq<Token>)
    requires FixedCodes(fl, fd) && AllInTables(ts)
    ensures Writable(fl, fd, ts)
  {
    FixedCodesAll(ts);
  }

  /** flush_block.  The bits body, after some bytes pre, read as out; the tokens of the block turn
      that into out', and the raw bytes are what they add.  Afterwards the bits read as out', and
      the block was written in the shortest way. */
  method Flush(w: BitWriter, b: SymbolBuffer, raw: seq<byte>, last: bool,
               ghost pre: seq<bool>, ghost body: seq<bool>, ghost out: seq<byte>, ghost out': seq<byte>)
    returns (ghost body': seq<bool>, ghost p: Plan)
    requires w.Valid() && b.Valid() && |pre| % 8 == 0
    requires StoredSoFar(w.Stream(), pre, body, false, out) && CanRead(b.ts, out, out') && Same(out', out + raw)
    modifies w, b, b.litFreq, b.distFreq
    ensures w.Valid() && StoredSoFar(w.Stream(), pre, body', last, out')
    ensures CheapestForm(|body'| - |body|, p, |raw|, old(b.ts))
    ensures b.Valid() && b.ts == []
  {
    hide StoredSoFar, Means, GoodPlan, Writable, FixedCodes, WithEnd, DistCounts, CheapestForm, PlanBits, BlockBits, AllInTables, AllCoded;
    ghost var ts := b.ts;
    var lf, df := Frequencies(b);
    var plan := MakePlan(lf, df, ts);
    var fl, fd := FixedLengths();
    FixedWritable(fl, fd, ts);
    var dyn := DynamicCost(plan, lf, df, ts);
    var fix := FixedCost(fl, fd, lf, df, ts);
    var sto := StoredCost(|raw|);
    body' := WriteCheapest(w, b, raw, last, plan, fl, fd, sto, fix, dyn, ts, pre, body, out, out');
    p := plan;
    IsCheapest(|body'| - |body|, sto, fix, dyn, plan, fl, fd, |raw|, ts);
    b.Clear();
  }
}
