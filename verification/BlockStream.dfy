/** Blocks one after another: what the bits written so far will be read back as, whatever
    follows them. */
module BlockStream {
  import opened Bits
  import opened Canonical
  import opened Huffman
  import opened Kraft
  import opened Deflate
  import opened Tokens
  import opened Runs
  import opened DynamicBlock
  import opened BitWriter

  /** A block with its header: the last-block bit and the kind. */
  function BlockOf(last: bool, kind: nat, body: seq<bool>): seq<bool>
  {
    ToBits(Bit(last), 1) + (ToBits(kind, 2) + body)
  }

  /** Reading s from a history is reading rest with a longer history, or the end. */
  ghost predicate LeadsTo(s: seq<bool>, out: seq<byte>, last: bool, rest: seq<bool>, result: seq<byte>)
  {
    Same(Blocks(s, out), if last then Ok(rest, result) else Blocks(rest, result))
  }

  lemma {:induction false} ReadLastBit(last: bool, s: seq<bool>, s1: seq<bool>)
    requires Same(s, ToBits(Bit(last), 1) + s1)
    ensures |s| == |s1| + 1 && s[0] == last && Same(s[1..], s1)
  {
    assert ToBits(Bit(last), 1) == [last] by {
      assert ToBits(Bit(last), 1) == [Bit(last) % 2 == 1] + ToBits(0, 0);
    }
    assert s[1..] == s1;
  }

  lemma {:induction false} ReadHeader(last: bool, kind: nat, s: seq<bool>, s1: seq<bool>, out: seq<byte>, rest: seq<bool>, result: seq<byte>)
    requires kind < 3 && Same(s, ToBits(Bit(last), 1) + (ToBits(kind, 2) + s1))
    requires Same(Block(kind, s1, out), Ok(rest, result))
    ensures LeadsTo(s, out, last, rest, result)
  {
    Pow2Values();
    var s2 := ToBits(kind, 2) + s1;
    ReadLastBit(last, s, s2);
    TakeBack(kind, 2, s2, s1);
  }

  /** The bits w, read from the start of a member, give the history out, whatever comes next; next
      is a whole number of bytes with w. */
  ghost predicate Reads(w: seq<bool>, last: bool, out: seq<byte>)
  {
    forall rest: seq<bool> {:trigger w + rest} :: (|w| + |rest|) % 8 == 0 ==> LeadsTo(w + rest, [], last, rest, out)
  }

  /** A block after n bits reads so. */
  ghost predicate BlockReads(n: nat, blk: seq<bool>, last: bool, out: seq<byte>, result: seq<byte>)
  {
    forall rest: seq<bool> {:trigger blk + rest} :: (n + |blk| + |rest|) % 8 == 0 ==> LeadsTo(blk + rest, out, last, rest, result)
  }

  lemma {:induction false} ReadsNothing()
    ensures Reads([], false, [])
  {
    forall rest: seq<bool> ensures LeadsTo([] + rest, [], false, rest, []) {
      assert [] + rest == rest;
    }
  }

  lemma {:induction false} ReadsAt(w: seq<bool>, last: bool, out: seq<byte>, rest: seq<bool>)
    requires Reads(w, last, out) && (|w| + |rest|) % 8 == 0
    ensures LeadsTo(w + rest, [], last, rest, out)
  {
  }

  lemma {:induction false} BlockReadsAt(n: nat, blk: seq<bool>, last: bool, out: seq<byte>, result: seq<byte>, rest: seq<bool>)
    requires BlockReads(n, blk, last, out, result) && (n + |blk| + |rest|) % 8 == 0
    ensures LeadsTo(blk + rest, out, last, rest, result)
  {
  }

  lemma {:induction false} LeadsOn(s: seq<bool>, s1: seq<bool>, out: seq<byte>, last: bool, rest: seq<bool>, result: seq<byte>)
    requires LeadsTo(s, [], false, s1, out) && LeadsTo(s1, out, last, rest, result)
    ensures LeadsTo(s, [], last, rest, result)
  {
  }

  /** One more block. */
  lemma {:induction false} ReadsMore(w: seq<bool>, out: seq<byte>, blk: seq<bool>, last: bool, result: seq<byte>, w': seq<bool>)
    requires Reads(w, false, out) && BlockReads(|w|, blk, last, out, result) && Same(w', w + blk)
    ensures Reads(w', last, result)
  {
    hide LeadsTo;
    forall rest: seq<bool> | (|w'| + |rest|) % 8 == 0
      ensures LeadsTo(w' + rest, [], last, rest, result)
    {
      OneMore(w, out, blk, last, result, rest);
    }
  }

  lemma {:induction false} OneMore(w: seq<bool>, out: seq<byte>, blk: seq<bool>, last: bool, result: seq<byte>, rest: seq<bool>)
    requires Reads(w, false, out) && BlockReads(|w|, blk, last, out, result) && (|w + blk| + |rest|) % 8 == 0
    ensures LeadsTo((w + blk) + rest, [], last, rest, result)
  {
    Assoc(w, blk, rest);
    assert |w + blk| + |rest| == |w| + |blk + rest| == |w| + |blk| + |rest|;
    ReadsAt(w, false, out, blk + rest);
    BlockReadsAt(|w|, blk, last, out, result, rest);
    LeadsOn(w + (blk + rest), blk + rest, out, last, rest, result);
  }

  lemma {:induction false} RegroupBlock(a: seq<bool>, b: seq<bool>, c: seq<bool>, rest: seq<bool>)
    ensures Same((a + (b + c)) + rest, a + (b + (c + rest)))
  {
    Assoc(a, b + c, rest);
    Assoc(b, c, rest);
  }

  // ---- dynamic codes ----

  lemma {:induction false} DynamicReads(n: nat, last: bool, lit: lengths, dist: lengths, cll: lengths, rs: seq<Run>, hclen: nat,
                                        ts: seq<Token>, out: seq<byte>, result: seq<byte>)
    requires GoodTrees(lit, dist, cll, rs, hclen)
    requires AllCoded(lit, dist, ts) && AllInTables(ts) && Means(ts, |ts|, out, result)
    ensures BlockReads(n, BlockOf(last, 2, DynamicBits(lit, dist, cll, rs, hclen, ts)), last, out, result)
  {
    var body := DynamicBits(lit, dist, cll, rs, hclen, ts);
    forall rest: seq<bool>
      ensures LeadsTo(BlockOf(last, 2, body) + rest, out, last, rest, result)
    {
      RegroupBlock(ToBits(Bit(last), 1), ToBits(2, 2), body, rest);
      ReadDynamic(lit, dist, cll, rs, hclen, ts, body + rest, rest, out, result);
      ReadHeader(last, 2, BlockOf(last, 2, body) + rest, body + rest, out, rest, result);
    }
  }

  // ---- fixed codes ----

  lemma {:induction false} KraftTimes(len: lengths, v: nat, a: nat, b: nat)
    requires a <= b <= |len| && v > 0 && forall i :: a <= i < b ==> len[i] == v
    ensures KraftSum(len, b) == KraftSum(len, a) + Times(b - a, Half(v))
    decreases b
  {
    if a < b {
      KraftTimes(len, v, a, b - 1);
    }
  }

  lemma {:induction false} KraftRange(len: lengths, v: nat, h: real, a: nat, n: nat, t: real)
    requires a + n <= |len| && v > 0 && h == Half(v) && forall i :: a <= i < a + n ==> len[i] == v
    requires t == n as real * h
    ensures KraftSum(len, a + n) == KraftSum(len, a) + t
  {
    KraftTimes(len, v, a, a + n);
    TimesIsProduct(n, h);
  }

  lemma {:induction false} HalfValues()
    ensures Half(5) == 0.03125 && Half(7) == 0.0078125 && Half(8) == 0.00390625 && Half(9) == 0.001953125
  {
    assert Half(1) == 0.5;
    assert Half(3) == 0.125;
    assert Half(6) == 0.015625;
  }

  /** A run of n symbols with words of v bits adds t to a Kraft sum of s. */
  lemma {:induction false} KraftPart(len: lengths, v: nat, h: real, a: nat, n: nat, s: real, t: real, b: nat)
    requires a + n == b <= |len| && v > 0 && h == Half(v) && forall i :: a <= i < b ==> len[i] == v
    requires KraftSum(len, a) == s && t == n as real * h
    ensures KraftSum(len, b) == s + t
  {
    hide KraftSum, Half;
    KraftRange(len, v, h, a, n, t);
  }

  lemma {:induction false} FixedLitShort()
    ensures KraftSum(FixedLit(), 256) == 0.78125
  {
    var l := FixedLit();
    HalfValues();
    assert KraftSum(l, 0) == 0.0;
    hide KraftSum, Half, FixedLit;
    KraftPart(l, 8, 0.00390625, 0, 144, 0.0, 0.5625, 144);
    KraftPart(l, 9, 0.001953125, 144, 112, 0.5625, 0.21875, 256);
  }

  lemma {:induction false} FixedLitFits()
    ensures Fits(Counts(FixedLit()))
  {
    hide KraftSum, Half, FixedLit, Fits, Counts;
    var l := FixedLit();
    HalfValues();
    FixedLitShort();
    KraftPart(l, 7, 0.0078125, 256, 24, 0.78125, 0.1875, 280);
    KraftPart(l, 8, 0.00390625, 280, 8, 0.96875, 0.03125, 288);
    KraftInequality(l);
  }

  lemma {:induction false} FixedDistFits()
    ensures Fits(Counts(FixedDist()))
  {
    var l := FixedDist();
    HalfValues();
    assert KraftSum(l, 0) == 0.0;
    hide KraftSum, Half, FixedDist, Fits, Counts;
    KraftPart(l, 5, 0.03125, 0, 30, 0.0, 0.9375, 30);
    KraftInequality(l);
  }

  lemma {:induction false} FixedCodesAll(ts: seq<Token>)
    ensures AllCoded(FixedLit(), FixedDist(), ts)
  {
  }

  lemma {:induction false} FixedReads(n: nat, last: bool, ts: seq<Token>, out: seq<byte>, result: seq<byte>)
    requires AllInTables(ts) && Means(ts, |ts|, out, result)
    ensures AllCoded(FixedLit(), FixedDist(), ts)
    ensures BlockReads(n, BlockOf(last, 1, BlockBits(FixedLit(), FixedDist(), ts)), last, out, result)
  {
    FixedCodesAll(ts);
    FixedLitFits();
    FixedDistFits();
    var body := BlockBits(FixedLit(), FixedDist(), ts);
    forall rest: seq<bool>
      ensures LeadsTo(BlockOf(last, 1, body) + rest, out, last, rest, result)
    {
      RegroupBlock(ToBits(Bit(last), 1), ToBits(1, 2), body, rest);
      ReadBlock(FixedLit(), FixedDist(), ts, body + rest, rest, out, result);
      ReadHeader(last, 1, BlockOf(last, 1, body) + rest, body + rest, out, rest, result);
    }
  }

  // ---- stored bytes ----

  function StoredBits(n: nat, p: seq<byte>): seq<bool>
    requires |p| <= 0xffff
  {
    ToBits(0, Padding(n + 3)) + (ToBits(|p|, 16) + (ToBits(0xffff - |p|, 16) + Unpack(p)))
  }

  lemma {:induction false} ReadStoredBytes(p: seq<byte>, s: seq<bool>, rest: seq<bool>, out: seq<byte>)
    requires Same(s, Unpack(p) + rest)
    ensures Same(StoredBytes(s, |p|, out), Ok(rest, out + p))
    decreases |p|
  {
    if p == [] {
      assert s == rest && out + p == out;
    } else {
      var s1 := Unpack(p[1..]) + rest;
      Pow2Values();
      Assoc(ToBits(p[0], 8), Unpack(p[1..]), rest);
      TakeBack(p[0], 8, s, s1);
      ReadStoredBytes(p[1..], s1, rest, out + [p[0]]);
      assert out + [p[0]] + p[1..] == out + p;
    }
  }

  lemma {:induction false} AlignmentOf(n: nat, k: nat)
    requires (n + Padding(n) + k) % 8 == 0
    ensures k % 8 == 0 && (Padding(n) + k) % 8 == Padding(n)
  {
    PaddingFills(n);
    hide Padding;
    Eights((n + Padding(n) + k) / 8 - (n + Padding(n)) / 8, k, 0);
    Eights((n + Padding(n) + k) / 8 - (n + Padding(n)) / 8, Padding(n) + k, Padding(n));
  }

  lemma {:induction false} PaddingFills(n: nat)
    ensures (n + Padding(n)) % 8 == 0
  {
  }

  lemma {:induction false} Eights(q: int, x: int, p: nat)
    requires p < 8 && x == 8 * q + p
    ensures x % 8 == p
  {
  }

  lemma {:induction false} ReadStored(n: nat, p: seq<byte>, s: seq<bool>, rest: seq<bool>, out: seq<byte>)
    requires |p| <= 0xffff && Same(s, StoredBits(n, p) + rest) && (n + 3 + |s|) % 8 == 0
    ensures Same(Stored(s, out), Ok(rest, out + p))
  {
    var z, a, b, c := ToBits(0, Padding(n + 3)), ToBits(|p|, 16), ToBits(0xffff - |p|, 16), Unpack(p);
    Pow2Values();
    var s1, s2, s3 := Split4(s, z, a, b, c, rest);
    AlignmentOf(n + 3, |s1|);
    AlignedRest(s, z, s1);
    TakeBack(|p|, 16, s1, s2);
    TakeBack(0xffff - |p|, 16, s2, s3);
    ReadStoredBytes(p, s3, rest, out);
    StoredByParts(s, s1, |p|, s2, s3, out);
  }

  lemma {:induction false} AlignedRest(s: seq<bool>, z: seq<bool>, s1: seq<bool>)
    requires Same(s, z + s1) && |s1| % 8 == 0 && |z| < 8
    ensures Same(Align(s), s1)
  {
    assert |s| % 8 == |z|;
    assert s[|z|..] == s1;
  }

  lemma {:induction false} StoredByParts(s: seq<bool>, s1: seq<bool>, n: nat, s2: seq<bool>, s3: seq<bool>, out: seq<byte>)
    requires n <= 0xffff && Same(Align(s), s1) && Same(Take(s1, 16), Taken.Bits(n, s2)) && Same(Take(s2, 16), Taken.Bits(0xffff - n, s3))
    ensures Same(Stored(s, out), StoredBytes(s3, n, out))
  {
  }

  lemma {:induction false} StoredReadsAt(n: nat, last: bool, p: seq<byte>, out: seq<byte>, body: seq<bool>, blk: seq<bool>, rest: seq<bool>)
    requires |p| <= 0xffff && Same(body, StoredBits(n, p)) && Same(blk, BlockOf(last, 0, body))
    requires (n + |blk| + |rest|) % 8 == 0
    ensures LeadsTo(blk + rest, out, last, rest, out + p)
  {
    RegroupBlock(ToBits(Bit(last), 1), ToBits(0, 2), body, rest);
    assert n + |blk| + |rest| == n + 3 + |body + rest|;
    ReadStored(n, p, body + rest, rest, out);
    ReadHeader(last, 0, blk + rest, body + rest, out, rest, out + p);
  }

  lemma {:induction false} StoredReads(n: nat, last: bool, p: seq<byte>, out: seq<byte>, blk: seq<bool>)
    requires |p| <= 0xffff && Same(blk, BlockOf(last, 0, StoredBits(n, p)))
    ensures BlockReads(n, blk, last, out, out + p)
  {
    forall rest: seq<bool> | (n + |blk| + |rest|) % 8 == 0
      ensures LeadsTo(blk + rest, out, last, rest, out + p)
    {
      StoredReadsAt(n, last, p, out, StoredBits(n, p), blk, rest);
    }
  }
}
