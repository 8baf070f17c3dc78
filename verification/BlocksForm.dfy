/** Which bits are the blocks of a DEFLATE stream (RFC 1951, section 3.2.3). */
module BlocksForm {
  import opened Bits
  import opened Canonical
  import opened Huffman
  import opened Deflate
  import opened Tokens
  import opened Runs
  import opened BlockStream
  import opened GzipHeader
  import opened DeflateForm
  import opened TreesForm

  // ---- one block ----

  /** What a block is made of: bytes as they are, after bits up to a whole byte; symbols in the fixed
      codes; or codes, with how they are written, and symbols in them. */
  datatype Body =
    | StoredBody(pad: seq<bool>, data: seq<byte>)
    | FixedBody(ts: seq<Sym>)
    | DynamicBody(cl: lengths, n: nat, rs: seq<Run>, lit: lengths, dist: lengths, ts: seq<Sym>)

  function KindOf(f: Body): (k: nat)
    ensures k < 3
  {
    match f
    case StoredBody(_, _) => 0
    case FixedBody(_) => 1
    case DynamicBody(_, _, _, _, _, _) => 2
  }

  /** The size, its complement, and the bytes. */
  function RawBits(data: seq<byte>): seq<bool>
    requires |data| <= 0xffff
  {
    ToBits(|data|, 16) + (ToBits(0xffff - |data|, 16) + Unpack(data))
  }

  ghost predicate BodyOk(f: Body, out: seq<byte>, after: nat)
  {
    match f
    case StoredBody(pad, data) => |data| <= 0xffff && |pad| < 8 && after % 8 == 0
    case FixedBody(ts) => SymsOk(FixedLit(), FixedDist(), ts, out)
    case DynamicBody(cl, n, rs, lit, dist, ts) => TreesOk(cl, n, rs, lit, dist) && SymsOk(lit, dist, ts, out)
  }

  function BodyBits(f: Body): seq<bool>
  {
    match f
    case StoredBody(pad, data) => pad + if |data| <= 0xffff then RawBits(data) else []
    case FixedBody(ts) => SymsBits(FixedLit(), FixedDist(), ts)
    case DynamicBody(cl, n, rs, lit, dist, ts) =>
      if |cl| == 19 && 4 <= n <= 19 && |lit| >= 257 && |dist| >= 1 then TreesBits(cl, n, rs, |lit|, |dist|) + SymsBits(lit, dist, ts) else []
  }

  function BodyOut(f: Body, out: seq<byte>): seq<byte>
  {
    match f
    case StoredBody(_, data) => out + data
    case FixedBody(ts) => SymsOut(ts, out)
    case DynamicBody(_, _, _, _, _, ts) => SymsOut(ts, out)
  }

  // ---- stored bytes ----

  lemma {:induction false} Whole(pad: seq<bool>, k: nat, after: nat)
    requires |pad| < 8 && after % 8 == 0
    ensures (|pad| + (8 * k + after)) % 8 == |pad| && (8 * k + after) % 8 == 0
  {
  }

  lemma {:induction false} StoredRead(pad: seq<bool>, data: seq<byte>, s: seq<bool>, rest: seq<bool>, out: seq<byte>)
    requires |data| <= 0xffff && |pad| < 8 && |rest| % 8 == 0 && Same(s, (pad + RawBits(data)) + rest)
    ensures Same(Stored(s, out), Ok(rest, out + data))
  {
    hide ToBits, Unpack, Take, Align, StoredBytes;
    Pow2Values();
    var a, b := ToBits(|data|, 16), ToBits(0xffff - |data|, 16);
    var s1, s2, s3 := Split4(s, pad, a, b, Unpack(data), rest);
    Whole(pad, 4 + |data|, |rest|);
    AlignedRest(s, pad, s1);
    TakeBack(|data|, 16, s1, s2);
    TakeBack(0xffff - |data|, 16, s2, s3);
    ReadStoredBytes(data, s3, rest, out);
    StoredByParts(s, s1, |data|, s2, s3, out);
  }

  lemma {:induction false} BytesAre(s: seq<bool>, n: nat, out: seq<byte>, rest: seq<bool>, result: seq<byte>) returns (p: seq<byte>)
    requires Same(StoredBytes(s, n, out), Ok(rest, result))
    ensures |p| == n && Same(s, Unpack(p) + rest) && Same(result, out + p)
    decreases n
  {
    if n == 0 {
      p := [];
      NoneThen(rest);
      assert out + p == out;
    } else {
      var v := ByteAhead(s, s[8..]);
      var q := BytesAre(s[8..], n - 1, out + [v], rest, result);
      p := [v] + q;
      OneThen(v, q, rest);
      assert out + [v] + q == out + p;
    }
  }

  /** The parts of a stored block. */
  lemma {:induction false} StoredParts(s: seq<bool>, out: seq<byte>) returns (n: nat, s1: seq<bool>, s2: seq<bool>, s3: seq<bool>)
    requires Stored(s, out).Ok?
    ensures n <= 0xffff && Same(Align(s), s1) && Same(Take(s1, 16), Taken.Bits(n, s2)) && Same(Take(s2, 16), Taken.Bits(0xffff - n, s3))
    ensures Same(Stored(s, out), StoredBytes(s3, n, out))
  {
    hide Take, Align, StoredBytes;
    s1 := Align(s);
    var a := Take(s1, 16);
    n, s2 := a.v, a.rest;
    s3 := Take(s2, 16).rest;
  }

  lemma {:induction false} AlignIs(s: seq<bool>, s1: seq<bool>) returns (pad: seq<bool>)
    requires Same(Align(s), s1)
    ensures |pad| < 8 && |s1| % 8 == 0 && Same(s, pad + s1)
  {
    pad := s[..|s| % 8];
    assert s == pad + s[|s| % 8..];
  }

  lemma {:induction false} StoredIs(s: seq<bool>, out: seq<byte>, rest: seq<bool>, result: seq<byte>) returns (pad: seq<bool>, data: seq<byte>)
    requires Same(Stored(s, out), Ok(rest, result))
    ensures |data| <= 0xffff && |pad| < 8 && |rest| % 8 == 0 && Same(s, (pad + RawBits(data)) + rest) && Same(result, out + data)
  {
    hide Stored, StoredBytes, Take, Align, ToBits, Unpack;
    var n, s1, s2, s3 := StoredParts(s, out);
    pad := AlignIs(s, s1);
    BitsAre(n, 16, s1, s2);
    BitsAre(0xffff - n, 16, s2, s3);
    data := BytesAre(s3, n, out, rest, result);
    var a, b := ToBits(n, 16), ToBits(0xffff - n, 16);
    Assoc(pad, a + (b + Unpack(data)), rest);
    Assoc(a, b + Unpack(data), rest);
    Assoc(b, Unpack(data), rest);
    WholeRest(|s1|, 4 + |data|, |rest|);
  }

  lemma {:induction false} WholeRest(n: nat, k: nat, after: nat)
    requires n == 8 * k + after && n % 8 == 0
    ensures after % 8 == 0
  {
  }

  // ---- a body ----

  lemma {:induction false} BodyRead(f: Body, s: seq<bool>, rest: seq<bool>, out: seq<byte>)
    requires BodyOk(f, out, |rest|) && Same(s, BodyBits(f) + rest)
    ensures Same(Block(KindOf(f), s, out), Ok(rest, BodyOut(f, out)))
  {
    match f
    case StoredBody(pad, data) =>
      StoredRead(pad, data, s, rest, out);
    case FixedBody(ts) =>
      FixedLitFits();
      FixedDistFits();
      SymsRead(FixedLit(), FixedDist(), ts, s, rest, out);
    case DynamicBody(cl, n, rs, lit, dist, ts) =>
      DynamicRead(cl, n, rs, lit, dist, ts, s, rest, out);
  }

  lemma {:induction false} DynamicRead(cl: lengths, n: nat, rs: seq<Run>, lit: lengths, dist: lengths, ts: seq<Sym>,
                                       s: seq<bool>, rest: seq<bool>, out: seq<byte>)
    requires TreesOk(cl, n, rs, lit, dist) && SymsOk(lit, dist, ts, out)
    requires Same(s, (TreesBits(cl, n, rs, |lit|, |dist|) + SymsBits(lit, dist, ts)) + rest)
    ensures Same(Dynamic(s, out), Ok(rest, SymsOut(ts, out)))
  {
    hide DynamicTrees, Codes, TreesBits, SymsBits, SymsOk, SymsOut, Usable;
    var s1 := Split2(s, TreesBits(cl, n, rs, |lit|, |dist|), SymsBits(lit, dist, ts), rest);
    TreesRead(cl, n, rs, lit, dist, s, s1);
    UsableIs(lit);
    UsableIs(dist);
    SymsRead(lit, dist, ts, s1, rest, out);
  }

  lemma {:induction false} DynamicIs(s: seq<bool>, out: seq<byte>, rest: seq<bool>, result: seq<byte>)
    returns (cl: lengths, n: nat, rs: seq<Run>, lit: lengths, dist: lengths, ts: seq<Sym>)
    requires Same(Dynamic(s, out), Ok(rest, result))
    ensures TreesOk(cl, n, rs, lit, dist) && SymsOk(lit, dist, ts, out) && Same(result, SymsOut(ts, out))
    ensures Same(s, (TreesBits(cl, n, rs, |lit|, |dist|) + SymsBits(lit, dist, ts)) + rest)
  {
    hide DynamicTrees, Codes, TreesBits, SymsBits, SymsOk, SymsOut, Usable;
    var t := DynamicTrees(s);
    lit, dist := t.lit, t.dist;
    var s1 := t.rest;
    cl, n, rs := TreesAre(s, lit, dist, s1);
    UsableIs(lit);
    UsableIs(dist);
    ts := SymsAre(lit, dist, s1, out, rest, result);
    Assoc(TreesBits(cl, n, rs, |lit|, |dist|), SymsBits(lit, dist, ts), rest);
  }

  lemma {:induction false} BodyIs(kind: nat, s: seq<bool>, out: seq<byte>, rest: seq<bool>, result: seq<byte>) returns (f: Body)
    requires Same(Block(kind, s, out), Ok(rest, result))
    ensures KindOf(f) == kind && BodyOk(f, out, |rest|) && Same(s, BodyBits(f) + rest) && Same(result, BodyOut(f, out))
  {
    hide Stored, Codes, Dynamic, RawBits, SymsBits, SymsOk, SymsOut, TreesBits;
    if kind == 0 {
      var pad, data := StoredIs(s, out, rest, result);
      f := StoredBody(pad, data);
    } else if kind == 1 {
      FixedLitFits();
      FixedDistFits();
      var ts := SymsAre(FixedLit(), FixedDist(), s, out, rest, result);
      f := FixedBody(ts);
    } else {
      var cl, n, rs, lit, dist, ts := DynamicIs(s, out, rest, result);
      f := DynamicBody(cl, n, rs, lit, dist, ts);
    }
  }

  // ---- blocks up to the last one ----

  function HeadBits(last: bool, kind: nat): seq<bool>
  {
    [last] + ToBits(kind, 2)
  }

  function BlocksBits(fs: seq<Body>): seq<bool>
    requires fs != []
  {
    HeadBits(|fs| == 1, KindOf(fs[0])) + (BodyBits(fs[0]) + if |fs| == 1 then [] else BlocksBits(fs[1..]))
  }

  /** Each block is right for what the ones before have made and for how many bits come after it. */
  ghost predicate BlocksOk(fs: seq<Body>, out: seq<byte>, after: nat)
  {
    fs != [] && if |fs| == 1 then BodyOk(fs[0], out, after)
                else BodyOk(fs[0], out, |BlocksBits(fs[1..])| + after) && BlocksOk(fs[1..], BodyOut(fs[0], out), after)
  }

  function BlocksOut(fs: seq<Body>, out: seq<byte>): seq<byte>
  {
    if fs == [] then out else BlocksOut(fs[1..], BodyOut(fs[0], out))
  }

  lemma {:induction false} HeadTaken(s: seq<bool>, last: bool, kind: nat, s1: seq<bool>, out: seq<byte>)
    requires kind < 4 && Same(s, HeadBits(last, kind) + s1)
    ensures Same(Blocks(s, out), var r := Block(kind, s1, out); if r.Ok? && !last then Blocks(r.rest, r.out) else r)
  {
    hide Block;
    Pow2Values();
    Assoc([last], ToBits(kind, 2), s1);
    assert s[1..] == ToBits(kind, 2) + s1;
    TakeBack(kind, 2, s[1..], s1);
  }

  lemma {:induction false} HeadAhead(s: seq<bool>) returns (last: bool, kind: nat, s1: seq<bool>)
    requires |s| >= 3
    ensures kind < 4 && Same(s, HeadBits(last, kind) + s1) && |s1| < |s|
  {
    Pow2Values();
    last := s[0];
    var t := Take(s[1..], 2);
    kind, s1 := t.v, t.rest;
    BitsAre(kind, 2, s[1..], s1);
    Assoc([last], ToBits(kind, 2), s1);
    assert s == [last] + s[1..];
  }

  /** Every sequence of blocks is read as what they mean together. */
  lemma {:induction false} BlocksRead(fs: seq<Body>, s: seq<bool>, rest: seq<bool>, out: seq<byte>)
    requires BlocksOk(fs, out, |rest|) && Same(s, BlocksBits(fs) + rest)
    ensures Same(Blocks(s, out), Ok(rest, BlocksOut(fs, out)))
    decreases |fs|
  {
    hide Blocks, Block, BodyOk, BodyBits, BodyOut, HeadBits;
    var more := if |fs| == 1 then [] else BlocksBits(fs[1..]);
    var s1, s2 := Split3(s, HeadBits(|fs| == 1, KindOf(fs[0])), BodyBits(fs[0]), more, rest);
    HeadTaken(s, |fs| == 1, KindOf(fs[0]), s1, out);
    if |fs| == 1 {
      AppendToNone(more, rest);
      BodyRead(fs[0], s1, rest, out);
      assert fs[1..] == [];
    } else {
      BodyRead(fs[0], s1, s2, out);
      BlocksRead(fs[1..], s2, rest, BodyOut(fs[0], out));
    }
  }

  /** What is read as blocks without an error is one of these sequences. */
  lemma {:induction false} BlocksAre(s: seq<bool>, out: seq<byte>, rest: seq<bool>, result: seq<byte>) returns (fs: seq<Body>)
    requires Same(Blocks(s, out), Ok(rest, result))
    ensures BlocksOk(fs, out, |rest|) && Same(s, BlocksBits(fs) + rest) && Same(result, BlocksOut(fs, out))
    decreases |s|
  {
    EnoughBits(s, out);
    var last, kind, s1 := HeadAhead(s);
    HeadTaken(s, last, kind, s1, out);
    hide Blocks, Block, BodyOk, BodyBits, BodyOut, HeadBits, KindOf;
    var r := Block(kind, s1, out);
    var f := BodyIs(kind, s1, out, r.rest, r.out);
    if last {
      fs := [f];
      LastBlock(f, s, s1, rest, out);
    } else {
      var more := BlocksAre(r.rest, r.out, rest, result);
      fs := [f] + more;
      OneMoreBlock(f, more, s, s1, r.rest, rest, out);
    }
  }

  lemma {:induction false} EnoughBits(s: seq<bool>, out: seq<byte>)
    requires Blocks(s, out).Ok?
    ensures |s| >= 3
  {
  }

  lemma {:induction false} LastBlock(f: Body, s: seq<bool>, s1: seq<bool>, rest: seq<bool>, out: seq<byte>)
    requires Same(s, HeadBits(true, KindOf(f)) + s1) && Same(s1, BodyBits(f) + rest) && BodyOk(f, out, |rest|)
    ensures BlocksOk([f], out, |rest|) && Same(s, BlocksBits([f]) + rest) && BlocksOut([f], out) == BodyOut(f, out)
  {
    hide BodyOk, BodyBits, BodyOut, HeadBits, KindOf;
    assert [f][1..] == [];
    assert BodyBits(f) + [] == BodyBits(f);
    Assoc(HeadBits(true, KindOf(f)), BodyBits(f), rest);
  }

  lemma {:induction false} OneMoreBlock(f: Body, more: seq<Body>, s: seq<bool>, s1: seq<bool>, s2: seq<bool>, rest: seq<bool>, out: seq<byte>)
    requires more != [] && Same(s, HeadBits(false, KindOf(f)) + s1) && Same(s1, BodyBits(f) + s2) && Same(s2, BlocksBits(more) + rest)
    requires BodyOk(f, out, |s2|) && BlocksOk(more, BodyOut(f, out), |rest|)
    ensures var fs := [f] + more;
      BlocksOk(fs, out, |rest|) && Same(s, BlocksBits(fs) + rest) && BlocksOut(fs, out) == BlocksOut(more, BodyOut(f, out))
  {
    hide BodyOk, BodyBits, BodyOut, HeadBits, KindOf;
    var fs := [f] + more;
    assert fs[1..] == more;
    Assoc(HeadBits(false, KindOf(f)), BodyBits(f) + BlocksBits(more), rest);
    Assoc(BodyBits(f), BlocksBits(more), rest);
  }
}
