/** gzip.c's write_symbols: the symbols of a block, coded, through the bit writer. */
module BlockWriter {
  import opened Bits
  import opened Huffman
  import opened Deflate
  import opened Tokens
  import opened BitWriter
  import opened SymbolBuffer

  // ---- write_symbols ----

  lemma {:induction false} Append4(s: seq<bool>, s1: seq<bool>, s2: seq<bool>, a: seq<bool>, b: seq<bool>, c: seq<bool>, d: seq<bool>,
                                    t: seq<bool>)
    requires Same(s1, (s + a) + b) && Same(s2, (s1 + c) + d) && Same(t, a + (b + (c + d)))
    ensures Same(s2, s + t)
  {
    Assoc((s + a) + b, c, d);
    Assoc(s + a, b, c + d);
    Assoc(s, a, b + (c + d));
  }

  method WriteCode(w: BitWriter, i: nat, l: seq<nat>, c: seq<nat>, ghost len: lengths)
    requires w.Valid() && Writes(len, l, c) && i < |len| && len[i] > 0
    modifies w
    ensures w.Valid() && Same(w.Stream(), old(w.Stream()) + CodeBits(len, i))
  {
    w.PutBits(c[i], l[i]);
  }

  /** The length of a match, in its code and extra bits. */
  method WriteLength(w: BitWriter, n: nat, ll: seq<nat>, lc: seq<nat>, ghost lit: lengths) returns (c: nat, x: nat)
    requires w.Valid() && Writes(lit, ll, lc) && MIN_MATCH <= n <= MAX_MATCH
    requires 257 + LenCode(n) < |lit| && lit[257 + LenCode(n)] > 0
    modifies w
    ensures w.Valid() && LenParts(n, c, x) && 257 + c < |lit|
    ensures Same(w.Stream(), (old(w.Stream()) + CodeBits(lit, 257 + c)) + ToBits(x, LenExtra(c)))
  {
    hide LenCodeFrom, LenBase, LenExtra, Pow2, CodeBits, ToBits;
    c := FindLenCode(n);
    ghost var c', x' := LenPartsOf(n);
    WriteCode(w, 257 + c, ll, lc, lit);
    x := n - LenBase(c);
    w.PutBits(x, LenExtra(c));
  }

  method WriteDistance(w: BitWriter, d: nat, dl: seq<nat>, dc: seq<nat>, ghost dist: lengths) returns (e: nat, y: nat)
    requires w.Valid() && Writes(dist, dl, dc) && 1 <= d <= WSIZE
    requires DistCode(d) < |dist| && dist[DistCode(d)] > 0
    modifies w
    ensures w.Valid() && DistParts(d, e, y) && e < |dist|
    ensures Same(w.Stream(), (old(w.Stream()) + CodeBits(dist, e)) + ToBits(y, DistExtra(e)))
  {
    hide DistCodeFrom, DistBase, DistExtra, Pow2, CodeBits, ToBits;
    e := FindDistCode(d);
    ghost var e', y' := DistPartsOf(d);
    WriteCode(w, e, dl, dc, dist);
    y := d - DistBase(e);
    w.PutBits(y, DistExtra(e));
  }

  lemma {:induction false} PairAppended(lit: lengths, dist: lengths, n: nat, d: nat, c: nat, x: nat, e: nat, y: nat, s: seq<bool>, s1: seq<bool>, s2: seq<bool>)
    requires LenParts(n, c, x) && DistParts(d, e, y) && Coded(lit, dist, Pair(n, d)) && InTables(Pair(n, d)) && 257 + c < |lit| && e < |dist|
    requires Same(s1, (s + CodeBits(lit, 257 + c)) + ToBits(x, LenExtra(c)))
    requires Same(s2, (s1 + CodeBits(dist, e)) + ToBits(y, DistExtra(e)))
    ensures Same(s2, s + TokenBits(lit, dist, Pair(n, d)))
  {
    hide LenCode, DistCode, LenBase, DistBase, LenExtra, DistExtra, Pow2, CodeBits, TokenBits, LenParts, DistParts, Coded, InTables;
    PairByParts(lit, dist, n, d, c, x, e, y);
    Append4(s, s1, s2, CodeBits(lit, 257 + c), ToBits(x, LenExtra(c)), CodeBits(dist, e), ToBits(y, DistExtra(e)), TokenBits(lit, dist, Pair(n, d)));
  }

  method WritePair(w: BitWriter, n: nat, d: nat, ll: seq<nat>, lc: seq<nat>, dl: seq<nat>, dc: seq<nat>,
                   ghost lit: lengths, ghost dist: lengths)
    requires w.Valid() && Writes(lit, ll, lc) && Writes(dist, dl, dc) && MIN_MATCH <= n <= MAX_MATCH && 1 <= d <= WSIZE
    requires Coded(lit, dist, Pair(n, d)) && InTables(Pair(n, d))
    modifies w
    ensures w.Valid() && Same(w.Stream(), old(w.Stream()) + TokenBits(lit, dist, Pair(n, d)))
  {
    hide LenCode, DistCode, LenBase, DistBase, LenExtra, DistExtra, Pow2, CodeBits, TokenBits, LenParts, DistParts, InTables;
    ghost var s := w.Stream();
    var c, x := WriteLength(w, n, ll, lc, lit);
    ghost var s1 := w.Stream();
    var e, y := WriteDistance(w, d, dl, dc, dist);
    PairAppended(lit, dist, n, d, c, x, e, y, s, s1, w.Stream());
  }

  method WriteToken(w: BitWriter, d: nat, x: nat, ll: seq<nat>, lc: seq<nat>, dl: seq<nat>, dc: seq<nat>,
                    ghost lit: lengths, ghost dist: lengths)
    requires w.Valid() && Writes(lit, ll, lc) && Writes(dist, dl, dc) && x < 256 && d <= WSIZE
    requires Coded(lit, dist, TokenOf(d, x)) && InTables(TokenOf(d, x))
    modifies w
    ensures w.Valid() && Same(w.Stream(), old(w.Stream()) + TokenBits(lit, dist, TokenOf(d, x)))
  {
    if d == 0 {
      WriteCode(w, x, ll, lc, lit);
    } else {
      WritePair(w, x + MIN_MATCH, d, ll, lc, dl, dc, lit, dist);
    }
  }

  method WriteSymbol(w: BitWriter, b: SymbolBuffer, i: nat, ll: seq<nat>, lc: seq<nat>, dl: seq<nat>, dc: seq<nat>,
                     ghost lit: lengths, ghost dist: lengths, ghost before: seq<bool>)
    requires w.Valid() && b.Valid() && Writes(lit, ll, lc) && Writes(dist, dl, dc) && i < |b.ts|
    requires AllCoded(lit, dist, b.ts) && AllInTables(b.ts)
    requires Same(w.Stream(), before + TokensBits(lit, dist, b.ts, i))
    modifies w
    ensures w.Valid() && Same(w.Stream(), before + TokensBits(lit, dist, b.ts, i + 1))
  {
    var d, x := b.symDist[i], b.symLc[i];
    assert b.symDist[..][i] == d && b.symLc[..][i] == x && b.ts[i] == TokenOf(d, x);
    Assoc(before, TokensBits(lit, dist, b.ts, i), TokenBits(lit, dist, b.ts[i]));
    WriteToken(w, d, x, ll, lc, dl, dc, lit, dist);
  }

  lemma {:induction false} EndIsCoded(lit: lengths, dist: lengths, ts: seq<Token>)
    requires AllCoded(lit, dist, ts)
    ensures 256 < |lit| && lit[256] > 0
  {
  }

  method WriteSymbols(w: BitWriter, b: SymbolBuffer, ll: seq<nat>, lc: seq<nat>, dl: seq<nat>, dc: seq<nat>,
                      ghost lit: lengths, ghost dist: lengths)
    requires w.Valid() && b.Valid() && Writes(lit, ll, lc) && Writes(dist, dl, dc)
    requires AllCoded(lit, dist, b.ts) && AllInTables(b.ts)
    modifies w
    ensures w.Valid() && Same(w.Stream(), old(w.Stream()) + BlockBits(lit, dist, b.ts))
  {
    hide Writes, AllInTables, Coded, TokenBits, CodeBits;
    EndIsCoded(lit, dist, b.ts);
    ghost var before := w.Stream();
    AppendNone(before, TokensBits(lit, dist, b.ts, 0));
    for i := 0 to b.nsym
      invariant w.Valid() && Same(w.Stream(), before + TokensBits(lit, dist, b.ts, i))
    {
      WriteSymbol(w, b, i, ll, lc, dl, dc, lit, dist, before);
    }
    WriteCode(w, 256, ll, lc, lit);
    Assoc(before, TokensBits(lit, dist, b.ts, |b.ts|), CodeBits(lit, 256));
  }
}
