/** Which bits are DEFLATE blocks (RFC 1951, section 3.2): what each form means, and that these bits and
    no others are read. */
module DeflateForm {
  import opened Bits
  import opened Canonical
  import opened Huffman
  import opened Kraft
  import opened Deflate
  import opened Tokens
  import opened Runs

  // ---- symbols ----

  /** A literal, or a length and a distance: their codes and what the extra bits add. */
  datatype Sym = Lit(b: byte) | Ref(c: nat, x: nat, e: nat, y: nat)

  function WordOf(len: lengths, i: nat): seq<bool>
  {
    if i < |len| then CodeBits(len, i) else []
  }

  predicate HasWord(len: lengths, i: nat)
  {
    i < |len| && len[i] > 0
  }

  function SymBits(lit: lengths, dist: lengths, t: Sym): seq<bool>
  {
    match t
    case Lit(b) => WordOf(lit, b)
    case Ref(c, x, e, y) => WordOf(lit, 257 + c) + (ToBits(x, LenExtra(c)) + (WordOf(dist, e) + ToBits(y, DistExtra(e))))
  }

  /** The symbol has a code word, and what it refers to is there. */
  predicate SymOk(lit: lengths, dist: lengths, t: Sym, out: seq<byte>)
  {
    match t
    case Lit(b) => HasWord(lit, b)
    case Ref(c, x, e, y) =>
      && c < 29 && e < 30 && HasWord(lit, 257 + c) && HasWord(dist, e)
      && x < Pow2(LenExtra(c)) && y < Pow2(DistExtra(e)) && DistBase(e) + y <= |out|
  }

  function SymOut(t: Sym, out: seq<byte>): seq<byte>
  {
    match t
    case Lit(b) => out + [b]
    case Ref(c, x, e, y) => if DistBase(e) + y <= |out| then Copy(out, LenBase(c) + x, DistBase(e) + y) else out
  }

  /** Symbols, and the end of the block. */
  function SymsBits(lit: lengths, dist: lengths, ts: seq<Sym>): seq<bool>
  {
    if ts == [] then WordOf(lit, 256) else SymBits(lit, dist, ts[0]) + SymsBits(lit, dist, ts[1..])
  }

  predicate SymsOk(lit: lengths, dist: lengths, ts: seq<Sym>, out: seq<byte>)
  {
    if ts == [] then HasWord(lit, 256) else SymOk(lit, dist, ts[0], out) && SymsOk(lit, dist, ts[1..], SymOut(ts[0], out))
  }

  function SymsOut(ts: seq<Sym>, out: seq<byte>): seq<byte>
  {
    if ts == [] then out else SymsOut(ts[1..], SymOut(ts[0], out))
  }

  /** A match repeats what was made at its distance. */
  lemma {:induction false} CopyRepeats(out: seq<byte>, n: nat, d: nat)
    requires 1 <= d <= |out|
    ensures var r := Copy(out, n, d);
      out <= r && |r| == |out| + n && forall i :: |out| <= i < |r| ==> r[i] == r[i - d]
    decreases n
  {
    if n > 0 {
      var more := out + [out[|out| - d]];
      CopyRepeats(more, n - 1, d);
      assert Copy(out, n, d)[|out|] == more[|out|];
    }
  }

  // ---- reading a symbol ----

  /** No distance is larger than the window. */
  lemma {:induction false} DistancesFit(e: nat, y: nat)
    requires e < 30 && y < Pow2(DistExtra(e))
    ensures DistBase(e) + y <= WSIZE
  {
    DistBaseTable();
    Pow2Values();
    DistBaseGrows(e, 29);
  }

  lemma {:induction false} DistBaseGrows(e: nat, f: nat)
    requires e <= f
    ensures e < f ==> DistBase(e) + Pow2(DistExtra(e)) <= DistBase(f)
    decreases f
  {
    if e < f {
      DistBaseGrows(e, f - 1);
    }
  }

  lemma {:induction false} WordRead(len: lengths, i: nat, s: seq<bool>, rest: seq<bool>)
    requires Fits(Counts(len)) && HasWord(len, i) && Same(s, WordOf(len, i) + rest)
    ensures Same(Decode(len, s), Symbol(i, rest))
  {
    DecodeWord(len, i, s, rest);
  }

  lemma {:induction false} WordIs(len: lengths, i: nat, s: seq<bool>, rest: seq<bool>)
    requires Fits(Counts(len)) && Same(Decode(len, s), Symbol(i, rest))
    ensures HasWord(len, i) && Same(s, WordOf(len, i) + rest)
  {
    DecodeExact(len, s, i, rest);
  }

  lemma {:induction false} BitsAre(v: nat, n: nat, s: seq<bool>, rest: seq<bool>)
    requires Same(Take(s, n), Taken.Bits(v, rest))
    ensures v < Pow2(n) && Same(s, ToBits(v, n) + rest)
  {
    ToFromBits(s[..n]);
    assert s == s[..n] + s[n..];
  }

  /** Bits of a match, one part after the other. */
  lemma {:induction false} RefParts(lit: lengths, dist: lengths, c: nat, x: nat, e: nat, y: nat, rest: seq<bool>)
    returns (s1: seq<bool>, s2: seq<bool>, s3: seq<bool>)
    ensures Same(SymBits(lit, dist, Ref(c, x, e, y)) + rest, WordOf(lit, 257 + c) + s1)
    ensures Same(s1, ToBits(x, LenExtra(c)) + s2) && Same(s2, WordOf(dist, e) + s3) && Same(s3, ToBits(y, DistExtra(e)) + rest)
  {
    hide WordOf, ToBits;
    s1, s2, s3 := Split4(SymBits(lit, dist, Ref(c, x, e, y)) + rest, WordOf(lit, 257 + c), ToBits(x, LenExtra(c)), WordOf(dist, e), ToBits(y, DistExtra(e)), rest);
  }

  lemma {:induction false} RefTogether(lit: lengths, dist: lengths, c: nat, x: nat, e: nat, y: nat, s: seq<bool>, s1: seq<bool>, s2: seq<bool>, s3: seq<bool>, rest: seq<bool>)
    requires Same(s, WordOf(lit, 257 + c) + s1) && Same(s1, ToBits(x, LenExtra(c)) + s2)
    requires Same(s2, WordOf(dist, e) + s3) && Same(s3, ToBits(y, DistExtra(e)) + rest)
    ensures Same(s, SymBits(lit, dist, Ref(c, x, e, y)) + rest)
  {
    hide WordOf, ToBits;
    var a, b, u, d := WordOf(lit, 257 + c), ToBits(x, LenExtra(c)), WordOf(dist, e), ToBits(y, DistExtra(e));
    Assoc(a, b + (u + d), rest);
    Assoc(b, u + d, rest);
    Assoc(u, d, rest);
  }

  /** How reading goes on after a symbol. */
  lemma {:induction false} CodesStep(lit: lengths, dist: lengths, s: seq<bool>, out: seq<byte>, sym: nat, s1: seq<bool>)
    requires Same(Decode(lit, s), Symbol(sym, s1))
    ensures sym < 256 ==> Same(Codes(lit, dist, s, out), Codes(lit, dist, s1, out + [sym]))
    ensures sym == 256 ==> Same(Codes(lit, dist, s, out), Ok(s1, out))
    ensures sym >= 286 ==> Same(Codes(lit, dist, s, out), Err(InvalidLengthCode, out))
  {
  }

  lemma {:induction false} CodesMatch(lit: lengths, dist: lengths, s: seq<bool>, out: seq<byte>, c: nat, s1: seq<bool>)
    requires Same(Decode(lit, s), Symbol(257 + c, s1)) && c < 29
    ensures match MatchCommand(dist, c, s1)
      case BadMatch(e) => Same(Codes(lit, dist, s, out), Err(e, out))
      case Match(n, d, s2) => Same(Codes(lit, dist, s, out),
        if d > |out| || d > WSIZE then Err(DistanceTooFar, out) else Codes(lit, dist, s2, Copy(out, n, d)))
  {
  }

  lemma {:induction false} MatchIs(dist: lengths, c: nat, s: seq<bool>, n: nat, d: nat, rest: seq<bool>)
    returns (x: nat, e: nat, y: nat, s2: seq<bool>, s3: seq<bool>)
    requires Fits(Counts(dist)) && Same(MatchCommand(dist, c, s), Match(n, d, rest))
    ensures x < Pow2(LenExtra(c)) && e < 30 && y < Pow2(DistExtra(e)) && HasWord(dist, e) && n == LenBase(c) + x && d == DistBase(e) + y
    ensures Same(s, ToBits(x, LenExtra(c)) + s2) && Same(s2, WordOf(dist, e) + s3) && Same(s3, ToBits(y, DistExtra(e)) + rest)
  {
    var t := Take(s, LenExtra(c));
    x, s2 := t.v, t.rest;
    var k := Decode(dist, s2);
    e, s3 := k.sym, k.rest;
    var u := Take(s3, DistExtra(e));
    y := u.v;
    hide Take, Decode, Pow2, LenBase, DistBase, LenExtra, DistExtra, ToBits;
    BitsAre(x, LenExtra(c), s, s2);
    WordIs(dist, e, s2, s3);
    BitsAre(y, DistExtra(e), s3, rest);
  }

  /** One symbol is read as what it adds. */
  lemma {:induction false} SymRead(lit: lengths, dist: lengths, t: Sym, s: seq<bool>, rest: seq<bool>, out: seq<byte>)
    requires Fits(Counts(lit)) && Fits(Counts(dist)) && SymOk(lit, dist, t, out) && Same(s, SymBits(lit, dist, t) + rest)
    ensures Same(Codes(lit, dist, s, out), Codes(lit, dist, rest, SymOut(t, out)))
  {
    match t
    case Lit(b) =>
      WordRead(lit, b, s, rest);
      CodesStep(lit, dist, s, out, b, rest);
    case Ref(c, x, e, y) =>
      RefRead(lit, dist, c, x, e, y, s, rest, out);
  }

  lemma {:induction false} RefRead(lit: lengths, dist: lengths, c: nat, x: nat, e: nat, y: nat, s: seq<bool>, rest: seq<bool>, out: seq<byte>)
    requires Fits(Counts(lit)) && Fits(Counts(dist)) && SymOk(lit, dist, Ref(c, x, e, y), out)
    requires Same(s, SymBits(lit, dist, Ref(c, x, e, y)) + rest)
    ensures Same(Codes(lit, dist, s, out), Codes(lit, dist, rest, SymOut(Ref(c, x, e, y), out)))
  {
    hide Codes, Decode, MatchCommand, Take, SymBits, Pow2, LenBase, DistBase, LenExtra, DistExtra, ToBits, WordOf, Copy;
    var s1, s2, s3 := RefParts(lit, dist, c, x, e, y, rest);
    WordRead(lit, 257 + c, s, s1);
    TakeBack(x, LenExtra(c), s1, s2);
    WordRead(dist, e, s2, s3);
    TakeBack(y, DistExtra(e), s3, rest);
    MatchByParts(dist, c, s1, x, s2, e, s3, y, rest);
    CodesMatch(lit, dist, s, out, c, s1);
    DistancesFit(e, y);
  }

  /** Every block of symbols is read as what they mean. */
  lemma {:induction false} SymsRead(lit: lengths, dist: lengths, ts: seq<Sym>, s: seq<bool>, rest: seq<bool>, out: seq<byte>)
    requires Fits(Counts(lit)) && Fits(Counts(dist)) && SymsOk(lit, dist, ts, out) && Same(s, SymsBits(lit, dist, ts) + rest)
    ensures Same(Codes(lit, dist, s, out), Ok(rest, SymsOut(ts, out)))
    decreases |ts|
  {
    hide Codes, Decode, SymBits, SymOk, SymOut;
    if ts == [] {
      WordRead(lit, 256, s, rest);
      CodesStep(lit, dist, s, out, 256, rest);
    } else {
      var s1 := SymsBits(lit, dist, ts[1..]) + rest;
      Assoc(SymBits(lit, dist, ts[0]), SymsBits(lit, dist, ts[1..]), rest);
      SymRead(lit, dist, ts[0], s, s1, out);
      SymsRead(lit, dist, ts[1..], s1, rest, SymOut(ts[0], out));
    }
  }

  /** What is read without an error begins with the end of the block or with a symbol. */
  lemma {:induction false} SymAhead(lit: lengths, dist: lengths, s: seq<bool>, out: seq<byte>, goal: Outcome) returns (end: bool, t: Sym, s1: seq<bool>)
    requires Fits(Counts(lit)) && Fits(Counts(dist)) && goal.Ok? && Same(Codes(lit, dist, s, out), goal)
    ensures if end then HasWord(lit, 256) && Same(s, WordOf(lit, 256) + s1) && Same(goal, Ok(s1, out))
      else SymOk(lit, dist, t, out) && Same(s, SymBits(lit, dist, t) + s1) && |s1| < |s| && Same(Codes(lit, dist, s1, SymOut(t, out)), goal)
  {
    var d := Decode(lit, s);
    DecodedSome(lit, dist, s, out);
    s1 := d.rest;
    hide Codes, Decode, WordOf, Fits;
    WordIs(lit, d.sym, s, s1);
    CodesStep(lit, dist, s, out, d.sym, s1);
    end, t := d.sym == 256, Lit(0);
    if d.sym < 256 {
      t := Lit(d.sym);
    } else if d.sym > 256 {
      t, s1 := RefAhead(lit, dist, s, out, goal, d.sym - 257, s1);
    }
  }

  lemma {:induction false} DecodedSome(lit: lengths, dist: lengths, s: seq<bool>, out: seq<byte>)
    requires Codes(lit, dist, s, out).Ok?
    ensures Decode(lit, s).Symbol?
  {
  }

  lemma {:induction false} RefAhead(lit: lengths, dist: lengths, s: seq<bool>, out: seq<byte>, goal: Outcome, c: nat, s1: seq<bool>)
    returns (t: Sym, rest: seq<bool>)
    requires Fits(Counts(lit)) && Fits(Counts(dist)) && goal.Ok? && Same(Codes(lit, dist, s, out), goal)
    requires c < 29 && Same(Decode(lit, s), Symbol(257 + c, s1)) && HasWord(lit, 257 + c) && Same(s, WordOf(lit, 257 + c) + s1)
    ensures SymOk(lit, dist, t, out) && Same(s, SymBits(lit, dist, t) + rest) && |rest| < |s| && Same(Codes(lit, dist, rest, SymOut(t, out)), goal)
  {
    hide Codes, Decode, WordOf, Fits, MatchCommand, SymBits, Pow2, LenBase, DistBase, LenExtra, DistExtra, Copy;
    CodesMatch(lit, dist, s, out, c, s1);
    var m := MatchCommand(dist, c, s1);
    rest := m.rest;
    var x, e, y, s2, s3 := MatchIs(dist, c, s1, m.n, m.d, rest);
    t := Ref(c, x, e, y);
    RefTogether(lit, dist, c, x, e, y, s, s1, s2, s3, rest);
  }

  /** What is read as symbols without an error is one of these blocks. */
  lemma {:induction false} SymsAre(lit: lengths, dist: lengths, s: seq<bool>, out: seq<byte>, rest: seq<bool>, result: seq<byte>) returns (ts: seq<Sym>)
    requires Fits(Counts(lit)) && Fits(Counts(dist)) && Same(Codes(lit, dist, s, out), Ok(rest, result))
    ensures SymsOk(lit, dist, ts, out) && Same(s, SymsBits(lit, dist, ts) + rest) && Same(result, SymsOut(ts, out))
    decreases |s|
  {
    hide Codes, Fits, SymOk, SymBits, SymOut, WordOf, HasWord;
    var end, t, s1 := SymAhead(lit, dist, s, out, Ok(rest, result));
    if end {
      ts := [];
    } else {
      var more := SymsAre(lit, dist, s1, SymOut(t, out), rest, result);
      ts := [t] + more;
      assert ts[1..] == more;
      Assoc(SymBits(lit, dist, t), SymsBits(lit, dist, more), rest);
    }
  }
}
