/** lzw_compress: any input at any code size becomes a file that decompresses to it. */
module LzwCompress {
  import opened Bits
  import opened LzwFormat
  import opened LzwWriter
  import opened LzwTable
  import opened LzwSync

  const CHECK_GAP := 10000

  /** The bits written so far bring the decompressor to a state, whatever follows. */
  ghost predicate Reads(bits: nat, w: seq<bool>, width: Width, st: State, out: seq<byte>)
  {
    && GoodState(st) && width.n > 0
    && forall rest: seq<bool> {:trigger w + rest} ::
         Same(Decode(bits, true, StartWidth(), Start, w + rest, []), Decode(bits, true, width, st, rest, out))
  }

  lemma {:induction false} ReadsNothing(bits: nat)
    ensures Reads(bits, [], StartWidth(), Start, [])
  {
    forall rest: seq<bool>
      ensures Same(Decode(bits, true, StartWidth(), Start, [] + rest, []), Decode(bits, true, StartWidth(), Start, rest, []))
    {
      AppendToNone([], rest);
    }
  }

  lemma {:induction false} DropZeros(k: nat, s: seq<bool>, rest: seq<bool>)
    requires Same(s, ToBits(0, k) + rest)
    ensures Same(Drop(s, k), rest)
  {
    assert (ToBits(0, k) + rest)[k..] == rest;
  }

  lemma {:induction false} TakeCode(c: nat, n: nat, s: seq<bool>, rest: seq<bool>)
    requires c < Pow2(n) && Same(s, ToBits(c, n) + rest)
    ensures |s| >= n && FromBits(s[..n]) == c && Same(s[n..], rest)
  {
    FromToBits(c, n);
    assert s[..n] == ToBits(c, n);
    assert s[n..] == rest;
  }

  /** One code more. */
  lemma {:induction false} DecodeOne(bits: nat, w: Width, st: State, c: nat, s: seq<bool>, rest: seq<bool>, out: seq<byte>,
                                     st': State, piece: seq<byte>, free: nat, clear: bool)
    requires GoodState(st) && GoodState(st') && w.n > 0 && c < Pow2(w.n) && Act(bits, true, st, c) == Next(st', piece, free, clear)
    requires Same(s, ToBits(c, w.n) + (ToBits(0, LzwFormat.Unused(Advance(w), free, clear)) + rest))
    ensures Settle(Advance(w), bits, free, clear).n > 0
    ensures Same(Decode(bits, true, w, st, s, out), Decode(bits, true, Settle(Advance(w), bits, free, clear), st', rest, out + piece))
  {
    hide Act, ToBits, FromBits, Pow2;
    var k := LzwFormat.Unused(Advance(w), free, clear);
    TakeCode(c, w.n, s, ToBits(0, k) + rest);
    DropZeros(k, s[w.n..], rest);
  }

  lemma {:induction false} ReadsMore(bits: nat, w: seq<bool>, width: Width, st: State, out: seq<byte>, c: nat,
                                     st': State, piece: seq<byte>, free: nat, clear: bool, w': seq<bool>)
    requires Reads(bits, w, width, st, out) && c < Pow2(width.n) && Act(bits, true, st, c) == Next(st', piece, free, clear)
    requires Same(w', (w + ToBits(c, width.n)) + ToBits(0, LzwFormat.Unused(Advance(width), free, clear)))
    ensures Reads(bits, w', Settle(Advance(width), bits, free, clear), st', out + piece)
  {
    hide Act, ToBits, FromBits, Pow2, Decode, Settle, Advance, LzwFormat.Unused;
    var z := ToBits(0, LzwFormat.Unused(Advance(width), free, clear));
    GoodAct(bits, st, c, st', piece, free, clear);
    DecodeOne(bits, width, st, c, ToBits(c, width.n) + (z + []), [], out, st', piece, free, clear);
    forall rest: seq<bool>
      ensures Same(Decode(bits, true, StartWidth(), Start, w' + rest, []), Decode(bits, true, Settle(Advance(width), bits, free, clear), st', rest, out + piece))
    {
      Assoc(w + ToBits(c, width.n), z, rest);
      Assoc(w, ToBits(c, width.n), z + rest);
      DecodeOne(bits, width, st, c, ToBits(c, width.n) + (z + rest), rest, out, st', piece, free, clear);
    }
  }

  lemma {:induction false} GoodAct(bits: nat, st: State, c: nat, st': State, piece: seq<byte>, free: nat, clear: bool)
    requires GoodState(st) && Act(bits, true, st, c) == Next(st', piece, free, clear)
    ensures GoodState(st')
  {
  }

  // ---- the compressor ----

  ghost predicate Common(bits: nat, w: LzwWriter, t: LzwTable)
    reads w, w.group, t, t.htab, t.codetab
  {
    9 <= bits <= 16 && w.Valid() && t.Valid() && w.bits == bits && t.max == Pow2(bits)
  }

  /** The string of ent is in hand; what came before is written. */
  ghost predicate InHand(bits: nat, w: LzwWriter, t: LzwTable, st: State, x: Entry, ent: nat, out: seq<byte>)
    reads w, w.group, t, t.htab, t.codetab
  {
    && Common(bits, w, t) && Behind(t.max, st, x, t.dict, ent) && Reads(bits, w.Stream(), w.Current(), st, out)
    && FIRST + |t.dict| <= w.maxcode + 1
  }

  /** The code sent is written, and nothing is in hand. */
  ghost predicate Written(bits: nat, w: LzwWriter, t: LzwTable, st: State, x: Entry, sent: nat, out: seq<byte>)
    reads w, w.group, t, t.htab, t.codetab
  {
    && Common(bits, w, t) && Sent(st, x, t.dict, sent) && Reads(bits, w.Stream(), w.Current(), st, out)
    && FIRST + |t.dict| <= w.maxcode && FIRST + |t.dict| <= t.max
  }

  /** Codes fit in their width. */
  lemma {:induction false} CodeFits(w: Width, bits: nat, free: nat, ent: nat)
    requires GoodWidth(w, bits) && free <= w.m + 1 && free <= Pow2(bits) && ent < free
    ensures ent < Pow2(w.n)
    ensures free <= Settle(Advance(w), bits, free, false).m
  {
    hide InGroup;
    Pow2Values();
    if w.m == Pow2(w.n) - 1 {
      Pow2Monotonic(w.n, w.n + 1);
      assert Pow2(w.n + 1) == 2 * Pow2(w.n);
    }
  }

  /** The string in hand is written, and the decompressor has caught up. */
  method WriteEnt(w: LzwWriter, ghost t: LzwTable, ghost bits: nat, ent: nat, free: nat, ghost st: State, ghost x: Entry, ghost out: seq<byte>)
    returns (ghost st': State, ghost x': Entry, ghost out': seq<byte>)
    requires InHand(bits, w, t, st, x, ent, out) && free == FIRST + |t.dict|
    modifies w`out, w`nBits, w`maxcode, w`offset, w`bytesOut, w.group
    ensures Written(bits, w, t, st', x', ent, out') && Same(out', out + Text(x, t.dict, ent))
    ensures w.bytesOut >= old(w.bytesOut)
  {
    hide Reads, Behind, Sent, GoodWidth, Settle, Advance, Act, Pow2, Text, Agrees;
    ghost var stream, width := w.Stream(), w.Current();
    BehindBounds(t.max, st, x, t.dict, ent);
    CodeFits(width, bits, free, ent);
    st', x' := CodeRead(bits, st, x, t.dict, ent);
    w.Output(ent, free, false);
    out' := out + Text(x, t.dict, ent);
    ReadsMore(bits, stream, width, st, out, ent, st', Text(x, t.dict, ent), free, false, w.Stream());
  }

  lemma {:induction false} BehindBounds(max: nat, st: State, x: Entry, dict: seq<Entry>, ent: nat)
    requires Behind(max, st, x, dict, ent)
    ensures ent < FIRST + |dict| <= max && x.prefix < 256 && Grown(dict)
  {
  }

  /** CLEAR is sent. */
  method WriteClear(w: LzwWriter, t: LzwTable, ghost bits: nat, ghost sent: nat, c: byte, ghost st: State, ghost x: Entry, ghost out: seq<byte>)
    returns (ghost st': State)
    requires Written(bits, w, t, st, x, sent, out)
    modifies w`out, w`nBits, w`maxcode, w`offset, w`bytesOut, w.group, t`dict, t`where, t`steps, t`owner, t.htab
    ensures InHand(bits, w, t, st', x, c, out) && t.dict == []
    ensures w.bytesOut >= old(w.bytesOut)
  {
    hide Reads, Behind, Sent, GoodWidth, Act, Agrees;
    ghost var stream, width := w.Stream(), w.Current();
    st' := ClearRead(bits, st, x, t.dict, sent, c);
    ClearFits(width, bits);
    t.Clear();
    w.Output(CLEAR, FIRST, true);
    ReadsMore(bits, stream, width, st, out, CLEAR, st', [], 256, true, w.Stream());
    assert out + [] == out;
  }

  lemma {:induction false} ClearFits(w: Width, bits: nat)
    requires GoodWidth(w, bits)
    ensures CLEAR < Pow2(w.n) && FIRST <= Pow2(bits) && StartWidth().m == 511
  {
    Pow2Monotonic(9, w.n);
    Pow2Monotonic(9, bits);
    Pow2Values();
  }

  /** The compression ratio in 256ths, or without them for long inputs. */
  function Ratio(inCount: nat, bytesOut: nat): nat
    requires bytesOut > 0
  {
    if inCount > 0x7f_ffff then
      if bytesOut / 256 == 0 then 0x7fff_ffff else inCount / (bytesOut / 256)
    else inCount * 256 / bytesOut
  }

  /** The next new code, and when the ratio is looked at again; and what it was. */
  datatype Progress = Progress(free: nat, inCount: nat, checkpoint: nat, ratio: nat)

  /** The code of the string in hand is written and c is in hand now; the string has become an entry
      if there was room. */
  method StartAgain(w: LzwWriter, t: LzwTable, ghost bits: nat, prefix: nat, c: byte, slot: nat, ghost j: nat, p: Progress,
                    ghost st: State, ghost x: Entry, ghost out: seq<byte>) returns (p': Progress, ghost st': State)
    requires Written(bits, w, t, st, x, prefix, out) && p.free == FIRST + |t.dict| && t.Free(Entry(prefix, c), slot, j) && w.bytesOut > 0
    modifies w`out, w`nBits, w`maxcode, w`offset, w`bytesOut, w.group, t`dict, t`where, t`steps, t`owner, t.htab, t.codetab
    ensures InHand(bits, w, t, st', x, c, out) && p'.free == FIRST + |t.dict| && w.bytesOut > 0
  {
    hide Reads, Behind, Sent, GoodWidth, Act, Settle, Text, Agrees, Pow2;
    st', p' := st, p;
    TableFits(bits, t.max);
    SentBounds(st, x, t.dict, prefix);
    if p.free < t.max {
      AddedBehind(t.max, st, x, t.dict, prefix, c);
      t.Add(prefix, c, slot, p.free, j);
      p' := p.(free := p.free + 1);
    } else {
      FullBehind(t.max, st, x, t.dict, prefix, c);
      if p.inCount >= p.checkpoint {
        p' := p.(checkpoint := p.inCount + CHECK_GAP);
        var rat := Ratio(p.inCount, w.bytesOut);
        if rat > p.ratio {
          p' := p'.(ratio := rat);
        } else {
          p' := p'.(ratio := 0, free := FIRST);
          st' := WriteClear(w, t, bits, prefix, c, st, x, out);
        }
      }
    }
  }

  lemma {:induction false} SentBounds(st: State, x: Entry, dict: seq<Entry>, sent: nat)
    requires Sent(st, x, dict, sent)
    ensures sent < FIRST + |dict|
  {
  }

  /** A full table still leaves free places. */
  lemma {:induction false} TableFits(bits: nat, max: nat)
    requires 9 <= bits <= 16 && max == Pow2(bits)
    ensures max <= 0x1_0000 < HSIZE - 2
  {
    Pow2Monotonic(bits, 16);
    Pow2Values();
  }

  /** One byte of the input. */
  method NextByte(w: LzwWriter, t: LzwTable, ghost bits: nat, ent: nat, c: byte, p: Progress, ghost st: State, ghost x: Entry, ghost out: seq<byte>)
    returns (ent': nat, p': Progress, ghost st': State, ghost x': Entry, ghost out': seq<byte>)
    requires InHand(bits, w, t, st, x, ent, out) && p.free == FIRST + |t.dict| && w.bytesOut > 0
    modifies w`out, w`nBits, w`maxcode, w`offset, w`bytesOut, w.group, t`dict, t`where, t`steps, t`owner, t.htab, t.codetab
    ensures InHand(bits, w, t, st', x', ent', out') && p'.free == FIRST + |t.dict| && w.bytesOut > 0
    ensures Same(out' + Text(x', t.dict, ent'), (out + old(Text(x, t.dict, ent))) + [c])
  {
    hide Reads, Behind, Sent, GoodWidth, Act, Settle, Text, Agrees, Pow2;
    p' := p.(inCount := p.inCount + 1);
    BehindBounds(t.max, st, x, t.dict, ent);
    var found, slot, code;
    ghost var j;
    found, slot, code, j := t.Find(ent, c);
    if found {
      Extended(t.max, st, x, t.dict, ent, code - FIRST, c);
      ent', st', x', out' := code, st, x, out;
      AssocBytes(out, Text(x, t.dict, ent), [c]);
      BehindBounds(t.max, st, x, t.dict, code);
      return;
    }
    st', x', out' := WriteEnt(w, t, bits, ent, p'.free, st, x, out);
    p', st' := StartAgain(w, t, bits, ent, c, slot, j, p', st', x', out');
    ent' := c;
    BehindBounds(t.max, st', x', t.dict, c);
    TextByte(x', t.dict, c);
  }

  lemma {:induction false} AssocBytes(a: seq<byte>, b: seq<byte>, c: seq<byte>)
    ensures Same(a + (b + c), (a + b) + c)
  {
    assert a + (b + c) == (a + b) + c;
  }

  lemma {:induction false} StartBehind(bits: nat, c: byte) returns (x: Entry)
    requires 9 <= bits
    ensures Behind(Pow2(bits), Start, x, [], c) && Text(x, [], c) == [c] && FIRST <= Pow2(9) && StartWidth().m == 511
  {
    Pow2Monotonic(9, bits);
    Pow2Values();
    x := Entry(0, 0);
  }

  /** The first byte is in hand. */
  method Begin(bits: nat, c: byte) returns (w: LzwWriter, t: LzwTable, ghost x: Entry)
    requires 9 <= bits <= 16
    ensures InHand(bits, w, t, Start, x, c, []) && t.dict == [] && w.bytesOut > 0 && Text(x, t.dict, c) == [c]
    ensures fresh(w) && fresh(w.group) && fresh(t) && fresh(t.htab) && fresh(t.codetab)
  {
    hide Reads, Behind, Text, GoodWidth, Agrees, Unpack, ToBits, LowFirst;
    w := new LzwWriter(bits);
    t := new LzwTable(Pow2(bits));
    ReadsNothing(bits);
    x := StartBehind(bits, c);
  }

  /** The end of the input: the string in hand, and what there is of a group. */
  method WriteLast(w: LzwWriter, t: LzwTable, ghost bits: nat, ent: nat, free: nat, ghost st: State, ghost x: Entry, ghost out: seq<byte>)
    returns (codes: seq<byte>)
    requires InHand(bits, w, t, st, x, ent, out) && free == FIRST + |t.dict|
    modifies w`out, w`nBits, w`maxcode, w`offset, w`bytesOut, w.group
    ensures Decode(bits, true, StartWidth(), Start, Unpack(codes), []) == Done(out + Text(x, t.dict, ent))
  {
    hide Behind, Sent, Act, Settle, Text, Agrees, Pow2, Decode, Unpack, ToBits, InGroup;
    ghost var st', x', out' := WriteEnt(w, t, bits, ent, free, st, x, out);
    ghost var stream, width := w.Stream(), w.Current();
    ghost var k := w.Finish();
    codes := w.out;
    DecodeEnd(bits, width, st', ToBits(0, k), out');
    assert Same(Decode(bits, true, StartWidth(), Start, stream + ToBits(0, k), []), Decode(bits, true, width, st', ToBits(0, k), out'));
  }

  lemma {:induction false} DecodeEnd(bits: nat, w: Width, st: State, s: seq<bool>, out: seq<byte>)
    requires GoodState(st) && w.n >= 9 && |s| < 8
    ensures Same(Decode(bits, true, w, st, s, out), Done(out))
  {
  }

  /** The codes of an input that is not empty. */
  method WriteCodes(bits: nat, input: seq<byte>) returns (codes: seq<byte>)
    requires 9 <= bits <= 16 && input != []
    ensures Decode(bits, true, StartWidth(), Start, Unpack(codes), []) == Done(input)
  {
    hide Reads, Act, Decode, Unpack, Pow2, ToBits, GoodWidth, Agrees, Str, Text;
    var w, t;
    ghost var x;
    w, t, x := Begin(bits, input[0]);
    ghost var st, out: seq<byte> := Start, [];
    var ent: nat, p := input[0], Progress(FIRST, 1, CHECK_GAP, 0);
    assert [] + [input[0]] == input[..1];
    var pos := 1;
    while pos < |input|
      invariant InHand(bits, w, t, st, x, ent, out) && p.free == FIRST + |t.dict| && w.bytesOut > 0
      invariant 1 <= pos <= |input| && Same(out + Text(x, t.dict, ent), input[..pos])
    {
      ent, p, st, x, out := NextByte(w, t, bits, ent, input[pos], p, st, x, out);
      assert input[..pos] + [input[pos]] == input[..pos + 1];
      pos := pos + 1;
    }
    assert input[..pos] == input;
    codes := WriteLast(w, t, bits, ent, p.free, st, x, out);
  }

  lemma {:induction false} HeaderRead(bits: nat, file: seq<byte>, codes: seq<byte>, input: seq<byte>)
    requires 9 <= bits <= 16 && Same(file, [0x1f, 0x9d, bits + 128] + codes)
    requires Same(Decode(bits, true, StartWidth(), Start, Unpack(codes), []), Done(input))
    ensures |file| >= 3 && file[0] == 0x1f && file[1] == 0x9d && Same(Uncompressed(file[2..]), Done(input))
  {
    hide Decode, Unpack;
    assert file[2..][1..] == codes;
  }

  /** lzw_compress. */
  method Compress(input: seq<byte>, bits: nat) returns (file: seq<byte>)
    requires 9 <= bits <= 16
    ensures |file| >= 3 && file[0] == 0x1f && file[1] == 0x9d && Uncompressed(file[2..]) == Done(input)
  {
    hide Decode, Unpack, Uncompressed;
    var codes := [];
    if input == [] {
      DecodeNothing(bits);
    } else {
      codes := WriteCodes(bits, input);
    }
    file := [0x1f, 0x9d, bits + 128] + codes;
    HeaderRead(bits, file, codes, input);
  }

  lemma {:induction false} DecodeNothing(bits: nat)
    ensures Same(Decode(bits, true, StartWidth(), Start, Unpack([]), []), Done([]))
  {
    assert Unpack([]) == [];
  }
}
