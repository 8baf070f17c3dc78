/** lzw_decompress: the decoding function with arrays of prefixes and suffixes and a stack. */
module LzwDecompress {
  import opened Bits
  import opened LzwFormat
  import opened LzwWriter
  import opened LzwReader

  // ---- strings on the stack ----

  /** The arrays hold the entries; in block mode the one for code 256 is never used. */
  ghost predicate HoldsEntries(block: bool, pre: seq<nat>, suf: seq<byte>, dict: seq<Entry>)
  {
    && |pre| == |suf| == 0x1_0000 && |dict| <= 0x1_0000 - 256 && Rooted(dict)
    && (forall c :: 0 <= c < 256 ==> suf[c] == c)
    && (forall i :: 0 <= i < |dict| && (block ==> i > 0) ==>
          pre[256 + i] == dict[i].prefix && suf[256 + i] == dict[i].suffix && (block ==> dict[i].prefix != CLEAR))
  }

  /** A code whose string can be looked up. */
  ghost predicate Usable(block: bool, dict: seq<Entry>, c: nat)
  {
    c < 256 + |dict| && (block ==> c != CLEAR)
  }

  /** The string of code, and then the stack from its top, is goal. */
  ghost predicate Unwinding(dict: seq<Entry>, c: nat, stack: seq<byte>, goal: seq<byte>)
  {
    Rooted(dict) && c < 256 + |dict| && Same(Str(dict, c) + Reversed(stack), goal)
  }

  lemma {:induction false} UnwindStep(block: bool, pre: seq<nat>, suf: seq<byte>, dict: seq<Entry>, c: nat, stack: seq<byte>, goal: seq<byte>)
    requires HoldsEntries(block, pre, suf, dict) && Usable(block, dict, c) && c >= 256 && Unwinding(dict, c, stack, goal)
    ensures c < 0x1_0000 && pre[c] < c && Usable(block, dict, pre[c]) && Unwinding(dict, pre[c], stack + [suf[c]], goal)
  {
    var e := dict[c - 256];
    assert Reversed(stack + [suf[c]]) == [suf[c]] + Reversed(stack);
    assert (Str(dict, e.prefix) + [e.suffix]) + Reversed(stack) == Str(dict, e.prefix) + ([e.suffix] + Reversed(stack));
  }

  lemma {:induction false} UnwindEnd(block: bool, pre: seq<nat>, suf: seq<byte>, dict: seq<Entry>, c: nat, stack: seq<byte>, goal: seq<byte>)
    requires HoldsEntries(block, pre, suf, dict) && c < 256 && Unwinding(dict, c, stack, goal)
    ensures Same(Reversed(stack + [suf[c]]), goal) && goal[0] == suf[c]
  {
    assert Reversed(stack + [suf[c]]) == [suf[c]] + Reversed(stack);
  }

  /** There is room on the stack. */
  lemma {:induction false} UnwindFits(dict: seq<Entry>, c: nat, stack: seq<byte>, goal: seq<byte>)
    requires Unwinding(dict, c, stack, goal) && |dict| <= 0x1_0000 - 256 && |goal| <= 0x1_0000
    ensures |stack| < 0x1_0000
  {
  }

  /** The first n places of the stack in the opposite order. */
  method ReverseStack(stack: array<byte>, n: nat)
    requires 0 < n <= stack.Length
    modifies stack
    ensures stack[..n] == Reversed(old(stack[..n]))
  {
    ghost var s := stack[..];
    var a, b := 0, n - 1;
    while a < b
      invariant 0 <= a && a + b == n - 1 && b >= a - 1
      invariant forall i :: 0 <= i < a || b < i < n ==> stack[i] == s[n - 1 - i]
      invariant forall i :: a <= i <= b ==> stack[i] == s[i]
    {
      stack[a], stack[b] := stack[b], stack[a];
      a := a + 1;
      b := b - 1;
    }
    assert stack[..n] == Reversed(s[..n]);
  }

  datatype Outcome = Fine | Wrong(error: Error)

  class LzwDecoder {
    const bits: nat
    const block: bool
    const pre: array<nat>
    const suf: array<byte>
    const stack: array<byte>
    var freeEnt: nat
    var oldcode: nat
    var finchar: byte
    ghost var dict: seq<Entry>
    ghost var cleared: bool

    ghost predicate Valid()
      reads this, pre, suf
    {
      && 9 <= bits <= 16 && stack.Length == 0x1_0000 && stack != suf
      && HoldsEntries(block, pre[..], suf[..], dict) && freeEnt == 256 + |dict| <= Pow2(bits)
      && cleared == (block && dict == []) && (!cleared ==> Usable(block, dict, oldcode))
    }

    ghost function State(): State
      reads this
    {
      Going(dict, oldcode, finchar, cleared)
    }

    /** The table before the first code c. */
    constructor (bits: nat, block: bool, c: byte)
      requires 9 <= bits <= 16
      ensures Valid() && !cleared && this.bits == bits && this.block == block && fresh(pre) && fresh(suf) && fresh(stack)
      ensures Act(bits, block, Start, c) == Next(State(), [c], freeEnt, false)
    {
      hide Str, Pow2;
      this.bits := bits;
      this.block := block;
      pre := new nat[0x1_0000];
      suf := new byte[0x1_0000](i requires 0 <= i < 0x1_0000 => i % 256);
      stack := new byte[0x1_0000];
      freeEnt := if block then FIRST else 256;
      oldcode, finchar := c, c;
      dict := if block then [Entry(0, 0)] else [];
      cleared := false;
      new;
      EntryFits(bits);
    }

    /** The string of code, from the top of the stack, on which there are sp bytes. */
    method Unwind(c: nat, n: nat, ghost goal: seq<byte>) returns (sp: nat)
      requires Valid() && Usable(block, dict, c) && n <= 1 && Unwinding(dict, c, stack[..n], goal) && |goal| <= 0x1_0000
      modifies stack, this`finchar
      ensures Valid() && 0 < sp <= 0x1_0000 && stack[..sp] == goal && finchar == goal[0]
    {
      hide Unwinding, Usable, Str, Reversed;
      var code := c;
      sp := n;
      UsableSmall(block, dict, code);
      while code >= 256
        invariant Valid() && sp <= 0x1_0000 && Usable(block, dict, code) && Unwinding(dict, code, stack[..sp], goal) && code < 0x1_0000
        decreases code
        modifies stack
      {
        UnwindFits(dict, code, stack[..sp], goal);
        UnwindStep(block, pre[..], suf[..], dict, code, stack[..sp], goal);
        stack[sp] := suf[code];
        assert stack[..sp + 1] == stack[..sp] + [suf[code]];
        sp := sp + 1;
        code := pre[code];
      }
      UnwindFits(dict, code, stack[..sp], goal);
      UnwindEnd(block, pre[..], suf[..], dict, code, stack[..sp], goal);
      finchar := suf[code];
      stack[sp] := finchar;
      assert stack[..sp + 1] == stack[..sp] + [suf[code]];
      sp := sp + 1;
      ReverseStack(stack, sp);
    }

    /** CLEAR empties the table. */
    method Clear()
      requires Valid() && block && !cleared
      modifies this`freeEnt, this`dict, this`cleared
      ensures Valid() && cleared && freeEnt == 256 && Act(bits, block, old(State()), CLEAR) == Next(State(), [], 256, true)
    {
      EntryFits(bits);
      freeEnt := 256;
      dict := [];
      cleared := true;
    }

    /** A new entry, if there is room: the last code's string and the first byte of this one's. */
    method AddEntry()
      requires Valid()
      modifies this`freeEnt, this`dict, pre, suf
      ensures 9 <= bits <= 16 && HoldsEntries(block, pre[..], suf[..], dict) && freeEnt == 256 + |dict| <= Pow2(bits)
      ensures Same(dict, Grow(bits, old(dict), cleared, oldcode, finchar))
    {
      EntryFits(bits);
      if freeEnt < Pow2(bits) {
        EntryAdded(block, pre[..], suf[..], dict, cleared, oldcode, finchar);
        pre[freeEnt] := oldcode;
        suf[freeEnt] := finchar;
        freeEnt := freeEnt + 1;
        dict := dict + [Entry(if cleared then 0 else oldcode, finchar)];
      }
    }

    /** A code that is not CLEAR, or comes right after it: its string, or an error. */
    method Use(code: nat) returns (r: Outcome, piece: seq<byte>)
      requires Valid() && (code == CLEAR && block ==> cleared)
      modifies this`freeEnt, this`oldcode, this`finchar, this`dict, this`cleared, pre, suf, stack
      ensures match Act(bits, block, old(State()), code)
              case Bad(e) => r == Wrong(e)
              case Next(st, p, free, clear) => r == Fine && Valid() && Same(State(), st) && Same(piece, p) && free == freeEnt && !clear && !cleared
    {
      hide Str, Pow2, HoldsEntries;
      HoldsRooted(block, pre[..], suf[..], dict);
      EntryFits(bits);
      piece := [];
      var c, n := code, 0;
      ghost var st := State();
      if code >= freeEnt {
        if code > freeEnt {
          return Wrong(CorruptInput), piece;
        }
        if (block && freeEnt == 256) || code >= Pow2(bits) {
          return Wrong(NotModelled), piece;
        }
        stack[0] := finchar;
        n := 1;
        c := oldcode;
      }
      ghost var goal := CodeString(bits, block, dict, oldcode, finchar, cleared, code, c, stack[..n]);
      var sp := Unwind(c, n, goal);
      piece := stack[..sp];
      AddEntry();
      oldcode := code;
      cleared := false;
      r := Fine;
    }
  }

  lemma {:induction false} HoldsRooted(block: bool, pre: seq<nat>, suf: seq<byte>, dict: seq<Entry>)
    requires HoldsEntries(block, pre, suf, dict)
    ensures Rooted(dict)
  {
  }

  lemma {:induction false} UsableSmall(block: bool, dict: seq<Entry>, c: nat)
    requires Usable(block, dict, c) && |dict| <= 0x1_0000 - 256
    ensures c < 0x1_0000
  {
  }

  /** The table after a code. */
  function Grow(bits: nat, dict: seq<Entry>, cleared: bool, prev: nat, head: byte): seq<Entry>
  {
    if 256 + |dict| < Pow2(bits) then dict + [Entry(if cleared then 0 else prev, head)] else dict
  }

  lemma {:induction false} EntryFits(bits: nat)
    requires 9 <= bits <= 16
    ensures 512 <= Pow2(bits) <= 0x1_0000
  {
    Pow2Monotonic(9, bits);
    Pow2Monotonic(bits, 16);
    Pow2Values();
  }

  lemma {:induction false} EntryAdded(block: bool, pre: seq<nat>, suf: seq<byte>, dict: seq<Entry>, cleared: bool, prev: nat, head: byte)
    requires HoldsEntries(block, pre, suf, dict) && 256 + |dict| < 0x1_0000
    requires if cleared then block && dict == [] else Usable(block, dict, prev)
    ensures HoldsEntries(block, pre[256 + |dict| := prev], suf[256 + |dict| := head], dict + [Entry(if cleared then 0 else prev, head)])
  {
  }

  /** The string of a code as it is unwound: of c, with the stack under it. */
  lemma {:induction false} CodeString(bits: nat, block: bool, dict: seq<Entry>, prev: nat, head: byte, cleared: bool, code: nat, c: nat, stack: seq<byte>)
    returns (goal: seq<byte>)
    requires 9 <= bits <= 16 && Rooted(dict) && 256 + |dict| <= Pow2(bits) && (code == CLEAR && block ==> cleared)
    requires if cleared then block && dict == [] else Usable(block, dict, prev)
    requires code <= 256 + |dict| && !(code == 256 + |dict| && (cleared || code >= Pow2(bits)))
    requires if code == 256 + |dict| then c == prev && stack == [head] else c == code && stack == []
    ensures Usable(block, dict, c) && Unwinding(dict, c, stack, goal) && |goal| <= 0x1_0000
    ensures Same(goal, if code == 256 + |dict| then Str(dict, prev) + [head] else Str(dict, code))
  {
    EntryFits(bits);
    goal := Str(dict, c) + stack;
    assert stack == [] ==> goal == Str(dict, c);
    assert Reversed(stack) == stack;
  }

  // ---- the decompressor ----

  /** Reading on from here is goal. */
  ghost predicate Ahead(bits: nat, block: bool, w: Width, st: State, s: seq<bool>, free: nat, clear: bool, out: seq<byte>, goal: Result)
  {
    && GoodState(st) && Settle(w, bits, free, clear).n > 0
    && Same(Decode(bits, block, Settle(w, bits, free, clear), st, Drop(s, LzwFormat.Unused(w, free, clear)), out), goal)
  }

  /** What the code just read leads to. */
  ghost predicate After(bits: nat, block: bool, w: Width, st: State, code: nat, s: seq<bool>, out: seq<byte>, goal: Result)
  {
    && GoodState(st)
    && match Act(bits, block, st, code)
       case Bad(e) => Same(goal, Failed(e, out))
       case Next(st', piece, free, clear) => Ahead(bits, block, w, st', s, free, clear, out + piece, goal)
  }

  lemma {:induction false} CodeTaken(bits: nat, block: bool, w: Width, st: State, s: seq<bool>, out: seq<byte>, goal: Result)
    requires GoodState(st) && w.n > 0 && Same(Decode(bits, block, w, st, s, out), goal)
    ensures |s| >= w.n ==> After(bits, block, Advance(w), st, FromBits(s[..w.n]), s[w.n..], out, goal)
    ensures |s| < w.n ==> Same(goal, if w.off == 0 && |s| == 8 then Failed(NotModelled, out) else Done(out))
  {
    hide Act, FromBits;
    if |s| >= w.n {
      GoodActs(bits, block, st, FromBits(s[..w.n]));
    }
  }

  lemma {:induction false} GoodActs(bits: nat, block: bool, st: State, c: nat)
    requires GoodState(st)
    ensures Act(bits, block, st, c).Next? ==> GoodState(Act(bits, block, st, c).st)
  {
  }

  method ReadOne(r: LzwReader, ghost block: bool, ghost st: State, free: nat, clear: bool, ghost out: seq<byte>, ghost goal: Result)
    returns (code: int, stale: bool)
    requires r.Valid() && free <= Pow2(r.bits) && Ahead(r.bits, block, r.Raw(), st, r.Rest(), free, clear, out, goal)
    modifies r`ipos, r`nBits, r`maxcode, r`offset, r`rsize, r`have, r.rbuf
    ensures if stale then Same(goal, Failed(NotModelled, out))
            else if code < 0 then Same(goal, Done(out))
            else r.Valid() && |r.Rest()| < |old(r.Rest())| && After(r.bits, block, r.Raw(), st, code, r.Rest(), out, goal)
  {
    hide Decode, After, FromBits, Unpack, Settle, Advance, LzwFormat.Unused;
    ghost var w, s := Settle(r.Raw(), r.bits, free, clear), Drop(r.Rest(), LzwFormat.Unused(r.Raw(), free, clear));
    CodeTaken(r.bits, block, w, st, s, out, goal);
    code, stale := r.GetCode(free, clear);
  }

  /** The reader and the decoder have nothing in common. */
  ghost predicate Apart(r: LzwReader, d: LzwDecoder)
  {
    r.rbuf != d.suf && r.rbuf != d.stack && r.bits == d.bits
  }

  ghost predicate Going(r: LzwReader, d: LzwDecoder, out: seq<byte>, goal: Result)
    reads r, r.rbuf, d, d.pre, d.suf
  {
    && r.Valid() && d.Valid() && Apart(r, d) && !d.cleared
    && Ahead(r.bits, d.block, r.Raw(), d.State(), r.Rest(), d.freeEnt, false, out, goal)
  }

  /** The code in hand is a code for a string. */
  ghost predicate HasCode(r: LzwReader, d: LzwDecoder, code: nat, out: seq<byte>, goal: Result)
    reads r, r.rbuf, d, d.pre, d.suf
  {
    && r.Valid() && d.Valid() && Apart(r, d) && (code == CLEAR && d.block ==> d.cleared)
    && After(r.bits, d.block, r.Raw(), d.State(), code, r.Rest(), out, goal)
  }

  /** After CLEAR the table is empty, and another code is read. */
  method ReadAfterClear(r: LzwReader, d: LzwDecoder, ghost out: seq<byte>, ghost goal: Result) returns (code: int, stale: bool)
    requires r.Valid() && d.Valid() && Apart(r, d) && d.block && !d.cleared
    requires After(r.bits, true, r.Raw(), d.State(), CLEAR, r.Rest(), out, goal)
    modifies r`ipos, r`nBits, r`maxcode, r`offset, r`rsize, r`have, r.rbuf, d`freeEnt, d`dict, d`cleared
    ensures if stale then Same(goal, Failed(NotModelled, out))
            else if code < 0 then Same(goal, Done(out))
            else HasCode(r, d, code, out, goal) && |r.Rest()| < |old(r.Rest())|
  {
    hide Decode, Act, Unpack, Settle, LzwFormat.Unused, HoldsEntries, GoodWidth, Pow2;
    d.Clear();
    EntryFits(r.bits);
    assert out + [] == out;
    code, stale := ReadOne(r, true, d.State(), d.freeEnt, true, out, goal);
  }

  /** A code for a string. */
  method UseCode(r: LzwReader, d: LzwDecoder, code: nat, ghost out: seq<byte>, ghost goal: Result) returns (o: Outcome, piece: seq<byte>)
    requires HasCode(r, d, code, out, goal)
    modifies d`freeEnt, d`oldcode, d`finchar, d`dict, d`cleared, d.pre, d.suf, d.stack
    ensures match o case Wrong(e) => Same(goal, Failed(e, out)) case Fine => Going(r, d, out + piece, goal)
  {
    hide Decode, Act, Unpack, Settle, LzwFormat.Unused, HoldsEntries, GoodWidth, Pow2;
    o, piece := d.Use(code);
  }

  /** How reading has come to its end. */
  datatype End = NotYet | Ended(result: Result)

  /** One code, or CLEAR and a code. */
  method Round(r: LzwReader, d: LzwDecoder, out: seq<byte>, ghost goal: Result) returns (end: End, out': seq<byte>)
    requires Going(r, d, out, goal)
    modifies r`ipos, r`nBits, r`maxcode, r`offset, r`rsize, r`have, r.rbuf
    modifies d`freeEnt, d`oldcode, d`finchar, d`dict, d`cleared, d.pre, d.suf, d.stack
    ensures match end case Ended(res) => Same(goal, res) case NotYet => Going(r, d, out', goal) && |r.Rest()| < |old(r.Rest())|
  {
    hide Decode, Act, Unpack, Settle, LzwFormat.Unused, HoldsEntries, GoodWidth, Pow2, After, Ahead;
    out' := out;
    var code, stale := ReadOne(r, d.block, d.State(), d.freeEnt, false, out, goal);
    if stale {
      return Ended(Failed(NotModelled, out)), out;
    }
    if code < 0 {
      return Ended(Done(out)), out;
    }
    if code == CLEAR && d.block {
      code, stale := ReadAfterClear(r, d, out, goal);
      if stale {
        return Ended(Failed(NotModelled, out)), out;
      }
      if code < 0 {
        return Ended(Done(out)), out;
      }
    }
    var o, piece := UseCode(r, d, code, out, goal);
    match o
    case Wrong(e) => end := Ended(Failed(e, out));
    case Fine => end, out' := NotYet, out + piece;
  }

  /** The codes of a file. */
  method ReadCodes(bits: nat, block: bool, codes: seq<byte>) returns (res: Result)
    requires 9 <= bits <= 16
    ensures Same(res, Decode(bits, block, StartWidth(), Start, Unpack(codes), []))
  {
    hide Decode, Act, Unpack, Settle, HoldsEntries, GoodWidth, After, Ahead;
    ghost var goal := Decode(bits, block, StartWidth(), Start, Unpack(codes), []);
    var r := new LzwReader(bits, codes);
    StartAhead(bits, block, r.Rest(), if block then FIRST else 256, goal);
    var c, stale := ReadOne(r, block, Start, if block then FIRST else 256, false, [], goal);
    if stale {
      return Failed(NotModelled, []);
    }
    if c < 0 {
      return Done([]);
    }
    if c >= 256 {
      FirstTooLarge(bits, block, r.Raw(), c, r.Rest(), goal);
      return Failed(CorruptInput, []);
    }
    var b: byte := c;
    var d := new LzwDecoder(bits, block, b);
    var out := [b];
    FirstUsed(bits, block, r.Raw(), b, r.Rest(), d.State(), d.freeEnt, goal);
    var end := NotYet;
    while end == NotYet
      invariant match end case Ended(x) => Same(goal, x) case NotYet => Going(r, d, out, goal)
      decreases end.NotYet?, if end.NotYet? then |r.Rest()| else 0
    {
      end, out := Round(r, d, out, goal);
    }
    res := end.result;
  }

  lemma {:induction false} StartAhead(bits: nat, block: bool, s: seq<bool>, free: nat, goal: Result)
    requires free <= FIRST && 9 <= bits && Same(Decode(bits, block, StartWidth(), Start, s, []), goal)
    ensures free <= Pow2(bits) && Ahead(bits, block, StartWidth(), Start, s, free, false, [], goal)
  {
    Pow2Values();
    Pow2Monotonic(9, bits);
    assert s[0..] == s;
  }

  lemma {:induction false} FirstTooLarge(bits: nat, block: bool, w: Width, c: nat, s: seq<bool>, goal: Result)
    requires c >= 256 && After(bits, block, w, Start, c, s, [], goal)
    ensures Same(goal, Failed(CorruptInput, []))
  {
  }

  lemma {:induction false} FirstUsed(bits: nat, block: bool, w: Width, c: byte, s: seq<bool>, st: State, free: nat, goal: Result)
    requires After(bits, block, w, Start, c, s, [], goal) && Act(bits, block, Start, c) == Next(st, [c], free, false)
    ensures Ahead(bits, block, w, st, s, free, false, [c], goal)
  {
    assert [] + [c] == [c];
  }

  /** lzw_decompress, after the magic number. */
  method Decompress(file: seq<byte>) returns (r: Result)
    ensures Same(r, Uncompressed(file))
  {
    if file == [] {
      return Failed(UnexpectedEof, []);
    }
    var bits, block := file[0] % 32, file[0] >= 128;
    if file[0] / 32 % 4 != 0 {
      return Failed(UnknownFlags, []);
    }
    if bits < INIT_BITS || bits > 16 {
      return Failed(UnsupportedSize, []);
    }
    r := ReadCodes(bits, block, file[1..]);
  }
}
