/** gzip_compress: lazy matching over the window. */
module Compressor {
  import opened Bits
  import opened Crc
  import opened Tokens
  import opened SymbolBuffer
  import opened BlockMaker
  import opened Window
  import opened Chains
  import opened Matches

  /** The start of the input up to p. */
  ghost predicate UpTo(s: seq<byte>, input: seq<byte>, p: int)
  {
    0 <= p <= |input| && s == input[..p]
  }

  lemma {:induction false} ShownPart(win: seq<byte>, n: nat, input: seq<byte>, base: nat, i: nat, j: nat)
    requires Shows(win, n, input, base) && i <= j <= n
    ensures Same(win[i..j], input[base + i..base + j])
  {
    assert win[i..j] == input[base + i..base + j];
  }

  lemma {:induction false} RawPart(win: seq<byte>, n: nat, input: seq<byte>, base: nat, i: nat, j: nat, raw: seq<byte>, done: seq<byte>, cur: seq<byte>)
    requires Shows(win, n, input, base) && i <= j <= n && Same(raw, win[i..j])
    requires UpTo(done, input, base + i) && UpTo(cur, input, base + j)
    ensures Same(cur, done + raw)
  {
    ShownPart(win, n, input, base, i, j);
    assert input[..base + j] == input[..base + i] + input[base + i..base + j];
  }

  /** What is known of the blocks between the steps: all of the input before q is in them. */
  ghost predicate Covers(wn: Window, bm: BlockMaker, q: int)
    reads wn, bm
  {
    UpTo(bm.done, wn.input, wn.base + wn.blockStart) && UpTo(bm.cur, wn.input, q) && q <= wn.base + wn.strstart
  }

  lemma {:induction false} BlockSize(wn: Window, bm: BlockMaker, q: int)
    requires bm.Valid() && Covers(wn, bm, q)
    ensures wn.base + wn.blockStart + bm.b.symBytes == q
  {
  }

  /** flush_block, with the bytes of the window that the block stands for. */
  method FlushBlock(wn: Window, bm: BlockMaker, ghost q: int)
    requires wn.Valid() && bm.Valid() && Covers(wn, bm, q)
    modifies wn`blockStart, bm, bm.w, bm.b, bm.b.litFreq, bm.b.distFreq
    ensures wn.Valid() && bm.Valid() && Covers(wn, bm, q) && bm.b.ts == [] && wn.base + wn.blockStart == q
  {
    hide UpTo, Shows, BlockMaker.Written;
    BlockSize(wn, bm, q);
    var raw := wn.win[wn.blockStart..wn.blockStart + bm.b.symBytes];
    RawPart(wn.win[..], wn.strstart + wn.lookahead, wn.input, wn.base, wn.blockStart, wn.blockStart + bm.b.symBytes, raw, bm.done, bm.cur);
    wn.blockStart := wn.blockStart + bm.b.symBytes;
    bm.Flush(raw);
  }

  method FlushIfFull(wn: Window, bm: BlockMaker, ghost q: int)
    requires wn.Valid() && bm.Valid() && Covers(wn, bm, q)
    modifies wn`blockStart, bm, bm.w, bm.b, bm.b.litFreq, bm.b.distFreq
    ensures wn.Valid() && bm.Valid() && Covers(wn, bm, q) && bm.b.nsym < SYMS
  {
    if bm.b.nsym == SYMS {
      FlushBlock(wn, bm, q);
    }
  }

  lemma {:induction false} LiteralUpTo(cur: seq<byte>, input: seq<byte>, p: nat, c: byte)
    requires p < |input| && UpTo(cur, input, p) && input[p] == c
    ensures UpTo(Apply(cur, TokenOf(0, c)), input, p + 1)
  {
  }

  /** The byte before strstart, as a literal. */
  method TallyLiteral(wn: Window, bm: BlockMaker)
    requires wn.Valid() && bm.Valid() && wn.strstart >= 1 && Covers(wn, bm, wn.base + wn.strstart - 1) && bm.b.nsym < SYMS
    modifies bm`cur, bm.b, bm.b.symDist, bm.b.symLc, bm.b.litFreq, bm.b.distFreq
    ensures wn.Valid() && bm.Valid() && Covers(wn, bm, wn.base + wn.strstart)
  {
    hide UpTo, BlockMaker.Written;
    var c := wn.win[wn.strstart - 1];
    assert wn.win[..][wn.strstart - 1] == wn.input[wn.base + (wn.strstart - 1)];
    LiteralUpTo(bm.cur, wn.input, wn.base + wn.strstart - 1, c);
    bm.Tally(0, c);
  }

  lemma {:induction false} MatchUpTo(cur: seq<byte>, input: seq<byte>, p: nat, d: nat, n: nat)
    requires UpTo(cur, input, p) && IsMatch(input, p, d, n) && MIN_MATCH <= n <= MAX_MATCH
    ensures ValidToken(TokenOf(d, n - MIN_MATCH), cur) && UpTo(Apply(cur, TokenOf(d, n - MIN_MATCH)), input, p + n)
  {
    CopyMatch(input, p, d, n);
  }

  /** The strings inside a match of n bytes at strstart - 1 go into the hash chains, as far as they
      have three bytes. */
  method SkipMatch(wn: Window, ch: Chains, n: nat)
    requires Together(wn, ch) && ch.top <= ch.base + wn.strstart + 1 && 3 <= n <= wn.lookahead + 1
    modifies wn`strstart, wn`lookahead, ch`ins, ch`top, ch.head, ch.prev
    ensures Together(wn, ch) && ch.top <= ch.base + wn.strstart
    ensures wn.strstart == old(wn.strstart) + n - 1 && wn.lookahead == old(wn.lookahead) - (n - 1)
  {
    var maxInsert := wn.strstart + wn.lookahead - MIN_MATCH;
    var pos := wn.strstart;
    var k := n - 2;
    while k > 0
      invariant k >= 0 && pos == wn.strstart + (n - 2 - k)
      invariant Together(wn, ch) && ch.top <= ch.base + pos + 1
      modifies ch`ins, ch`top, ch.head, ch.prev
    {
      pos := pos + 1;
      if pos <= maxInsert {
        var _ := Insert(wn, ch, pos);
      }
      k := k - 1;
    }
    wn.Advance(n - 1);
  }

  /** The match at strstart - 1 is the one. */
  method TakeMatch(wn: Window, ch: Chains, bm: BlockMaker, d: nat, n: nat)
    requires Together(wn, ch) && bm.Valid() && wn.strstart >= 1 && ch.top <= ch.base + wn.strstart + 1
    requires Covers(wn, bm, wn.base + wn.strstart - 1) && bm.b.nsym < SYMS
    requires IsMatch(wn.input, wn.base + wn.strstart - 1, d, n) && MIN_MATCH <= n <= MAX_MATCH && n <= wn.lookahead + 1
    modifies wn`strstart, wn`lookahead, wn`blockStart, ch`ins, ch`top, ch.head, ch.prev
    modifies bm, bm.w, bm.b, bm.b.symDist, bm.b.symLc, bm.b.litFreq, bm.b.distFreq
    ensures Together(wn, ch) && bm.Valid() && ch.top <= ch.base + wn.strstart
    ensures Covers(wn, bm, wn.base + wn.strstart) && bm.b.nsym < SYMS
    ensures wn.strstart == old(wn.strstart) + n - 1 && wn.lookahead == old(wn.lookahead) - (n - 1)
  {
    hide IsMatch, Shows, BlockMaker.Written, HeadsOk, PrevsOk, Below;
    MatchUpTo(bm.cur, wn.input, wn.base + wn.strstart - 1, d, n);
    bm.Tally(d, n - MIN_MATCH);
    SkipMatch(wn, ch, n);
    FlushIfFull(wn, bm, wn.base + wn.strstart);
  }

  /** The byte before strstart is no part of a match, if it still waits; the one at strstart waits
      now. */
  method TakeLiteral(wn: Window, bm: BlockMaker, avail: bool)
    requires wn.Valid() && bm.Valid() && wn.lookahead >= 1
    requires (avail ==> wn.strstart >= 1) && Covers(wn, bm, wn.base + wn.strstart - Waiting(avail)) && bm.b.nsym < SYMS
    modifies wn`strstart, wn`lookahead, wn`blockStart
    modifies bm, bm.w, bm.b, bm.b.symDist, bm.b.symLc, bm.b.litFreq, bm.b.distFreq
    ensures wn.Valid() && bm.Valid()
    ensures Covers(wn, bm, wn.base + wn.strstart - 1) && bm.b.nsym < SYMS
    ensures wn.strstart == old(wn.strstart) + 1 && wn.lookahead == old(wn.lookahead) - 1
  {
    hide IsMatch, Shows, UpTo, BlockMaker.Written;
    if avail {
      TallyLiteral(wn, bm);
      FlushIfFull(wn, bm, wn.base + wn.strstart);
    }
    wn.Advance(1);
  }

  // ---- fill ----

  /** The window moves on when it is nearly used up; what the block needs of it is written first. */
  method SlideIfNeeded(wn: Window, ch: Chains, bm: BlockMaker, ghost q: int)
    requires Together(wn, ch) && bm.Valid() && Covers(wn, bm, q) && q >= wn.base + wn.strstart - 1 && bm.b.nsym < SYMS
    modifies wn, wn.win, ch`base, ch.head, ch.prev, bm, bm.w, bm.b, bm.b.litFreq, bm.b.distFreq
    ensures Together(wn, ch) && bm.Valid() && Covers(wn, bm, q) && bm.b.nsym < SYMS
    ensures wn.strstart < 2 * CWSIZE - MIN_LOOKAHEAD && wn.base + wn.strstart == old(wn.base + wn.strstart)
    ensures wn.ipos == old(wn.ipos) && wn.lookahead == old(wn.lookahead) && (old(wn.strstart) >= 1 ==> wn.strstart >= 1)
  {
    hide Shows, BlockMaker.Written, HeadsOk, PrevsOk, Below, UpTo;
    if wn.strstart >= 2 * CWSIZE - MIN_LOOKAHEAD {
      if wn.blockStart < CWSIZE {
        FlushBlock(wn, bm, q);
      }
      SlideBoth(wn, ch);
    }
  }

  method SlideBoth(wn: Window, ch: Chains)
    requires Together(wn, ch) && wn.blockStart >= CWSIZE
    modifies wn, wn.win, ch`base, ch.head, ch.prev
    ensures Together(wn, ch) && wn.base == old(wn.base) + CWSIZE && wn.strstart == old(wn.strstart) - CWSIZE
    ensures wn.blockStart == old(wn.blockStart) - CWSIZE && wn.lookahead == old(wn.lookahead) && wn.ipos == old(wn.ipos)
  {
    wn.Slide();
    ch.Slide();
  }

  /** fill: unless the input is at its end, there are at least MIN_LOOKAHEAD bytes to look at. */
  method Fill(wn: Window, ch: Chains, bm: BlockMaker, ghost q: int)
    requires Together(wn, ch) && bm.Valid() && Covers(wn, bm, q) && q >= wn.base + wn.strstart - 1 && bm.b.nsym < SYMS
    modifies wn, wn.win, ch`base, ch.head, ch.prev, bm, bm.w, bm.b, bm.b.litFreq, bm.b.distFreq
    ensures Together(wn, ch) && bm.Valid() && Covers(wn, bm, q) && bm.b.nsym < SYMS
    ensures wn.inDone || wn.lookahead >= MIN_LOOKAHEAD
    ensures wn.base + wn.strstart == old(wn.base + wn.strstart) && wn.ipos >= old(wn.ipos) && (old(wn.strstart) >= 1 ==> wn.strstart >= 1)
  {
    hide Shows, BlockMaker.Written, HeadsOk, PrevsOk, Below, UpTo;
    SlideIfNeeded(wn, ch, bm, q);
    wn.Read();
  }

  // ---- one step ----

  /** The match at strstart - 1, of len bytes from start, if len is at least MIN_MATCH; and whether
      the byte there still waits. */
  datatype Lazy = Lazy(len: nat, start: int, avail: bool)

  ghost predicate Pending(wn: Window, z: Lazy)
    reads wn
  {
    && z.len >= 2 && (z.avail ==> wn.strstart >= 1)
    && (z.len >= MIN_MATCH ==>
          && z.avail && z.len <= MAX_MATCH && z.len <= wn.lookahead + 1 && z.start < wn.strstart - 1
          && IsMatch(wn.input, wn.base + wn.strstart - 1, wn.strstart - 1 - z.start, z.len))
  }

  /** The match to try for at strstart, if it can be longer than the one before. */
  method Choose(wn: Window, ch: Chains, e: Effort, z: Lazy) returns (len: nat, start: int)
    requires Together(wn, ch) && ch.top <= ch.base + wn.strstart && z.len >= 2
    modifies ch`ins, ch`top, ch.head, ch.prev
    ensures Together(wn, ch) && ch.top <= ch.base + wn.strstart + 1
    ensures len >= 2 && (len >= MIN_MATCH && len > z.len ==> Found(wn, start, len))
  {
    var cur := NIL;
    if wn.lookahead >= MIN_MATCH {
      cur := Insert(wn, ch, wn.strstart);
    }
    len, start := MIN_MATCH - 1, z.start;
    if cur != NIL && z.len < e.lazy && wn.strstart - cur <= MAX_DIST {
      ghost var visited, next;
      len, start, visited, next := Longest(wn, ch, e, cur, z.len, z.start);
      // three bytes from further back are better left as literals
      if len == MIN_MATCH && wn.strstart - start > 4096 {
        len := MIN_MATCH - 1;
      }
    }
  }

  ghost function Waiting(avail: bool): int
  {
    if avail then 1 else 0
  }

  /** What holds at the top of the compressor's loop, when all but the last byte before strstart is in
      the blocks. */
  ghost predicate Ready(wn: Window, ch: Chains, bm: BlockMaker, z: Lazy)
    reads wn, wn.win, ch, ch.head, ch.prev, bm, bm.w, bm.b, bm.b.symDist, bm.b.symLc, bm.b.litFreq, bm.b.distFreq
  {
    && Together(wn, ch) && bm.Valid() && ch.top <= ch.base + wn.strstart && Pending(wn, z)
    && Covers(wn, bm, wn.base + wn.strstart - Waiting(z.avail)) && bm.b.nsym < SYMS
  }

  /** The same after the string at strstart has been looked up. */
  ghost predicate Chosen(wn: Window, ch: Chains, bm: BlockMaker, z: Lazy)
    reads wn, wn.win, ch, ch.head, ch.prev, bm, bm.w, bm.b, bm.b.symDist, bm.b.symLc, bm.b.litFreq, bm.b.distFreq
  {
    && Together(wn, ch) && bm.Valid() && ch.top <= ch.base + wn.strstart + 1 && Pending(wn, z)
    && Covers(wn, bm, wn.base + wn.strstart - Waiting(z.avail)) && bm.b.nsym < SYMS
  }

  method StepMatch(wn: Window, ch: Chains, bm: BlockMaker, z: Lazy, start: int) returns (z': Lazy)
    requires Chosen(wn, ch, bm, z) && z.len >= MIN_MATCH
    modifies wn`strstart, wn`lookahead, wn`blockStart, ch`ins, ch`top, ch.head, ch.prev
    modifies bm, bm.w, bm.b, bm.b.symDist, bm.b.symLc, bm.b.litFreq, bm.b.distFreq
    ensures Ready(wn, ch, bm, z')
    ensures wn.lookahead < old(wn.lookahead) && wn.strstart + wn.lookahead == old(wn.strstart + wn.lookahead)
  {
    hide IsMatch, Shows, BlockMaker.Written, HeadsOk, PrevsOk, Below;
    TakeMatch(wn, ch, bm, wn.strstart - 1 - z.start, z.len);
    z' := Lazy(MIN_MATCH - 1, start, false);
  }

  method StepLiteral(wn: Window, ch: Chains, bm: BlockMaker, z: Lazy, len: nat, start: int) returns (z': Lazy)
    requires Chosen(wn, ch, bm, z) && wn.lookahead >= 1 && len >= 2 && (len >= MIN_MATCH ==> Found(wn, start, len))
    modifies wn`strstart, wn`lookahead, wn`blockStart
    modifies bm, bm.w, bm.b, bm.b.symDist, bm.b.symLc, bm.b.litFreq, bm.b.distFreq
    ensures Ready(wn, ch, bm, z')
    ensures wn.lookahead < old(wn.lookahead) && wn.strstart + wn.lookahead == old(wn.strstart + wn.lookahead)
  {
    hide Shows, BlockMaker.Written, HeadsOk, PrevsOk, Below;
    TakeLiteral(wn, bm, z.avail);
    z' := Lazy(len, start, true);
  }

  method ChooseReady(wn: Window, ch: Chains, bm: BlockMaker, e: Effort, z: Lazy) returns (len: nat, start: int)
    requires Ready(wn, ch, bm, z)
    modifies ch`ins, ch`top, ch.head, ch.prev
    ensures Chosen(wn, ch, bm, z) && len >= 2 && (len >= MIN_MATCH && len > z.len ==> Found(wn, start, len))
  {
    len, start := Choose(wn, ch, e, z);
  }

  /** One round of the compressor's loop: a byte less to look at, or a whole match. */
  method Step(wn: Window, ch: Chains, bm: BlockMaker, e: Effort, z: Lazy) returns (z': Lazy)
    requires Ready(wn, ch, bm, z) && wn.lookahead >= 1
    modifies wn`strstart, wn`lookahead, wn`blockStart, ch`ins, ch`top, ch.head, ch.prev
    modifies bm, bm.w, bm.b, bm.b.symDist, bm.b.symLc, bm.b.litFreq, bm.b.distFreq
    ensures Ready(wn, ch, bm, z')
    ensures wn.lookahead < old(wn.lookahead) && wn.strstart + wn.lookahead == old(wn.strstart + wn.lookahead)
  {
    var len, start := ChooseReady(wn, ch, bm, e, z);
    if z.len >= MIN_MATCH && len <= z.len {
      z' := StepMatch(wn, ch, bm, z, start);
    } else {
      z' := StepLiteral(wn, ch, bm, z, len, start);
    }
  }

  // ---- the whole loop ----

  method FillReady(wn: Window, ch: Chains, bm: BlockMaker, z: Lazy) returns (z': Lazy)
    requires Ready(wn, ch, bm, z)
    modifies wn, wn.win, ch`base, ch.head, ch.prev, bm, bm.w, bm.b, bm.b.litFreq, bm.b.distFreq
    ensures Ready(wn, ch, bm, z') && (wn.inDone || wn.lookahead >= MIN_LOOKAHEAD)
    ensures wn.base + wn.strstart == old(wn.base + wn.strstart) && wn.ipos >= old(wn.ipos)
  {
    var before := wn.strstart;
    Fill(wn, ch, bm, wn.base + wn.strstart - Waiting(z.avail));
    z' := z.(start := z.start - (before - wn.strstart));
  }

  /** The CRC of the input before p. */
  ghost predicate Sums(crc: word, input: seq<byte>, p: nat)
  {
    p <= |input| && Same(crc, Crc32(input[..p]))
  }

  lemma {:induction false} CrcMore(input: seq<byte>, i: nat, j: nat, crc: word, piece: seq<byte>, crc': word)
    requires i <= j <= |input| && Sums(crc, input, i) && Same(piece, input[i..j])
    requires Same(crc', Not(Divide(Poly(), Not(crc), Unpack(piece))))
    ensures Sums(crc', input, j)
  {
    CrcConcat(input[..i], input[i..j]);
    assert input[..j] == input[..i] + input[i..j];
  }

  method Update(table: CrcTable, crc: word, piece: seq<byte>) returns (crc': word)
    requires table.Valid()
    ensures Same(crc', Not(Divide(Poly(), Not(crc), Unpack(piece))))
  {
    crc' := table.Update(crc, piece);
  }

  /** The CRC of what fill has read. */
  method SumRead(wn: Window, table: CrcTable, crc: word, crcDone: nat, ghost done: nat) returns (crc': word)
    requires wn.Valid() && table.Valid() && crcDone <= wn.strstart + wn.lookahead && done == wn.base + crcDone && Sums(crc, wn.input, done)
    ensures Sums(crc', wn.input, wn.ipos)
  {
    var end := wn.strstart + wn.lookahead;
    var piece := wn.win[crcDone..end];
    crc' := Update(table, crc, piece);
    ShownPart(wn.win[..], end, wn.input, wn.base, crcDone, end);
    CrcMore(wn.input, done, wn.ipos, crc, piece, crc');
  }

  lemma {:induction false} SumsNothing(input: seq<byte>)
    ensures Sums(Repeat(false, 32), input, 0)
  {
    assert input[..0] == [];
    assert Unpack([]) == [];
    assert Not(Not(Repeat(false, 32))) == Repeat(false, 32);
  }

  /** The top of the loop: more input when there is little left, and its CRC. */
  method Refill(wn: Window, ch: Chains, bm: BlockMaker, table: CrcTable, z: Lazy, crc: word, crcDone: nat) returns (z': Lazy, crc': word, crcDone': nat)
    requires Ready(wn, ch, bm, z) && table.Valid() && Sums(crc, wn.input, wn.ipos) && crcDone == wn.strstart + wn.lookahead
    modifies wn, wn.win, ch`base, ch.head, ch.prev, bm, bm.w, bm.b, bm.b.litFreq, bm.b.distFreq
    ensures Ready(wn, ch, bm, z') && table.Valid() && Sums(crc', wn.input, wn.ipos) && crcDone' == wn.strstart + wn.lookahead
    ensures wn.inDone || wn.lookahead >= MIN_LOOKAHEAD
    ensures wn.base + wn.strstart == old(wn.base + wn.strstart)
  {
    hide Shows, BlockMaker.Written, HeadsOk, PrevsOk, Below, UpTo, IsMatch, Sums;
    var before := wn.strstart;
    ghost var read := wn.ipos;
    z' := FillReady(wn, ch, bm, z);
    crc' := SumRead(wn, table, crc, crcDone - (before - wn.strstart), read);
    crcDone' := wn.strstart + wn.lookahead;
  }

  lemma {:induction false} Constants()
    ensures MIN_MATCH == 3 && MIN_LOOKAHEAD == 262 && MAX_MATCH == 258 && CWSIZE == 32768 && SYMS == 16384
  {
  }

  lemma {:induction false} ReadyParts(wn: Window, ch: Chains, bm: BlockMaker, z: Lazy)
    requires Ready(wn, ch, bm, z)
    ensures wn.Valid() && bm.Valid() && Covers(wn, bm, wn.base + wn.strstart - Waiting(z.avail)) && bm.b.nsym < SYMS && (z.avail ==> wn.strstart >= 1)
    ensures wn.base + wn.strstart + wn.lookahead == wn.ipos <= |wn.input| && (wn.inDone ==> wn.ipos == |wn.input|)
  {
  }

  /** The compressor's loop: in the end all of the input is in the blocks, but for a last byte that
      may wait. */
  method Run(wn: Window, ch: Chains, bm: BlockMaker, table: CrcTable, e: Effort) returns (crc: word, avail: bool)
    requires Ready(wn, ch, bm, Lazy(2, 0, false)) && table.Valid() && wn.ipos == 0
    modifies wn, wn.win, ch, ch.head, ch.prev, bm, bm.w, bm.b, bm.b.symDist, bm.b.symLc, bm.b.litFreq, bm.b.distFreq
    ensures wn.Valid() && bm.Valid() && wn.base + wn.strstart == |wn.input| && Sums(crc, wn.input, |wn.input|)
    ensures Covers(wn, bm, |wn.input| - Waiting(avail)) && bm.b.nsym < SYMS && (avail ==> wn.strstart >= 1)
  {
    hide *;
    Constants();
    var z, crcDone := Lazy(MIN_MATCH - 1, 0, false), 0;
    crc := Repeat(false, 32);
    SumsNothing(wn.input);
    ReadyParts(wn, ch, bm, z);
    while true
      invariant Ready(wn, ch, bm, z) && table.Valid() && Sums(crc, wn.input, wn.ipos) && crcDone == wn.strstart + wn.lookahead
      invariant wn.base + wn.strstart <= |wn.input|
      decreases |wn.input| - wn.base - wn.strstart
    {
      if wn.lookahead < MIN_LOOKAHEAD {
        z, crc, crcDone := Refill(wn, ch, bm, table, z, crc, crcDone);
        if wn.lookahead == 0 {
          break;
        }
      }
      ReadyParts(wn, ch, bm, z);
      z := Step(wn, ch, bm, e, z);
    }
    avail := z.avail;
    ReadyParts(wn, ch, bm, z);
  }
}
