/** gzip.c's window over the input and its hash chains. */
module Window {
  import opened Bits

  const CWSIZE := 32768
  const HSIZE := 32768
  const MIN_LOOKAHEAD := 262
  const MAX_DIST := 32506
  const NIL := -1

  /** The first n bytes of the window are those of the input from base on. */
  ghost predicate Shows(win: seq<byte>, n: nat, input: seq<byte>, base: nat)
  {
    n <= |win| && base + n <= |input| && forall i :: 0 <= i < n ==> win[i] == input[base + i]
  }

  class Window {
    const input: seq<byte>
    const win: array<byte>
    /** How much of the input has been read. */
    var ipos: nat
    var inDone: bool
    var strstart: nat
    var blockStart: nat
    var lookahead: nat
    /** Where in the input the window starts. */
    ghost var base: nat

    ghost predicate Valid()
      reads this, win
    {
      && win.Length == 2 * CWSIZE && base % CWSIZE == 0
      && blockStart <= strstart
      && strstart + lookahead <= win.Length && ipos == base + strstart + lookahead
      && Shows(win[..], strstart + lookahead, input, base)
      && (inDone ==> ipos == |input|)
    }

    constructor (input: seq<byte>)
      ensures Valid() && fresh(win) && this.input == input && base + strstart == 0 && lookahead == 0 && blockStart == 0 && !inDone
    {
      this.input := input;
      win := new byte[2 * CWSIZE];
      ipos, inDone, strstart, blockStart, lookahead, base := 0, false, 0, 0, 0, 0;
    }

    /** n bytes are dealt with. */
    method Advance(n: nat)
      requires Valid() && n <= lookahead
      modifies this`strstart, this`lookahead
      ensures Valid() && strstart == old(strstart) + n && lookahead == old(lookahead) - n
    {
      strstart := strstart + n;
      lookahead := lookahead - n;
    }

    /** The window moves on by half its size. */
    method Slide()
      requires Valid() && blockStart >= CWSIZE
      modifies this, win
      ensures Valid() && base == old(base) + CWSIZE && strstart == old(strstart) - CWSIZE && blockStart == old(blockStart) - CWSIZE
      ensures lookahead == old(lookahead) && ipos == old(ipos) && inDone == old(inDone)
    {
      ghost var before := win[..];
      forall i | 0 <= i < CWSIZE {
        win[i] := win[i + CWSIZE];
      }
      SlideShows(before, win[..], strstart + lookahead, input, base);
      strstart := strstart - CWSIZE;
      blockStart := blockStart - CWSIZE;
      base := base + CWSIZE;
    }

    /** The next byte of the input, and then as much as the input buffer happens to hold. */
    method ReadOn(end: nat)
      requires Valid() && end == strstart + lookahead < 2 * CWSIZE && ipos < |input|
      modifies this`ipos, this`lookahead, win
      ensures Valid() && lookahead > old(lookahead)
    {
      ghost var before := win[..];
      var k :| 0 <= k <= |input| - ipos - 1 && k <= 2 * CWSIZE - end - 1;
      win[end] := input[ipos];
      forall i | 0 <= i < k {
        win[end + 1 + i] := input[ipos + 1 + i];
      }
      ReadShows(before, win[..], end, 1 + k, input, base);
      ipos := ipos + 1 + k;
      lookahead := lookahead + 1 + k;
    }

    /** The reading loop of fill: there is enough to look at now, or no more input. */
    method Read()
      requires Valid() && strstart < 2 * CWSIZE - MIN_LOOKAHEAD
      modifies this`ipos, this`lookahead, this`inDone, win
      ensures Valid() && (inDone || lookahead >= MIN_LOOKAHEAD)
      ensures ipos >= old(ipos)
    {
      while !inDone && lookahead < MIN_LOOKAHEAD
        invariant Valid() && ipos >= old(ipos)
        decreases !inDone, MIN_LOOKAHEAD - lookahead
      {
        var end := strstart + lookahead;
        if end >= 2 * CWSIZE {
          break;
        }
        if ipos == |input| {
          inDone := true;
          break;
        }
        ReadOn(end);
      }
    }
  }

  lemma {:induction false} ReadShows(win: seq<byte>, win': seq<byte>, n: nat, k: nat, input: seq<byte>, base: nat)
    requires Shows(win, n, input, base) && |win| == |win'| && n + k <= |win| && base + n + k <= |input|
    requires forall i :: 0 <= i < n ==> win'[i] == win[i]
    requires forall i :: n <= i < n + k ==> win'[i] == input[base + i]
    ensures Shows(win', n + k, input, base)
  {
  }

  lemma {:induction false} SlideShows(win: seq<byte>, win': seq<byte>, n: nat, input: seq<byte>, base: nat)
    requires Shows(win, n, input, base) && |win| == |win'| == 2 * CWSIZE && n >= CWSIZE
    requires forall i :: 0 <= i < CWSIZE ==> win'[i] == win[i + CWSIZE]
    ensures Shows(win', n - CWSIZE, input, base + CWSIZE)
  {
  }
}
