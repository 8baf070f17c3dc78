/** gzip.c's output window: the last 32768 bytes made, written out and summed a window at a time. */
module OutWindow {
  import opened Arith
  import opened Bits
  import opened Crc
  import opened Deflate

  /** The window w, of which j % WSIZE holds byte j, has the last bytes of made. */
  ghost predicate Keeps(w: seq<byte>, made: seq<byte>)
  {
    |w| == WSIZE && forall j :: 0 <= j < |made| && |made| <= j + WSIZE ==> w[j % WSIZE] == made[j]
  }

  lemma {:induction false} KeepsMore(w: seq<byte>, made: seq<byte>, c: byte)
    requires Keeps(w, made)
    ensures Keeps(w[|made| % WSIZE := c], made + [c])
  {
    var w' := w[|made| % WSIZE := c];
    forall j | 0 <= j < |made| + 1 && |made| + 1 <= j + WSIZE
      ensures w'[j % WSIZE] == (made + [c])[j]
    {
      if j < |made| {
        WindowSlotsDiffer(j, |made|);
      }
    }
  }

  /** The bytes not written yet are the first in the window. */
  lemma {:induction false} UnwrittenBytes(w: seq<byte>, made: seq<byte>, n: nat)
    requires Keeps(w, made) && n <= |made| && n <= WSIZE && (|made| - n) % WSIZE == 0
    ensures Same(w[..n], made[|made| - n..])
  {
    var base := |made| - n;
    forall i | 0 <= i < n ensures w[i] == made[base + i] {
      SlotOf(base, i);
    }
    assert w[..n] == made[base..];
  }

  /** The first n bytes of made have been written, after before, and are in the CRC. */
  ghost predicate Written(crc: word, out: seq<byte>, before: seq<byte>, made: seq<byte>, n: int)
  {
    0 <= n <= |made| && Same(crc, Crc32(made[..n])) && Same(out, before + made[..n])
  }

  lemma {:induction false} NothingWritten(before: seq<byte>)
    ensures Written(Repeat(false, 32), before, before, [], 0)
  {
    assert Unpack([]) == [];
    assert Not(Not(Repeat(false, 32))) == Repeat(false, 32);
    assert before + [][..0] == before;
  }

  lemma {:induction false} MoreWritten(crc: word, out: seq<byte>, before: seq<byte>, made: seq<byte>, n: nat, piece: seq<byte>, crc': word, out': seq<byte>)
    requires Written(crc, out, before, made, n) && n <= |made| && Same(piece, made[n..])
    requires Same(crc', Not(Divide(Poly(), Not(crc), Unpack(piece)))) && Same(out', out + piece)
    ensures Written(crc', out', before, made, |made|)
  {
    hide Crc32, Unpack, Divide, Not;
    CrcConcat(made[..n], made[n..]);
    assert made[..n] + made[n..] == made[..|made|];
    assert (before + made[..n]) + made[n..] == before + made[..|made|];
  }

  lemma {:induction false} StillWritten(crc: word, out: seq<byte>, before: seq<byte>, made: seq<byte>, c: byte, n: int)
    requires Written(crc, out, before, made, n)
    ensures Written(crc, out, before, made + [c], n)
  {
    assert (made + [c])[..n] == made[..n];
  }

  lemma {:induction false} AllWritten(crc: word, out: seq<byte>, before: seq<byte>, made: seq<byte>)
    requires Written(crc, out, before, made, |made|)
    ensures Same(crc, Crc32(made)) && Same(out, before + made)
  {
    assert made[..|made|] == made;
  }

  /** w bytes of the window are not written yet. */
  ghost predicate Placed(m: nat, w: nat)
  {
    w <= m && w <= WSIZE && (m - w) % WSIZE == 0
  }

  class OutWindow {
    const table: CrcTable
    const window: array<byte>
    var wpos: nat
    var total: nat
    var crc: word
    /** All that has been written. */
    var out: seq<byte>
    /** What members before have given, and what this one has made. */
    ghost var before: seq<byte>
    ghost var made: seq<byte>

    /** The window may be full. */
    ghost predicate Holds()
      reads this, window, table.table
    {
      && table.Valid() && window.Length == WSIZE && total == |made| && Placed(|made|, wpos) && Keeps(window[..], made)
      && Written(crc, out, before, made, |made| - wpos)
    }

    ghost predicate Valid()
      reads this, window, table.table
    {
      Holds() && wpos < WSIZE
    }

    constructor ()
      ensures Valid() && fresh(window) && fresh(table) && fresh(table.table) && before == made == [] && Flushed()
    {
      table := new CrcTable();
      window := new byte[WSIZE];
      wpos, total, crc, out, before, made := 0, 0, Repeat(false, 32), [], [], [];
      new;
      hide Repeat, Crc32, Unpack, Divide;
      NothingWritten([]);
    }

    /** All of the member is written. */
    ghost predicate Flushed()
      reads this, window, table.table
    {
      table.Valid() && window.Length == WSIZE && total == |made| && wpos == 0 && Written(crc, out, before, made, |made|)
    }

    /** A member starts. */
    method Start()
      requires Flushed()
      modifies this
      ensures Valid() && made == [] && Same(before, old(before) + old(made))
    {
      AllWritten(crc, out, before, made);
      before := before + made;
      wpos, total, crc := 0, 0, Repeat(false, 32);
      made := [];
      NothingWritten(before);
    }

    /** flush_window. */
    method FlushWindow()
      requires Holds()
      modifies this`crc, this`out, this`wpos
      ensures Flushed() && Keeps(window[..], made)
    {
      hide Keeps, Written, Unpack, Divide, Crc32, Not;
      UnwrittenBytes(window[..], made, wpos);
      var piece := window[..wpos];
      var crc' := table.Update(crc, piece);
      MoreWritten(crc, out, before, made, |made| - wpos, piece, crc', out + piece);
      crc := crc';
      out := out + piece;
      wpos := 0;
    }

    method PutByte(c: byte)
      requires Valid()
      modifies this, window
      ensures Valid() && made == old(made) + [c] && before == old(before)
    {
      hide Keeps, Written, Unpack, Divide, Crc32;
      Slot(|made|, wpos);
      KeepsMore(window[..], made, c);
      StillWritten(crc, out, before, made, c, |made| - wpos);
      window[wpos] := c;
      wpos := wpos + 1;
      total := total + 1;
      made := made + [c];
      if wpos == WSIZE {
        WholeWindows(|made|);
        FlushWindow();
      }
    }

    /** The byte d back. */
    method Back(d: nat) returns (c: byte)
      requires Valid() && 1 <= d <= |made| && d <= WSIZE
      ensures c == made[|made| - d]
    {
      hide Written, Unpack;
      BackSlot(|made|, wpos, d);
      c := window[(wpos + WSIZE - d) % WSIZE];
      Kept(window[..], made, |made| - d);
    }
  }

  lemma {:induction false} Kept(w: seq<byte>, made: seq<byte>, j: nat)
    requires Keeps(w, made) && j < |made| <= j + WSIZE
    ensures w[j % WSIZE] == made[j]
  {
  }

  lemma {:induction false} WholeWindows(m: nat)
    requires Placed(m, WSIZE)
    ensures Placed(m, 0)
  {
  }

  lemma {:induction false} Slot(m: nat, w: nat)
    requires Placed(m, w) && w < WSIZE
    ensures m % WSIZE == w
  {
  }

  lemma {:induction false} BackSlot(m: nat, w: nat, d: nat)
    requires Placed(m, w) && w < WSIZE && 1 <= d <= m && d <= WSIZE
    ensures (w + WSIZE - d) % WSIZE == (m - d) % WSIZE
  {
    Slot(m, w);
  }
}
