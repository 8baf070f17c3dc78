/** How the two dictionaries keep step: the compressor's, to which an entry is added when a code is
    written, and the decompressor's, which is one entry behind. */
module LzwSync {
  import opened Bits
  import opened LzwFormat

  /** The compressor's table as the decompressor numbers it: code 256, which is CLEAR, and then the
      strings. */
  function Whole(x: Entry, dict: seq<Entry>): seq<Entry>
  {
    [x] + dict
  }

  /** No string is built on CLEAR. */
  ghost predicate Grown(dict: seq<Entry>)
  {
    forall i :: 0 <= i < |dict| ==> dict[i].prefix < FIRST + i && dict[i].prefix != CLEAR
  }

  lemma {:induction false} WholeRooted(x: Entry, dict: seq<Entry>)
    requires x.prefix < 256 && Grown(dict)
    ensures Rooted(Whole(x, dict))
  {
  }

  /** The string of a code in the compressor's table. */
  ghost function Text(x: Entry, dict: seq<Entry>, c: nat): (s: seq<byte>)
    requires x.prefix < 256 && Grown(dict) && c < FIRST + |dict|
    ensures |s| >= 1
  {
    WholeRooted(x, dict);
    Str(Whole(x, dict), c)
  }

  /** The decompressor has the table that the compressor had when it wrote the last code; since then
      that code and the first byte of the string in hand, ent, have become an entry if there was room
      for it. */
  ghost predicate Behind(max: nat, st: State, x: Entry, dict: seq<Entry>, ent: nat)
  {
    && x.prefix < 256 && Grown(dict) && ent < FIRST + |dict| <= max && ent != CLEAR && GoodState(st)
    && match st
       case Start => dict == []
       case Going(known, prev, head, cleared) =>
         if cleared then dict == []
         else
           && prev != CLEAR && known != [] && known[0] == x
           && head == Str(known, prev)[0]
           && if 256 + |known| < max then dict == known[1..] + [Entry(prev, Text(x, dict, ent)[0])] else dict == known[1..]
  }

  // ---- strings ----

  lemma {:induction false} TextByte(x: Entry, dict: seq<Entry>, c: nat)
    requires x.prefix < 256 && Grown(dict) && c < 256
    ensures Text(x, dict, c) == [c]
  {
  }

  /** A string in the table and one byte more. */
  lemma {:induction false} TextEntry(x: Entry, dict: seq<Entry>, i: nat)
    requires x.prefix < 256 && Grown(dict) && i < |dict|
    ensures Text(x, dict, FIRST + i) == Text(x, dict, dict[i].prefix) + [dict[i].suffix]
    ensures Text(x, dict, FIRST + i)[0] == Text(x, dict, dict[i].prefix)[0]
  {
    WholeRooted(x, dict);
    assert Whole(x, dict)[FIRST + i - 256] == dict[i];
  }

  /** The string in hand goes on with c. */
  lemma {:induction false} Extended(max: nat, st: State, x: Entry, dict: seq<Entry>, ent: nat, i: nat, c: byte)
    requires Behind(max, st, x, dict, ent) && i < |dict| && dict[i] == Entry(ent, c)
    ensures Behind(max, st, x, dict, FIRST + i)
    ensures Text(x, dict, FIRST + i) == Text(x, dict, ent) + [c]
  {
    TextEntry(x, dict, i);
  }

  // ---- what the decompressor does with the compressor's codes ----

  /** The decompressor has read the code sent and has all of the compressor's table. */
  ghost predicate Sent(st: State, x: Entry, dict: seq<Entry>, sent: nat)
  {
    && x.prefix < 256 && Grown(dict) && sent < FIRST + |dict| && sent != CLEAR && GoodState(st)
    && st.Going? && !st.cleared && st.dict == Whole(x, dict) && st.prev == sent && st.head == Str(st.dict, sent)[0]
  }

  lemma {:induction false} FirstCode(bits: nat, st: State, x: Entry, ent: nat) returns (st': State, x': Entry)
    requires 9 <= bits && (st.Start? || (st.cleared && GoodState(st))) && x.prefix < 256 && ent < 256
    ensures Act(bits, true, st, ent) == Next(st', [ent], FIRST, false) && Sent(st', x', [], ent)
  {
    Pow2Monotonic(9, bits);
    Pow2Values();
    x' := if st.Start? then Entry(0, 0) else Entry(0, ent);
    assert [] + [x'] == [x'] == Whole(x', []);
    st' := Going([x'], ent, ent, false);
  }

  /** The newest code, which the decompressor does not have yet. */
  lemma {:induction false} NewestCode(bits: nat, st: State, x: Entry, dict: seq<Entry>, ent: nat) returns (st': State)
    requires Behind(Pow2(bits), st, x, dict, ent) && st.Going? && !st.cleared && ent == 256 + |st.dict| < Pow2(bits)
    ensures Act(bits, true, st, ent) == Next(st', Text(x, dict, ent), FIRST + |dict|, false) && Sent(st', x, dict, ent)
  {
    var known := st.dict;
    assert known == [x] + known[1..];
    var a := Text(x, dict, ent)[0];
    assert Whole(x, dict) == known + [Entry(st.prev, a)];
    WholeRooted(x, dict);
    StrSame(known, Whole(x, dict), st.prev);
    assert Text(x, dict, ent) == Str(known, st.prev) + [a];
    assert a == Str(known, st.prev)[0];
    st' := Going(Whole(x, dict), ent, a, false);
  }

  /** A code that the decompressor has. */
  lemma {:induction false} KnownCode(bits: nat, st: State, x: Entry, dict: seq<Entry>, ent: nat) returns (st': State)
    requires Behind(Pow2(bits), st, x, dict, ent) && st.Going? && !st.cleared && ent < 256 + |st.dict|
    ensures Act(bits, true, st, ent) == Next(st', Text(x, dict, ent), FIRST + |dict|, false) && Sent(st', x, dict, ent)
  {
    var known := st.dict;
    assert known == [x] + known[1..];
    WholeRooted(x, dict);
    var a := Text(x, dict, ent)[0];
    if 256 + |known| < Pow2(bits) {
      assert Whole(x, dict) == known + [Entry(st.prev, a)];
    } else {
      assert Whole(x, dict) == known;
    }
    StrSame(known, Whole(x, dict), ent);
    st' := Going(Whole(x, dict), ent, a, false);
  }

  /** A code of the compressor's is read as its string, and the tables are the same then. */
  lemma {:induction false} CodeRead(bits: nat, st: State, x: Entry, dict: seq<Entry>, ent: nat) returns (st': State, x': Entry)
    requires 9 <= bits && Behind(Pow2(bits), st, x, dict, ent)
    ensures Act(bits, true, st, ent) == Next(st', Text(x, dict, ent), FIRST + |dict|, false) && Sent(st', x', dict, ent)
  {
    if st.Start? || st.cleared {
      TextByte(x, dict, ent);
      st', x' := FirstCode(bits, st, x, ent);
    } else {
      x' := x;
      if ent < 256 + |st.dict| {
        st' := KnownCode(bits, st, x, dict, ent);
      } else {
        st' := NewestCode(bits, st, x, dict, ent);
      }
    }
  }

  /** Then an entry is added, or the table is full, or it is cleared. */
  lemma {:induction false} AddedBehind(max: nat, st: State, x: Entry, dict: seq<Entry>, sent: nat, c: byte)
    requires Sent(st, x, dict, sent) && FIRST + |dict| < max
    ensures Behind(max, st, x, dict + [Entry(sent, c)], c)
  {
    var more := dict + [Entry(sent, c)];
    assert Whole(x, dict)[1..] == dict;
    TextByte(x, more, c);
  }

  lemma {:induction false} FullBehind(max: nat, st: State, x: Entry, dict: seq<Entry>, sent: nat, c: byte)
    requires Sent(st, x, dict, sent) && FIRST + |dict| == max
    ensures Behind(max, st, x, dict, c)
  {
    assert Whole(x, dict)[1..] == dict;
  }

  lemma {:induction false} ClearRead(bits: nat, st: State, x: Entry, dict: seq<Entry>, sent: nat, c: byte) returns (st': State)
    requires 9 <= bits && Sent(st, x, dict, sent)
    ensures Act(bits, true, st, CLEAR) == Next(st', [], 256, true) && Behind(Pow2(bits), st', x, [], c)
  {
    Pow2Monotonic(9, bits);
    Pow2Values();
    st' := Going([], sent, st.head, true);
  }
}
