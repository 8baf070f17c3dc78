/** What codes mean without a table: each is a byte, or an earlier string and the first byte of the one
    after it; with CLEAR switched off, or between two of them. */
module LzwPhrases {
  import opened Bits
  import opened LzwFormat

  /** The first code that names a string. */
  function FirstString(block: bool): (c: nat)
    ensures 256 <= c <= FIRST
  {
    if block then FIRST else 256
  }

  /** Code c, after k others, stands for p. */
  ghost predicate Stands(bits: nat, block: bool, c: nat, ps: seq<seq<byte>>, k: nat)
    requires k < |ps|
  {
    ps[k] != []
    && if c < 256 then ps[k] == [c]
       else
         var i := c - FirstString(block);
         0 <= i < k && c < Pow2(bits) && ps[i + 1] != [] && ps[k] == ps[i] + [ps[i + 1][0]]
  }

  /** The codes stand for these strings. */
  ghost predicate Phrases(bits: nat, block: bool, cs: seq<nat>, ps: seq<seq<byte>>)
  {
    |cs| == |ps| && forall k :: 0 <= k < |cs| ==> Stands(bits, block, cs[k], ps, k)
  }

  /** The next new code after k codes. */
  function Free(bits: nat, block: bool, k: nat): nat
  {
    if FirstString(block) + k <= Pow2(bits) then FirstString(block) + k else Pow2(bits)
  }

  function Together(ps: seq<seq<byte>>): seq<byte>
  {
    if ps == [] then [] else ps[0] + Together(ps[1..])
  }

  /** The table has, for each string but the last, that string and the first byte of the next, as long as
      there is room. */
  ghost predicate Knows(bits: nat, block: bool, st: State, ps: seq<seq<byte>>, k: nat)
    requires k <= |ps|
  {
    GoodState(st)
    && if k == 0 then st.Start? || (block && st.cleared)
       else
         && st.Going? && !st.cleared && 256 + |st.dict| == Free(bits, block, k - 1)
         && ps[k - 1] != [] && Str(st.dict, st.prev) == ps[k - 1] && st.head == ps[k - 1][0]
         && AllEntries(st.dict, block, ps, k)
  }

  ghost predicate AllEntries(dict: seq<Entry>, block: bool, ps: seq<seq<byte>>, k: nat)
    requires Rooted(dict)
  {
    forall c: nat :: FirstString(block) <= c < 256 + |dict| ==> HasEntry(dict, block, c, ps, k)
  }

  /** Code c is the string of its number and a byte of the next, which was read. */
  ghost predicate HasEntry(dict: seq<Entry>, block: bool, c: nat, ps: seq<seq<byte>>, k: nat)
    requires Rooted(dict) && FirstString(block) <= c < 256 + |dict|
  {
    var j := c - FirstString(block);
    j + 1 < k <= |ps| && ps[j + 1] != [] && Str(dict, c) == ps[j] + [ps[j + 1][0]]
  }

  lemma {:induction false} FirstKnown(bits: nat, block: bool, st: State, c: nat, ps: seq<seq<byte>>) returns (st': State)
    requires 9 <= bits && ps != [] && Knows(bits, block, st, ps, 0) && Stands(bits, block, c, ps, 0)
    ensures GoodState(st) && Act(bits, block, st, c) == Next(st', ps[0], Free(bits, block, 0), false) && Knows(bits, block, st', ps, 1)
  {
    Pow2Monotonic(9, bits);
    Pow2Values();
    var dict := if st.Start? then (if block then [Entry(0, 0)] else []) else [Entry(0, c)];
    assert st.Going? ==> st.dict + [Entry(0, c)] == dict;
    st' := Going(dict, c, c, false);
  }

  /** The string of the next code. */
  lemma {:induction false} NextPiece(bits: nat, block: bool, st: State, c: nat, ps: seq<seq<byte>>, k: nat)
    requires 9 <= bits && 0 < k < |ps| && Knows(bits, block, st, ps, k) && Stands(bits, block, c, ps, k)
    ensures c <= 256 + |st.dict| && (c == 256 + |st.dict| ==> c < Pow2(bits)) && (block ==> c != CLEAR)
    ensures ps[k] == if c == 256 + |st.dict| then Str(st.dict, st.prev) + [st.head] else Str(st.dict, c)
  {
    hide Str, Pow2, FirstString;
    if c < 256 {
      ByteString(st.dict, c);
    } else if c < 256 + |st.dict| {
      KnownPiece(st.dict, block, c, ps, k, bits);
    } else {
      NewestPiece(bits, block, st, c, ps, k);
    }
  }

  lemma {:induction false} ByteString(dict: seq<Entry>, c: nat)
    requires Rooted(dict) && c < 256
    ensures Str(dict, c) == [c]
  {
  }

  lemma {:induction false} KnownPiece(dict: seq<Entry>, block: bool, c: nat, ps: seq<seq<byte>>, k: nat, bits: nat)
    requires Rooted(dict) && 256 <= c < 256 + |dict| && AllEntries(dict, block, ps, k) && k < |ps| && Stands(bits, block, c, ps, k)
    ensures Str(dict, c) == ps[k] && (block ==> c != CLEAR)
  {
    hide Str, Pow2;
    assert HasEntry(dict, block, c, ps, k);
  }

  /** The string of a code that is just being made. */
  lemma {:induction false} NewestPiece(bits: nat, block: bool, st: State, c: nat, ps: seq<seq<byte>>, k: nat)
    requires 9 <= bits && 0 < k < |ps| && Knows(bits, block, st, ps, k) && Stands(bits, block, c, ps, k) && c >= 256 + |st.dict|
    ensures c == 256 + |st.dict| < Pow2(bits) && (block ==> c != CLEAR) && ps[k] == ps[k - 1] + [ps[k - 1][0]]
  {
    hide Str, Pow2, AllEntries;
    var i := c - FirstString(block);
    assert i == k - 1;
    FirstOf(ps[k - 1], ps[k], ps[k][0]);
  }

  lemma {:induction false} FirstOf(p: seq<byte>, q: seq<byte>, b: byte)
    requires p != [] && q == p + [b] && b == q[0]
    ensures b == p[0]
  {
  }

  function More(bits: nat, st: State, b: byte): seq<Entry>
    requires st.Going?
  {
    if 256 + |st.dict| < Pow2(bits) then st.dict + [Entry(st.prev, b)] else st.dict
  }

  /** What a code makes of the table. */
  lemma {:induction false} NextKnown(bits: nat, block: bool, st: State, c: nat, ps: seq<seq<byte>>, k: nat) returns (st': State)
    requires 9 <= bits && 0 < k < |ps| && Knows(bits, block, st, ps, k) && Stands(bits, block, c, ps, k)
    ensures Act(bits, block, st, c) == Next(st', ps[k], Free(bits, block, k), false) && Knows(bits, block, st', ps, k + 1)
  {
    hide Str, Pow2, AllEntries;
    NextPiece(bits, block, st, c, ps, k);
    var dict := More(bits, st, ps[k][0]);
    st' := Going(dict, c, ps[k][0], false);
    Roots(bits, block, st, dict, c, ps, k);
    Sizes(bits, block, st, dict, ps, k);
    Grows(bits, block, st, dict, c, ps, k);
  }

  lemma {:induction false} Sizes(bits: nat, block: bool, st: State, dict: seq<Entry>, ps: seq<seq<byte>>, k: nat)
    requires 9 <= bits && 0 < k < |ps| && Knows(bits, block, st, ps, k) && ps[k] != [] && dict == More(bits, st, ps[k][0])
    ensures 256 + |dict| == Free(bits, block, k)
  {
  }

  lemma {:induction false} Roots(bits: nat, block: bool, st: State, dict: seq<Entry>, c: nat, ps: seq<seq<byte>>, k: nat)
    requires 9 <= bits && 0 < k < |ps| && Knows(bits, block, st, ps, k) && Stands(bits, block, c, ps, k) && dict == More(bits, st, ps[k][0])
    ensures Rooted(dict) && c < 256 + |dict| && Str(dict, c) == ps[k]
  {
    NextPiece(bits, block, st, c, ps, k);
    assert Rooted(dict);
    StrSame(st.dict, dict, st.prev);
    if c == 256 + |st.dict| {
      assert dict[c - 256] == Entry(st.prev, ps[k][0]);
    } else {
      StrSame(st.dict, dict, c);
    }
  }

  /** The new entry is the string before with the first byte of this one. */
  lemma {:induction false} Grows(bits: nat, block: bool, st: State, dict: seq<Entry>, c: nat, ps: seq<seq<byte>>, k: nat)
    requires 9 <= bits && 0 < k < |ps| && Knows(bits, block, st, ps, k) && ps[k] != [] && dict == More(bits, st, ps[k][0]) && Rooted(dict)
    ensures AllEntries(dict, block, ps, k + 1)
  {
    var k' := k + 1;
    forall e: nat | FirstString(block) <= e < 256 + |dict|
      ensures HasEntry(dict, block, e, ps, k')
    {
      if e < 256 + |st.dict| {
        assert HasEntry(st.dict, block, e, ps, k);
        StrSame(st.dict, dict, e);
      } else {
        StrSame(st.dict, dict, st.prev);
        assert dict[e - 256] == Entry(st.prev, ps[k][0]);
      }
    }
  }

  lemma {:induction false} KnowsGood(bits: nat, block: bool, st: State, ps: seq<seq<byte>>, k: nat)
    requires k <= |ps| && Knows(bits, block, st, ps, k)
    ensures GoodState(st)
  {
  }

  lemma {:induction false} OneKnown(bits: nat, block: bool, st: State, c: nat, ps: seq<seq<byte>>, k: nat) returns (st': State)
    requires 9 <= bits && k < |ps| && Knows(bits, block, st, ps, k) && Stands(bits, block, c, ps, k)
    ensures GoodState(st) && Act(bits, block, st, c) == Next(st', ps[k], Free(bits, block, k), false) && Knows(bits, block, st', ps, k + 1)
  {
    hide Act, Free, Stands, AllEntries, Str;
    if k == 0 {
      st' := FirstKnown(bits, block, st, c, ps);
    } else {
      st' := NextKnown(bits, block, st, c, ps, k);
    }
  }
}
