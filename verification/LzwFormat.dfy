/** The .Z format as lzw.c reads it: codes that name strings, in groups of eight of one width, as a
    function from the bits that remain. */
module LzwFormat {
  import opened Bits

  const CLEAR := 256
  const FIRST := 257
  const INIT_BITS := 9

  // ---- the table of strings ----

  /** The string of another code and one byte more. */
  datatype Entry = Entry(prefix: nat, suffix: byte)

  /** The table holds the codes from 256 on; each builds on an earlier one. */
  ghost predicate Rooted(dict: seq<Entry>)
  {
    forall i :: 0 <= i < |dict| ==> dict[i].prefix < 256 + i
  }

  /** The string of a code. */
  ghost function Str(dict: seq<Entry>, c: nat): (s: seq<byte>)
    requires Rooted(dict) && c < 256 + |dict|
    ensures 1 <= |s| <= if c < 256 then 1 else c - 254
    decreases c
  {
    if c < 256 then [c] else Str(dict, dict[c - 256].prefix) + [dict[c - 256].suffix]
  }

  lemma {:induction false} StrSame(dict: seq<Entry>, more: seq<Entry>, c: nat)
    requires Rooted(dict) && Rooted(more) && dict <= more && c < 256 + |dict|
    ensures Str(more, c) == Str(dict, c)
    decreases c
  {
    if c >= 256 {
      StrSame(dict, more, dict[c - 256].prefix);
    }
  }

  // ---- widths and groups ----

  /** The width of a code, the largest free code for which it does, and how far into a group of
      eight codes the stream is. */
  datatype Width = Width(n: nat, m: nat, off: nat)

  function StartWidth(): Width
  {
    Width(INIT_BITS, Pow2(INIT_BITS) - 1, 0)
  }

  /** A code further. */
  function Advance(w: Width): Width
  {
    w.(off := if w.off + w.n == 8 * w.n then 0 else w.off + w.n)
  }

  /** The width for the next code, when free is the next new code or the table was just cleared. */
  function Settle(w: Width, bits: nat, free: nat, clear: bool): Width
  {
    if clear then StartWidth()
    else if free > w.m then Width(w.n + 1, if w.n + 1 == bits then Pow2(bits) else Pow2(w.n + 1) - 1, 0)
    else w
  }

  /** How much of a group is left out when the width changes. */
  function Unused(w: Width, free: nat, clear: bool): (k: nat)
  {
    if (clear || free > w.m) && 0 < w.off < 8 * w.n then 8 * w.n - w.off else 0
  }

  /** In a group of eight codes. */
  ghost predicate InGroup(off: nat, n: nat)
  {
    off == 0 || off == n || off == 2 * n || off == 3 * n || off == 4 * n || off == 5 * n || off == 6 * n || off == 7 * n
  }

  /** A width that the compressor and the decompressor can come to. */
  ghost predicate GoodWidth(w: Width, bits: nat)
  {
    && 9 <= bits <= 16 && 9 <= w.n <= 16 && InGroup(w.off, w.n)
    && (w.m == Pow2(w.n) - 1 || (w.n == bits && w.m == Pow2(bits)))
    && (w.n <= bits || w.n == 10)
    && (w.n == bits ==> w.m == Pow2(bits) || bits == 9)
  }

  lemma {:induction false} AdvanceGood(w: Width, bits: nat)
    requires GoodWidth(w, bits)
    ensures GoodWidth(Advance(w), bits) && w.off + w.n <= 8 * w.n
  {
  }

  lemma {:induction false} SettleGood(w: Width, bits: nat, free: nat, clear: bool)
    requires GoodWidth(w, bits) && free <= Pow2(bits)
    ensures GoodWidth(Settle(w, bits, free, clear), bits)
  {
    hide Pow2;
    Pow2Values();
    if free > w.m && !clear {
      assert w.m == Pow2(w.n) - 1 && Pow2(w.n) <= Pow2(bits);
      if w.n > bits {
        assert false;
      }
    }
  }

  // ---- decoding ----

  datatype Error = UnexpectedEof | UnknownFlags | UnsupportedSize | CorruptInput | NotModelled

  datatype State =
    /** No code has been read. */
    | Start
    /** The last code and the first byte of its string; or CLEAR was just read. */
    | Going(dict: seq<Entry>, prev: nat, head: byte, cleared: bool)

  ghost predicate GoodState(st: State)
  {
    st.Going? ==> Rooted(st.dict) && (if st.cleared then st.dict == [] else st.prev < 256 + |st.dict|)
  }

  datatype Action = Bad(error: Error) | Next(st: State, piece: seq<byte>, free: nat, clear: bool)

  /** What a code does.  Two kinds of malformed input are NotModelled here: a second CLEAR right after
      a CLEAR, and the next new code when the table is full. */
  ghost function Act(bits: nat, block: bool, st: State, c: nat): (a: Action)
    requires GoodState(st)
    ensures a.Next? ==> GoodState(a.st)
  {
    match st
    case Start =>
      if c >= 256 then Bad(CorruptInput)
      else
        var dict := if block then [Entry(0, 0)] else [];
        Next(Going(dict, c, c, false), [c], 256 + |dict|, false)
    case Going(dict, prev, head, cleared) =>
      if c == CLEAR && block && !cleared then Next(Going([], prev, head, true), [], 256, true)
      else if c > 256 + |dict| then Bad(CorruptInput)
      else if c == 256 + |dict| && (cleared || c >= Pow2(bits)) then Bad(NotModelled)
      else
        var piece := if c == 256 + |dict| then Str(dict, prev) + [head] else Str(dict, c);
        // in block mode 256 is CLEAR, and the entry that comes there is never used
        var dict' := if 256 + |dict| < Pow2(bits) then dict + [Entry(if cleared then 0 else prev, piece[0])] else dict;
        Next(Going(dict', c, piece[0], false), piece, 256 + |dict'|, false)
  }

  /** What has been decompressed when the input ends, or up to an error. */
  datatype Result = Done(out: seq<byte>) | Failed(error: Error, out: seq<byte>)

  function Drop(s: seq<bool>, k: nat): (r: seq<bool>)
    ensures |r| <= |s|
  {
    if k <= |s| then s[k..] else []
  }

  /** Reading to the end of the input.  A group of one byte, which is less than a code, is NotModelled,
      too. */
  ghost function Decode(bits: nat, block: bool, w: Width, st: State, s: seq<bool>, out: seq<byte>): Result
    requires GoodState(st) && w.n > 0
    decreases |s|
  {
    if |s| < w.n then
      if w.off == 0 && |s| == 8 then Failed(NotModelled, out) else Done(out)
    else
      match Act(bits, block, st, FromBits(s[..w.n]))
      case Bad(e) => Failed(e, out)
      case Next(st', piece, free, clear) =>
        var w' := Advance(w);
        Decode(bits, block, Settle(w', bits, free, clear), st', Drop(s[w.n..], Unused(w', free, clear)), out + piece)
  }

  /** A .Z file after its magic number. */
  ghost function Uncompressed(file: seq<byte>): Result
  {
    if file == [] then Failed(UnexpectedEof, [])
    else
      var bits, block := file[0] % 32, file[0] >= 128;
      if file[0] / 32 % 4 != 0 then Failed(UnknownFlags, [])
      else if bits < INIT_BITS || bits > 16 then Failed(UnsupportedSize, [])
      else Decode(bits, block, StartWidth(), Start, Unpack(file[1..]), [])
  }
}
