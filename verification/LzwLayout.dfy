/** Where the codes of a .Z file stand: each width takes up whole groups of eight codes, and so does what
    comes before a CLEAR. */
module LzwLayout {
  import opened Arith
  import opened Bits
  import opened LzwFormat
  import opened LzwPhrases

  // ---- widths ----

  /** Codes grow to the largest width; if that is nine, to ten. */
  function Top(bits: nat): nat
  {
    if bits > 9 then bits else 10
  }

  /** n bits, or as many more as it takes to write f, but at most top. */
  function Wide(n: nat, f: int, top: nat): (w: nat)
    ensures w >= n
    decreases top - n
  {
    if n >= top || f < Pow2(n) then n else Wide(n + 1, f, top)
  }

  /** The width of code k since the table was cleared: nine bits at least, and enough for the newest code
      that there can be. */
  function WidthOf(bits: nat, block: bool, k: nat): (n: nat)
    ensures n >= 9
  {
    Wide(9, FirstString(block) + k - 1, Top(bits))
  }

  lemma {:induction false} PowIsMore(n: nat)
    requires n >= 9
    ensures Pow2(n) >= 512
  {
    Pow2Values();
    Pow2Monotonic(9, n);
  }

  /** The first code with n bits. */
  function StartOf(block: bool, n: nat): (k: nat)
    ensures n <= 9 ==> k == 0
  {
    if n <= 9 then 0 else
      PowIsMore(n - 1);
      Pow2(n - 1) + 1 - FirstString(block)
  }

  /** So many bits are the groups of eight for n codes of w bits. */
  function Groups(n: nat, w: nat): nat
  {
    (n + 7) / 8 * (8 * w)
  }

  /** How far into a group of eight codes of w bits the n-th is, and how far after the first. */
  function Off(n: nat, w: nat): nat
  {
    n % 8 * w
  }

  function Span(n: nat, w: nat): nat
  {
    n * w
  }

  /** The bit at which the codes of n bits begin. */
  function BitStart(block: bool, n: nat): nat
  {
    if n <= 9 then 0 else
      StartsGrow(block, n - 1);
      BitStart(block, n - 1) + Groups(StartOf(block, n) - StartOf(block, n - 1), n - 1)
  }

  lemma {:induction false} StartsGrow(block: bool, n: nat)
    requires n >= 9
    ensures StartOf(block, n) < StartOf(block, n + 1)
  {
    Pow2Values();
    Pow2Monotonic(9, n);
  }

  /** f takes n bits, if these are more than nine, and no more, if these are less than the most. */
  ghost predicate IsWidth(n: nat, f: int, top: nat)
  {
    9 <= n <= top && (n > 9 ==> f >= Pow2(n - 1)) && (n < top ==> f < Pow2(n))
  }

  lemma {:induction false} WideBounds(n: nat, f: int, top: nat)
    requires 9 <= n <= top && (n > 9 ==> f >= Pow2(n - 1))
    ensures IsWidth(Wide(n, f, top), f, top)
    decreases top - n
  {
    if !(n >= top || f < Pow2(n)) {
      WideBounds(n + 1, f, top);
    }
  }

  lemma {:induction false} StartBelow(block: bool, n: nat, k: nat, top: nat)
    requires IsWidth(n, FirstString(block) + k - 1, top)
    ensures StartOf(block, n) <= k
  {
  }

  lemma {:induction false} WidthBounds(bits: nat, block: bool, k: nat)
    ensures IsWidth(WidthOf(bits, block, k), FirstString(block) + k - 1, Top(bits)) && StartOf(block, WidthOf(bits, block, k)) <= k
  {
    hide StartOf, IsWidth, FirstString;
    WideBounds(9, FirstString(block) + k - 1, Top(bits));
    StartBelow(block, WidthOf(bits, block, k), k, Top(bits));
  }

  lemma {:induction false} OneWidth(n: nat, w: nat, f: int, top: nat)
    requires IsWidth(n, f, top) && IsWidth(w, f, top)
    ensures n == w
  {
    if w < n {
      Pow2Monotonic(w, n - 1);
    } else if n < w {
      Pow2Monotonic(n, w - 1);
    }
  }

  lemma {:induction false} WidthIs(bits: nat, block: bool, k: nat, n: nat)
    requires IsWidth(n, FirstString(block) + k - 1, Top(bits))
    ensures WidthOf(bits, block, k) == n
  {
    hide IsWidth, WidthOf;
    WidthBounds(bits, block, k);
    OneWidth(n, WidthOf(bits, block, k), FirstString(block) + k - 1, Top(bits));
  }

  // ---- the state of the reader ----

  /** How many codes of the width of code k come before it. */
  function Within(bits: nat, block: bool, k: nat): nat
  {
    WidthBounds(bits, block, k);
    k - StartOf(block, WidthOf(bits, block, k))
  }

  /** Code k of those of its width begins here. */
  function Place(bits: nat, block: bool, k: nat): nat
  {
    BitStart(block, WidthOf(bits, block, k)) + Span(Within(bits, block, k), WidthOf(bits, block, k))
  }

  /** Where the group ends in which code k stands. */
  function GroupEnd(bits: nat, block: bool, k: nat): nat
  {
    BitStart(block, WidthOf(bits, block, k)) + Groups(Within(bits, block, k) + 1, WidthOf(bits, block, k))
  }

  function Largest(bits: nat, n: nat): nat
  {
    if n == bits && bits > 9 then Pow2(bits) else Pow2(n) - 1
  }

  /** The width and the place in a group at which the reader is before code k. */
  function At(bits: nat, block: bool, k: nat): Width
  {
    Width(WidthOf(bits, block, k), Largest(bits, WidthOf(bits, block, k)), Off(Within(bits, block, k), WidthOf(bits, block, k)))
  }

  lemma {:induction false} AtStart(bits: nat, block: bool)
    requires 9 <= bits <= 16
    ensures At(bits, block, 0) == StartWidth() && Place(bits, block, 0) == 0
  {
    Pow2Values();
  }

  /** A code more: the width is the same, or it is full and there is one bit more. */
  lemma {:induction false} WidthNext(n: nat, f: int, top: nat)
    requires IsWidth(n, f - 1, top)
    ensures if n < top && f >= Pow2(n) then f == Pow2(n) && IsWidth(n + 1, f, top) else IsWidth(n, f, top)
  {
  }

  /** When that is so, for the bounds that the reader has. */
  lemma {:induction false} FullIs(bits: nat, n: nat, f: nat)
    requires 9 <= bits <= 16 && 9 <= n <= Top(bits)
    ensures (if f <= Pow2(bits) then f else Pow2(bits)) > Largest(bits, n) <==> n < Top(bits) && f >= Pow2(n)
  {
    PowersApart(n, bits);
    hide Pow2;
  }

  lemma {:induction false} InRange(n: nat, f: int, top: nat)
    requires IsWidth(n, f, top)
    ensures 9 <= n <= top
  {
  }

  /** Whether the width grows after code k. */
  lemma {:induction false} Change(bits: nat, block: bool, k: nat)
    requires 9 <= bits <= 16
    ensures var n := WidthOf(bits, block, k);
      if Free(bits, block, k) > At(bits, block, k).m
      then n < Top(bits) && WidthOf(bits, block, k + 1) == n + 1 && StartOf(block, n + 1) == k + 1
      else WidthOf(bits, block, k + 1) == n
  {
    hide WidthOf, Pow2, StartOf, FirstString, IsWidth, Largest, Within, Off, Top;
    var n, f := WidthOf(bits, block, k), FirstString(block) + k;
    WidthBounds(bits, block, k);
    InRange(n, f - 1, Top(bits));
    WidthNext(n, f, Top(bits));
    FullIs(bits, n, f);
    if n < Top(bits) && f >= Pow2(n) {
      WidthIs(bits, block, k + 1, n + 1);
      StartsAt(block, n + 1, k + 1);
    } else {
      WidthIs(bits, block, k + 1, n);
    }
  }

  lemma {:induction false} PowersApart(n: nat, bits: nat)
    requires 9 <= n && 9 <= bits <= 16
    ensures Pow2(n + 1) == 2 * Pow2(n) && Pow2(n) >= 512 && (n < bits ==> Pow2(n) < Pow2(bits)) && (bits == 9 && n >= 10 ==> Pow2(bits) < Pow2(n))
  {
    Pow2Values();
    Pow2Monotonic(9, n);
    if n < bits {
      Pow2Monotonic(n + 1, bits);
    }
    if bits == 9 && n >= 10 {
      Pow2Monotonic(10, n);
    }
  }

  lemma {:induction false} StartsAt(block: bool, n: nat, k: nat)
    requires n >= 10 && FirstString(block) + k - 1 == Pow2(n - 1)
    ensures StartOf(block, n) == k
  {
  }

  // ---- groups ----

  /** A code further in its group. */
  lemma {:induction false} Further(j: nat, n: nat)
    requires n > 0
    ensures (if Off(j, n) + n == 8 * n then 0 else Off(j, n) + n) == Off(j + 1, n) < 8 * n
    ensures Span(j + 1, n) == Span(j, n) + n
  {
    var r := j % 8;
    assert r * n + n == (r + 1) * n;
    assert (j + 1) * n == j * n + n;
    if r == 7 {
      assert (j + 1) % 8 == 0;
    } else {
      assert (j + 1) % 8 == r + 1;
      MulNext(r + 1, 8, n);
      MulMono(0, r + 1, n);
    }
  }

  /** What is left out of the last group of c codes. */
  lemma {:induction false} LeftOut(c: nat, n: nat)
    requires n > 0
    ensures Groups(c, n) == Span(c, n) + if 0 < Off(c, n) < 8 * n then 8 * n - Off(c, n) else 0
  {
    var q, r := c / 8, c % 8;
    LeftOutBy(c, q, r, n);
    if r == 0 {
      assert (c + 7) / 8 == q;
    } else {
      assert (c + 7) / 8 == q + 1;
      MulNext(r, 8, n);
      MulMono(1, r, n);
    }
  }

  lemma {:induction false} LeftOutBy(c: nat, q: nat, r: nat, n: nat)
    requires c == 8 * q + r
    ensures c * n == q * (8 * n) + r * n && (q + 1) * (8 * n) == q * (8 * n) + 8 * n
  {
  }

  // ---- one code further ----

  lemma {:induction false} WithinNext(bits: nat, block: bool, k: nat)
    ensures WidthOf(bits, block, k + 1) == WidthOf(bits, block, k) ==> Within(bits, block, k + 1) == Within(bits, block, k) + 1
    ensures StartOf(block, WidthOf(bits, block, k + 1)) == k + 1 ==> Within(bits, block, k + 1) == 0
  {
    hide WidthOf, StartOf;
  }

  lemma {:induction false} GrownStart(bits: nat, block: bool, k: nat, n: nat)
    requires n == WidthOf(bits, block, k) && StartOf(block, n + 1) == k + 1
    ensures BitStart(block, n + 1) == BitStart(block, n) + Groups(Within(bits, block, k) + 1, n)
  {
    hide Groups, StartOf, WidthOf;
  }

  lemma {:induction false} NoneOff(n: nat)
    ensures Off(0, n) == 0 && Span(0, n) == 0
  {
  }

  lemma {:induction false} Settled(w: Width, n: nat, bits: nat, free: nat, off: nat)
    requires w == Width(n, Largest(bits, n), off) && 9 <= n
    ensures Settle(w, bits, free, false) == if free > w.m then Width(n + 1, Largest(bits, n + 1), 0) else w
    ensures Unused(w, free, false) == if free > w.m && 0 < off < 8 * n then 8 * n - off else 0
  {
    hide Pow2;
  }

  /** After code k the reader is before code k + 1. */
  lemma {:induction false} CodeAfter(bits: nat, block: bool, k: nat)
    requires 9 <= bits <= 16
    ensures var w, free := Advance(At(bits, block, k)), Free(bits, block, k);
      && Settle(w, bits, free, false) == At(bits, block, k + 1)
      && Place(bits, block, k) + WidthOf(bits, block, k) + Unused(w, free, false) == Place(bits, block, k + 1)
  {
    hide WidthOf, Within, Largest, BitStart, Groups, Span, Off, StartOf, Settle, Unused, Free;
    var n, j, free := WidthOf(bits, block, k), Within(bits, block, k), Free(bits, block, k);
    Change(bits, block, k);
    Further(j, n);
    LeftOut(j + 1, n);
    WithinNext(bits, block, k);
    var w := Width(n, Largest(bits, n), Off(j + 1, n));
    assert Advance(At(bits, block, k)) == w;
    Settled(w, n, bits, free, Off(j + 1, n));
    if free > w.m {
      GrownStart(bits, block, k, n);
      NoneOff(n + 1);
    }
  }

  /** After a CLEAR the rest of its group is left out. */
  lemma {:induction false} Cleared(bits: nat, block: bool, k: nat, free: nat)
    requires 9 <= bits <= 16
    ensures var w := Advance(At(bits, block, k));
      && Settle(w, bits, free, true) == StartWidth()
      && Place(bits, block, k) + WidthOf(bits, block, k) + Unused(w, free, true) == GroupEnd(bits, block, k)
  {
    hide WidthOf, Within, Largest, BitStart, Groups, Span, Off, StartOf;
    var n, j := WidthOf(bits, block, k), Within(bits, block, k);
    Further(j, n);
    LeftOut(j + 1, n);
  }

  // ---- files ----

  /** Codes between two CLEARs, or the ends of the file, and the strings that they stand for. */
  datatype Stretch = Stretch(cs: seq<nat>, ps: seq<seq<byte>>)

  ghost predicate CodeAt(bits: nat, block: bool, s: seq<bool>, k: nat, c: nat)
  {
    var p, n := Place(bits, block, k), WidthOf(bits, block, k);
    p + n <= |s| && FromBits(s[p..p + n]) == c
  }

  ghost predicate AllAt(bits: nat, block: bool, s: seq<bool>, cs: seq<nat>)
  {
    forall k :: 0 <= k < |cs| ==> CodeAt(bits, block, s, k, cs[k])
  }

  /** There is no code k any more, nor a group of one byte. */
  ghost predicate NoneAt(bits: nat, block: bool, s: seq<bool>, k: nat)
  {
    && |s| < Place(bits, block, k) + WidthOf(bits, block, k)
    && !(|s| == Place(bits, block, k) + 8 && Within(bits, block, k) % 8 == 0)
  }

  /** The bits are those of stretches; after each but the last there is a CLEAR, with the rest of its
      group. */
  ghost predicate Laid(bits: nat, block: bool, zs: seq<Stretch>, s: seq<bool>)
    decreases |zs|
  {
    && zs != [] && Phrases(bits, block, zs[0].cs, zs[0].ps) && AllAt(bits, block, s, zs[0].cs)
    && if |zs| == 1 then NoneAt(bits, block, s, |zs[0].cs|)
       else
         && block && zs[0].cs != [] && CodeAt(bits, block, s, |zs[0].cs|, CLEAR)
         && Laid(bits, block, zs[1..], Drop(s, GroupEnd(bits, block, |zs[0].cs|)))
  }

  function AllTogether(zs: seq<Stretch>): seq<byte>
  {
    if zs == [] then [] else Together(zs[0].ps) + AllTogether(zs[1..])
  }

  lemma {:induction false} DropTwice(s: seq<bool>, p: nat, n: nat, u: nat)
    requires p + n <= |s|
    ensures |Drop(s, p)| >= n && Drop(s, p)[..n] == s[p..p + n] && Drop(Drop(s, p)[n..], u) == Drop(s, p + n + u)
  {
    assert s[p..][n..] == s[p + n..];
  }

  lemma {:induction false} DecodeStep(bits: nat, block: bool, w: Width, st: State, s: seq<bool>, out: seq<byte>, c: nat,
                                      st': State, piece: seq<byte>, free: nat, clear: bool)
    requires GoodState(st) && w.n > 0 && |s| >= w.n && FromBits(s[..w.n]) == c && Act(bits, block, st, c) == Action.Next(st', piece, free, clear)
    ensures GoodState(st') && Settle(Advance(w), bits, free, clear).n > 0
    ensures Decode(bits, block, w, st, s, out)
      == Decode(bits, block, Settle(Advance(w), bits, free, clear), st', Drop(s[w.n..], Unused(Advance(w), free, clear)), out + piece)
  {
    hide Act;
  }

  /** Code k is read as its string. */
  lemma {:induction false} CodeRead(bits: nat, block: bool, st: State, k: nat, z: Stretch, s: seq<bool>, out: seq<byte>) returns (st': State)
    requires 9 <= bits <= 16 && k < |z.ps| && Phrases(bits, block, z.cs, z.ps) && Knows(bits, block, st, z.ps, k) && CodeAt(bits, block, s, k, z.cs[k])
    ensures GoodState(st) && GoodState(st') && Knows(bits, block, st', z.ps, k + 1)
    ensures Decode(bits, block, At(bits, block, k), st, Drop(s, Place(bits, block, k)), out)
      == Decode(bits, block, At(bits, block, k + 1), st', Drop(s, Place(bits, block, k + 1)), out + z.ps[k])
  {
    hide Act, Knows, Settle, Unused, Advance, Stands, Free, Drop, FromBits, Decode, Place, WidthOf, Within, Off, Largest, GoodState;
    var p, n, free := Place(bits, block, k), WidthOf(bits, block, k), Free(bits, block, k);
    var w := At(bits, block, k);
    st' := OneKnown(bits, block, st, z.cs[k], z.ps, k);
    CodeAfter(bits, block, k);
    DropTwice(s, p, n, Unused(Advance(w), free, false));
    DecodeStep(bits, block, w, st, Drop(s, p), out, z.cs[k], st', z.ps[k], free, false);
  }

  /** The codes of a stretch from k on are read as their strings. */
  lemma {:induction false} StretchRead(bits: nat, block: bool, st: State, k: nat, z: Stretch, s: seq<bool>, out: seq<byte>) returns (st': State)
    requires 9 <= bits <= 16 && k <= |z.ps| && Phrases(bits, block, z.cs, z.ps) && Knows(bits, block, st, z.ps, k) && AllAt(bits, block, s, z.cs)
    ensures GoodState(st) && GoodState(st') && Knows(bits, block, st', z.ps, |z.ps|)
    ensures Decode(bits, block, At(bits, block, k), st, Drop(s, Place(bits, block, k)), out)
      == Decode(bits, block, At(bits, block, |z.cs|), st', Drop(s, Place(bits, block, |z.cs|)), out + Together(z.ps[k..]))
    decreases |z.ps| - k
  {
    hide Knows, Stands, Drop, Decode, Place, At, CodeAt, GoodState;
    if k < |z.ps| {
      var mid := CodeRead(bits, block, st, k, z, s, out);
      st' := StretchRead(bits, block, mid, k + 1, z, s, out + z.ps[k]);
      assert z.ps[k..][0] == z.ps[k] && z.ps[k..][1..] == z.ps[k + 1..];
      assert out + z.ps[k] + Together(z.ps[k + 1..]) == out + Together(z.ps[k..]);
    } else {
      st' := st;
      KnowsGood(bits, block, st, z.ps, k);
      assert z.ps[k..] == [] && out + [] == out;
    }
  }

  /** Where there is no code any more, reading ends. */
  lemma {:induction false} EndRead(bits: nat, block: bool, st: State, k: nat, s: seq<bool>, out: seq<byte>)
    requires 9 <= bits <= 16 && GoodState(st) && NoneAt(bits, block, s, k)
    ensures Decode(bits, block, At(bits, block, k), st, Drop(s, Place(bits, block, k)), out) == Done(out)
  {
    hide Place, WidthOf, Within, Largest, Act, Settle, Unused, Advance;
    GroupBegins(Within(bits, block, k), WidthOf(bits, block, k));
  }

  lemma {:induction false} GroupBegins(j: nat, n: nat)
    requires n > 0
    ensures Off(j, n) == 0 ==> j % 8 == 0
  {
    if j % 8 > 0 {
      MulMono(1, j % 8, n);
    }
  }

  lemma {:induction false} ClearAct(bits: nat, st: State, ps: seq<seq<byte>>, next: seq<seq<byte>>) returns (st': State)
    requires ps != [] && Knows(bits, true, st, ps, |ps|)
    ensures GoodState(st) && Act(bits, true, st, CLEAR) == Action.Next(st', [], 256, true) && GoodState(st') && Knows(bits, true, st', next, 0)
  {
    hide AllEntries, Str, Free, Pow2;
    st' := Going([], st.prev, st.head, true);
  }

  /** A CLEAR is read, and what is left of its group. */
  lemma {:induction false} ClearStep(bits: nat, st: State, k: nat, ps: seq<seq<byte>>, next: seq<seq<byte>>, s: seq<bool>, out: seq<byte>) returns (st': State)
    requires 9 <= bits <= 16 && ps != [] && k == |ps| && Knows(bits, true, st, ps, k) && CodeAt(bits, true, s, k, CLEAR)
    ensures GoodState(st) && GoodState(st') && Knows(bits, true, st', next, 0)
    ensures Decode(bits, true, At(bits, true, k), st, Drop(s, Place(bits, true, k)), out)
      == Decode(bits, true, StartWidth(), st', Drop(s, GroupEnd(bits, true, k)), out)
  {
    hide Act, Knows, Settle, Unused, Advance, Drop, FromBits, Decode, Place, WidthOf, Within, Off, Largest, GoodState, StartWidth, GroupEnd;
    var w := At(bits, true, k);
    st' := ClearAct(bits, st, ps, next);
    Cleared(bits, true, k, 256);
    DropTwice(s, Place(bits, true, k), WidthOf(bits, true, k), Unused(Advance(w), 256, true));
    DecodeStep(bits, true, w, st, Drop(s, Place(bits, true, k)), out, CLEAR, st', [], 256, true);
    assert out + [] == out;
  }

  /** All stretches are read as their strings. */
  lemma {:induction false} LaidRead(bits: nat, block: bool, st: State, zs: seq<Stretch>, s: seq<bool>, out: seq<byte>)
    requires 9 <= bits <= 16 && Laid(bits, block, zs, s) && Knows(bits, block, st, zs[0].ps, 0)
    ensures GoodState(st) && Decode(bits, block, StartWidth(), st, s, out) == Done(out + AllTogether(zs))
    decreases |zs|
  {
    hide Knows, Phrases, Drop, Decode, Place, At, CodeAt, NoneAt, AllAt, GoodState, StartWidth, GroupEnd, Together;
    var z := zs[0];
    SameCount(bits, block, z);
    AtStart(bits, block);
    DropNone(s);
    var end := StretchRead(bits, block, st, 0, z, s, out);
    assert z.ps[0..] == z.ps;
    if |zs| == 1 {
      EndRead(bits, block, end, |z.cs|, s, out + Together(z.ps));
      assert zs[1..] == [] && Together(z.ps) + [] == Together(z.ps);
    } else {
      var mid := ClearStep(bits, end, |z.cs|, z.ps, zs[1].ps, s, out + Together(z.ps));
      assert zs[1..][0] == zs[1];
      LaidRead(bits, block, mid, zs[1..], Drop(s, GroupEnd(bits, block, |z.cs|)), out + Together(z.ps));
      assert out + Together(z.ps) + AllTogether(zs[1..]) == out + AllTogether(zs);
    }
  }

  lemma {:induction false} SameCount(bits: nat, block: bool, z: Stretch)
    requires Phrases(bits, block, z.cs, z.ps)
    ensures |z.cs| == |z.ps|
  {
  }

  lemma {:induction false} DropNone(s: seq<bool>)
    ensures Drop(s, 0) == s
  {
  }

  /** A file of codes, in stretches with CLEARs between them in block mode, or in one without, is
      decompressed to the strings that they stand for. */
  lemma {:induction false} FileRead(file: seq<byte>, bits: nat, block: bool, zs: seq<Stretch>)
    requires file != [] && 9 <= bits <= 16 && file[0] == bits + (if block then 0x80 else 0) && Laid(bits, block, zs, Unpack(file[1..]))
    ensures Uncompressed(file) == Done(AllTogether(zs))
  {
    hide Decode, Laid, AllTogether, Unpack, Pow2;
    LaidSome(bits, block, zs, Unpack(file[1..]));
    LaidRead(bits, block, Start, zs, Unpack(file[1..]), []);
    assert [] + AllTogether(zs) == AllTogether(zs);
  }

  lemma {:induction false} LaidSome(bits: nat, block: bool, zs: seq<Stretch>, s: seq<bool>)
    requires Laid(bits, block, zs, s)
    ensures zs != []
  {
  }
}
